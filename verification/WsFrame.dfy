/** The hand-written WebSocket codec of the challenge chat: `encodeWsFrame` and
    `decodeWsFrames`, sections 5.2 and 5.3 of RFC 6455. */
module WsFrame {
  import opened Streaming

  type byte = b: int | 0 <= b < 256

  datatype Frame = Frame(opcode: byte, payload: seq<byte>, isFinal: bool)

  // ---------------------------------------------------------------- bits

  /** `b & 0x80`, set or not. */
  predicate TopBit(b: byte) { b >= 128 }

  /** `b & 0x7f`. */
  function Low7(b: byte): byte { b % 128 }

  /** `b & 0x0f`. */
  function Low4(b: byte): byte { b % 16 }

  /** `0x80 | low` or `low`, for a value below the flag bit. */
  function WithFlag(flag: bool, low: byte): byte
    requires low < 128
  {
    if flag then 128 + low else low
  }

  /** Bitwise exclusive or. */
  function XorBits(a: nat, b: nat): nat
    decreases a + b
  {
    if a + b == 0 then 0 else (a + b) % 2 + 2 * XorBits(a / 2, b / 2)
  }

  lemma {:induction false} XorStaysBelow(a: nat, b: nat, bound: nat)
    requires a < bound && b < bound && bound in {1, 2, 4, 8, 16, 32, 64, 128, 256}
    ensures XorBits(a, b) < bound
  {
    if a + b > 0 {
      XorStaysBelow(a / 2, b / 2, bound / 2);
    }
  }

  lemma {:induction false} XorOfZeros()
    ensures XorBits(0, 0) == 0
  {
  }

  lemma {:induction false} LowBitTwice(a: nat, b: nat, high: nat)
    ensures var r := (a + b) % 2 + 2 * high;
            r / 2 == high && (r + b) % 2 == a % 2
  {
  }

  lemma {:induction false} XorStep(a: nat, b: nat)
    ensures XorBits(a, b) == (a + b) % 2 + 2 * XorBits(a / 2, b / 2)
  {
  }

  lemma {:induction false} XorTwice(a: nat, b: nat)
    ensures XorBits(XorBits(a, b), b) == a
    decreases a + b
  {
    hide XorBits;
    XorStep(a, b);
    XorStep(XorBits(a, b), b);
    if a + b == 0 {
      XorOfZeros();
    } else {
      XorTwice(a / 2, b / 2);
      LowBitTwice(a, b, XorBits(a / 2, b / 2));
    }
  }

  /** `a ^ b`. */
  function Xor(a: byte, b: byte): byte {
    XorStaysBelow(a, b, 256);
    XorBits(a, b)
  }

  /** Bit j of n, counted from the lowest. */
  predicate Bit(n: nat, j: nat)
    decreases j
  {
    if j == 0 then n % 2 == 1 else Bit(n / 2, j - 1)
  }

  /** Exclusive or, bit by bit. */
  lemma {:induction false} XorBit(a: nat, b: nat, j: nat)
    ensures Bit(XorBits(a, b), j) <==> Bit(a, j) != Bit(b, j)
    decreases j
  {
    hide XorBits;
    XorStep(a, b);
    if j > 0 {
      XorBit(a / 2, b / 2, j - 1);
    }
  }

  function Pow2(width: nat): nat {
    if width == 0 then 1 else 2 * Pow2(width - 1)
  }

  lemma {:induction false} SameBits(a: nat, b: nat, width: nat)
    requires a < Pow2(width) && b < Pow2(width)
    requires forall j :: 0 <= j < width ==> (Bit(a, j) <==> Bit(b, j))
    ensures a == b
  {
    if width > 0 {
      assert Bit(a, 0) <==> Bit(b, 0);
      forall j | 0 <= j < width - 1 ensures Bit(a / 2, j) <==> Bit(b / 2, j) {
        assert Bit(a, j + 1) <==> Bit(b, j + 1);
      }
      SameBits(a / 2, b / 2, width - 1);
    }
  }

  /** r is a and b combined: each bit is set when exactly one of the two is. */
  ghost predicate Combines(r: byte, a: byte, b: byte) {
    forall j :: 0 <= j < 8 ==> (Bit(r, j) <==> Bit(a, j) != Bit(b, j))
  }

  lemma {:induction false} XorCombines(a: byte, b: byte)
    ensures Combines(Xor(a, b), a, b)
  {
    forall j | 0 <= j < 8 ensures Bit(Xor(a, b), j) <==> Bit(a, j) != Bit(b, j) {
      XorBit(a, b, j);
    }
  }

  /** The other operand is found by combining again. */
  lemma {:induction false} CombineBack(r: byte, a: byte, b: byte)
    requires Combines(a, r, b)
    ensures Xor(a, b) == r
  {
    XorCombines(a, b);
    assert Pow2(4) == 16;
    forall j | 0 <= j < 8 ensures Bit(Xor(a, b), j) <==> Bit(r, j) {
      assert Bit(a, j) <==> Bit(r, j) != Bit(b, j);
      assert Bit(Xor(a, b), j) <==> Bit(a, j) != Bit(b, j);
    }
    SameBits(Xor(a, b), r, 8);
  }

  // ---------------------------------------------------------------- integers on the wire

  function Pow256(width: nat): nat {
    if width == 0 then 1 else 256 * Pow256(width - 1)
  }

  lemma {:induction false} WidthsFit()
    ensures Pow256(2) == 0x1_0000 && Pow256(8) == 0x1_0000_0000_0000_0000
  {
    assert Pow256(4) == 0x1_0000_0000;
  }

  /** `readUInt16BE` and `readBigUInt64BE`. */
  function ReadBE(bytes: seq<byte>): nat {
    if bytes == [] then 0
    else ReadBE(bytes[..|bytes| - 1]) * 256 + bytes[|bytes| - 1]
  }

  /** `writeUInt16BE` and `writeBigUInt64BE`. */
  function WriteBE(n: nat, width: nat): (bytes: seq<byte>)
    requires n < Pow256(width)
    ensures |bytes| == width
  {
    if width == 0 then [] else WriteBE(n / 256, width - 1) + [n % 256]
  }

  lemma {:induction false} ReadAfterWrite(n: nat, width: nat)
    requires n < Pow256(width)
    ensures ReadBE(WriteBE(n, width)) == n
  {
    if width > 0 {
      assert WriteBE(n, width)[..width - 1] == WriteBE(n / 256, width - 1);
      ReadAfterWrite(n / 256, width - 1);
    }
  }

  // ---------------------------------------------------------------- decoding

  datatype Head = NoHead | Head(size: nat, masked: bool, length: nat)
  {
    function Start(): nat
      requires Head?
    {
      if masked then size + 4 else size
    }
  }

  /** The header of section 5.2, in its three length forms, or not enough bytes for it. */
  function ParseHead(b: seq<byte>): (h: Head)
    ensures h.Head? ==> 2 <= h.size <= |b|
  {
    if |b| < 2 then NoHead
    else if Low7(b[1]) == 126 then
      if |b| < 4 then NoHead else Head(4, TopBit(b[1]), ReadBE(b[2..4]))
    else if Low7(b[1]) == 127 then
      if |b| < 10 then NoHead else Head(10, TopBit(b[1]), ReadBE(b[2..10]))
    else Head(2, TopBit(b[1]), Low7(b[1]))
  }

  /** Section 5.3: octet i is combined with octet i modulo 4 of the key, in either direction. */
  function Masked(data: seq<byte>, key: seq<byte>): (r: seq<byte>)
    requires |key| == 4
    ensures |r| == |data|
  {
    seq(|data|, i requires 0 <= i < |data| => Xor(data[i], key[i % 4]))
  }

  /** Section 5.3, bit by bit: octet i of one side and octet i modulo 4 of the key make octet i
      of the other. */
  ghost predicate Unmasks(payload: seq<byte>, data: seq<byte>, key: seq<byte>) {
    |key| == 4 && |payload| == |data| && forall i :: 0 <= i < |data| ==> Combines(payload[i], data[i], key[i % 4])
  }

  lemma {:induction false} MaskedUnmasks(data: seq<byte>, key: seq<byte>)
    requires |key| == 4
    ensures Unmasks(Masked(data, key), data, key)
  {
    forall i | 0 <= i < |data| ensures Combines(Masked(data, key)[i], data[i], key[i % 4]) {
      XorCombines(data[i], key[i % 4]);
    }
  }

  function Payload(b: seq<byte>, h: Head): seq<byte>
    requires h.Head? && h.Start() + h.length <= |b|
  {
    var raw := b[h.Start()..h.Start() + h.length];
    if h.masked then Masked(raw, b[h.size..h.size + 4]) else raw
  }

  function ParseFrame(b: seq<byte>): Parse<Frame> {
    var h := ParseHead(b);
    if h.NoHead? || |b| < h.Start() + h.length then Incomplete
    else Complete(Frame(Low4(b[0]), Payload(b, h), TopBit(b[0])), h.Start() + h.length)
  }

  /** The inner loop of `decodeWsFrames`. */
  method Unmask(data: seq<byte>, mask: seq<byte>) returns (payload: seq<byte>)
    requires |mask| == 4
    ensures payload == Masked(data, mask) && Unmasks(payload, data, mask)
  {
    var unmasked := new byte[|data|];
    for i := 0 to |data|
      invariant forall k :: 0 <= k < i ==> unmasked[k] == Xor(data[k], mask[k % 4])
    {
      unmasked[i] := Xor(data[i], mask[i % 4]);
    }
    payload := unmasked[..];
    MaskedUnmasks(data, mask);
  }

  /** The header fields read at `offset`; `NoHead` where the source leaves its loop. */
  method ReadHead(buffer: seq<byte>, offset: nat) returns (h: Head)
    requires offset + 2 <= |buffer|
    ensures h == ParseHead(buffer[offset..])
  {
    ghost var here := buffer[offset..];
    var b1 := buffer[offset + 1];
    var isMasked := TopBit(b1);
    var payloadLen: nat := Low7(b1);
    var headerSize := 2;
    if payloadLen == 126 {
      if offset + 4 > |buffer| { return NoHead; }
      assert here[2..4] == buffer[offset + 2..offset + 4];
      payloadLen := ReadBE(buffer[offset + 2..offset + 4]);
      headerSize := 4;
    } else if payloadLen == 127 {
      if offset + 10 > |buffer| { return NoHead; }
      assert here[2..10] == buffer[offset + 2..offset + 10];
      payloadLen := ReadBE(buffer[offset + 2..offset + 10]);
      headerSize := 10;
    }
    h := Head(headerSize, isMasked, payloadLen);
  }

  /** The payload bytes at `offset`, unmasked when the header says so. */
  method ReadPayload(buffer: seq<byte>, offset: nat, h: Head) returns (payload: seq<byte>)
    requires h.Head? && offset + h.Start() + h.length <= |buffer|
    ensures payload == Payload(buffer[offset..], h)
  {
    var start := offset + h.Start();
    payload := buffer[start..start + h.length];
    assert payload == buffer[offset..][h.Start()..h.Start() + h.length];
    if h.masked {
      var mask := buffer[offset + h.size..offset + h.size + 4];
      assert mask == buffer[offset..][h.size..h.size + 4];
      payload := Unmask(payload, mask);
    }
  }

  /** `parse` is the frame parser under a name the prover does not unfold. */
  ghost predicate ReadsFrames(parse: Parser<byte, Frame>) {
    forall b :: ReadsFrameAt(parse, b)
  }

  ghost predicate ReadsFrameAt(parse: Parser<byte, Frame>, b: seq<byte>) {
    parse(b) == ParseFrame(b)
  }

  /** One round of the decoding loop; `Incomplete` where the source leaves its loop. */
  method ReadFrame(buffer: seq<byte>, offset: nat, ghost parse: Parser<byte, Frame>) returns (p: Parse<Frame>)
    requires ReadsFrames(parse) && offset <= |buffer|
    ensures p == parse(buffer[offset..])
  {
    assert ReadsFrameAt(parse, buffer[offset..]);
    if offset + 2 > |buffer| { return Incomplete; }
    var h := ReadHead(buffer, offset);
    if h.NoHead? { return Incomplete; }
    var totalSize := h.Start() + h.length;
    if offset + totalSize > |buffer| { return Incomplete; }
    var payload := ReadPayload(buffer, offset, h);
    p := Complete(Frame(Low4(buffer[offset]), payload, TopBit(buffer[offset])), totalSize);
  }

  method DecodeLoop(buffer: seq<byte>, ghost parse: Parser<byte, Frame>)
    returns (frames: seq<Frame>, remaining: seq<byte>)
    requires ReadsFrames(parse) && Sized(parse)
    ensures Decoded(frames, remaining) == Decode(parse, buffer)
  {
    frames := [];
    var offset := 0;
    assert buffer[0..] == buffer;
    while true
      invariant 0 <= offset <= |buffer|
      invariant DecodesTo(parse, buffer, frames, buffer[offset..])
      decreases |buffer| - offset
    {
      var p := ReadFrame(buffer, offset, parse);
      if p.Incomplete? {
        remaining := buffer[offset..];
        DecodeStops(parse, buffer, frames, remaining);
        return;
      }
      DecodeSteps(parse, buffer, frames, offset);
      frames := frames + [p.token];
      offset := offset + p.size;
    }
  }

  method DecodeWsFrames(buffer: seq<byte>) returns (frames: seq<Frame>, remaining: seq<byte>)
    ensures Sized(ParseFrame) && Decoded(frames, remaining) == Decode(ParseFrame, buffer)
  {
    FramesAreSized();
    assert ReadsFrames(ParseFrame);
    frames, remaining := DecodeLoop(buffer, ParseFrame);
  }

  // ---------------------------------------------------------------- streaming

  lemma {:induction false} HeadIsStable(a: seq<byte>, b: seq<byte>)
    requires ParseHead(a).Head?
    ensures ParseHead(a + b) == ParseHead(a)
  {
    if Low7(a[1]) == 126 {
      assert (a + b)[2..4] == a[2..4];
    } else if Low7(a[1]) == 127 {
      assert (a + b)[2..10] == a[2..10];
    }
  }

  lemma {:induction false} PayloadAgrees(a: seq<byte>, b: seq<byte>, h: Head)
    requires h.Head? && h.Start() + h.length <= |a| && a <= b
    ensures Payload(a, h) == Payload(b, h)
  {
    var start := h.Start();
    assert a[start..start + h.length] == b[start..start + h.length];
    assert h.masked ==> a[h.size..h.size + 4] == b[h.size..h.size + 4];
  }

  lemma {:induction false} FrameIsStable(a: seq<byte>, b: seq<byte>)
    ensures StableAt(ParseFrame, a, b)
  {
    if ParseFrame(a).Complete? {
      HeadIsStable(a, b);
      PayloadAgrees(a, a + b, ParseHead(a));
    }
  }

  lemma {:induction false} FrameIsLocal(b: seq<byte>)
    ensures LocalAt(ParseFrame, b)
  {
    if ParseFrame(b).Complete? {
      var h := ParseHead(b);
      var a := b[..h.Start() + h.length];
      if Low7(b[1]) == 126 {
        assert a[2..4] == b[2..4];
      } else if Low7(b[1]) == 127 {
        assert a[2..10] == b[2..10];
      }
      assert ParseHead(a) == h;
      PayloadAgrees(a, b, h);
    }
  }

  lemma {:induction false} FramesAreSized()
    ensures Sized(ParseFrame)
  {
    forall b ensures SizedAt(ParseFrame, b) {}
  }

  lemma {:induction false} FramesAreStable()
    ensures Sized(ParseFrame) && Stable(ParseFrame) && Local(ParseFrame)
  {
    FramesAreSized();
    forall a, b ensures StableAt(ParseFrame, a, b) { FrameIsStable(a, b); }
    forall b ensures LocalAt(ParseFrame, b) { FrameIsLocal(b); }
  }

  /** Streaming invariance: for every way of cutting the bytes, the same frames and the
      same final remainder as decoding them in one go. */
  lemma {:induction false} StreamingInvariance(carried: seq<byte>, chunks: seq<seq<byte>>)
    requires chunks != []
    ensures Sized(ParseFrame)
    ensures Feed(ParseFrame, carried, chunks) == Decode(ParseFrame, carried + Concat(chunks))
  {
    FramesAreStable();
    FeedIsDecode(ParseFrame, carried, chunks);
  }

  // ---------------------------------------------------------------- encoding

  /** Section 5.2: the length octet and its extension. */
  function LengthField(length: nat, masked: bool): (h: seq<byte>)
    requires length < Pow256(8)
    ensures |h| >= 1
  {
    WidthsFit();
    if length <= 125 then [WithFlag(masked, length)]
    else if length <= 65535 then [WithFlag(masked, 126)] + WriteBE(length, 2)
    else [WithFlag(masked, 127)] + WriteBE(length, 8)
  }

  /** A server frame: final, unmasked. */
  function Encode(payload: seq<byte>, opcode: byte): seq<byte>
    requires |payload| < Pow256(8)
  {
    [WithFlag(true, Low4(opcode))] + LengthField(|payload|, false) + payload
  }

  /** A zeroed header buffer filled cell by cell, as the extended forms do. */
  method WriteHeader(b0: byte, b1: byte, extension: seq<byte>) returns (header: seq<byte>)
    ensures header == [b0, b1] + extension
  {
    var buf := new byte[2 + |extension|](_ => 0);
    buf[0] := b0;
    buf[1] := b1;
    for i := 0 to |extension|
      invariant buf[0] == b0 && buf[1] == b1
      invariant forall k :: 0 <= k < i ==> buf[2 + k] == extension[k]
    {
      buf[2 + i] := extension[i];
    }
    header := buf[..];
  }

  method EncodeWsFrame(payload: seq<byte>, opcode: byte) returns (frame: seq<byte>)
    requires |payload| < Pow256(8)
    ensures frame == Encode(payload, opcode) && IsServerFrame(frame, payload, opcode)
  {
    WidthsFit();
    EncodeIsServerFrame(payload, opcode);
    var length := |payload|;
    var b0 := WithFlag(true, Low4(opcode));
    var header: seq<byte>;
    if length <= 125 {
      header := [b0, length];
    } else if length <= 65535 {
      header := WriteHeader(b0, 126, WriteBE(length, 2));
    } else {
      header := WriteHeader(b0, 127, WriteBE(length, 8));
    }
    frame := header + payload;
  }

  // ---------------------------------------------------------------- the standard's wire format

  /** Eight octets, most significant first. */
  function BigEndian8(b: seq<byte>): nat
    requires |b| == 8
  {
    ((((((b[0] as nat * 256 + b[1]) * 256 + b[2]) * 256 + b[3]) * 256 + b[4]) * 256 + b[5]) * 256 + b[6]) * 256 + b[7]
  }

  /** Section 5.2: FIN is the top bit of the first octet and the opcode its low four; MASK is
      the top bit of the second, whose other seven hold the length, or 126 with two more
      octets, or 127 with eight more. */
  ghost predicate SaysHead(head: seq<byte>, isFinal: bool, opcode: byte, masked: bool, length: nat) {
    && |head| >= 2
    && (head[0] >= 128 <==> isFinal) && head[0] % 16 == opcode
    && var flag := if masked then 128 else 0;
       || (|head| == 2 && length <= 125 && head[1] == flag + length)
       || (|head| == 4 && head[1] == flag + 126 && length == head[2] as nat * 256 + head[3])
       || (|head| == 10 && head[1] == flag + 127 && length == BigEndian8(head[2..]))
  }

  /** One frame on the wire: its head, four octets of key or none, its data, and what it means. */
  datatype Wire = Wire(head: seq<byte>, key: seq<byte>, data: seq<byte>, frame: Frame)
  {
    ghost predicate Legal() {
      && SaysHead(head, frame.isFinal, frame.opcode, key != [], |data|)
      && if key == [] then data == frame.payload else Unmasks(frame.payload, data, key)
    }

    function Bytes(): seq<byte> { head + key + data }
  }

  lemma {:induction false} ReadBEStep(bytes: seq<byte>, last: byte)
    ensures ReadBE(bytes + [last]) == ReadBE(bytes) * 256 + last
  {
    assert (bytes + [last])[..|bytes|] == bytes;
  }

  lemma {:induction false} ReadTwo(b: seq<byte>)
    requires |b| == 2
    ensures ReadBE(b) == b[0] as nat * 256 + b[1]
  {
    ReadBEStep([], b[0]);
    ReadBEStep([b[0]], b[1]);
    assert [] + [b[0]] == [b[0]] && [b[0]] + [b[1]] == b;
  }

  lemma {:induction false} ReadOneMore(b: seq<byte>, n: nat)
    requires n < |b|
    ensures ReadBE(b[..n + 1]) == ReadBE(b[..n]) * 256 + b[n]
  {
    ReadBEStep(b[..n], b[n]);
    assert b[..n + 1] == b[..n] + [b[n]];
  }

  lemma {:induction false} ReadEight(b: seq<byte>)
    requires |b| == 8
    ensures ReadBE(b) == BigEndian8(b)
  {
    hide ReadBE;
    ReadTwo(b[..2]);
    ReadOneMore(b, 2);
    ReadOneMore(b, 3);
    ReadOneMore(b, 4);
    ReadOneMore(b, 5);
    ReadOneMore(b, 6);
    ReadOneMore(b, 7);
    assert b[..8] == b;
  }

  /** A server frame of section 5.2: final, unmasked, no reserved bit, the shortest head. */
  ghost predicate IsServerFrame(bytes: seq<byte>, payload: seq<byte>, opcode: byte) {
    |bytes| >= |payload| + 2 &&
    var head := bytes[..|bytes| - |payload|];
    && bytes == head + payload && SaysHead(head, true, opcode % 16, false, |payload|)
    && head[0] == 128 + opcode % 16
    && |head| == if |payload| <= 125 then 2 else if |payload| <= 65535 then 4 else 10
  }

  lemma {:induction false} EncodeIsServerFrame(payload: seq<byte>, opcode: byte)
    requires |payload| < Pow256(8)
    ensures IsServerFrame(Encode(payload, opcode), payload, opcode)
  {
    WidthsFit();
    var length, bytes := |payload|, Encode(payload, opcode);
    var head := [WithFlag(true, Low4(opcode))] + LengthField(length, false);
    assert bytes[..|bytes| - length] == head;
    if 125 < length <= 65535 {
      ReadAfterWrite(length, 2);
      ReadTwo(WriteBE(length, 2));
      assert head[2..] == WriteBE(length, 2);
    } else if length > 65535 {
      ReadAfterWrite(length, 8);
      ReadEight(WriteBE(length, 8));
      assert head[2..] == WriteBE(length, 8);
    }
  }

  // ---------------------------------------------------------------- round trip

  /** The head is read back whatever form its length takes. */
  lemma {:induction false} HeadRoundTrip(head: seq<byte>, isFinal: bool, opcode: byte, masked: bool, length: nat, rest: seq<byte>)
    requires SaysHead(head, isFinal, opcode, masked, length)
    ensures ParseHead(head + rest) == Head(|head|, masked, length)
    ensures Low4((head + rest)[0]) == opcode && TopBit((head + rest)[0]) == isFinal
  {
    var b := head + rest;
    if |head| == 4 {
      ReadTwo(b[2..4]);
    } else if |head| == 10 {
      ReadEight(b[2..10]);
      assert b[2..10] == head[2..];
    }
  }

  /** Masking is its own inverse. */
  lemma {:induction false} MaskTwice(data: seq<byte>, key: seq<byte>)
    requires |key| == 4
    ensures Masked(Masked(data, key), key) == data
  {
    forall i | 0 <= i < |data| ensures Masked(Masked(data, key), key)[i] == data[i] {
      XorTwice(data[i], key[i % 4]);
    }
  }

  /** Whatever a client sent by the standard is what the decoder's exclusive or gives back. */
  lemma {:induction false} MaskedIsUnmasked(payload: seq<byte>, data: seq<byte>, key: seq<byte>)
    requires Unmasks(payload, data, key)
    ensures Masked(data, key) == payload
  {
    forall i | 0 <= i < |data| ensures Masked(data, key)[i] == payload[i] {
      var a, b, r := data[i], key[i % 4], payload[i];
      assert Combines(r, a, b);
      forall j | 0 <= j < 8 ensures Bit(a, j) <==> Bit(r, j) != Bit(b, j) {
        assert Bit(r, j) <==> Bit(a, j) != Bit(b, j);
      }
      CombineBack(r, a, b);
    }
  }

  /** A client can send any payload under any key. */
  lemma {:induction false} AnythingCanBeMasked(payload: seq<byte>, key: seq<byte>) returns (data: seq<byte>)
    requires |key| == 4
    ensures Unmasks(payload, data, key)
  {
    data := Masked(payload, key);
    MaskTwice(payload, key);
    MaskedUnmasks(data, key);
  }

  /** Where the parts of a frame lie. */
  lemma {:induction false} LaidOut(b: seq<byte>, head: seq<byte>, key: seq<byte>, data: seq<byte>, rest: seq<byte>)
    requires b == head + key + data + rest
    ensures b == head + (key + data + rest)
    ensures b[|head|..|head| + |key|] == key
    ensures b[|head| + |key|..|head| + |key| + |data|] == data
  {
  }

  /** One frame at the front of a buffer is read back exactly, whatever follows it. */
  lemma {:induction false} FrameRoundTrip(w: Wire, rest: seq<byte>)
    requires w.Legal()
    ensures ParseFrame(w.Bytes() + rest) == Complete(w.frame, |w.Bytes()|)
  {
    hide ParseHead, Masked, SaysHead;
    var b, f := w.Bytes() + rest, w.frame;
    LaidOut(b, w.head, w.key, w.data, rest);
    HeadRoundTrip(w.head, f.isFinal, f.opcode, w.key != [], |w.data|, w.key + w.data + rest);
    if w.key != [] {
      MaskedIsUnmasked(f.payload, w.data, w.key);
    }
  }

  ghost function Spellings(ws: seq<Wire>): seq<seq<byte>> {
    seq(|ws|, i requires 0 <= i < |ws| => ws[i].Bytes())
  }

  ghost function Meanings(ws: seq<Wire>): seq<Frame> {
    seq(|ws|, i requires 0 <= i < |ws| => ws[i].frame)
  }

  /** Any mix of server and client frames, back to back, is decoded to exactly those
      frames; an unfinished tail (the empty one among them) is left untouched. */
  lemma {:induction false} RoundTrip(ws: seq<Wire>, tail: seq<byte>)
    requires forall w :: w in ws ==> w.Legal()
    requires ParseFrame(tail).Incomplete?
    ensures Sized(ParseFrame)
    ensures Decode(ParseFrame, Concat(Spellings(ws)) + tail) == Decoded(Meanings(ws), tail)
  {
    FramesAreSized();
    forall i | 0 <= i < |ws| ensures Spells(ParseFrame, Spellings(ws)[i], Meanings(ws)[i]) {
      WireSpells(ws[i]);
    }
    ReadBack(ParseFrame, Spellings(ws), Meanings(ws), tail);
  }

  lemma {:induction false} WireSpells(w: Wire)
    requires w.Legal()
    ensures Spells(ParseFrame, w.Bytes(), w.frame)
  {
    forall rest ensures SpellsBefore(ParseFrame, w.Bytes(), w.frame, rest) {
      FrameRoundTrip(w, rest);
    }
  }

  /** What the encoder sends is such a frame, so every reader of the standard understands it. */
  lemma {:induction false} EncodedIsLegal(payload: seq<byte>, opcode: byte) returns (w: Wire)
    requires |payload| < Pow256(8)
    ensures w.Legal() && w.Bytes() == Encode(payload, opcode)
    ensures w.frame == Frame(opcode % 16, payload, true)
  {
    hide Encode;
    EncodeIsServerFrame(payload, opcode);
    var bytes := Encode(payload, opcode);
    w := Wire(bytes[..|bytes| - |payload|], [], payload, Frame(opcode % 16, payload, true));
  }

  /** A proper prefix of a frame is never a frame: the reader waits for the rest. */
  lemma {:induction false} PrefixIsIncomplete(w: Wire, n: nat)
    requires w.Legal() && n < |w.Bytes()|
    ensures ParseFrame(w.Bytes()[..n]).Incomplete?
  {
    hide ParseFrame;
    var b := w.Bytes();
    FrameRoundTrip(w, []);
    FramesAreSized();
    assert b + [] == b;
    FrameIsStable(b[..n], b[n..]);
    assert b[..n] + b[n..] == b;
    assert SizedAt(ParseFrame, b[..n]);
  }
}
