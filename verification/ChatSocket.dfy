/** The chat connection: the incremental frame reader of the `data` handler, and the
    per-client message limiter. */
module ChatSocket {
  import opened Streaming
  import opened WsFrame

  const CLOSE: byte := 8

  // ---------------------------------------------------------------- reading frames

  /** The frames one `data` event acts on: the handler returns at a close frame. */
  function UpToClose(frames: seq<Frame>): seq<Frame> {
    if frames == [] then []
    else if frames[0].opcode == CLOSE then [frames[0]]
    else [frames[0]] + UpToClose(frames[1..])
  }

  /** The handler's loop over the frames of one event. */
  method Handle(frames: seq<Frame>) returns (handled: seq<Frame>)
    ensures handled == UpToClose(frames)
  {
    hide UpToClose;
    handled := [];
    assert frames[0..] == frames;
    for i := 0 to |frames|
      invariant UpToClose(frames) == handled + UpToClose(frames[i..])
    {
      UpToCloseFrom(frames, i);
      handled := handled + [frames[i]];
      if frames[i].opcode == CLOSE {
        return;
      }
    }
    UpToCloseFrom(frames, |frames|);
  }

  lemma {:induction false} UpToCloseFrom(frames: seq<Frame>, i: nat)
    requires i <= |frames|
    ensures UpToClose(frames[i..])
         == if i == |frames| then []
            else if frames[i].opcode == CLOSE then [frames[i]]
            else [frames[i]] + UpToClose(frames[i + 1..])
  {
    assert i < |frames| ==> frames[i..][1..] == frames[i + 1..];
  }

  class ChatReader {
    var buffer: seq<byte>

    constructor (head: seq<byte>)
      ensures buffer == head
    {
      buffer := head;
    }

    method OnData(chunk: seq<byte>) returns (handled: seq<Frame>)
      modifies this
      ensures Sized(ParseFrame)
      ensures buffer == Decode(ParseFrame, old(buffer) + chunk).remaining
      ensures handled == UpToClose(Decode(ParseFrame, old(buffer) + chunk).tokens)
    {
      var frames, remaining := DecodeWsFrames(buffer + chunk);
      buffer := remaining;
      handled := Handle(frames);
    }
  }

  /** Everything a reader acts on while the chunks arrive one by one. */
  ghost function Handled(carried: seq<byte>, chunks: seq<seq<byte>>): seq<Frame>
    requires Sized(ParseFrame)
    decreases |chunks|
  {
    if chunks == [] then [] else
    var now := Decode(ParseFrame, carried + chunks[0]);
    UpToClose(now.tokens) + Handled(now.remaining, chunks[1..])
  }

  /** What an event acts on: a front part of its frames, close frame included, that ends at the
      first close frame or is everything. */
  lemma {:induction false} ActsUpToFirstClose(frames: seq<Frame>)
    ensures var acted := UpToClose(frames);
            && acted <= frames && (frames != [] ==> acted != [])
            && (forall i :: 0 <= i < |acted| - 1 ==> acted[i].opcode != 8)
            && (|acted| < |frames| ==> acted[|acted| - 1].opcode == 8)
  {
    if frames != [] && frames[0].opcode != CLOSE {
      ActsUpToFirstClose(frames[1..]);
      var rest := UpToClose(frames[1..]);
      assert UpToClose(frames) == [frames[0]] + rest;
    }
  }

  ghost predicate CloseComesLast(frames: seq<Frame>) {
    forall i :: 0 <= i < |frames| - 1 ==> frames[i].opcode != CLOSE
  }

  lemma {:induction false} NothingSkipped(frames: seq<Frame>)
    requires CloseComesLast(frames)
    ensures UpToClose(frames) == frames
  {
    if frames != [] {
      if |frames| > 1 {
        assert frames[0].opcode != CLOSE;
      } else {
        assert frames[1..] == [];
      }
      forall i | 0 <= i < |frames[1..]| - 1 ensures frames[1..][i].opcode != CLOSE {
        assert frames[1..][i] == frames[i + 1];
      }
      NothingSkipped(frames[1..]);
    }
  }

  lemma {:induction false} StopsAtClose(frames: seq<Frame>, i: nat)
    requires i < |frames| && frames[i].opcode == CLOSE
    ensures UpToClose(frames[..i + 1]) == UpToClose(frames)
  {
    if frames[0].opcode != CLOSE {
      assert frames[..i + 1][1..] == frames[1..][..i];
      StopsAtClose(frames[1..], i - 1);
    }
  }

  lemma {:induction false} HandledIsEverything(carried: seq<byte>, chunks: seq<seq<byte>>)
    requires Sized(ParseFrame) && chunks != []
    requires CloseComesLast(Decode(ParseFrame, carried + Concat(chunks)).tokens)
    ensures Handled(carried, chunks) == Decode(ParseFrame, carried + Concat(chunks)).tokens
    decreases |chunks|
  {
    FramesAreStable();
    var head, tail := carried + chunks[0], Concat(chunks[1..]);
    assert carried + Concat(chunks) == head + tail;
    DecodeInTwo(ParseFrame, head, tail);
    var now := Decode(ParseFrame, head);
    var later := Decode(ParseFrame, now.remaining + tail).tokens;
    var all := now.tokens + later;
    assert forall i :: 0 <= i < |now.tokens| ==> all[i] == now.tokens[i];
    NothingSkipped(now.tokens);
    if chunks[1..] == [] {
      assert head + tail == head;
      assert Handled(now.remaining, chunks[1..]) == [];
      assert all == now.tokens;
    } else {
      forall i | 0 <= i < |later| - 1 ensures later[i].opcode != CLOSE {
        assert later[i] == all[|now.tokens| + i];
      }
      HandledIsEverything(now.remaining, chunks[1..]);
    }
  }

  /** The frames acted on, unlike the frames decoded, can depend on how the network cuts
      the bytes: the handler drops what follows a close frame in the same event but not
      what arrives later. It never depends on the cuts exactly when no frame follows a
      close frame. */
  lemma {:induction false} HandlingIgnoresCutsIffCloseIsLast(bytes: seq<byte>)
    ensures Sized(ParseFrame)
    ensures (forall chunks: seq<seq<byte>> :: chunks != [] && Concat(chunks) == bytes ==>
               Handled([], chunks) == UpToClose(Decode(ParseFrame, bytes).tokens))
       <==> CloseComesLast(Decode(ParseFrame, bytes).tokens)
  {
    FramesAreSized();
    var frames := Decode(ParseFrame, bytes).tokens;
    if CloseComesLast(frames) {
      forall chunks: seq<seq<byte>> | chunks != [] && Concat(chunks) == bytes
        ensures Handled([], chunks) == UpToClose(frames)
      {
        assert [] + Concat(chunks) == bytes;
        HandledIsEverything([], chunks);
        NothingSkipped(frames);
      }
    } else {
      var i :| 0 <= i < |frames| - 1 && frames[i].opcode == CLOSE;
      var chunks := CutAtClose(bytes, i);
    }
  }

  lemma {:induction false} CutAtClose(bytes: seq<byte>, i: nat) returns (chunks: seq<seq<byte>>)
    requires Sized(ParseFrame) && i + 1 < |Decode(ParseFrame, bytes).tokens|
    requires Decode(ParseFrame, bytes).tokens[i].opcode == CLOSE
    ensures chunks != [] && Concat(chunks) == bytes
    ensures Handled([], chunks) != UpToClose(Decode(ParseFrame, bytes).tokens)
  {
    FramesAreStable();
    var frames := Decode(ParseFrame, bytes).tokens;
    var n := CutAfter(ParseFrame, bytes, i + 1);
    chunks := [bytes[..n], bytes[n..]];
    HandledInTwo(bytes, n, chunks);
    StopsAtClose(frames, i);
    assert UpToClose(frames[i + 1..]) != [];
  }

  /** Two chunks whose boundary is a frame boundary are handled one after the other. */
  lemma {:induction false} HandledInTwo(bytes: seq<byte>, n: nat, chunks: seq<seq<byte>>)
    requires n <= |bytes| && Sized(ParseFrame)
    requires chunks == [bytes[..n], bytes[n..]] && Decode(ParseFrame, bytes[..n]).remaining == []
    ensures Concat(chunks) == bytes
    ensures Handled([], chunks) == UpToClose(Decode(ParseFrame, bytes[..n]).tokens)
                                 + UpToClose(Decode(ParseFrame, bytes[n..]).tokens)
  {
    var second := [bytes[n..]];
    assert chunks[1..] == second && second[1..] == [];
    assert Concat(second) == bytes[n..] + Concat(second[1..]) == bytes[n..];
    assert [] + bytes[..n] == bytes[..n];
    OneChunk(bytes[n..]);
  }

  lemma {:induction false} OneChunk(chunk: seq<byte>)
    requires Sized(ParseFrame)
    ensures Handled([], [chunk]) == UpToClose(Decode(ParseFrame, chunk).tokens)
  {
    assert [] + chunk == chunk;
    var now := Decode(ParseFrame, chunk);
    assert Handled(now.remaining, [chunk][1..]) == [];
  }

  // ---------------------------------------------------------------- rate limiting

  const RATE_LIMIT_MAX_MESSAGES := 5
  const RATE_LIMIT_WINDOW_MS := 5000

  function Recent(times: seq<int>, now: int): seq<int> {
    if times == [] then []
    else if now - times[0] < RATE_LIMIT_WINDOW_MS then [times[0]] + Recent(times[1..], now)
    else Recent(times[1..], now)
  }

  class ChatClient {
    var messageTimestamps: seq<int>

    constructor ()
      ensures messageTimestamps == []
    {
      messageTimestamps := [];
    }

    method IsRateLimited(now: int) returns (limited: bool)
      modifies this
      ensures limited == (|Recent(old(messageTimestamps), now)| >= RATE_LIMIT_MAX_MESSAGES)
      ensures messageTimestamps == After(old(messageTimestamps), now)
    {
      var kept := [];
      for i := 0 to |messageTimestamps|
        invariant Recent(messageTimestamps, now) == kept + Recent(messageTimestamps[i..], now)
      {
        assert messageTimestamps[i..][1..] == messageTimestamps[i + 1..];
        if now - messageTimestamps[i] < RATE_LIMIT_WINDOW_MS {
          kept := kept + [messageTimestamps[i]];
        }
      }
      messageTimestamps := kept;
      if |messageTimestamps| >= RATE_LIMIT_MAX_MESSAGES {
        return true;
      }
      messageTimestamps := messageTimestamps + [now];
      limited := false;
    }
  }

  /** The client's list after one call. */
  function After(times: seq<int>, now: int): seq<int> {
    if |Recent(times, now)| >= RATE_LIMIT_MAX_MESSAGES
    then Recent(times, now)
    else Recent(times, now) + [now]
  }

  /** The client's list after calls at the given clock readings. */
  function Kept(clock: seq<int>): seq<int> {
    if clock == [] then [] else After(Kept(clock[..|clock| - 1]), clock[|clock| - 1])
  }

  /** The messages in the half-open window of 5000 ms starting at `from`. */
  function InWindow(times: seq<int>, from: int): seq<int> {
    if times == [] then []
    else if from <= times[0] < from + 5000 then [times[0]] + InWindow(times[1..], from)
    else InWindow(times[1..], from)
  }

  /** The rule the limiter stands for, over the whole history: a message passes unless five
      messages that passed are less than 5000 ms old. Nothing is forgotten. */
  function Passed(clock: seq<int>): seq<int> {
    if clock == [] then [] else
    var before, now := Passed(clock[..|clock| - 1]), clock[|clock| - 1];
    if |InWindow(before, now - 4999)| >= 5 then before else before + [now]
  }

  ghost predicate NonDecreasing(clock: seq<int>) {
    forall i, j :: 0 <= i <= j < |clock| ==> clock[i] <= clock[j]
  }

  lemma {:induction false} RecentAppend(a: seq<int>, b: seq<int>, now: int)
    ensures Recent(a + b, now) == Recent(a, now) + Recent(b, now)
  {
    if a == [] {
      assert a + b == b;
    } else {
      assert (a + b)[1..] == a[1..] + b;
      RecentAppend(a[1..], b, now);
    }
  }

  /** What an earlier call dropped, a later call would drop too. */
  lemma {:induction false} RecentTwice(times: seq<int>, earlier: int, now: int)
    requires earlier <= now
    ensures Recent(Recent(times, earlier), now) == Recent(times, now)
  {
    if times != [] {
      RecentTwice(times[1..], earlier, now);
      var rest := Recent(times[1..], earlier);
      assert ([times[0]] + rest)[1..] == rest;
    }
  }

  /** For times up to now, the code's test is the window of 5000 ms that ends with now. */
  lemma {:induction false} RecentIsWindow(times: seq<int>, now: int)
    requires forall i :: 0 <= i < |times| ==> times[i] <= now
    ensures Recent(times, now) == InWindow(times, now - 4999)
  {
    if times != [] {
      RecentIsWindow(times[1..], now);
    }
  }

  lemma {:induction false} PassedAreEarlier(clock: seq<int>, now: int)
    requires forall i :: 0 <= i < |clock| ==> clock[i] <= now
    ensures forall i :: 0 <= i < |Passed(clock)| ==> Passed(clock)[i] <= now
  {
    if clock != [] {
      PassedAreEarlier(clock[..|clock| - 1], now);
    }
  }

  /** The pruned list is the whole history seen through the window. */
  lemma {:induction false} KeptIsRecent(clock: seq<int>)
    requires clock != [] && NonDecreasing(clock)
    ensures Kept(clock) == Recent(Passed(clock), clock[|clock| - 1])
    ensures forall now :: clock[|clock| - 1] <= now ==> Recent(Kept(clock), now) == Recent(Passed(clock), now)
  {
    var last, now := |clock| - 1, clock[|clock| - 1];
    var before := clock[..last];
    if before != [] {
      KeptIsRecent(before);
    }
    assert Recent(Kept(before), now) == Recent(Passed(before), now);
    PassedAreEarlier(before, now);
    RecentIsWindow(Passed(before), now);
    RecentAppend(Passed(before), [now], now);
    RecentTwice(Passed(before), now, now);
    assert Kept(clock) == Recent(Passed(clock), now);
    forall later | now <= later
      ensures Recent(Kept(clock), later) == Recent(Passed(clock), later)
    {
      RecentTwice(Passed(clock), now, later);
    }
  }

  /** The refusal at each call is the rule's refusal: exactly when five messages that passed
      are less than 5000 ms old. */
  lemma {:induction false} RefusedExactlyWhenFiveRecent(clock: seq<int>, now: int)
    requires NonDecreasing(clock + [now])
    ensures |Recent(Kept(clock), now)| >= RATE_LIMIT_MAX_MESSAGES <==> |InWindow(Passed(clock), now - 4999)| == 5
    ensures |InWindow(Passed(clock), now - 4999)| <= 5
  {
    assert forall i :: 0 <= i < |clock| ==> clock[i] == (clock + [now])[i] <= (clock + [now])[|clock|];
    if clock != [] {
      KeptIsRecent(clock);
      KeptIsShort(clock);
      RecentShrinks(Kept(clock), now);
      PassedAreEarlier(clock, now);
      RecentIsWindow(Passed(clock), now);
    }
  }

  lemma {:induction false} RecentShrinks(times: seq<int>, now: int)
    ensures |Recent(times, now)| <= |times|
  {
    if times != [] {
      RecentShrinks(times[1..], now);
    }
  }

  lemma {:induction false} KeptIsShort(clock: seq<int>)
    ensures |Kept(clock)| <= RATE_LIMIT_MAX_MESSAGES
  {
    if clock != [] {
      KeptIsShort(clock[..|clock| - 1]);
      RecentShrinks(Kept(clock[..|clock| - 1]), clock[|clock| - 1]);
    }
  }

  lemma {:induction false} WindowAppend(a: seq<int>, b: seq<int>, from: int)
    ensures InWindow(a + b, from) == InWindow(a, from) + InWindow(b, from)
  {
    if a == [] {
      assert a + b == b;
    } else {
      assert (a + b)[1..] == a[1..] + b;
      WindowAppend(a[1..], b, from);
    }
  }

  lemma {:induction false} WindowWithinWindow(times: seq<int>, from: int, now: int)
    requires from <= now < from + 5000 && forall i :: 0 <= i < |times| ==> times[i] <= now
    ensures |InWindow(times, from)| <= |InWindow(times, now - 4999)|
  {
    if times != [] {
      WindowWithinWindow(times[1..], from, now);
    }
  }

  /** The messages the limiter lets through when called at the given clock readings. */
  function LetThrough(clock: seq<int>): seq<int> {
    if clock == [] then [] else
    var before, now := clock[..|clock| - 1], clock[|clock| - 1];
    if |Recent(Kept(before), now)| >= RATE_LIMIT_MAX_MESSAGES
    then LetThrough(before)
    else LetThrough(before) + [now]
  }

  /** With a clock that never goes back, the limiter keeps to the rule message by message. */
  lemma {:induction false} LimiterKeepsTheRule(clock: seq<int>)
    requires NonDecreasing(clock)
    ensures LetThrough(clock) == Passed(clock)
  {
    if clock != [] {
      var before, now := clock[..|clock| - 1], clock[|clock| - 1];
      LimiterKeepsTheRule(before);
      assert before + [now] == clock;
      RefusedExactlyWhenFiveRecent(before, now);
    }
  }

  /** No window of 5000 ms ever holds more than five messages that were let through. */
  lemma {:induction false} WindowBound(clock: seq<int>, from: int)
    requires NonDecreasing(clock)
    ensures |InWindow(LetThrough(clock), from)| <= 5
  {
    LimiterKeepsTheRule(clock);
    RuleBoundsWindows(clock, from);
  }

  lemma {:induction false} RuleBoundsWindows(clock: seq<int>, from: int)
    requires NonDecreasing(clock)
    ensures |InWindow(Passed(clock), from)| <= 5
  {
    if clock != [] {
      var before, now := Passed(clock[..|clock| - 1]), clock[|clock| - 1];
      RuleBoundsWindows(clock[..|clock| - 1], from);
      WindowAppend(before, [now], from);
      PassedAreEarlier(clock[..|clock| - 1], now);
      if from <= now < from + 5000 {
        WindowWithinWindow(before, from, now);
      }
    }
  }
}
