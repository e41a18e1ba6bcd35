/** Incremental reading, for any parser that looks only at the front of its buffer.
    The parser is a value here, so nothing below depends on a wire format. */
module Streaming {

  /** What the head of a buffer holds: too few items, or a token and the items it takes. */
  datatype Parse<T> = Incomplete | Complete(token: T, size: nat)

  datatype Decoded<E, T> = Decoded(tokens: seq<T>, remaining: seq<E>)

  type Parser<!E, T> = seq<E> -> Parse<T>

  ghost predicate SizedAt<E, T>(parse: Parser<E, T>, b: seq<E>) {
    parse(b).Complete? ==> 1 <= parse(b).size <= |b|
  }

  /** More input never changes a token that was already complete. */
  ghost predicate StableAt<E, T>(parse: Parser<E, T>, a: seq<E>, b: seq<E>) {
    parse(a).Complete? ==> parse(a + b) == parse(a)
  }

  /** A complete token needs only its own items. */
  ghost predicate LocalAt<E, T>(parse: Parser<E, T>, b: seq<E>) {
    parse(b).Complete? && parse(b).size <= |b| ==> parse(b[..parse(b).size]) == parse(b)
  }

  ghost predicate Sized<E(!new), T>(parse: Parser<E, T>) {
    forall b :: SizedAt(parse, b)
  }

  ghost predicate Stable<E(!new), T>(parse: Parser<E, T>) {
    forall a, b :: StableAt(parse, a, b)
  }

  ghost predicate Local<E(!new), T>(parse: Parser<E, T>) {
    forall b :: LocalAt(parse, b)
  }

  /** All complete tokens at the front of `b`, and what follows them. */
  ghost function Decode<E(!new), T>(parse: Parser<E, T>, b: seq<E>): Decoded<E, T>
    requires Sized(parse)
    decreases |b|
  {
    assert SizedAt(parse, b);
    match parse(b)
    case Incomplete => Decoded([], b)
    case Complete(token, size) =>
      var rest := Decode(parse, b[size..]);
      Decoded([token] + rest.tokens, rest.remaining)
  }

  /** After `seen`, decoding `whole` goes on as decoding `here`. */
  ghost predicate DecodesTo<E(!new), T>(parse: Parser<E, T>, whole: seq<E>, seen: seq<T>, here: seq<E>) {
    && Sized(parse)
    && var later := Decode(parse, here);
       Decode(parse, whole) == Decoded(seen + later.tokens, later.remaining)
  }

  /** One round of a decoding loop: the token in front joins the tokens seen. */
  lemma {:induction false} DecodeSteps<E(!new), T>(parse: Parser<E, T>, whole: seq<E>, seen: seq<T>, at: nat)
    requires at <= |whole| && DecodesTo(parse, whole, seen, whole[at..]) && parse(whole[at..]).Complete?
    ensures var p := parse(whole[at..]);
            && 1 <= p.size && at + p.size <= |whole|
            && DecodesTo(parse, whole, seen + [p.token], whole[at + p.size..])
  {
    var here := whole[at..];
    assert SizedAt(parse, here);
    var token, size := parse(here).token, parse(here).size;
    assert here[size..] == whole[at + size..];
    var rest := Decode(parse, here[size..]);
    assert seen + ([token] + rest.tokens) == seen + [token] + rest.tokens;
  }

  lemma {:induction false} DecodeStops<E(!new), T>(parse: Parser<E, T>, whole: seq<E>, seen: seq<T>, here: seq<E>)
    requires DecodesTo(parse, whole, seen, here) && parse(here).Incomplete?
    ensures Decode(parse, whole) == Decoded(seen, here)
  {
  }

  /** Decoding a prefix and carrying its remainder is the same as decoding everything. */
  lemma {:induction false} DecodeInTwo<E(!new), T>(parse: Parser<E, T>, a: seq<E>, b: seq<E>)
    requires Sized(parse) && Stable(parse)
    ensures var first := Decode(parse, a);
            var second := Decode(parse, first.remaining + b);
            Decode(parse, a + b) == Decoded(first.tokens + second.tokens, second.remaining)
    decreases |a|
  {
    if parse(a).Complete? {
      var size := parse(a).size;
      assert SizedAt(parse, a) && StableAt(parse, a, b);
      assert (a + b)[size..] == a[size..] + b;
      DecodeInTwo(parse, a[size..], b);
      var rest := Decode(parse, a[size..]);
      var second := Decode(parse, rest.remaining + b);
      assert [parse(a).token] + (rest.tokens + second.tokens)
          == [parse(a).token] + rest.tokens + second.tokens;
    } else {
      var second := Decode(parse, a + b);
      assert [] + second.tokens == second.tokens;
    }
  }

  function Concat<E>(chunks: seq<seq<E>>): seq<E> {
    if chunks == [] then [] else chunks[0] + Concat(chunks[1..])
  }

  /** A reader's life: each arriving chunk is appended to what was carried and decoded. */
  ghost function Feed<E(!new), T>(parse: Parser<E, T>, carried: seq<E>, chunks: seq<seq<E>>): Decoded<E, T>
    requires Sized(parse)
    decreases |chunks|
  {
    if chunks == [] then Decoded([], carried) else
    var now := Decode(parse, carried + chunks[0]);
    var later := Feed(parse, now.remaining, chunks[1..]);
    Decoded(now.tokens + later.tokens, later.remaining)
  }

  /** However the input is cut, the same tokens and the same remainder come out. At least
      one chunk must arrive: what is carried at the start is not decoded on its own. */
  lemma {:induction false} FeedIsDecode<E(!new), T>(parse: Parser<E, T>, carried: seq<E>, chunks: seq<seq<E>>)
    requires Sized(parse) && Stable(parse) && chunks != []
    ensures Feed(parse, carried, chunks) == Decode(parse, carried + Concat(chunks))
    decreases |chunks|
  {
    var head, tail := carried + chunks[0], Concat(chunks[1..]);
    assert carried + Concat(chunks) == head + tail;
    DecodeInTwo(parse, head, tail);
    var left := Decode(parse, head).remaining;
    if chunks[1..] == [] {
      assert head + tail == head;
      assert Feed(parse, left, chunks[1..]) == Decoded([], left);
    } else {
      FeedIsDecode(parse, left, chunks[1..]);
    }
  }

  /** The input can be cut exactly after its k-th token. */
  lemma {:induction false} CutAfter<E(!new), T>(parse: Parser<E, T>, b: seq<E>, k: nat) returns (n: nat)
    requires Sized(parse) && Stable(parse) && Local(parse) && k <= |Decode(parse, b).tokens|
    ensures n <= |b|
    ensures Decode(parse, b[..n]) == Decoded(Decode(parse, b).tokens[..k], [])
    ensures Decode(parse, b[n..]) == Decoded(Decode(parse, b).tokens[k..], Decode(parse, b).remaining)
    decreases k
  {
    if k == 0 {
      n := 0;
      assert b[n..] == b && b[..n] == [] && SizedAt(parse, b[..n]);
    } else {
      assert SizedAt(parse, b);
      var size := parse(b).size;
      var m := CutAfter(parse, b[size..], k - 1);
      n := size + m;
      FrontToken(parse, b, n);
      assert b[n..] == b[size..][m..];
      var token, rest := parse(b).token, Decode(parse, b[size..]).tokens;
      assert ([token] + rest)[..k] == [token] + rest[..k - 1];
      assert ([token] + rest)[k..] == rest[k - 1..];
    }
  }

  /** The token in front is read from any prefix that holds it. */
  lemma {:induction false} FrontToken<E(!new), T>(parse: Parser<E, T>, b: seq<E>, n: nat)
    requires Sized(parse) && Stable(parse) && Local(parse)
    requires parse(b).Complete? && parse(b).size <= n <= |b|
    ensures parse(b[..n]) == parse(b)
    ensures b[..n][parse(b).size..] == b[parse(b).size..][..n - parse(b).size]
  {
    var size := parse(b).size;
    assert LocalAt(parse, b) && StableAt(parse, b[..size], b[size..n]);
    assert b[..n] == b[..size] + b[size..n];
  }

  /** `x` spells `token`, whatever follows it. */
  ghost predicate Spells<E(!new), T>(parse: Parser<E, T>, x: seq<E>, token: T) {
    forall rest :: SpellsBefore(parse, x, token, rest)
  }

  ghost predicate SpellsBefore<E, T>(parse: Parser<E, T>, x: seq<E>, token: T, rest: seq<E>) {
    parse(x + rest) == Complete(token, |x|)
  }

  /** Spellings written back to back are read back; an unfinished tail is left untouched. */
  lemma {:induction false} ReadBack<E(!new), T>(
    parse: Parser<E, T>, xs: seq<seq<E>>, tokens: seq<T>, tail: seq<E>)
    requires Sized(parse) && |xs| == |tokens| && parse(tail).Incomplete?
    requires forall i :: 0 <= i < |xs| ==> Spells(parse, xs[i], tokens[i])
    ensures Decode(parse, Concat(xs) + tail) == Decoded(tokens, tail)
    decreases |xs|
  {
    if xs == [] {
      assert Concat(xs) + tail == tail;
    } else {
      var later := Concat(xs[1..]) + tail;
      assert Concat(xs) + tail == xs[0] + later;
      assert SpellsBefore(parse, xs[0], tokens[0], later);
      assert (xs[0] + later)[|xs[0]|..] == later;
      ReadBack(parse, xs[1..], tokens[1..], tail);
    }
  }
}
