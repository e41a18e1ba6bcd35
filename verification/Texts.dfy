/** String operations of the JavaScript library that the models need. */
module Texts {

  /** Position of the first `c`, or the length. */
  function IndexOf(s: string, c: char): (i: nat)
    ensures i <= |s| && c !in s[..i] && (i < |s| ==> s[i] == c)
    ensures i == |s| <==> c !in s
  {
    if s == "" || s[0] == c then 0
    else
      var i := 1 + IndexOf(s[1..], c);
      assert s[..i] == [s[0]] + s[1..][..i - 1];
      i
  }

  lemma {:induction false} IndexAfter(head: string, c: char, tail: string)
    requires c !in head
    ensures IndexOf(head + [c] + tail, c) == |head|
  {
    var s := head + [c] + tail;
    if head != "" {
      assert s[1..] == head[1..] + [c] + tail;
      IndexAfter(head[1..], c, tail);
    }
  }

  /** `s.split(sep, 1)[0]`. */
  function Before(s: string, sep: char): string {
    s[..IndexOf(s, sep)]
  }

  /** `s.split(sep)`. */
  function Split(s: string, sep: char): (parts: seq<string>)
    ensures parts != []
    decreases |s|
  {
    var i := IndexOf(s, sep);
    if i == |s| then [s] else [s[..i]] + Split(s[i + 1..], sep)
  }

  /** `parts.join(sep)`. */
  function Join(parts: seq<string>, sep: char): string {
    if parts == [] then ""
    else if |parts| == 1 then parts[0]
    else parts[0] + [sep] + Join(parts[1..], sep)
  }

  ghost predicate Free(parts: seq<string>, c: char) {
    forall i :: 0 <= i < |parts| ==> c !in parts[i]
  }

  lemma {:induction false} SplitOfJoin(parts: seq<string>, sep: char)
    requires parts != [] && Free(parts, sep)
    ensures Split(Join(parts, sep), sep) == parts
  {
    var s := Join(parts, sep);
    assert sep !in parts[0];
    if |parts| == 1 {
      assert IndexOf(s, sep) == |s|;
    } else {
      var rest := Join(parts[1..], sep);
      IndexAfter(parts[0], sep, rest);
      assert s[..|parts[0]|] == parts[0] && s[|parts[0]| + 1..] == rest;
      SplitOfJoin(parts[1..], sep);
      assert parts == [parts[0]] + parts[1..];
    }
  }

  ghost predicate AllChars(p: char -> bool, s: string) {
    forall i :: 0 <= i < |s| ==> p(s[i])
  }

  /** Every character of a split text is the separator or like those of the parts. */
  lemma {:induction false} SplitCovers(s: string, sep: char, p: char -> bool)
    requires forall i :: 0 <= i < |Split(s, sep)| ==> AllChars(p, Split(s, sep)[i])
    ensures AllChars(c => c == sep || p(c), s)
    decreases |s|
  {
    var i, parts := IndexOf(s, sep), Split(s, sep);
    assert AllChars(p, parts[0]);
    if i < |s| {
      var rest := Split(s[i + 1..], sep);
      forall k | 0 <= k < |rest| ensures AllChars(p, rest[k]) {
        assert parts[k + 1] == rest[k];
      }
      SplitCovers(s[i + 1..], sep, p);
      forall k | 0 <= k < |s| ensures s[k] == sep || p(s[k]) {
        if k < i {
          assert s[k] == parts[0][k];
        } else if k > i {
          assert s[k] == s[i + 1..][k - i - 1];
        }
      }
    }
  }

  lemma {:induction false} JoinFree(parts: seq<string>, sep: char, c: char)
    requires Free(parts, c) && c != sep
    ensures c !in Join(parts, sep)
  {
    if |parts| == 1 {
      assert c !in parts[0];
    } else if |parts| > 1 {
      assert c !in parts[0];
      JoinFree(parts[1..], sep, c);
    }
  }

  lemma {:induction false} JoinChars(parts: seq<string>, sep: char, p: char -> bool)
    requires p(sep) && forall i :: 0 <= i < |parts| ==> AllChars(p, parts[i])
    ensures AllChars(p, Join(parts, sep))
  {
    if parts != [] {
      assert AllChars(p, parts[0]);
      JoinChars(parts[1..], sep, p);
    }
  }

  lemma {:induction false} JoinOfMore(head: string, rest: seq<string>, sep: char)
    requires rest != []
    ensures Join([head] + rest, sep) == head + [sep] + Join(rest, sep)
  {
    assert ([head] + rest)[1..] == rest;
  }

  lemma {:induction false} JoinOfSplit(s: string, sep: char)
    ensures Join(Split(s, sep), sep) == s
    decreases |s|
  {
    hide Join;
    var i := IndexOf(s, sep);
    if i < |s| {
      JoinOfSplit(s[i + 1..], sep);
      JoinOfMore(s[..i], Split(s[i + 1..], sep), sep);
      assert s == s[..i] + [sep] + s[i + 1..];
    } else {
      JoinOfOne(s, sep);
    }
  }

  lemma {:induction false} JoinOfOne(s: string, sep: char)
    ensures Join([s], sep) == s
  {
  }

  // ---------------------------------------------------------------- case and white space

  function LowerChar(c: char): char {
    if 'A' <= c <= 'Z' then (c as int + 32) as char else c
  }

  /** `toLowerCase` on ASCII. */
  function Lower(s: string): (r: string)
    ensures |r| == |s|
  {
    seq(|s|, i requires 0 <= i < |s| => LowerChar(s[i]))
  }

  lemma {:induction false} LowerAlphabet()
    ensures Lower("ABCDEFGHIJKLMNOPQRSTUVWXYZ") == "abcdefghijklmnopqrstuvwxyz"
  {
  }

  lemma {:induction false} LowerAppend(a: string, b: string)
    ensures Lower(a + b) == Lower(a) + Lower(b)
  {
  }

  function LowerAll(parts: seq<string>): (r: seq<string>)
    ensures |r| == |parts|
  {
    seq(|parts|, i requires 0 <= i < |parts| => Lower(parts[i]))
  }

  lemma {:induction false} LowerOfJoin(parts: seq<string>)
    ensures Lower(Join(parts, ':')) == Join(LowerAll(parts), ':')
  {
    hide Lower;
    if parts != [] {
      LowerOfJoin(parts[1..]);
      assert LowerAll(parts)[1..] == LowerAll(parts[1..]);
      LowerAppend(parts[0] + [':'], Join(parts[1..], ':'));
      LowerAppend(parts[0], [':']);
    }
    LowerOfEmpty();
  }

  lemma {:induction false} LowerOfEmpty()
    ensures Lower("") == "" && Lower([':']) == [':']
  {
  }

  /** The white space and line ends that `trim` removes. */
  predicate IsSpace(c: char) {
    || 9 <= c as int <= 13 || c as int == 32 || c as int == 0xa0 || c as int == 0x1680
    || 0x2000 <= c as int <= 0x200a || c as int == 0x2028 || c as int == 0x2029
    || c as int == 0x202f || c as int == 0x205f || c as int == 0x3000 || c as int == 0xfeff
  }

  function TrimStart(s: string): string {
    if s != "" && IsSpace(s[0]) then TrimStart(s[1..]) else s
  }

  function TrimEnd(s: string): string {
    if s != "" && IsSpace(s[|s| - 1]) then TrimEnd(s[..|s| - 1]) else s
  }

  function Trim(s: string): string {
    TrimEnd(TrimStart(s))
  }

  lemma {:induction false} TrimStartAround(pre: string, s: string)
    requires AllChars(IsSpace, pre) && (s != "" ==> !IsSpace(s[0]))
    ensures TrimStart(pre + s) == s
  {
    if pre == "" {
      assert pre + s == s;
    } else {
      assert (pre + s)[0] == pre[0] && (pre + s)[1..] == pre[1..] + s;
      TrimStartAround(pre[1..], s);
    }
  }

  lemma {:induction false} TrimEndAround(s: string, post: string)
    requires AllChars(IsSpace, post) && (s != "" ==> !IsSpace(s[|s| - 1]))
    ensures TrimEnd(s + post) == s
  {
    if post == "" {
      assert s + post == s;
    } else {
      var n := |s + post| - 1;
      assert (s + post)[n] == post[|post| - 1] && (s + post)[..n] == s + post[..|post| - 1];
      TrimEndAround(s, post[..|post| - 1]);
    }
  }

  lemma {:induction false} TrimAround(pre: string, s: string, post: string)
    requires AllChars(IsSpace, pre) && AllChars(IsSpace, post)
    requires s != "" && !IsSpace(s[0]) && !IsSpace(s[|s| - 1])
    ensures Trim(pre + s + post) == s
  {
    assert pre + s + post == pre + (s + post) && (s + post)[0] == s[0];
    TrimStartAround(pre, s + post);
    TrimEndAround(s, post);
  }

  lemma {:induction false} TrimStartIsPart(s: string)
    ensures TrimStart(s) != "" ==> !IsSpace(TrimStart(s)[0])
    ensures forall c :: c in TrimStart(s) ==> c in s
  {
    if s != "" && IsSpace(s[0]) {
      TrimStartIsPart(s[1..]);
    }
  }

  lemma {:induction false} TrimEndIsPart(s: string)
    ensures TrimEnd(s) != "" ==> !IsSpace(TrimEnd(s)[|TrimEnd(s)| - 1]) && TrimEnd(s)[0] == s[0]
    ensures forall c :: c in TrimEnd(s) ==> c in s
    ensures TrimEnd(s) != "" ==> s != ""
  {
    if s != "" && IsSpace(s[|s| - 1]) {
      TrimEndIsPart(s[..|s| - 1]);
    }
  }

  lemma {:induction false} TrimIsSettled(s: string)
    ensures Trim(Trim(s)) == Trim(s)
    ensures forall c :: c in Trim(s) ==> c in s
  {
    TrimStartIsPart(s);
    TrimEndIsPart(TrimStart(s));
    var t := Trim(s);
    if t != "" {
      assert "" + t + "" == t;
      TrimAround("", t, "");
    }
  }

  // ---------------------------------------------------------------- splitting on a double colon

  /** No two colons stand side by side. */
  ghost predicate NoGap(s: string) {
    forall i :: 0 <= i < |s| - 1 ==> s[i] == ':' ==> s[i + 1] != ':'
  }

  /** Position of the first `::`, or the length. */
  function GapAt(s: string): (i: nat)
    ensures i <= |s| && (i < |s| ==> i + 2 <= |s|)
  {
    if |s| < 2 then |s|
    else if s[0] == ':' && s[1] == ':' then 0
    else 1 + GapAt(s[1..])
  }

  /** `s.split("::")`. */
  function SplitGap(s: string): (halves: seq<string>)
    ensures halves != []
    decreases |s|
  {
    var i := GapAt(s);
    if i == |s| then [s] else [s[..i]] + SplitGap(s[i + 2..])
  }

  lemma {:induction false} NoGapNoSplit(s: string)
    requires NoGap(s)
    ensures GapAt(s) == |s| && SplitGap(s) == [s]
  {
    if |s| >= 2 {
      assert s[0] == ':' ==> s[0 + 1] != ':';
      forall i | 0 <= i < |s[1..]| - 1 && s[1..][i] == ':' ensures s[1..][i + 1] != ':' {
        assert s[i + 1] == ':' ==> s[i + 1 + 1] != ':';
      }
      NoGapNoSplit(s[1..]);
    }
  }

  lemma {:induction false} GapAfter(a: string, b: string)
    requires NoGap(a) && (a != "" ==> a[|a| - 1] != ':')
    ensures GapAt(a + "::" + b) == |a|
  {
    var s := a + "::" + b;
    if a != "" {
      assert |a| >= 2 ==> (a[0] == ':' ==> a[0 + 1] != ':');
      forall i | 0 <= i < |a[1..]| - 1 && a[1..][i] == ':' ensures a[1..][i + 1] != ':' {
        assert a[i + 1] == ':' ==> a[i + 1 + 1] != ':';
      }
      assert s[1..] == a[1..] + "::" + b;
      GapAfter(a[1..], b);
    }
  }

  /** Two gap-free halves are taken apart at the gap between them. */
  lemma {:induction false} SplitGapInTwo(a: string, b: string)
    requires NoGap(a) && NoGap(b) && (a != "" ==> a[|a| - 1] != ':')
    ensures SplitGap(a + "::" + b) == [a, b]
  {
    var s := a + "::" + b;
    GapAfter(a, b);
    assert s[..|a|] == a && s[|a| + 2..] == b;
    NoGapNoSplit(b);
  }

  /** Non-empty parts without colons, joined by colons, leave no gap and no colon at the end. */
  lemma {:induction false} JoinHasNoGap(parts: seq<string>)
    requires Free(parts, ':') && forall i :: 0 <= i < |parts| ==> parts[i] != ""
    ensures NoGap(Join(parts, ':'))
    ensures parts != [] ==> Join(parts, ':') != "" && Join(parts, ':')[0] != ':'
    ensures parts != [] ==> Join(parts, ':')[|Join(parts, ':')| - 1] != ':'
  {
    if |parts| == 1 {
      assert ':' !in parts[0];
    } else if |parts| > 1 {
      var head, rest := parts[0], Join(parts[1..], ':');
      assert ':' !in head && head != "";
      JoinHasNoGap(parts[1..]);
      var s := Join(parts, ':');
      assert s == head + [':'] + rest;
      assert forall i :: 0 <= i < |head| ==> head[i] != ':';
      forall i | 0 <= i < |s| - 1 && s[i] == ':' ensures s[i + 1] != ':' {
        if i > |head| {
          assert s[i] == rest[i - |head| - 1] && s[i + 1] == rest[i - |head| - 1 + 1];
        }
      }
      assert s[0] == head[0];
      assert s[|s| - 1] == rest[|rest| - 1];
    }
  }
}
