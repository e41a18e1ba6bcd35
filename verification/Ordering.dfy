/** Sorting by a strict order, and why the result does not depend on the input's order. */
module Ordering {

  type Less<!T> = (T, T) -> bool

  ghost predicate Strict<T(!new)>(less: Less<T>) {
    && (forall x :: !less(x, x))
    && (forall x, y, z :: less(x, y) && less(y, z) ==> less(x, z))
  }

  /** Any two entries are ordered one way or the other, so none repeats. */
  ghost predicate Separates<T>(less: Less<T>, xs: seq<T>) {
    forall i, j :: 0 <= i < j < |xs| ==> less(xs[i], xs[j]) || less(xs[j], xs[i])
  }

  ghost predicate Ascending<T>(less: Less<T>, xs: seq<T>) {
    forall i, j :: 0 <= i < j < |xs| ==> less(xs[i], xs[j])
  }

  function Insert<T>(less: Less<T>, x: T, ys: seq<T>): seq<T> {
    if ys == [] then [x]
    else if less(x, ys[0]) then [x] + ys
    else [ys[0]] + Insert(less, x, ys[1..])
  }

  function Sort<T>(less: Less<T>, xs: seq<T>): seq<T> {
    if xs == [] then [] else Insert(less, xs[0], Sort(less, xs[1..]))
  }

  lemma {:induction false} InsertKeepsElements<T>(less: Less<T>, x: T, ys: seq<T>)
    ensures multiset(Insert(less, x, ys)) == multiset{x} + multiset(ys)
  {
    if ys != [] {
      assert ys == [ys[0]] + ys[1..];
      if !less(x, ys[0]) {
        InsertKeepsElements(less, x, ys[1..]);
      }
    }
  }

  lemma {:induction false} SortKeepsElements<T>(less: Less<T>, xs: seq<T>)
    ensures multiset(Sort(less, xs)) == multiset(xs)
    ensures |Sort(less, xs)| == |xs|
    ensures forall x :: x in Sort(less, xs) <==> x in xs
  {
    if xs != [] {
      SortKeepsElements(less, xs[1..]);
      InsertKeepsElements(less, xs[0], Sort(less, xs[1..]));
      assert xs == [xs[0]] + xs[1..];
    }
    SameElements(Sort(less, xs), xs);
  }

  lemma {:induction false} SameElements<T>(a: seq<T>, b: seq<T>)
    requires multiset(a) == multiset(b)
    ensures |a| == |b| && forall x :: x in a <==> x in b
  {
    assert |multiset(a)| == |a| && |multiset(b)| == |b|;
    forall x ensures x in a <==> x in b {
      assert x in a <==> x in multiset(a);
      assert x in b <==> x in multiset(b);
    }
  }

  lemma {:induction false} InsertAscends<T(!new)>(less: Less<T>, x: T, ys: seq<T>)
    requires Strict(less) && Ascending(less, ys)
    requires forall y :: y in ys ==> less(x, y) || less(y, x)
    ensures Ascending(less, Insert(less, x, ys))
  {
    if ys != [] && !less(x, ys[0]) {
      var rest := Insert(less, x, ys[1..]);
      InsertAscends(less, x, ys[1..]);
      InsertKeepsElements(less, x, ys[1..]);
      forall i | 0 <= i < |rest| ensures less(ys[0], rest[i]) {
        assert rest[i] in multiset(rest);
        if rest[i] != x {
          assert rest[i] in ys[1..];
        }
      }
    }
  }

  lemma {:induction false} SortAscends<T(!new)>(less: Less<T>, xs: seq<T>)
    requires Strict(less) && Separates(less, xs)
    ensures Ascending(less, Sort(less, xs))
  {
    if xs != [] {
      var rest := xs[1..];
      forall i, j | 0 <= i < j < |rest| ensures less(rest[i], rest[j]) || less(rest[j], rest[i]) {
        assert rest[i] == xs[i + 1] && rest[j] == xs[j + 1];
      }
      SortAscends(less, rest);
      SortKeepsElements(less, rest);
      forall y | y in Sort(less, rest) ensures less(xs[0], y) || less(y, xs[0]) {
        var k :| 0 <= k < |rest| && rest[k] == y;
        assert y == xs[k + 1];
      }
      InsertAscends(less, xs[0], Sort(less, rest));
    }
  }

  /** Two ascending sequences with the same elements are equal. */
  lemma {:induction false} AscendingIsUnique<T(!new)>(less: Less<T>, a: seq<T>, b: seq<T>)
    requires Strict(less) && Ascending(less, a) && Ascending(less, b)
    requires forall x :: x in a <==> x in b
    ensures a == b
  {
    assert forall i :: 0 <= i < |b| ==> b[i] in a;
    assert forall i :: 0 <= i < |a| ==> a[i] in b;
    if a == [] {
      assert |b| == 0;
    } else {
      assert a[0] in b;
      assert b[0] in a;
      HeadsAgree(less, a, b);
      SameTails(less, a, b);
      AscendingIsUnique(less, a[1..], b[1..]);
      assert a == [a[0]] + a[1..] && b == [b[0]] + b[1..];
    }
  }

  lemma {:induction false} SameTails<T(!new)>(less: Less<T>, a: seq<T>, b: seq<T>)
    requires Strict(less) && Ascending(less, a) && Ascending(less, b) && a != [] && b != []
    requires a[0] == b[0] && forall x :: x in a <==> x in b
    ensures forall x :: x in a[1..] <==> x in b[1..]
  {
    forall x ensures x in a[1..] <==> x in b[1..] {
      TailMembers(less, a, x);
      TailMembers(less, b, x);
    }
  }

  lemma {:induction false} HeadsAgree<T(!new)>(less: Less<T>, a: seq<T>, b: seq<T>)
    requires Strict(less) && Ascending(less, a) && Ascending(less, b) && a != [] && b != []
    requires a[0] in b && b[0] in a
    ensures a[0] == b[0]
  {
    var i :| 0 <= i < |a| && a[i] == b[0];
    var j :| 0 <= j < |b| && b[j] == a[0];
    var x, y := a[0], b[0];
    assert i == 0 || less(x, y);
    assert j == 0 || less(y, x);
    assert !less(x, x);
  }

  lemma {:induction false} TailMembers<T(!new)>(less: Less<T>, a: seq<T>, x: T)
    requires Strict(less) && Ascending(less, a) && a != []
    ensures x in a[1..] <==> x in a && x != a[0]
  {
    if x in a[1..] {
      var i :| 0 <= i < |a[1..]| && a[1..][i] == x;
      assert a[i + 1] == x && less(a[0], a[i + 1]);
    }
    if x in a && x != a[0] {
      var i :| 0 <= i < |a| && a[i] == x;
      assert a[1..][i - 1] == x;
    }
  }

  /** In an ascending sequence, whatever comes after an entry by the order comes after it by
      position, and the other way round. */
  lemma {:induction false} LaterMembers<T(!new)>(less: Less<T>, xs: seq<T>, m: nat, r: T)
    requires Strict(less) && Ascending(less, xs) && m < |xs|
    ensures r in xs[m + 1..] <==> r in xs && less(xs[m], r)
  {
    var pivot := xs[m];
    if r in xs[m + 1..] {
      var i :| 0 <= i < |xs[m + 1..]| && xs[m + 1..][i] == r;
      assert xs[m + 1 + i] == r;
    }
    if r in xs && less(pivot, r) {
      var i :| 0 <= i < |xs| && xs[i] == r;
      assert i < m ==> less(r, pivot);
      assert !less(r, r);
      assert xs[m + 1..][i - m - 1] == r;
    }
  }
}
