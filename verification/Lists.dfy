/** Sequences filtered and joined, the way `Array.prototype` does it. */
module Lists {

  function Keep<T>(p: T -> bool, items: seq<T>): seq<T> {
    if items == [] then []
    else if p(items[0]) then [items[0]] + Keep(p, items[1..])
    else Keep(p, items[1..])
  }

  method Filter<T>(p: T -> bool, items: seq<T>) returns (kept: seq<T>)
    ensures kept == Keep(p, items)
  {
    kept := [];
    for i := 0 to |items|
      invariant Keep(p, items) == kept + Keep(p, items[i..])
    {
      assert items[i..][1..] == items[i + 1..];
      if p(items[i]) {
        kept := kept + [items[i]];
      }
    }
  }

  lemma {:induction false} KeepMembers<T>(p: T -> bool, items: seq<T>, x: T)
    ensures x in Keep(p, items) <==> x in items && p(x)
  {
    if items != [] {
      KeepMembers(p, items[1..], x);
    }
  }

  lemma {:induction false} KeepAppend<T>(p: T -> bool, items: seq<T>, last: T)
    ensures Keep(p, items + [last]) == Keep(p, items) + (if p(last) then [last] else [])
  {
    if items == [] {
      assert items + [last] == [last] && [last][1..] == [];
    } else {
      assert (items + [last])[1..] == items[1..] + [last];
      KeepAppend(p, items[1..], last);
    }
  }

  ghost predicate Distinct<T>(items: seq<T>) {
    forall i, j :: 0 <= i < j < |items| ==> items[i] != items[j]
  }

  lemma {:induction false} KeepStaysDistinct<T>(p: T -> bool, items: seq<T>)
    requires Distinct(items)
    ensures Distinct(Keep(p, items))
  {
    if items != [] {
      var rest := Keep(p, items[1..]);
      KeepStaysDistinct(p, items[1..]);
      forall i | 0 <= i < |rest| ensures rest[i] != items[0] {
        KeepMembers(p, items[1..], rest[i]);
        var k :| 0 <= k < |items[1..]| && items[1..][k] == rest[i];
        assert items[k + 1] == rest[i];
      }
    }
  }

  function Flatten<T>(chunks: seq<seq<T>>): seq<T> {
    if chunks == [] then [] else chunks[0] + Flatten(chunks[1..])
  }

  lemma {:induction false} FlattenAppend<T>(chunks: seq<seq<T>>, last: seq<T>)
    ensures Flatten(chunks + [last]) == Flatten(chunks) + last
  {
    if chunks == [] {
      assert chunks + [last] == [last] && [last][1..] == [];
    } else {
      assert (chunks + [last])[1..] == chunks[1..] + [last];
      FlattenAppend(chunks[1..], last);
    }
  }
}
