/** Keyset pagination of challenge comments: newest first, one page at a time, each page
    starting strictly after the last row of the one before. */
module KeysetPaging {
  import opened Lists
  import opened Options
  import opened Ordering

  datatype Key = Key(createdAt: int, id: int)

  datatype Row = Row(key: Key, body: string)

  /** The row comparison `(created_at, id) < (createdAt, id)`. */
  predicate KeyLess(a: Key, b: Key) {
    if a.createdAt != b.createdAt then a.createdAt < b.createdAt else a.id < b.id
  }

  datatype Direction = Ascend | Descend

  /** `x < y` or `x > y`, as the direction says. */
  predicate Past(direction: Direction, x: int, y: int) {
    if direction.Descend? then x < y else x > y
  }

  /** The same test written out, as `buildCursorWhereSimple` does. */
  predicate CursorClause(direction: Direction, createdAt: int, id: int, cursor: Key) {
    Past(direction, createdAt, cursor.createdAt) || (createdAt == cursor.createdAt && Past(direction, id, cursor.id))
  }

  /** The clause picks the rows that a listing in its direction shows after the cursor. */
  lemma {:induction false} ClauseIsRowComparison(direction: Direction, k: Key, cursor: Key)
    ensures CursorClause(direction, k.createdAt, k.id, cursor)
       <==> if direction.Descend? then KeyLess(k, cursor) else KeyLess(cursor, k)
  {
  }

  /** `ORDER BY created_at DESC, id DESC`. */
  predicate Newer(a: Row, b: Row) {
    KeyLess(b.key, a.key)
  }

  predicate IsAfter(cursor: Option<Key>, r: Row) {
    cursor.None? || KeyLess(r.key, cursor.value)
  }

  /** Every row the listing still has to show, in order. */
  function Ahead(table: seq<Row>, cursor: Option<Key>): seq<Row> {
    Sort(Newer, Keep(r => IsAfter(cursor, r), table))
  }

  datatype Page = Page(data: seq<Row>, nextCursor: Option<Key>)

  function Take<T>(items: seq<T>, n: nat): seq<T> {
    if |items| <= n then items else items[..n]
  }

  /** `listChallengeComments`: one row more than asked for tells whether there is a next page. */
  function ListComments(table: seq<Row>, limit: nat, cursor: Option<Key>): Page
    requires limit >= 1
  {
    var rows := Take(Ahead(table, cursor), limit + 1);
    var data := Take(rows, limit);
    Page(data, if |rows| > limit then Some(data[|data| - 1].key) else None)
  }

  // ---------------------------------------------------------------- one page

  /** Row ids are unique. */
  ghost predicate DistinctKeys(table: seq<Row>) {
    forall i, j :: 0 <= i < j < |table| ==> table[i].key.id != table[j].key.id
  }

  lemma {:induction false} NewerIsStrict()
    ensures Strict(Newer)
  {
  }

  lemma {:induction false} KeepSeparates(p: Row -> bool, table: seq<Row>)
    requires DistinctKeys(table)
    ensures Separates(Newer, Keep(p, table))
  {
    if table != [] {
      var rest := Keep(p, table[1..]);
      KeepSeparates(p, table[1..]);
      forall j | 0 <= j < |rest| ensures Newer(table[0], rest[j]) || Newer(rest[j], table[0]) {
        KeepMembers(p, table[1..], rest[j]);
        var k :| 0 <= k < |table[1..]| && table[1..][k] == rest[j];
        assert table[k + 1] == rest[j];
      }
    }
  }

  lemma {:induction false} AheadFacts(table: seq<Row>, cursor: Option<Key>)
    requires DistinctKeys(table)
    ensures Strict(Newer) && Ascending(Newer, Ahead(table, cursor))
    ensures forall r :: r in Ahead(table, cursor) <==> r in table && IsAfter(cursor, r)
  {
    var p := (r: Row) => IsAfter(cursor, r);
    NewerIsStrict();
    KeepSeparates(p, table);
    SortAscends(Newer, Keep(p, table));
    SortKeepsElements(Newer, Keep(p, table));
    forall r ensures r in Keep(p, table) <==> r in table && IsAfter(cursor, r) {
      KeepMembers(p, table, r);
    }
  }

  /** A page is the front of what lies ahead; a row that is ahead is on the page or after its
      cursor. */
  lemma {:induction false} PageFacts(table: seq<Row>, limit: nat, cursor: Option<Key>)
    requires DistinctKeys(table) && limit >= 1
    ensures var page := ListComments(table, limit, cursor);
            && Ascending(Newer, page.data)
            && (forall r :: r in page.data ==> r in table && IsAfter(cursor, r))
            && (page.nextCursor.None? ==> page.data == Ahead(table, cursor))
            && (page.nextCursor.Some? ==>
                  && |page.data| == limit < |Ahead(table, cursor)|
                  && page.data == Ahead(table, cursor)[..limit]
                  && page.nextCursor.value == page.data[limit - 1].key)
  {
    AheadFacts(table, cursor);
    var ahead, page := Ahead(table, cursor), ListComments(table, limit, cursor);
    assert |ahead| > limit ==> Take(ahead, limit + 1)[..limit] == ahead[..limit];
  }

  lemma {:induction false} OnPageOrAfter(table: seq<Row>, limit: nat, cursor: Option<Key>, r: Row)
    requires DistinctKeys(table) && limit >= 1 && r in table && IsAfter(cursor, r)
    ensures var page := ListComments(table, limit, cursor);
            r in page.data || (page.nextCursor.Some? && IsAfter(page.nextCursor, r))
  {
    AheadFacts(table, cursor);
    PageFacts(table, limit, cursor);
    var ahead, page := Ahead(table, cursor), ListComments(table, limit, cursor);
    var i :| 0 <= i < |ahead| && ahead[i] == r;
    if page.nextCursor.Some? && i >= limit {
      assert Newer(ahead[limit - 1], ahead[i]);
    }
  }

  // ---------------------------------------------------------------- a table that changes

  /** Every row shown while following the cursors; `tables[i]` is what the table holds when
      page i is asked for. */
  ghost function Shown(tables: seq<seq<Row>>, limit: nat, cursor: Option<Key>): seq<Row>
    requires limit >= 1
    decreases |tables|
  {
    if tables == [] then [] else
    var page := ListComments(tables[0], limit, cursor);
    page.data + (if page.nextCursor.None? then [] else Shown(tables[1..], limit, page.nextCursor))
  }

  /** The reader got to a page without a next cursor. */
  ghost predicate ReadToTheEnd(tables: seq<seq<Row>>, limit: nat, cursor: Option<Key>)
    requires limit >= 1
    decreases |tables|
  {
    && tables != []
    && var page := ListComments(tables[0], limit, cursor);
       page.nextCursor.None? || ReadToTheEnd(tables[1..], limit, page.nextCursor)
  }

  ghost predicate AllDistinct(tables: seq<seq<Row>>) {
    forall i :: 0 <= i < |tables| ==> DistinctKeys(tables[i])
  }

  lemma {:induction false} AllDistinctTail(tables: seq<seq<Row>>)
    requires tables != [] && AllDistinct(tables)
    ensures AllDistinct(tables[1..])
  {
    forall i | 0 <= i < |tables[1..]| ensures DistinctKeys(tables[1..][i]) {
      assert tables[1..][i] == tables[i + 1];
    }
  }

  /** Rows come newest first across all pages, so none is shown twice, whatever is inserted or
      deleted in between. */
  lemma {:induction false} ShownInOrder(tables: seq<seq<Row>>, limit: nat, cursor: Option<Key>)
    requires limit >= 1 && AllDistinct(tables)
    ensures Ascending(Newer, Shown(tables, limit, cursor))
    ensures forall r :: r in Shown(tables, limit, cursor) ==> IsAfter(cursor, r)
    decreases |tables|
  {
    if tables != [] {
      assert DistinctKeys(tables[0]);
      PageFacts(tables[0], limit, cursor);
      var page := ListComments(tables[0], limit, cursor);
      if page.nextCursor.Some? {
        AllDistinctTail(tables);
        ShownInOrder(tables[1..], limit, page.nextCursor);
        var rest := Shown(tables[1..], limit, page.nextCursor);
        JoinAscends(page.data, rest);
        forall r | r in rest ensures IsAfter(cursor, r) {
          assert page.data[limit - 1] in page.data;
        }
      }
    }
  }

  lemma {:induction false} JoinAscends(a: seq<Row>, b: seq<Row>)
    requires Ascending(Newer, a) && Ascending(Newer, b) && a != []
    requires forall r :: r in b ==> Newer(a[|a| - 1], r)
    ensures Ascending(Newer, a + b)
  {
    forall i, j | 0 <= i < j < |a + b| ensures Newer((a + b)[i], (a + b)[j]) {
      if i < |a| <= j {
        assert (a + b)[j] in b;
        assert i < |a| - 1 ==> Newer(a[i], a[|a| - 1]);
      }
    }
  }

  /** A row that is there all along is shown. */
  lemma {:induction false} LastingRowIsShown(tables: seq<seq<Row>>, limit: nat, cursor: Option<Key>, r: Row)
    requires limit >= 1 && AllDistinct(tables) && ReadToTheEnd(tables, limit, cursor)
    requires IsAfter(cursor, r) && forall i :: 0 <= i < |tables| ==> r in tables[i]
    ensures r in Shown(tables, limit, cursor)
    decreases |tables|
  {
    assert DistinctKeys(tables[0]) && r in tables[0];
    OnPageOrAfter(tables[0], limit, cursor, r);
    PageFacts(tables[0], limit, cursor);
    var page := ListComments(tables[0], limit, cursor);
    if r !in page.data {
      AllDistinctTail(tables);
      forall i | 0 <= i < |tables[1..]| ensures r in tables[1..][i] {
        assert tables[1..][i] == tables[i + 1];
      }
      LastingRowIsShown(tables[1..], limit, page.nextCursor, r);
    }
  }

  // ---------------------------------------------------------------- a table that does not change

  /** What lies after a page is the rest of what lay before it. */
  lemma {:induction false} AheadShrinks(table: seq<Row>, limit: nat, cursor: Option<Key>)
    requires DistinctKeys(table) && limit >= 1
    requires ListComments(table, limit, cursor).nextCursor.Some?
    ensures limit < |Ahead(table, cursor)|
    ensures Ahead(table, ListComments(table, limit, cursor).nextCursor) == Ahead(table, cursor)[limit..]
  {
    hide Ahead, ListComments;
    PageFacts(table, limit, cursor);
    AheadFacts(table, cursor);
    var next := ListComments(table, limit, cursor).nextCursor;
    AheadFacts(table, next);
    var ahead := Ahead(table, cursor);
    forall r ensures r in ahead[limit..] <==> r in Ahead(table, next) {
      LaterMembers(Newer, ahead, limit - 1, r);
      assert ahead[limit - 1] in ahead;
    }
    AscendingIsUnique(Newer, ahead[limit..], Ahead(table, next));
  }

  /** Following the cursors to the end. */
  method FollowCursors(table: seq<Row>, limit: nat) returns (shown: seq<Row>, pages: nat)
    requires DistinctKeys(table) && limit >= 1
    ensures shown == Sort(Newer, table)
    ensures (pages - 1) * limit <= |table|
  {
    var cursor: Option<Key> := None;
    shown, pages := [], 0;
    KeepAll(table);
    while true
      invariant shown + Ahead(table, cursor) == Sort(Newer, table)
      invariant pages * limit == |shown|
      decreases |Ahead(table, cursor)|
    {
      PageFacts(table, limit, cursor);
      var page := ListComments(table, limit, cursor);
      pages := pages + 1;
      if page.nextCursor.None? {
        shown := shown + page.data;
        SortKeepsElements(Newer, table);
        return;
      }
      AheadShrinks(table, limit, cursor);
      ghost var ahead := Ahead(table, cursor);
      assert shown + page.data + ahead[limit..] == shown + ahead;
      shown := shown + page.data;
      cursor := page.nextCursor;
    }
  }

  lemma {:induction false} KeepAll(table: seq<Row>)
    ensures Keep(r => IsAfter(None, r), table) == table
  {
    if table != [] {
      KeepAll(table[1..]);
    }
  }
}
