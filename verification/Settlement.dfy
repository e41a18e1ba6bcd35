/** Settling a challenge on the direct path of `processPayout`: payout rows, the challenge's
    status and the chain's ledger, over any run of payout jobs and re-openings. */
module Settlement {
  import opened Allocation
  import opened Lists
  import opened Options
  import BatchSubmit

  datatype Row = Pending | Sent | Confirmed | Failed
  {
    predicate Done() { Sent? || Confirmed? }
  }

  datatype Status = Ended | Settled | PayoutFailed

  /** `ledger` holds the user behind each transfer made; `refused` the users the fraud guard
      refused in the last run that finished. */
  datatype Books = Books(status: Status, rows: map<string, Row>, ledger: seq<string>, refused: set<string>)

  /** What `submitBatchPayout` did, one flag per batch: it returned, or it threw after some
      batches and told nobody about them. */
  datatype Submission = Returned(oks: seq<bool>) | Threw(oks: seq<bool>)

  // ---------------------------------------------------------------- opening the rows

  /** `createPayout`: the existing row is returned, a failed one goes back to pending. */
  function Upsert(rows: map<string, Row>, user: string): map<string, Row> {
    rows[user := if user in rows && rows[user] != Failed then rows[user] else Pending]
  }

  /** Rows and the records still to be paid, after the loop over `allots`. */
  function Opened(allots: seq<Allotment>, rows: map<string, Row>, refused: set<string>): (map<string, Row>, seq<Allotment>) {
    if allots == [] then (rows, []) else
    var last := allots[|allots| - 1];
    var (before, records) := Opened(allots[..|allots| - 1], rows, refused);
    if last.userId in refused then (before, records) else
    var after := Upsert(before, last.userId);
    (after, if after[last.userId].Done() then records else records + [last])
  }

  // ---------------------------------------------------------------- recording the results

  function BatchCount(n: nat): nat {
    (n + BatchSubmit.MAX_OPS_PER_TX - 1) / BatchSubmit.MAX_OPS_PER_TX
  }

  /** Record i travels in batch i / 50. */
  function FlagOf(oks: seq<bool>, i: nat): bool
    requires i / BatchSubmit.MAX_OPS_PER_TX < |oks|
  {
    oks[i / BatchSubmit.MAX_OPS_PER_TX]
  }

  /** How many records the batches with a flag cover. */
  function Covered(records: seq<Allotment>, oks: seq<bool>): (n: nat)
    ensures n <= |records|
    ensures forall i: nat :: i < n ==> i / BatchSubmit.MAX_OPS_PER_TX < |oks|
  {
    var reach := |oks| * BatchSubmit.MAX_OPS_PER_TX;
    if reach <= |records| then reach else |records|
  }

  /** The users whose transfers went out among the first n records. */
  function PaidUsers(records: seq<Allotment>, oks: seq<bool>, n: nat): seq<string>
    requires n <= Covered(records, oks)
  {
    if n == 0 then [] else
    PaidUsers(records, oks, n - 1) + (if FlagOf(oks, n - 1) then [records[n - 1].userId] else [])
  }

  /** `payoutRecords.find(c => c.address === address)`. */
  function Find(records: seq<Allotment>, address: string): Option<Allotment> {
    if records == [] then None
    else if records[0].address == address then Some(records[0])
    else Find(records[1..], address)
  }

  /** The row found by a recipient's address takes its batch's status. */
  function Marked(rows: map<string, Row>, records: seq<Allotment>, address: string, ok: bool): map<string, Row> {
    match Find(records, address)
    case None => rows
    case Some(record) => rows[record.userId := if ok then Sent else Failed]
  }

  function MarkedFirst(rows: map<string, Row>, records: seq<Allotment>, oks: seq<bool>, n: nat): map<string, Row>
    requires n <= Covered(records, oks)
  {
    if n == 0 then rows else
    Marked(MarkedFirst(rows, records, oks, n - 1), records, records[n - 1].address, FlagOf(oks, n - 1))
  }

  // ---------------------------------------------------------------- one job

  /** The submission answers the batches it was given. It throws only while resetting for a
      batch whose submission was refused, so that batch and the ones after it moved no money. */
  predicate Answers(records: seq<Allotment>, submission: Submission) {
    match submission
    case Returned(oks) => |oks| == BatchCount(|records|)
    case Threw(oks) => BatchSubmit.MAX_OPS_PER_TX * |oks| < |records|
  }

  function Processed(allots: seq<Allotment>, s: Books, refused: set<string>, submission: Submission): Books
    requires s.status == Ended ==> Answers(Opened(allots, s.rows, refused).1, submission)
  {
    if s.status != Ended then s else
    var (rows, records) := Opened(allots, s.rows, refused);
    if records == [] then Books(Settled, rows, s.ledger, refused) else
    var n := Covered(records, submission.oks);
    var ledger := s.ledger + PaidUsers(records, submission.oks, n);
    match submission
    case Threw(_) => s.(rows := rows, ledger := ledger)
    case Returned(oks) =>
      Books(if false in oks then PayoutFailed else Settled, MarkedFirst(rows, records, oks, n), ledger, refused)
  }

  class PayoutBook {
    var status: Status
    var rows: map<string, Row>
    var ledger: seq<string>
    var refused: set<string>

    constructor ()
      ensures Contents() == NewBooks()
    {
      status, rows, ledger, refused := Ended, map[], [], {};
    }

    function Contents(): Books
      reads this
    {
      Books(status, rows, ledger, refused)
    }

    method OpenRows(allots: seq<Allotment>, blocked: set<string>) returns (records: seq<Allotment>)
      modifies this`rows
      ensures (rows, records) == Opened(allots, old(rows), blocked)
    {
      records := [];
      for i := 0 to |allots|
        invariant (rows, records) == Opened(allots[..i], old(rows), blocked)
      {
        assert allots[..i + 1][..i] == allots[..i];
        var a := allots[i];
        if a.userId in blocked {
          continue;
        }
        rows := Upsert(rows, a.userId);
        if rows[a.userId].Done() {
          continue;
        }
        records := records + [a];
      }
      assert allots[..|allots|] == allots;
    }

    method RecordResults(records: seq<Allotment>, oks: seq<bool>) returns (hasFailure: bool)
      requires |oks| == BatchCount(|records|)
      modifies this`rows
      ensures Covered(records, oks) == |records|
      ensures rows == MarkedFirst(old(rows), records, oks, |records|)
      ensures hasFailure == (false in oks)
    {
      hasFailure := false;
      var n := 0;
      for k := 0 to |oks|
        invariant n == if k * 50 <= |records| then k * 50 else |records|
        invariant n <= Covered(records, oks) && rows == MarkedFirst(old(rows), records, oks, n)
        invariant hasFailure == (false in oks[..k])
      {
        assert oks[..k + 1] == oks[..k] + [oks[k]];
        if !oks[k] {
          hasFailure := true;
        }
        var end := if (k + 1) * 50 <= |records| then (k + 1) * 50 else |records|;
        while n < end
          invariant n <= end <= Covered(records, oks) && (n < end ==> n / 50 == k)
          invariant rows == MarkedFirst(old(rows), records, oks, n)
        {
          rows := Marked(rows, records, records[n].address, oks[k]);
          n := n + 1;
        }
      }
      assert oks[..|oks|] == oks;
    }

    method ProcessPayout(allots: seq<Allotment>, blocked: set<string>, submission: Submission)
      requires status == Ended ==> Answers(Opened(allots, rows, blocked).1, submission)
      modifies this
      ensures Contents() == Processed(allots, old(Contents()), blocked, submission)
    {
      if status != Ended {
        return;
      }
      var records := OpenRows(allots, blocked);
      if records == [] {
        status, refused := Settled, blocked;
        return;
      }
      ledger := ledger + PaidUsers(records, submission.oks, Covered(records, submission.oks));
      if submission.Threw? {
        return;
      }
      var hasFailure := RecordResults(records, submission.oks);
      status, refused := if hasFailure then PayoutFailed else Settled, blocked;
    }
  }

  // ---------------------------------------------------------------- what the loops leave behind

  ghost predicate DistinctAddresses(allots: seq<Allotment>) {
    forall i, j :: 0 <= i < j < |allots| ==> allots[i].address != allots[j].address
  }

  ghost predicate IsDone(rows: map<string, Row>, u: string) {
    u in rows && rows[u].Done()
  }

  /** Opening the rows neither completes nor un-completes a payout. */
  lemma {:induction false} OpenedKeepsDone(allots: seq<Allotment>, rows: map<string, Row>, refused: set<string>, u: string)
    ensures IsDone(Opened(allots, rows, refused).0, u) <==> IsDone(rows, u)
    decreases |allots|
  {
    if allots != [] {
      OpenedKeepsDone(allots[..|allots| - 1], rows, refused, u);
    }
  }

  /** Every allotment is refused, done already, or among the records; and only those. */
  lemma {:induction false} OpenedSorts(allots: seq<Allotment>, rows: map<string, Row>, refused: set<string>, a: Allotment)
    requires OnePerUser(allots)
    ensures a in Opened(allots, rows, refused).1 <==>
              a in allots && a.userId !in refused && !IsDone(rows, a.userId)
    decreases |allots|
  {
    if allots != [] {
      var front, last := allots[..|allots| - 1], allots[|allots| - 1];
      assert allots == front + [last];
      OpenedSorts(front, rows, refused, a);
      var (before, records) := Opened(front, rows, refused);
      OpenedKeepsDone(front, rows, refused, last.userId);
      assert IsDone(Upsert(before, last.userId), last.userId) <==> IsDone(before, last.userId);
    }
  }

  lemma {:induction false} OpenedStaysDistinct(allots: seq<Allotment>, rows: map<string, Row>, refused: set<string>)
    requires OnePerUser(allots)
    ensures OnePerUser(Opened(allots, rows, refused).1)
    ensures DistinctAddresses(allots) ==> DistinctAddresses(Opened(allots, rows, refused).1)
    decreases |allots|
  {
    if allots != [] {
      var front, last := allots[..|allots| - 1], allots[|allots| - 1];
      OpenedStaysDistinct(front, rows, refused);
      var records := Opened(front, rows, refused).1;
      forall i | 0 <= i < |records|
        ensures records[i].userId != last.userId
        ensures DistinctAddresses(allots) ==> records[i].address != last.address
      {
        OpenedSorts(front, rows, refused, records[i]);
        var k :| 0 <= k < |front| && front[k] == records[i];
        assert allots[k] == front[k];
      }
    }
  }

  lemma {:induction false} FindsItself(records: seq<Allotment>, i: nat)
    requires DistinctAddresses(records) && i < |records|
    ensures Find(records, records[i].address) == Some(records[i])
  {
    if i > 0 {
      assert records[0].address != records[i].address;
      FindsItself(records[1..], i - 1);
    }
  }

  /** With distinct addresses each record's row takes its own batch's status. */
  lemma {:induction false} MarkedAt(rows: map<string, Row>, records: seq<Allotment>, oks: seq<bool>, n: nat, i: nat)
    requires OnePerUser(records) && DistinctAddresses(records) && i < n <= Covered(records, oks)
    ensures var marked := MarkedFirst(rows, records, oks, n);
            records[i].userId in marked && marked[records[i].userId] == if FlagOf(oks, i) then Sent else Failed
    decreases n
  {
    FindsItself(records, n - 1);
    if i < n - 1 {
      MarkedAt(rows, records, oks, n - 1, i);
      assert records[i].userId != records[n - 1].userId;
    }
  }

  /** No address leads to a record of this user. */
  ghost predicate NeverFound(records: seq<Allotment>, u: string) {
    forall address :: Find(records, address).Some? ==> Find(records, address).value.userId != u
  }

  lemma {:induction false} MarkedElsewhere(rows: map<string, Row>, records: seq<Allotment>, oks: seq<bool>, n: nat, u: string)
    requires n <= Covered(records, oks) && NeverFound(records, u)
    ensures var marked := MarkedFirst(rows, records, oks, n);
            (u in marked <==> u in rows) && (u in rows ==> marked[u] == rows[u])
    decreases n
  {
    if n > 0 {
      MarkedElsewhere(rows, records, oks, n - 1, u);
      assert Find(records, records[n - 1].address).Some? ==> Find(records, records[n - 1].address).value.userId != u;
    }
  }

  /** The record found is the first with its address. */
  lemma {:induction false} FindIsFirst(records: seq<Allotment>, address: string) returns (k: nat)
    requires Find(records, address).Some?
    ensures k < |records| && Find(records, address).value == records[k] && records[k].address == address
    ensures forall m :: 0 <= m < k ==> records[m].address != address
  {
    if records[0].address == address {
      k := 0;
    } else {
      var rest := FindIsFirst(records[1..], address);
      k := rest + 1;
      forall m | 0 <= m < k ensures records[m].address != address {
        assert m > 0 ==> records[m] == records[1..][m - 1];
      }
    }
  }

  lemma {:induction false} NotARecord(records: seq<Allotment>, u: string)
    requires forall r :: r in records ==> r.userId != u
    ensures NeverFound(records, u)
  {
    forall address | Find(records, address).Some? ensures Find(records, address).value.userId != u {
      var k := FindIsFirst(records, address);
      assert records[k] in records;
    }
  }

  /** A record behind another one with the same address is never found. */
  lemma {:induction false} HiddenRecord(records: seq<Allotment>, i: nat, j: nat)
    requires OnePerUser(records) && i < j < |records| && records[i].address == records[j].address
    ensures NeverFound(records, records[j].userId)
  {
    forall address | Find(records, address).Some?
      ensures Find(records, address).value.userId != records[j].userId
    {
      var k := FindIsFirst(records, address);
      if k != j {
        assert records[k].userId != records[j].userId;
      }
    }
  }

  function Times(ledger: seq<string>, u: string): nat {
    multiset(ledger)[u]
  }

  lemma {:induction false} TimesOfSum(a: seq<string>, b: seq<string>, u: string)
    ensures Times(a + b, u) == Times(a, u) + Times(b, u)
  {
    assert multiset(a + b) == multiset(a) + multiset(b);
  }

  lemma {:induction false} TimesOfFew(v: string, u: string)
    ensures Times([], u) == 0 && Times([v], u) == if v == u then 1 else 0
  {
  }

  /** Record i gets one transfer if its batch went through, and none otherwise. */
  lemma {:induction false} PaidOnce(records: seq<Allotment>, oks: seq<bool>, n: nat, i: nat)
    requires OnePerUser(records) && n <= Covered(records, oks) && i < |records|
    ensures Times(PaidUsers(records, oks, n), records[i].userId) == if i < n && FlagOf(oks, i) then 1 else 0
    decreases n
  {
    hide Covered, FlagOf, Times;
    if n > 0 {
      PaidOnce(records, oks, n - 1, i);
      var last := if FlagOf(oks, n - 1) then [records[n - 1].userId] else [];
      TimesOfSum(PaidUsers(records, oks, n - 1), last, records[i].userId);
      TimesOfFew(records[n - 1].userId, records[i].userId);
      assert i != n - 1 ==> records[i].userId != records[n - 1].userId;
    } else {
      TimesOfFew("", records[i].userId);
    }
  }

  lemma {:induction false} PaidOnlyRecords(records: seq<Allotment>, oks: seq<bool>, n: nat, u: string)
    requires n <= Covered(records, oks) && forall r :: r in records ==> r.userId != u
    ensures Times(PaidUsers(records, oks, n), u) == 0
    decreases n
  {
    if n > 0 {
      PaidOnlyRecords(records, oks, n - 1, u);
    }
  }

  // ---------------------------------------------------------------- safety of one job

  /** Nobody was paid twice, and whoever was paid has a row that says so. */
  ghost predicate SafeFor(s: Books, u: string) {
    Times(s.ledger, u) <= 1 && (Times(s.ledger, u) == 1 ==> IsDone(s.rows, u))
  }

  ghost predicate Safe(s: Books) {
    forall u :: SafeFor(s, u)
  }

  /** "settled" is said only when every allotment is paid or was refused. */
  ghost predicate Honest(allots: seq<Allotment>, s: Books) {
    s.status == Settled ==> forall a :: a in allots ==> a.userId in s.refused || IsDone(s.rows, a.userId)
  }

  /** A submission that throws has moved no money. */
  ghost predicate AllOrNothing(submission: Submission) {
    submission.Threw? ==> true !in submission.oks
  }

  ghost predicate Sound(allots: seq<Allotment>) {
    OnePerUser(allots) && DistinctAddresses(allots)
  }

  lemma {:induction false} CoveredAll(records: seq<Allotment>, oks: seq<bool>)
    requires |oks| == BatchCount(|records|)
    ensures Covered(records, oks) == |records|
  {
  }

  lemma {:induction false} NothingPaid(records: seq<Allotment>, oks: seq<bool>, n: nat)
    requires n <= Covered(records, oks) && true !in oks
    ensures PaidUsers(records, oks, n) == []
    decreases n
  {
    if n > 0 {
      assert FlagOf(oks, n - 1) in oks;
      NothingPaid(records, oks, n - 1);
    }
  }

  /** A job keeps every user safe, whatever the chain answers batch by batch. */
  lemma {:induction false} JobKeepsUserSafe(allots: seq<Allotment>, s: Books, refused: set<string>, submission: Submission, u: string)
    requires Sound(allots) && s.status == Ended && AllOrNothing(submission)
    requires Answers(Opened(allots, s.rows, refused).1, submission)
    requires SafeFor(s, u)
    ensures SafeFor(Processed(allots, s, refused, submission), u)
  {
    var (rows, records) := Opened(allots, s.rows, refused);
    var oks := submission.oks;
    var n := Covered(records, oks);
    OpenedKeepsDone(allots, s.rows, refused, u);
    TimesOfSum(s.ledger, PaidUsers(records, oks, n), u);
    if submission.Threw? {
      NothingPaid(records, oks, n);
    } else {
      CoveredAll(records, oks);
      OpenedStaysDistinct(allots, s.rows, refused);
      if i :| 0 <= i < |records| && records[i].userId == u {
        OpenedSorts(allots, s.rows, refused, records[i]);
        PaidOnce(records, oks, n, i);
        MarkedAt(rows, records, oks, n, i);
      } else {
        PaidOnlyRecords(records, oks, n, u);
        NotARecord(records, u);
        MarkedElsewhere(rows, records, oks, n, u);
      }
    }
  }

  lemma {:induction false} JobIsHonest(allots: seq<Allotment>, s: Books, refused: set<string>, submission: Submission)
    requires Sound(allots) && s.status == Ended
    requires Answers(Opened(allots, s.rows, refused).1, submission)
    ensures Honest(allots, Processed(allots, s, refused, submission))
  {
    var (rows, records) := Opened(allots, s.rows, refused);
    var t := Processed(allots, s, refused, submission);
    if t.status == Settled {
      OpenedStaysDistinct(allots, s.rows, refused);
      forall a | a in allots ensures a.userId in refused || IsDone(t.rows, a.userId) {
        OpenedSorts(allots, s.rows, refused, a);
        OpenedKeepsDone(allots, s.rows, refused, a.userId);
        if a in records {
          var i :| 0 <= i < |records| && records[i] == a;
          CoveredAll(records, submission.oks);
          MarkedAt(rows, records, submission.oks, |records|, i);
          assert FlagOf(submission.oks, i) in submission.oks;
        } else if a.userId !in refused && records != [] {
          forall r | r in records ensures r.userId != a.userId {
            OpenedSorts(allots, s.rows, refused, r);
          }
          CoveredAll(records, submission.oks);
          NotARecord(records, a.userId);
          MarkedElsewhere(rows, records, submission.oks, |records|, a.userId);
        }
      }
    }
  }

  // ---------------------------------------------------------------- what one job leaves behind

  /** A job whose submission returned never leaves the challenge "ended": it has failed when
      some record travelled in a failed batch of fifty, and is settled when none did. */
  lemma {:induction false} JobDecidesStatus(allots: seq<Allotment>, s: Books, refused: set<string>, oks: seq<bool>)
    requires s.status == Ended && Answers(Opened(allots, s.rows, refused).1, Returned(oks))
    ensures var records, t := Opened(allots, s.rows, refused).1, Processed(allots, s, refused, Returned(oks));
            && |records| <= 50 * |oks|
            && (t.status == PayoutFailed <==> exists i :: 0 <= i < |records| && !oks[i / 50])
            && (t.status == Settled <==> forall i :: 0 <= i < |records| ==> oks[i / 50])
  {
    hide Opened, MarkedFirst, PaidUsers;
    var records := Opened(allots, s.rows, refused).1;
    assert |records| <= 50 * |oks| < |records| + 50;
    if false in oks {
      var k :| 0 <= k < |oks| && !oks[k];
      assert 50 * k < |records| && (50 * k) / 50 == k;
    } else {
      forall i | 0 <= i < |records| ensures oks[i / 50] {
        assert oks[i / 50] in oks;
      }
    }
  }

  /** A job that is not due, or whose submission threw, leaves the status as it is. */
  lemma {:induction false} StatusStays(allots: seq<Allotment>, s: Books, refused: set<string>, submission: Submission)
    requires s.status == Ended ==> Answers(Opened(allots, s.rows, refused).1, submission)
    requires s.status != Ended || submission.Threw?
    ensures Processed(allots, s, refused, submission).status == s.status
    ensures s.status != Ended ==> Processed(allots, s, refused, submission) == s
  {
    if s.status == Ended {
      assert Opened(allots, s.rows, refused).1 != [];
    }
  }

  /** Opening gives each allotment's user a row, a failed one is pending again, and nobody
      else's row changes. */
  lemma {:induction false} OpenedRow(allots: seq<Allotment>, rows: map<string, Row>, refused: set<string>, u: string)
    ensures var start := Opened(allots, rows, refused).0;
            if u !in refused && exists a :: a in allots && a.userId == u
            then u in start && start[u] == (if u in rows && rows[u] != Failed then rows[u] else Pending)
            else (u in start <==> u in rows) && (u in rows ==> start[u] == rows[u])
    decreases |allots|
  {
    if allots != [] {
      var front, last := allots[..|allots| - 1], allots[|allots| - 1];
      OpenedRow(front, rows, refused, u);
      assert allots == front + [last];
      assert last in allots;
      assert forall a :: a in front ==> a in allots;
    }
  }

  /** The records are the allotments neither refused nor done, in their order. */
  lemma {:induction false} OpenedInOrder(allots: seq<Allotment>, rows: map<string, Row>, refused: set<string>)
    requires OnePerUser(allots)
    ensures Opened(allots, rows, refused).1
         == Keep((a: Allotment) => a.userId !in refused && !IsDone(rows, a.userId), allots)
    decreases |allots|
  {
    var open := (a: Allotment) => a.userId !in refused && !IsDone(rows, a.userId);
    if allots != [] {
      var front, last := allots[..|allots| - 1], allots[|allots| - 1];
      OpenedInOrder(front, rows, refused);
      KeepAppend(open, front, last);
      assert allots == front + [last];
      OpenedKeepsDone(front, rows, refused, last.userId);
    }
  }

  /** After a job whose submission returned, with distinct addresses: a record's row says
      whether its batch went through, and every other row is as opening left it. */
  lemma {:induction false} RowAfterJob(allots: seq<Allotment>, s: Books, refused: set<string>, oks: seq<bool>, u: string)
    requires Sound(allots) && s.status == Ended && Answers(Opened(allots, s.rows, refused).1, Returned(oks))
    ensures var (start, records) := Opened(allots, s.rows, refused);
            var t := Processed(allots, s, refused, Returned(oks));
            && (forall i :: 0 <= i < |records| && records[i].userId == u ==>
                  i / 50 < |oks| && u in t.rows && t.rows[u] == (if oks[i / 50] then Sent else Failed))
            && ((forall r :: r in records ==> r.userId != u) ==>
                  (u in t.rows <==> u in start) && (u in start ==> t.rows[u] == start[u]))
  {
    var (start, records) := Opened(allots, s.rows, refused);
    OpenedStaysDistinct(allots, s.rows, refused);
    CoveredAll(records, oks);
    forall i | 0 <= i < |records| && records[i].userId == u
      ensures var t := Processed(allots, s, refused, Returned(oks));
              i / 50 < |oks| && u in t.rows && t.rows[u] == (if oks[i / 50] then Sent else Failed)
    {
      MarkedAt(start, records, oks, |records|, i);
    }
    if forall r :: r in records ==> r.userId != u {
      NotARecord(records, u);
      MarkedElsewhere(start, records, oks, |records|, u);
    }
  }

  // ---------------------------------------------------------------- whole runs

  datatype Event =
    | Job(blocked: set<string>, submission: Submission)
    | Reopen                    // payout_failed back to ended
    | Confirm(user: string)     // a sent payout is confirmed
    | FailPending               // `failPayoutsForChallenge` after the last retry

  function FailedPending(rows: map<string, Row>): map<string, Row> {
    map u | u in rows :: if rows[u] == Pending then Failed else rows[u]
  }

  /** `failPayoutsForChallenge` fails what is pending and nothing else. */
  lemma {:induction false} OnlyPendingFails(rows: map<string, Row>, u: string)
    ensures u in FailedPending(rows) <==> u in rows
    ensures u in rows ==> FailedPending(rows)[u] != Pending
    ensures u in rows && rows[u] != Pending ==> FailedPending(rows)[u] == rows[u]
    ensures u in rows && rows[u] == Pending ==> FailedPending(rows)[u] == Failed
  {
  }

  ghost predicate Possible(allots: seq<Allotment>, s: Books, e: Event) {
    match e
    case Job(blocked, submission) => s.status == Ended ==> Answers(Opened(allots, s.rows, blocked).1, submission)
    case Reopen => s.status == PayoutFailed
    case Confirm(u) => u in s.rows && s.rows[u] == Sent
    case FailPending => true
  }

  function After(allots: seq<Allotment>, s: Books, e: Event): Books
    requires Possible(allots, s, e)
  {
    match e
    case Job(blocked, submission) => Processed(allots, s, blocked, submission)
    case Reopen => s.(status := Ended)
    case Confirm(u) => s.(rows := s.rows[u := Confirmed])
    case FailPending => s.(rows := FailedPending(s.rows))
  }

  ghost predicate CanHappen(allots: seq<Allotment>, s: Books, events: seq<Event>)
    decreases |events|
  {
    events == [] || (Possible(allots, s, events[0]) && CanHappen(allots, After(allots, s, events[0]), events[1..]))
  }

  ghost function History(allots: seq<Allotment>, s: Books, events: seq<Event>): Books
    requires CanHappen(allots, s, events)
    decreases |events|
  {
    if events == [] then s else History(allots, After(allots, s, events[0]), events[1..])
  }

  lemma {:induction false} OneEvent(allots: seq<Allotment>, s: Books, e: Event)
    requires Possible(allots, s, e)
    ensures CanHappen(allots, s, [e]) && History(allots, s, [e]) == After(allots, s, e)
  {
    var next := After(allots, s, e);
    assert [e][1..] == [];
    assert CanHappen(allots, next, []) && History(allots, next, []) == next;
  }

  /** A run is its first event and the rest. */
  lemma {:induction false} FirstEvent(allots: seq<Allotment>, s: Books, e: Event, rest: seq<Event>)
    requires Possible(allots, s, e) && CanHappen(allots, After(allots, s, e), rest)
    ensures CanHappen(allots, s, [e] + rest)
    ensures History(allots, s, [e] + rest) == History(allots, After(allots, s, e), rest)
  {
    assert ([e] + rest)[1..] == rest;
  }

  ghost predicate Clean(events: seq<Event>) {
    forall i :: 0 <= i < |events| ==> events[i].Job? ==> AllOrNothing(events[i].submission)
  }

  lemma {:induction false} EventKeepsSafe(allots: seq<Allotment>, s: Books, e: Event)
    requires Sound(allots) && Possible(allots, s, e) && Safe(s)
    requires e.Job? && s.status == Ended ==> AllOrNothing(e.submission)
    ensures Safe(After(allots, s, e))
  {
    var t := After(allots, s, e);
    forall u ensures SafeFor(t, u) {
      assert SafeFor(s, u);
      if e.Job? && s.status == Ended {
        JobKeepsUserSafe(allots, s, e.blocked, e.submission, u);
      }
    }
  }

  lemma {:induction false} EventKeepsHonest(allots: seq<Allotment>, s: Books, e: Event)
    requires Sound(allots) && Possible(allots, s, e) && Honest(allots, s)
    ensures Honest(allots, After(allots, s, e))
  {
    if e.Job? && s.status == Ended {
      JobIsHonest(allots, s, e.blocked, e.submission);
    }
  }

  /** Over any run of jobs and re-openings with all-or-nothing submissions nobody receives a
      second transfer, and "settled" means every allotment is paid or was refused. */
  lemma {:induction false} RunsAreSafe(allots: seq<Allotment>, s: Books, events: seq<Event>)
    requires Sound(allots) && Safe(s) && Honest(allots, s)
    requires CanHappen(allots, s, events) && Clean(events)
    ensures Safe(History(allots, s, events)) && Honest(allots, History(allots, s, events))
    decreases |events|
  {
    if events != [] {
      EventKeepsSafe(allots, s, events[0]);
      EventKeepsHonest(allots, s, events[0]);
      forall i | 0 <= i < |events[1..]| && events[1..][i].Job?
        ensures AllOrNothing(events[1..][i].submission)
      {
        assert events[1..][i] == events[i + 1];
      }
      RunsAreSafe(allots, After(allots, s, events[0]), events[1..]);
    }
  }

  /** A challenge that has just ended. */
  function NewBooks(): Books {
    Books(Ended, map[], [], {})
  }

  lemma {:induction false} AtMostOneTransfer(allots: seq<Allotment>, events: seq<Event>, u: string)
    requires Sound(allots) && Clean(events) && CanHappen(allots, NewBooks(), events)
    ensures Times(History(allots, NewBooks(), events).ledger, u) <= 1
  {
    RunsAreSafe(allots, NewBooks(), events);
    assert SafeFor(History(allots, NewBooks(), events), u);
  }

  // ---------------------------------------------------------------- a recorded payout is final

  lemma {:induction false} JobLeavesDoneAlone(allots: seq<Allotment>, s: Books, refused: set<string>, submission: Submission, u: string)
    requires OnePerUser(allots) && s.status == Ended && IsDone(s.rows, u)
    requires Answers(Opened(allots, s.rows, refused).1, submission)
    ensures var t := Processed(allots, s, refused, submission);
            IsDone(t.rows, u) && Times(t.ledger, u) == Times(s.ledger, u)
  {
    var (rows, records) := Opened(allots, s.rows, refused);
    var n := Covered(records, submission.oks);
    OpenedKeepsDone(allots, s.rows, refused, u);
    forall r | r in records ensures r.userId != u {
      OpenedSorts(allots, s.rows, refused, r);
    }
    TimesOfSum(s.ledger, PaidUsers(records, submission.oks, n), u);
    PaidOnlyRecords(records, submission.oks, n, u);
    NotARecord(records, u);
    MarkedElsewhere(rows, records, submission.oks, n, u);
  }

  /** Over any run at all, thrown submissions and shared addresses included, a user whose row
      says sent or confirmed receives nothing more. */
  lemma {:induction false} RecordedIsFinal(allots: seq<Allotment>, s: Books, events: seq<Event>, u: string)
    requires OnePerUser(allots) && IsDone(s.rows, u) && CanHappen(allots, s, events)
    ensures var t := History(allots, s, events);
            IsDone(t.rows, u) && Times(t.ledger, u) == Times(s.ledger, u)
    decreases |events|
  {
    if events != [] {
      var e := events[0];
      if e.Job? && s.status == Ended {
        JobLeavesDoneAlone(allots, s, e.blocked, e.submission, u);
      }
      RecordedIsFinal(allots, After(allots, s, e), events[1..], u);
    }
  }

  function AllOk(n: nat): seq<bool> {
    seq(BatchCount(n), _ => true)
  }

  /** One more job, with nobody refused and every batch accepted, pays every open record. */
  lemma {:induction false} PaysAgain(allots: seq<Allotment>, s: Books, a: Allotment) returns (e: Event)
    requires OnePerUser(allots) && s.status == Ended && a in allots && !IsDone(s.rows, a.userId)
    ensures e.Job? && AllOrNothing(e.submission) && Possible(allots, s, e)
    ensures Times(After(allots, s, e).ledger, a.userId) == Times(s.ledger, a.userId) + 1
  {
    hide Opened, Times, MarkedFirst, PaidUsers;
    var (rows, records) := Opened(allots, s.rows, {});
    e := Job({}, Returned(AllOk(|records|)));
    OpenedSorts(allots, s.rows, {}, a);
    OpenedStaysDistinct(allots, s.rows, {});
    var i :| 0 <= i < |records| && records[i] == a;
    CoveredAll(records, e.submission.oks);
    PaidOnce(records, e.submission.oks, |records|, i);
    TimesOfSum(s.ledger, PaidUsers(records, e.submission.oks, |records|), a.userId);
  }

  /** Once a user has been paid, no run whatever pays again if and only if the row says so. */
  lemma {:induction false} NeverPaidAgainIffRecorded(allots: seq<Allotment>, s: Books, a: Allotment)
    requires OnePerUser(allots) && s.status == Ended && a in allots && Times(s.ledger, a.userId) == 1
    ensures (forall events :: CanHappen(allots, s, events) ==>
               Times(History(allots, s, events).ledger, a.userId) <= 1)
       <==> IsDone(s.rows, a.userId)
  {
    if IsDone(s.rows, a.userId) {
      forall events | CanHappen(allots, s, events)
        ensures Times(History(allots, s, events).ledger, a.userId) <= 1
      {
        RecordedIsFinal(allots, s, events, a.userId);
      }
    } else {
      var e := PaysAgain(allots, s, a);
      OneEvent(allots, s, e);
    }
  }

  lemma {:induction false} OpenedFresh(allots: seq<Allotment>)
    requires OnePerUser(allots)
    ensures Opened(allots, map[], {}).1 == allots
    decreases |allots|
  {
    if allots != [] {
      var front, last := allots[..|allots| - 1], allots[|allots| - 1];
      OpenedFresh(front);
      OpenedKeepsDone(front, map[], {}, last.userId);
      assert allots == front + [last];
    }
  }

  /** A submission that throws after its first batch leaves that batch paid and unrecorded, so
      by the lemma above the retry pays it again: all-or-nothing cannot be dropped. */
  lemma {:induction false} ThrownResultsAreLost(allots: seq<Allotment>)
    requires OnePerUser(allots) && |allots| > BatchSubmit.MAX_OPS_PER_TX
    ensures Answers(Opened(allots, map[], {}).1, Threw([true]))
    ensures var s := Processed(allots, NewBooks(), {}, Threw([true]));
            s.status == Ended && Times(s.ledger, allots[0].userId) == 1 && !IsDone(s.rows, allots[0].userId)
  {
    OpenedFresh(allots);
    OpenedKeepsDone(allots, map[], {}, allots[0].userId);
    PaidOnce(allots, [true], Covered(allots, [true]), 0);
    TimesOfSum([], PaidUsers(allots, [true], Covered(allots, [true])), allots[0].userId);
    assert [] + PaidUsers(allots, [true], Covered(allots, [true])) == PaidUsers(allots, [true], Covered(allots, [true]));
  }

  /** So with a second batch a submission that throws can make the retry pay a user again. */
  lemma {:induction false} ThrownBatchIsPaidTwice(allots: seq<Allotment>) returns (events: seq<Event>)
    requires OnePerUser(allots) && |allots| > BatchSubmit.MAX_OPS_PER_TX
    ensures CanHappen(allots, NewBooks(), events)
    ensures Times(History(allots, NewBooks(), events).ledger, allots[0].userId) == 2
  {
    hide CanHappen, History;
    ThrownResultsAreLost(allots);
    var first := Job({}, Threw([true]));
    var s := After(allots, NewBooks(), first);
    var again := PaysAgain(allots, s, allots[0]);
    events := [first] + [again];
    OneEvent(allots, s, again);
    FirstEvent(allots, NewBooks(), first, [again]);
  }

  /** When everything is paid at once, every row says so if and only if no two allotments
      share an address; the challenge is settled either way. */
  lemma {:induction false} AllRecordedIffDistinctAddresses(allots: seq<Allotment>)
    requires OnePerUser(allots) && allots != []
    ensures Answers(Opened(allots, map[], {}).1, Returned(AllOk(|allots|)))
    ensures var s := Processed(allots, NewBooks(), {}, Returned(AllOk(|allots|)));
            && s.status == Settled
            && ((forall a :: a in allots ==> IsDone(s.rows, a.userId)) <==> DistinctAddresses(allots))
  {
    OpenedFresh(allots);
    var rows, oks := Opened(allots, map[], {}).0, AllOk(|allots|);
    CoveredAll(allots, oks);
    var marked := MarkedFirst(rows, allots, oks, |allots|);
    if DistinctAddresses(allots) {
      forall a | a in allots ensures IsDone(marked, a.userId) {
        var i :| 0 <= i < |allots| && allots[i] == a;
        MarkedAt(rows, allots, oks, |allots|, i);
      }
    } else {
      var j := SomeRowStaysOpen(allots, rows, oks);
      assert allots[j] in allots;
    }
  }

  lemma {:induction false} SomeRowStaysOpen(allots: seq<Allotment>, rows: map<string, Row>, oks: seq<bool>) returns (j: nat)
    requires OnePerUser(allots) && !DistinctAddresses(allots) && Covered(allots, oks) == |allots|
    requires rows == Opened(allots, map[], {}).0
    ensures j < |allots| && !IsDone(MarkedFirst(rows, allots, oks, |allots|), allots[j].userId)
  {
    var i, k :| 0 <= i < k < |allots| && allots[i].address == allots[k].address;
    j := k;
    HiddenRecord(allots, i, j);
    MarkedElsewhere(rows, allots, oks, |allots|, allots[j].userId);
    OpenedKeepsDone(allots, map[], {}, allots[j].userId);
  }

  // ---------------------------------------------------------------- exactly when nobody is paid twice

  /** No clean run from new books pays anybody twice. */
  ghost predicate NobodyPaidTwice(allots: seq<Allotment>) {
    forall events, u :: CanHappen(allots, NewBooks(), events) && Clean(events) ==>
      Times(History(allots, NewBooks(), events).ledger, u) <= 1
  }

  /** Nothing was paid yet, or everything was paid at once and the books are closed. */
  ghost predicate PaidInOneGo(s: Books) {
    s.ledger == [] || (s.status == Settled && forall u :: Times(s.ledger, u) <= 1)
  }

  lemma {:induction false} OpenedIsShorter(allots: seq<Allotment>, rows: map<string, Row>, refused: set<string>)
    ensures |Opened(allots, rows, refused).1| <= |allots|
  {
    if allots != [] {
      OpenedIsShorter(allots[..|allots| - 1], rows, refused);
    }
  }

  lemma {:induction false} PaidAtMostOnce(records: seq<Allotment>, oks: seq<bool>, n: nat, u: string)
    requires OnePerUser(records) && n <= Covered(records, oks)
    ensures Times(PaidUsers(records, oks, n), u) <= 1
  {
    if i :| 0 <= i < |records| && records[i].userId == u {
      PaidOnce(records, oks, n, i);
    } else {
      PaidOnlyRecords(records, oks, n, u);
    }
  }

  /** One batch succeeds and settles, or fails and pays nothing. */
  lemma {:induction false} OneBatchPaysInOneGo(allots: seq<Allotment>, s: Books, refused: set<string>, submission: Submission)
    requires OnePerUser(allots) && |allots| <= BatchSubmit.MAX_OPS_PER_TX
    requires s.status == Ended && s.ledger == []
    requires Answers(Opened(allots, s.rows, refused).1, submission)
    ensures PaidInOneGo(Processed(allots, s, refused, submission))
  {
    var (rows, records) := Opened(allots, s.rows, refused);
    var oks := submission.oks;
    var n := Covered(records, oks);
    OpenedIsShorter(allots, s.rows, refused);
    OpenedStaysDistinct(allots, s.rows, refused);
    assert submission.Threw? ==> oks == [];
    assert |oks| <= BatchCount(|records|) <= 1;
    if true !in oks {
      NothingPaid(records, oks, n);
    } else {
      assert oks == [true];
      assert s.ledger + PaidUsers(records, oks, n) == PaidUsers(records, oks, n);
      forall u ensures Times(PaidUsers(records, oks, n), u) <= 1 {
        PaidAtMostOnce(records, oks, n, u);
      }
    }
  }

  lemma {:induction false} OneBatchRuns(allots: seq<Allotment>, s: Books, events: seq<Event>)
    requires OnePerUser(allots) && |allots| <= BatchSubmit.MAX_OPS_PER_TX
    requires PaidInOneGo(s) && CanHappen(allots, s, events)
    ensures PaidInOneGo(History(allots, s, events))
    decreases |events|
  {
    if events != [] {
      var e := events[0];
      if e.Job? && s.status == Ended {
        OneBatchPaysInOneGo(allots, s, e.blocked, e.submission);
      }
      assert PaidInOneGo(After(allots, s, e));
      OneBatchRuns(allots, After(allots, s, e), events[1..]);
    }
  }

  /** Every batch accepted but one. */
  function AllButOne(n: nat, failed: nat): seq<bool> {
    seq(BatchCount(n), i => i != failed)
  }

  /** With a shared address and a second batch, some run pays a user twice: the second of the
      two is paid, never found by its address, and paid again after another batch failed. */
  lemma {:induction false} SharedAddressPaysTwice(allots: seq<Allotment>, i: nat, j: nat) returns (events: seq<Event>)
    requires OnePerUser(allots) && |allots| > BatchSubmit.MAX_OPS_PER_TX
    requires i < j < |allots| && allots[i].address == allots[j].address
    ensures CanHappen(allots, NewBooks(), events) && Clean(events)
    ensures Times(History(allots, NewBooks(), events).ledger, allots[j].userId) == 2
  {
    hide CanHappen, History, Processed, Opened;
    var other: nat := if j / BatchSubmit.MAX_OPS_PER_TX == 0 then 1 else 0;
    var oks := AllButOne(|allots|, other);
    assert !oks[other];
    var first := Job({}, Returned(oks));
    FailedBatchStaysOpen(allots, i, j, oks);
    var failed := After(allots, NewBooks(), first);
    var reopened := After(allots, failed, Reopen);
    assert allots[j] in allots;
    var again := PaysAgain(allots, reopened, allots[j]);
    events := [first, Reopen, again];
    ThreeEvents(allots, NewBooks(), first, Reopen, again);
  }

  lemma {:induction false} ThreeEvents(allots: seq<Allotment>, s: Books, e: Event, f: Event, g: Event)
    requires Possible(allots, s, e) && Possible(allots, After(allots, s, e), f)
    requires Possible(allots, After(allots, After(allots, s, e), f), g)
    ensures CanHappen(allots, s, [e, f, g])
    ensures History(allots, s, [e, f, g]) == After(allots, After(allots, After(allots, s, e), f), g)
  {
    hide Possible, After, CanHappen, History;
    var t := After(allots, s, e);
    var v := After(allots, t, f);
    OneEvent(allots, v, g);
    FirstEvent(allots, t, f, [g]);
    FirstEvent(allots, s, e, [f, g]);
    assert [f] + [g] == [f, g] && [e] + [f, g] == [e, f, g];
  }

  lemma {:induction false} FailedBatchStaysOpen(allots: seq<Allotment>, i: nat, j: nat, oks: seq<bool>)
    requires OnePerUser(allots) && i < j < |allots| && allots[i].address == allots[j].address
    requires |oks| == BatchCount(|allots|) && false in oks
    requires oks[j / BatchSubmit.MAX_OPS_PER_TX]
    ensures Possible(allots, NewBooks(), Job({}, Returned(oks)))
    ensures var s := After(allots, NewBooks(), Job({}, Returned(oks)));
            && s.status == PayoutFailed && Times(s.ledger, allots[j].userId) == 1
            && !IsDone(s.rows, allots[j].userId)
  {
    OpenedFresh(allots);
    CoveredAll(allots, oks);
    var rows := Opened(allots, map[], {}).0;
    OpenedKeepsDone(allots, map[], {}, allots[j].userId);
    HiddenRecord(allots, i, j);
    MarkedElsewhere(rows, allots, oks, |allots|, allots[j].userId);
    PaidOnce(allots, oks, |allots|, j);
    assert [] + PaidUsers(allots, oks, |allots|) == PaidUsers(allots, oks, |allots|);
  }

  /** Nobody is ever paid twice, over all runs with all-or-nothing submissions, if and only if
      addresses are distinct or everybody fits in one batch. */
  lemma {:induction false} NobodyPaidTwiceIff(allots: seq<Allotment>)
    requires OnePerUser(allots)
    ensures NobodyPaidTwice(allots) <==> DistinctAddresses(allots) || |allots| <= BatchSubmit.MAX_OPS_PER_TX
  {
    if DistinctAddresses(allots) || |allots| <= BatchSubmit.MAX_OPS_PER_TX {
      forall events, u | CanHappen(allots, NewBooks(), events) && Clean(events)
        ensures Times(History(allots, NewBooks(), events).ledger, u) <= 1
      {
        if DistinctAddresses(allots) {
          AtMostOneTransfer(allots, events, u);
        } else {
          OneBatchRuns(allots, NewBooks(), events);
        }
      }
    } else {
      var i, j :| 0 <= i < j < |allots| && allots[i].address == allots[j].address;
      var events := SharedAddressPaysTwice(allots, i, j);
    }
  }

  /** No run whatever pays anybody twice, submissions that throw included. */
  ghost predicate NeverPaidTwice(allots: seq<Allotment>) {
    forall events, u :: CanHappen(allots, NewBooks(), events) ==>
      Times(History(allots, NewBooks(), events).ledger, u) <= 1
  }

  /** Over all runs, nobody is ever paid twice if and only if everybody fits in one batch;
      distinct addresses do not help. */
  lemma {:induction false} NeverPaidTwiceIff(allots: seq<Allotment>)
    requires OnePerUser(allots)
    ensures NeverPaidTwice(allots) <==> |allots| <= BatchSubmit.MAX_OPS_PER_TX
  {
    if |allots| <= BatchSubmit.MAX_OPS_PER_TX {
      forall events, u | CanHappen(allots, NewBooks(), events)
        ensures Times(History(allots, NewBooks(), events).ledger, u) <= 1
      {
        OneBatchRuns(allots, NewBooks(), events);
      }
    } else {
      var events := ThrownBatchIsPaidTwice(allots);
    }
  }

  /** Whoever was paid has a row that says so, and "settled" is said only when every allotment
      is paid or was refused. */
  ghost predicate BooksAreTrue(allots: seq<Allotment>) {
    forall events :: CanHappen(allots, NewBooks(), events) && Clean(events) ==>
      Safe(History(allots, NewBooks(), events)) && Honest(allots, History(allots, NewBooks(), events))
  }

  /** The books stay true over all such runs if and only if addresses are distinct. */
  lemma {:induction false} BooksAreTrueIff(allots: seq<Allotment>)
    requires OnePerUser(allots)
    ensures BooksAreTrue(allots) <==> DistinctAddresses(allots)
  {
    if DistinctAddresses(allots) {
      forall events | CanHappen(allots, NewBooks(), events) && Clean(events)
        ensures Safe(History(allots, NewBooks(), events)) && Honest(allots, History(allots, NewBooks(), events))
      {
        RunsAreSafe(allots, NewBooks(), events);
      }
    } else {
      var e := Job({}, Returned(AllOk(|allots|)));
      AllRecordedIffDistinctAddresses(allots);
      OneEvent(allots, NewBooks(), e);
      assert Clean([e]);
    }
  }

  lemma {:induction false} OneBatchIsAllOrNothing(allots: seq<Allotment>, s: Books, e: Event)
    requires |allots| <= BatchSubmit.MAX_OPS_PER_TX
    requires e.Job? && s.status == Ended && Possible(allots, s, e)
    ensures AllOrNothing(e.submission)
  {
    OpenedIsShorter(allots, s.rows, e.blocked);
    assert e.submission.Threw? ==> e.submission.oks == [];
  }

  lemma {:induction false} OneBatchBooksAreTrue(allots: seq<Allotment>, s: Books, events: seq<Event>)
    requires Sound(allots) && |allots| <= BatchSubmit.MAX_OPS_PER_TX
    requires Safe(s) && Honest(allots, s) && CanHappen(allots, s, events)
    ensures Safe(History(allots, s, events)) && Honest(allots, History(allots, s, events))
    decreases |events|
  {
    if events != [] {
      var e := events[0];
      if e.Job? && s.status == Ended {
        OneBatchIsAllOrNothing(allots, s, e);
      }
      EventKeepsSafe(allots, s, e);
      EventKeepsHonest(allots, s, e);
      OneBatchBooksAreTrue(allots, After(allots, s, e), events[1..]);
    }
  }

  ghost predicate BooksAreAlwaysTrue(allots: seq<Allotment>) {
    forall events :: CanHappen(allots, NewBooks(), events) ==>
      Safe(History(allots, NewBooks(), events)) && Honest(allots, History(allots, NewBooks(), events))
  }

  /** Over all runs, submissions that throw included, the books stay true if and only if
      addresses are distinct and everybody fits in one batch. */
  lemma {:induction false} BooksAreAlwaysTrueIff(allots: seq<Allotment>)
    requires OnePerUser(allots)
    ensures BooksAreAlwaysTrue(allots) <==> DistinctAddresses(allots) && |allots| <= BatchSubmit.MAX_OPS_PER_TX
  {
    if |allots| > BatchSubmit.MAX_OPS_PER_TX {
      var events := ThrownBatchIsPaidTwice(allots);
      assert !SafeFor(History(allots, NewBooks(), events), allots[0].userId);
    } else if DistinctAddresses(allots) {
      forall events | CanHappen(allots, NewBooks(), events)
        ensures Safe(History(allots, NewBooks(), events)) && Honest(allots, History(allots, NewBooks(), events))
      {
        OneBatchBooksAreTrue(allots, NewBooks(), events);
      }
    } else {
      BooksAreTrueIff(allots);
    }
  }
}
