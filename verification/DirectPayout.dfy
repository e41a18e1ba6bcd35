/** The direct path of `processPayout` from end to end: the recipients it builds go through
    `submitBatchPayout`, and what the books say about a submission is what the chain did. */
module DirectPayout {
  import opened Allocation
  import opened BatchSubmit
  import opened Lists
  import opened Options
  import opened Settlement
  import Usdc

  // ---------------------------------------------------------------- recipients and flags

  /** `recipients.push({ address, amount: stroopsToUsdc(amountStroops) })`. */
  function RecipientOf(a: Allotment): Recipient {
    Recipient(a.address, Usdc.StroopsToUsdc(a.amount))
  }

  function Built(records: seq<Allotment>): (r: seq<Recipient>)
    ensures |r| == |records|
  {
    seq(|records|, i requires 0 <= i < |records| => RecipientOf(records[i]))
  }

  function Users(records: seq<Allotment>): (r: seq<string>)
    ensures |r| == |records|
  {
    seq(|records|, i requires 0 <= i < |records| => records[i].userId)
  }

  function Flags(results: seq<BatchResult>): (r: seq<bool>)
    ensures |r| == |results|
  {
    seq(|results|, i requires 0 <= i < |results| => results[i].success)
  }

  /** The records whose transfers went out among the first n. */
  function PaidRecords(records: seq<Allotment>, oks: seq<bool>, n: nat): seq<Allotment>
    requires n <= Covered(records, oks)
  {
    if n == 0 then [] else
    PaidRecords(records, oks, n - 1) + (if FlagOf(oks, n - 1) then [records[n - 1]] else [])
  }

  lemma {:induction false} PaidUsersOf(records: seq<Allotment>, oks: seq<bool>, n: nat)
    requires n <= Covered(records, oks)
    ensures PaidUsers(records, oks, n) == Users(PaidRecords(records, oks, n))
  {
    if n > 0 {
      PaidUsersOf(records, oks, n - 1);
    }
  }

  /** No recipient a payout run builds is filtered out before submission. */
  lemma {:induction false} BuiltRecipientsAreValid(winners: seq<Winner>, gross: nat, tiers: seq<Tier>, license: Option<License>, a: Allotment)
    requires LicenseFee(gross, license) <= gross && (forall w :: w in winners ==> w.address != "")
    requires a in Allotments(winners, gross, tiers, license)
    ensures IsValid(RecipientOf(a))
  {
    AllotmentsArePayable(winners, gross, tiers, license);
    Usdc.PrintedIsValidIffPositive(a.amount);
  }

  ghost predicate AllValid(records: seq<Allotment>) {
    forall a :: a in records ==> IsValid(RecipientOf(a))
  }

  lemma {:induction false} NothingFiltered(recipients: seq<Recipient>)
    requires forall i :: 0 <= i < |recipients| ==> IsValid(recipients[i])
    ensures Keep(IsValid, recipients) == recipients
  {
    hide IsValid;
    if recipients != [] {
      NothingFiltered(recipients[1..]);
    }
  }

  // ---------------------------------------------------------------- the amounts on the chain

  /** What a list of submitted recipients is worth. */
  ghost function Worth(recipients: seq<Recipient>): nat
    requires forall i :: 0 <= i < |recipients| ==> Usdc.Accepts(recipients[i].amount)
  {
    if recipients == [] then 0 else Usdc.Stroops(recipients[0].amount) + Worth(recipients[1..])
  }

  /** Each record is sent to its address with exactly its amount, so that together the chain
      pays what was allotted. */
  lemma {:induction false} ChainPaysAllotted(records: seq<Allotment>)
    ensures forall i :: 0 <= i < |records| ==>
              && Built(records)[i].address == records[i].address
              && Usdc.Accepts(Built(records)[i].amount) && Usdc.Stroops(Built(records)[i].amount) == records[i].amount
    ensures Worth(Built(records)) == Total(records)
  {
    hide Usdc.Accepts, Usdc.Stroops, Usdc.StroopsToUsdc;
    forall i | 0 <= i < |records|
      ensures Usdc.Accepts(Built(records)[i].amount) && Usdc.Stroops(Built(records)[i].amount) == records[i].amount
    {
      Usdc.PrintedParts(records[i].amount);
    }
    if records != [] {
      ChainPaysAllotted(records[1..]);
      assert Built(records)[1..] == Built(records[1..]);
    }
  }

  // ---------------------------------------------------------------- batch by batch

  lemma {:induction false} RecipientsSplit(results: seq<BatchResult>, k: nat)
    requires k < |results|
    ensures Recipients(results) == Recipients(results[..k]) + results[k].recipients + Recipients(results[k + 1..])
  {
    if k == 0 {
      assert results[..0] == [];
    } else {
      RecipientsSplit(results[1..], k - 1);
      assert results[..k][1..] == results[1..][..k - 1] && results[1..][k..] == results[k + 1..];
    }
  }

  lemma {:induction false} RecipientsAppend(results: seq<BatchResult>, r: BatchResult)
    ensures Recipients(results + [r]) == Recipients(results) + r.recipients
  {
    if results == [] {
      assert results + [r] == [r] && [r][1..] == [];
    } else {
      assert (results + [r])[1..] == results[1..] + [r];
      RecipientsAppend(results[1..], r);
    }
  }

  /** Where batch k starts. */
  function Start(total: nat, k: nat): nat {
    if k * MAX_OPS_PER_TX <= total then k * MAX_OPS_PER_TX else total
  }

  lemma {:induction false} StartsAt(results: seq<BatchResult>, total: nat, k: nat)
    requires BatchSizes(results, total) && k <= |results|
    ensures |Recipients(results[..k])| == Start(total, k)
  {
    if k > 0 {
      StartsAt(results, total, k - 1);
      assert results[..k] == results[..k - 1] + [results[k - 1]];
      RecipientsAppend(results[..k - 1], results[k - 1]);
      assert 1 <= |results[k - 1].recipients| == BatchSize(total, k - 1);
    }
  }

  lemma {:induction false} Middle<T>(a: seq<T>, b: seq<T>, c: seq<T>, whole: seq<T>)
    requires a + b + c <= whole
    ensures |a| + |b| <= |whole| && b == whole[|a|..|a| + |b|]
  {
    assert forall i :: 0 <= i < |b| ==> b[i] == (a + b + c)[|a| + i];
  }

  lemma {:induction false} BuiltSlice(records: seq<Allotment>, from: nat, until: nat)
    requires from <= until <= |records|
    ensures Built(records)[from..until] == Built(records[from..until])
  {
  }

  /** Batch k carries the records from 50 k on. */
  lemma {:induction false} BatchCarries(records: seq<Allotment>, results: seq<BatchResult>, k: nat)
    requires BatchSizes(results, |records|) && Recipients(results) <= Built(records) && k < |results|
    ensures Start(|records|, k) < Start(|records|, k + 1) <= |records|
    ensures results[k].recipients == Built(records[Start(|records|, k)..Start(|records|, k + 1)])
  {
    hide Built;
    var from, until := Start(|records|, k), Start(|records|, k + 1);
    StartsAt(results, |records|, k);
    RecipientsSplit(results, k);
    assert 1 <= |results[k].recipients| == BatchSize(|records|, k) == until - from;
    Middle(Recipients(results[..k]), results[k].recipients, Recipients(results[k + 1..]), Built(records));
    BuiltSlice(records, from, until);
  }

  ghost predicate AllFlagged(records: seq<Allotment>, oks: seq<bool>, from: nat, until: nat, ok: bool)
    requires until <= Covered(records, oks)
  {
    forall i: nat :: from <= i < until ==> FlagOf(oks, i) == ok
  }

  /** Within one batch either all records are paid or none. */
  lemma {:induction false} PaidRun(records: seq<Allotment>, oks: seq<bool>, from: nat, until: nat, ok: bool)
    requires from <= until <= Covered(records, oks) && AllFlagged(records, oks, from, until, ok)
    ensures PaidRecords(records, oks, until) == PaidRecords(records, oks, from) + (if ok then records[from..until] else [])
    decreases until
  {
    hide Covered, FlagOf;
    if from != until {
      PaidRun(records, oks, from, until - 1, ok);
      assert FlagOf(oks, until - 1) == ok;
      assert records[from..until] == records[from..until - 1] + [records[until - 1]];
    }
  }

  lemma {:induction false} BatchFlag(records: seq<Allotment>, oks: seq<bool>, k: nat)
    requires k < |oks| && Start(|records|, k) < Start(|records|, k + 1)
    ensures Start(|records|, k + 1) <= Covered(records, oks)
    ensures AllFlagged(records, oks, Start(|records|, k), Start(|records|, k + 1), oks[k])
  {
    forall i: nat | Start(|records|, k) <= i < Start(|records|, k + 1) ensures i / MAX_OPS_PER_TX == k {
    }
  }

  lemma {:induction false} BuiltAppend(a: seq<Allotment>, b: seq<Allotment>)
    ensures Built(a + b) == Built(a) + Built(b)
  {
    hide RecipientOf;
  }

  lemma {:induction false} PaidUpTo(records: seq<Allotment>, results: seq<BatchResult>, k: nat)
    requires BatchSizes(results, |records|) && Recipients(results) <= Built(records) && k <= |results|
    ensures Start(|records|, k) <= Covered(records, Flags(results))
    ensures Paid(results[..k]) == Built(PaidRecords(records, Flags(results), Start(|records|, k)))
  {
    if k > 0 {
      var oks := Flags(results);
      var from, to := Start(|records|, k - 1), Start(|records|, k);
      PaidUpTo(records, results, k - 1);
      BatchCarries(records, results, k - 1);
      assert results[..k] == results[..k - 1] + [results[k - 1]];
      PaidAppend(results[..k - 1], results[k - 1]);
      BatchFlag(records, oks, k - 1);
      PaidRun(records, oks, from, to, oks[k - 1]);
      BuiltAppend(PaidRecords(records, oks, from), if oks[k - 1] then records[from..to] else []);
    }
  }

  // ---------------------------------------------------------------- what the books are told

  /** What the caller learns, and what it does not. */
  function SubmissionOf(payouts: Payouts): Submission {
    match payouts
    case Returned(results) => Submission.Returned(Flags(results))
    case Thrown(lost) => Submission.Threw(Flags(lost))
  }

  /** The settlement model's view of a submission is what `submitBatchPayout` did: one flag per
      batch of fifty, and the transfers made are those of the records its flags say. */
  lemma {:induction false} SubmissionIsFaithful(records: seq<Allotment>, payouts: Payouts)
    requires BatchSizes(payouts.Made(), |records|) && Recipients(payouts.Made()) <= Built(records)
    requires payouts.Returned? ==> Recipients(payouts.results) == Built(records)
    requires payouts.Thrown? ==> MAX_OPS_PER_TX * |payouts.lost| < |records|
    ensures Answers(records, SubmissionOf(payouts))
    ensures var oks := SubmissionOf(payouts).oks;
            Paid(payouts.Made()) == Built(PaidRecords(records, oks, Covered(records, oks)))
  {
    var results := payouts.Made();
    StartsAt(results, |records|, |results|);
    PaidUpTo(records, results, |results|);
    assert results[..|results|] == results;
    if results != [] {
      BatchCarries(records, results, |results| - 1);
    }
  }

  method SubmitRecords(records: seq<Allotment>, store: SequenceStore, horizon: Horizon, maxBadSeqRetries: nat)
    returns (submission: Submission)
    requires AllValid(records)
    modifies store, horizon
    ensures Answers(records, submission)
    ensures horizon.transfers
         == old(horizon.transfers) + Built(PaidRecords(records, submission.oks, Covered(records, submission.oks)))
    ensures horizon.reliable ==> submission.Returned?
    ensures horizon.reliable && maxBadSeqRetries >= 1 && old(store.Readable()) ==> false !in submission.oks
  {
    NothingFiltered(Built(records));
    var payouts, _ := SubmitBatchPayout(Built(records), store, horizon, maxBadSeqRetries);
    SubmissionIsFaithful(records, payouts);
    submission := SubmissionOf(payouts);
  }

  // ---------------------------------------------------------------- the whole job

  lemma {:induction false} OpenedIsPart(allots: seq<Allotment>, rows: map<string, Row>, refused: set<string>)
    ensures forall a :: a in Opened(allots, rows, refused).1 ==> a in allots && a.userId !in refused
  {
    if allots != [] {
      OpenedIsPart(allots[..|allots| - 1], rows, refused);
    }
  }

  lemma {:induction false} PaidIsPart(allots: seq<Allotment>, rows: map<string, Row>, refused: set<string>, oks: seq<bool>, n: nat)
    requires n <= Covered(Opened(allots, rows, refused).1, oks)
    ensures forall a :: a in PaidRecords(Opened(allots, rows, refused).1, oks, n) ==> a in allots && a.userId !in refused
  {
    var records := Opened(allots, rows, refused).1;
    OpenedIsPart(allots, rows, refused);
    if n > 0 {
      PaidIsPart(allots, rows, refused, oks, n - 1);
      assert records[n - 1] in records;
    }
  }

  /** All open records were paid exactly when every batch went through. */
  lemma {:induction false} PaidLength(records: seq<Allotment>, oks: seq<bool>, n: nat)
    requires n <= Covered(records, oks)
    ensures |PaidRecords(records, oks, n)| <= n
    ensures PaidRecords(records, oks, n) == records[..n] <==> forall i: nat :: i < n ==> FlagOf(oks, i)
    ensures |PaidRecords(records, oks, n)| == n <==> forall i: nat :: i < n ==> FlagOf(oks, i)
  {
    hide Covered, FlagOf;
    if n > 0 {
      PaidLength(records, oks, n - 1);
      assert records[..n] == records[..n - 1] + [records[n - 1]];
    }
  }

  /** The status says what became of the money. */
  lemma {:induction false} SettledIffAllPaid(allots: seq<Allotment>, s: Books, refused: set<string>, submission: Submission)
    requires s.status == Ended && Answers(Opened(allots, s.rows, refused).1, submission)
    ensures var records := Opened(allots, s.rows, refused).1;
            var paid := PaidRecords(records, submission.oks, Covered(records, submission.oks));
            var t := Processed(allots, s, refused, submission);
            && (t.status == Settled <==> paid == records)
            && (t.status == Ended <==> submission.Threw?)
  {
    var records, oks := Opened(allots, s.rows, refused).1, submission.oks;
    var n := Covered(records, oks);
    PaidLength(records, oks, n);
    match submission {
      case Threw(_) =>
        StatusStays(allots, s, refused, submission);
        assert n < |records|;
      case Returned(_) =>
        hide Processed, Opened;
        JobDecidesStatus(allots, s, refused, oks);
        CoveredAll(records, oks);
        assert records[..n] == records;
        assert forall i: nat :: i < n ==> FlagOf(oks, i) == oks[i / 50];
    }
  }

  /** The whole job over a real submission: the chain and the books move together. */
  method PayChallenge(
    book: PayoutBook, allots: seq<Allotment>, blocked: set<string>,
    store: SequenceStore, horizon: Horizon, maxBadSeqRetries: nat
  )
    returns (threw: bool)
    requires AllValid(allots)
    modifies book, store, horizon
    // every transfer on the chain is entered for the user it was made for, and no other
    ensures exists paid: seq<Allotment> ::
              && horizon.transfers == old(horizon.transfers) + Built(paid)
              && book.ledger == old(book.ledger) + Users(paid)
              && (forall a :: a in paid ==> a in allots && a.userId !in blocked)
              // whatever the chain does, "settled" means that all that was open is paid now
              && (old(book.status) == Ended ==>
                    (book.status == Settled <==> paid == Opened(allots, old(book.rows), blocked).1))
    // "ended" stays only when the call throws; otherwise the job is settled or has failed
    ensures old(book.status) == Ended ==> (threw <==> book.status == Ended)
    ensures old(book.status) != Ended ==> book.Contents() == old(book.Contents())
    // on a reliable chain books that were safe stay safe, so nobody is paid twice
    ensures horizon.reliable && Sound(allots) && Safe(old(book.Contents())) ==> Safe(book.Contents())
    // on a reliable chain one job settles the challenge, whatever numbers the store held,
    // and leaves every allotment sent or refused
    ensures old(book.status) == Ended && Sound(allots) ==> Honest(allots, book.Contents())
    ensures old(book.status) == Ended && horizon.reliable && maxBadSeqRetries >= 1 && old(store.Readable()) ==>
              book.status == Settled
  {
    ghost var before := book.Contents();
    if book.status != Ended {
      assert Built([]) == [] && Users([]) == [];
      assert horizon.transfers == old(horizon.transfers) + Built([]) && book.ledger == old(book.ledger) + Users([]);
      return false;
    }
    var records := Opened(allots, book.rows, blocked).1;
    OpenedIsPart(allots, book.rows, blocked);
    var submission := SubmitRecords(records, store, horizon, maxBadSeqRetries);
    book.ProcessPayout(allots, blocked, submission);
    PaidUsersOf(records, submission.oks, Covered(records, submission.oks));
    ghost var paid := PaidRecords(records, submission.oks, Covered(records, submission.oks));
    assert horizon.transfers == old(horizon.transfers) + Built(paid);
    assert book.ledger == old(book.ledger) + Users(paid);
    threw := submission.Threw?;
    SettledIffAllPaid(allots, before, blocked, submission);
    PaidIsPart(allots, before.rows, blocked, submission.oks, Covered(records, submission.oks));
    if Sound(allots) {
      JobIsHonest(allots, before, blocked, submission);
      if horizon.reliable && Safe(before) {
        EventKeepsSafe(allots, before, Job(blocked, submission));
      }
    }
  }
}
