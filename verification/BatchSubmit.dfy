/** Submitting payouts in batches: `submitBatchPayout` with its retry loop, over the
    sequential `reserveSequence` and `resetSequence` and a chain that accepts only the
    next sequence number. */
module BatchSubmit {
  import opened Lists
  import opened Options
  import opened Sequence
  import Usdc

  const MAX_OPS_PER_TX: nat := 50

  datatype Recipient = Recipient(address: string, amount: string)

  datatype BatchResult = BatchResult(recipients: seq<Recipient>, success: bool)

  // ---------------------------------------------------------------- chunking and filtering

  ghost predicate ChunkSizes<T>(chunks: seq<seq<T>>, size: nat) {
    forall k :: 0 <= k < |chunks| ==> 1 <= |chunks[k]| <= size && (k < |chunks| - 1 ==> |chunks[k]| == size)
  }

  method ChunkArray<T>(items: seq<T>, size: nat) returns (chunks: seq<seq<T>>)
    requires size >= 1
    ensures Flatten(chunks) == items && ChunkSizes(chunks, size)
  {
    chunks := [];
    var i := 0;
    while i < |items|
      invariant 0 <= i
      invariant Flatten(chunks) == if i <= |items| then items[..i] else items
      invariant ChunkSizes(chunks, size)
      invariant i <= |items| ==> forall k :: 0 <= k < |chunks| ==> |chunks[k]| == size
    {
      var end := if i + size <= |items| then i + size else |items|;
      FlattenAppend(chunks, items[i..end]);
      chunks := chunks + [items[i..end]];
      i := i + size;
    }
  }

  /** The size of batch k out of `total` recipients. */
  function BatchSize(total: nat, k: nat): int {
    if MAX_OPS_PER_TX * (k + 1) <= total then MAX_OPS_PER_TX else total - MAX_OPS_PER_TX * k
  }

  /** Full chunks and a last one: chunk k starts at item 50 k. */
  lemma {:induction false} ChunksAreRegular<T>(chunks: seq<seq<T>>)
    requires ChunkSizes(chunks, MAX_OPS_PER_TX)
    ensures forall k :: 0 <= k < |chunks| ==> |chunks[k]| == BatchSize(|Flatten(chunks)|, k)
    ensures MAX_OPS_PER_TX * (|chunks| - 1) <= |Flatten(chunks)| <= MAX_OPS_PER_TX * |chunks|
  {
    if chunks != [] {
      var rest := chunks[1..];
      assert forall k :: 0 <= k < |rest| ==> rest[k] == chunks[k + 1];
      ChunksAreRegular(rest);
      if rest != [] {
        assert |chunks[0]| == MAX_OPS_PER_TX && |rest[0]| >= 1;
        forall k | 0 <= k < |chunks| ensures |chunks[k]| == BatchSize(|Flatten(chunks)|, k) {
          if k > 0 {
            assert |rest[k - 1]| == BatchSize(|Flatten(rest)|, k - 1);
          }
        }
      }
    }
  }

  /** `getInvalidRecipientReason(recipient) === null`. */
  predicate IsValid(r: Recipient) {
    r.address != "" && Usdc.IsValidStellarAmount(r.amount)
  }

  /** A recipient is valid exactly with an address and a positive amount of up to seven places. */
  lemma {:induction false} ValidRecipientIff(r: Recipient)
    ensures IsValid(r) <==> r.address != "" && Usdc.SpellsPositive(r.amount)
  {
    Usdc.ValidIff(r.amount);
  }

  // ---------------------------------------------------------------- the store and the chain

  /** The two keys of one hot wallet. The offset is text too: `incr` throws unless it is
      absent or a decimal. */
  class SequenceStore {
    var base: Option<Text>
    var offset: Option<Text>

    constructor (base: Option<Text>, offset: Option<Text>)
      ensures this.base == base && this.offset == offset
    {
      this.base, this.offset := base, offset;
    }

    /** Neither key holds text that a number cannot be read from. */
    predicate Readable()
      reads this
    {
      base != Some(Garbled) && (offset.None? || offset.value.Decimal?)
    }

    function Count(): int
      reads this
      requires Readable()
    {
      if offset.None? then 0 else offset.value.n
    }

    /** The next reservation is the account's own sequence number. */
    predicate InSync(sequence: int)
      reads this
    {
      && Readable() && base.Some?
      && base.value.ToBigInt().value + Count() == sequence
    }

    method SetIfAbsent(value: Text) returns (stored: bool)
      modifies this`base
      ensures stored == old(base).None?
      ensures base == if stored then Some(value) else old(base)
    {
      stored := base.None?;
      if stored {
        base := Some(value);
      }
    }

    /** `None` where the store rejects the call. */
    method Incr() returns (next: Option<int>)
      modifies this`offset
      ensures old(offset).None? ==> next == Some(1)
      ensures old(offset).Some? && old(offset).value.Decimal? ==> next == Some(old(offset).value.n + 1)
      ensures next.Some? ==> offset == Some(Decimal(next.value))
      ensures old(offset).Some? && !old(offset).value.Decimal? ==> next.None? && offset == old(offset)
    {
      match offset {
        case None => next := Some(1);
        case Some(Decimal(n)) => next := Some(n + 1);
        case Some(_) => next := None;
      }
      if next.Some? {
        offset := Some(Decimal(next.value));
      }
    }
  }

  datatype Answer = Accepted | BadSequence | OtherError

  /** The wallet's account on the chain. A submission takes effect as a whole or not at
      all; a reliable chain refuses nothing but a wrong sequence number and serves nobody
      else. Otherwise others may use the account's numbers at any time. */
  class Horizon {
    const reliable: bool
    var sequence: int
    var transfers: seq<Recipient>

    constructor (sequence: int, reliable: bool)
      ensures this.sequence == sequence && this.reliable == reliable && transfers == []
    {
      this.sequence, this.reliable, this.transfers := sequence, reliable, [];
    }

    method LoadAccount() returns (loaded: Option<int>)
      ensures loaded.Some? ==> loaded.value == sequence
      ensures reliable ==> loaded.Some?
    {
      var fails: bool := *;
      loaded := if !reliable && fails then None else Some(sequence);
    }

    /** A transaction built on `account` carries the number after it. */
    method Submit(account: int, batch: seq<Recipient>) returns (answer: Answer)
      modifies this
      ensures answer.Accepted? ==> sequence == account + 1 && transfers == old(transfers) + batch
      ensures !answer.Accepted? ==> transfers == old(transfers)
      ensures answer.BadSequence? ==> account != sequence
      ensures sequence >= old(sequence)
      ensures reliable ==> answer == if account == old(sequence) then Accepted else BadSequence
      ensures reliable && !answer.Accepted? ==> sequence == old(sequence)
    {
      var foreign: int := *;
      if !reliable && foreign > 0 {
        sequence := sequence + foreign;
      }
      var fails: bool := *;
      if !reliable && fails {
        return OtherError;
      }
      if account != sequence {
        return BadSequence;
      }
      sequence, transfers := account + 1, transfers + batch;
      answer := Accepted;
    }
  }

  // ---------------------------------------------------------------- reserve and reset

  /** `ensureBaseSequence` with nobody else around; `None` where it throws. */
  method EnsureBase(store: SequenceStore, horizon: Horizon) returns (base: Option<Text>)
    modifies store`base
    ensures base.Some? ==> store.base == base
    ensures old(store.base).Some? ==> store.base == old(store.base)
    ensures horizon.reliable ==> base.Some?
    ensures old(store.base).None? && base.Some? ==> base == Some(Decimal(horizon.sequence))
    ensures old(store.base).None? && base.None? ==> store.base.None?
  {
    if store.base.Some? && store.base.value.Truthy() {
      return store.base;
    }
    var loaded := horizon.LoadAccount();
    if loaded.None? {
      return None;
    }
    var stored := store.SetIfAbsent(Decimal(loaded.value));
    base := if stored then Some(Decimal(loaded.value)) else store.base;
  }

  /** The account sequence to build on: base + offset - 1; `None` where the call throws. */
  method ReserveSequence(store: SequenceStore, horizon: Horizon) returns (account: Option<int>)
    modifies store
    ensures old(store.Readable()) <==> store.Readable()
    ensures account.Some? ==> store.InSync(account.value + 1)
    ensures horizon.reliable ==> (account.Some? <==> old(store.Readable()))
    ensures old(store.InSync(horizon.sequence)) && account.Some? ==> account == Some(horizon.sequence)
    ensures old(store.InSync(horizon.sequence)) && account.None? ==> store.InSync(horizon.sequence)
  {
    var base := EnsureBase(store, horizon);
    if base.None? {
      return None;
    }
    var offset := store.Incr();
    if offset.None? {
      return None;
    }
    var n := base.value.ToBigInt();
    if n.None? {
      return None;
    }
    account := Some(n.value + (offset.value - 1));
  }

  /** `false` where `loadBaseSequence` throws and takes the whole call with it. */
  method ResetSequence(store: SequenceStore, horizon: Horizon) returns (done: bool)
    modifies store
    ensures done ==> store.InSync(horizon.sequence)
    ensures !done ==> store.base == old(store.base) && store.offset == old(store.offset)
    ensures horizon.reliable ==> done
  {
    var loaded := horizon.LoadAccount();
    if loaded.None? {
      return false;
    }
    store.base := Some(Decimal(loaded.value));
    store.offset := None;
    done := true;
  }

  // ---------------------------------------------------------------- one batch

  /** What one batch came to; `Threw` when a reset failed and the error left the loop. */
  datatype Outcome = Finished(success: bool) | Threw

  /** The loop goes on exactly while the chain answers "bad sequence" and retries are left; it
      throws where a reset fails, and gives up at once where no number can be reserved. */
  ghost predicate RetriedWhileBad(answers: seq<Answer>, resets: nat, outcome: Outcome, maxBadSeqRetries: nat) {
    && resets <= |answers| <= resets + 1
    && (forall i :: 0 <= i < |answers| - 1 ==> answers[i] == BadSequence)
    && (outcome == Finished(true) <==> answers != [] && answers[|answers| - 1] == Accepted)
    && (outcome == Threw ==> |answers| == resets + 1 <= maxBadSeqRetries && answers[resets] == BadSequence)
    && (outcome == Finished(false) && |answers| == resets + 1 ==>
          answers[resets] == OtherError || (answers[resets] == BadSequence && resets == maxBadSeqRetries))
  }

  method SubmitBatch(batch: seq<Recipient>, store: SequenceStore, horizon: Horizon, maxBadSeqRetries: nat)
    returns (outcome: Outcome, resets: nat, ghost answers: seq<Answer>)
    modifies store, horizon
    ensures RetriedWhileBad(answers, resets, outcome, maxBadSeqRetries)
    // the ledger grows by the batch exactly when success is reported
    ensures horizon.transfers == old(horizon.transfers) + (if outcome == Finished(true) then batch else [])
    ensures resets <= maxBadSeqRetries
    ensures horizon.reliable ==> outcome.Finished?
    // a store in step stays in step and needs no reset
    ensures horizon.reliable && old(store.InSync(horizon.sequence)) ==>
              outcome == Finished(true) && resets == 0 && store.InSync(horizon.sequence)
    // any readable store is healed by at most one reset
    ensures horizon.reliable && maxBadSeqRetries >= 1 && old(store.Readable()) ==>
              outcome == Finished(true) && resets <= 1 && store.InSync(horizon.sequence)
    // an unreadable one is never healed
    ensures horizon.reliable && !old(store.Readable()) ==>
              outcome == Finished(false) && resets == 0 && !store.Readable()
  {
    var attempts := 0;
    resets, answers := 0, [];
    while attempts <= maxBadSeqRetries
      invariant 0 <= attempts <= maxBadSeqRetries && resets == attempts == |answers|
      invariant forall i :: 0 <= i < |answers| ==> answers[i] == BadSequence
      invariant horizon.transfers == old(horizon.transfers)
      invariant horizon.reliable ==> horizon.sequence == old(horizon.sequence)
      invariant attempts == 0 ==> store.base == old(store.base) && store.offset == old(store.offset)
      invariant attempts > 0 ==> store.InSync(horizon.sequence)
      invariant horizon.reliable && attempts > 0 ==>
                  attempts == 1 && old(store.Readable()) && !old(store.InSync(horizon.sequence))
      decreases maxBadSeqRetries - attempts
    {
      var account := ReserveSequence(store, horizon);
      if account.None? {
        return Finished(false), resets, answers;
      }
      var answer := horizon.Submit(account.value, batch);
      answers := answers + [answer];
      if answer.Accepted? {
        return Finished(true), resets, answers;
      }
      if answer.BadSequence? && attempts < maxBadSeqRetries {
        attempts := attempts + 1;
        var done := ResetSequence(store, horizon);
        if !done {
          return Threw, resets, answers;
        }
        resets := resets + 1;
        continue;
      }
      return Finished(false), resets, answers;
    }
    outcome := Finished(false);
  }

  // ---------------------------------------------------------------- all batches

  function Recipients(results: seq<BatchResult>): seq<Recipient> {
    if results == [] then [] else results[0].recipients + Recipients(results[1..])
  }

  function Paid(results: seq<BatchResult>): seq<Recipient> {
    if results == [] then []
    else (if results[0].success then results[0].recipients else []) + Paid(results[1..])
  }

  lemma {:induction false} PaidAppend(results: seq<BatchResult>, r: BatchResult)
    ensures Paid(results + [r]) == Paid(results) + (if r.success then r.recipients else [])
  {
    if results == [] {
      assert results + [r] == [r] && [r][1..] == [];
    } else {
      assert (results + [r])[1..] == results[1..] + [r];
      PaidAppend(results[1..], r);
    }
  }

  /** One result per batch: fifty recipients each, and the rest in the last. */
  ghost predicate BatchSizes(results: seq<BatchResult>, total: nat) {
    forall k :: 0 <= k < |results| ==>
      1 <= |results[k].recipients| <= MAX_OPS_PER_TX && |results[k].recipients| == BatchSize(total, k)
  }

  /** Result k is about batch k. */
  ghost predicate AnswersFor(results: seq<BatchResult>, batches: seq<seq<Recipient>>) {
    |results| <= |batches| && forall k :: 0 <= k < |results| ==> results[k].recipients == batches[k]
  }

  lemma {:induction false} AnswersInOrder(results: seq<BatchResult>, batches: seq<seq<Recipient>>)
    requires AnswersFor(results, batches)
    ensures Recipients(results) <= Flatten(batches)
    ensures |results| == |batches| ==> Recipients(results) == Flatten(batches)
  {
    if results != [] {
      assert results[0].recipients == batches[0];
      AnswersInOrder(results[1..], batches[1..]);
    }
  }

  ghost predicate All(results: seq<BatchResult>, success: bool) {
    forall k :: 0 <= k < |results| ==> results[k].success == success
  }

  /** No batch after the first was reset, and the first at most `first` times. */
  ghost predicate ResetsAtMost(resets: seq<nat>, first: nat) {
    forall k :: 0 <= k < |resets| ==> resets[k] <= if k == 0 then first else 0
  }

  /** The call returns its results, or a failed reset throws away the results so far. */
  datatype Payouts = Returned(results: seq<BatchResult>) | Thrown(lost: seq<BatchResult>)
  {
    /** What really happened, whether or not the caller learns of it. */
    function Made(): seq<BatchResult> {
      if Returned? then results else lost
    }
  }

  /** The loop over the batches; `resets[i]` counts the resets made for batch i. */
  method SubmitAll(batches: seq<seq<Recipient>>, store: SequenceStore, horizon: Horizon, maxBadSeqRetries: nat)
    returns (payouts: Payouts, resets: seq<nat>)
    modifies store, horizon
    ensures AnswersFor(payouts.Made(), batches)
    ensures payouts.Returned? ==> |payouts.results| == |batches|
    ensures payouts.Thrown? ==> |payouts.lost| < |batches|
    ensures horizon.transfers == old(horizon.transfers) + Paid(payouts.Made())
    ensures horizon.reliable ==> payouts.Returned?
    ensures horizon.reliable && maxBadSeqRetries >= 1 && old(store.Readable()) ==>
              All(payouts.Made(), true) && ResetsAtMost(resets, 1)
    ensures horizon.reliable && old(store.InSync(horizon.sequence)) ==>
              All(payouts.Made(), true) && ResetsAtMost(resets, 0) && store.InSync(horizon.sequence)
    ensures horizon.reliable && !old(store.Readable()) ==> All(payouts.Made(), false)
  {
    hide RetriedWhileBad;
    var results: seq<BatchResult> := [];
    resets := [];
    ghost var heals := horizon.reliable && maxBadSeqRetries >= 1 && store.Readable();
    ghost var synced := horizon.reliable && store.InSync(horizon.sequence);
    ghost var stuck := horizon.reliable && !store.Readable();
    for i := 0 to |batches|
      invariant |results| == |resets| == i && AnswersFor(results, batches)
      invariant horizon.transfers == old(horizon.transfers) + Paid(results)
      invariant synced ==> store.InSync(horizon.sequence) && All(results, true) && ResetsAtMost(resets, 0)
      invariant heals ==> (if i == 0 then store.Readable() else store.InSync(horizon.sequence))
                          && All(results, true) && ResetsAtMost(resets, 1)
      invariant stuck ==> !store.Readable() && All(results, false)
    {
      var outcome, count, _ := SubmitBatch(batches[i], store, horizon, maxBadSeqRetries);
      resets := resets + [count];
      if outcome.Threw? {
        return Thrown(results), resets;
      }
      var result := BatchResult(batches[i], outcome.success);
      PaidAppend(results, result);
      results := results + [result];
    }
    payouts := Returned(results);
  }

  method SubmitBatchPayout(recipients: seq<Recipient>, store: SequenceStore, horizon: Horizon, maxBadSeqRetries: nat)
    returns (payouts: Payouts, resets: seq<nat>)
    modifies store, horizon
    // nothing is dropped or reordered, whatever the chain answers
    ensures Recipients(payouts.Made()) <= Keep(IsValid, recipients)
    ensures payouts.Returned? ==> Recipients(payouts.results) == Keep(IsValid, recipients)
    ensures BatchSizes(payouts.Made(), |Keep(IsValid, recipients)|)
    // a call that throws never got to its last batch: that one moved no money
    ensures payouts.Thrown? ==> MAX_OPS_PER_TX * |payouts.lost| < |Keep(IsValid, recipients)|
    // the ledger grows by exactly the batches that succeeded
    ensures horizon.transfers == old(horizon.transfers) + Paid(payouts.Made())
    ensures horizon.reliable ==> payouts.Returned?
    // self-healing: on a reliable chain every batch of a readable store goes through, after
    // at most one reset in the first batch
    ensures horizon.reliable && maxBadSeqRetries >= 1 && old(store.Readable()) ==>
              payouts.Returned? && All(payouts.results, true) && ResetsAtMost(resets, 1)
    // a store already in step needs no reset and stays in step
    ensures horizon.reliable && old(store.InSync(horizon.sequence)) ==>
              && payouts.Returned? && All(payouts.results, true) && ResetsAtMost(resets, 0)
              && store.InSync(horizon.sequence)
    // an unreadable store fails every batch
    ensures horizon.reliable && !old(store.Readable()) ==> payouts.Returned? && All(payouts.results, false)
  {
    var valid := Filter(IsValid, recipients);
    var batches := ChunkArray(valid, MAX_OPS_PER_TX);
    payouts, resets := SubmitAll(batches, store, horizon, maxBadSeqRetries);
    AnswersInOrder(payouts.Made(), batches);
    ChunksAreRegular(batches);
    assert payouts.Thrown? ==> |batches[|payouts.lost|]| >= 1;
  }
}
