/** The deposit monitor's poll loop: a persisted ledger cursor that moves only after every
    fetched deposit has been acknowledged by the webhook. */
module DepositCursor {
  import opened Lists
  import opened Options

  const EVENT_LIMIT: nat := 200

  datatype Deposit = Deposit(txHash: string, ledger: nat)

  datatype Monitor = Monitor(cursor: Option<nat>, acked: set<Deposit>)
  {
    /** `lastLedgerStr ? parseInt(lastLedgerStr, 10) : 0`. */
    function From(): nat {
      if cursor.Some? then cursor.value else 0
    }
  }

  /** What one poll meets: the store or the RPC node fails, or events arrive up to `latest`.
      Lookups fail for the deposits in `dropped`; the webhook refuses at position `refusedAt`
      if there is such an event; saving the cursor may fail. */
  datatype World =
    | RpcError
    | Reply(latest: nat, dropped: set<Deposit>, refusedAt: Option<nat>, saved: bool)

  /** All deposits ever made in a ledger range, both ends included. */
  function InRange(chain: seq<Deposit>, from: nat, to: nat): seq<Deposit> {
    Keep((d: Deposit) => from <= d.ledger <= to, chain)
  }

  /** `fetchDepositEvents`: one page of at most 200 events, minus those whose lookup fails. */
  function Fetched(chain: seq<Deposit>, from: nat, latest: nat, dropped: set<Deposit>): seq<Deposit> {
    var all := InRange(chain, from, latest);
    Keep((d: Deposit) => d !in dropped, if |all| <= EVENT_LIMIT then all else all[..EVENT_LIMIT])
  }

  function SetOf(ds: seq<Deposit>): set<Deposit> {
    set d | d in ds
  }

  function Polled(chain: seq<Deposit>, m: Monitor, w: World): Monitor {
    if w.RpcError? then m else
    var from := m.From();
    if from == 0 then (if w.saved then m.(cursor := Some(w.latest)) else m) else
    var events := Fetched(chain, from, w.latest, w.dropped);
    if w.refusedAt.Some? && w.refusedAt.value < |events| then
      m.(acked := m.acked + SetOf(events[..w.refusedAt.value]))
    else
      Monitor(if w.latest > from && w.saved then Some(w.latest) else m.cursor, m.acked + SetOf(events))
  }

  class DepositMonitor {
    var cursor: Option<nat>
    var acked: set<Deposit>

    constructor (cursor: Option<nat>)
      ensures Contents() == Monitor(cursor, {})
    {
      this.cursor, this.acked := cursor, {};
    }

    function Contents(): Monitor
      reads this
    {
      Monitor(cursor, acked)
    }

    method Poll(chain: seq<Deposit>, w: World)
      modifies this
      ensures Contents() == Polled(chain, old(Contents()), w)
    {
      if w.RpcError? {
        return;
      }
      var fromLedger := if cursor.Some? then cursor.value else 0;
      if fromLedger == 0 {
        if w.saved {
          cursor := Some(w.latest);
        }
        return;
      }
      var events := Fetched(chain, fromLedger, w.latest, w.dropped);
      for i := 0 to |events|
        invariant w.refusedAt.Some? && w.refusedAt.value < |events| ==> i <= w.refusedAt.value
        invariant acked == old(acked) + SetOf(events[..i]) && cursor == old(cursor)
      {
        if w.refusedAt == Some(i) {
          return;
        }
        assert events[..i + 1] == events[..i] + [events[i]];
        acked := acked + {events[i]};
      }
      assert events[..|events|] == events;
      if w.latest > fromLedger && w.saved {
        cursor := Some(w.latest);
      }
    }
  }

  // ---------------------------------------------------------------- runs

  function Run(chain: seq<Deposit>, m: Monitor, worlds: seq<World>): Monitor
    decreases |worlds|
  {
    if worlds == [] then m else Run(chain, Polled(chain, m, worlds[0]), worlds[1..])
  }

  /** The persisted cursor never decreases. */
  lemma {:induction false} CursorNeverDecreases(chain: seq<Deposit>, m: Monitor, worlds: seq<World>)
    ensures m.From() <= Run(chain, m, worlds).From()
    ensures m.acked <= Run(chain, m, worlds).acked
    decreases |worlds|
  {
    if worlds != [] {
      CursorNeverDecreases(chain, Polled(chain, m, worlds[0]), worlds[1..]);
    }
  }

  /** The fetch of this poll returns every deposit that is new to the monitor: above the
      cursor and not acknowledged. The page is cut out of the whole range, cursor included. */
  ghost predicate Complete(chain: seq<Deposit>, m: Monitor, w: World) {
    w.Reply? ==>
      var all := InRange(chain, m.From(), w.latest);
      forall i :: 0 <= i < |all| && all[i].ledger > m.From() && all[i] !in m.acked ==>
        i < EVENT_LIMIT && all[i] !in w.dropped
  }

  ghost predicate AllComplete(chain: seq<Deposit>, m: Monitor, worlds: seq<World>)
    decreases |worlds|
  {
    worlds == [] ||
      (Complete(chain, m, worlds[0]) && AllComplete(chain, Polled(chain, m, worlds[0]), worlds[1..]))
  }

  /** Every deposit after ledger `start` up to the cursor has been acknowledged. */
  ghost predicate Covered(chain: seq<Deposit>, start: nat, m: Monitor) {
    forall d :: d in chain && start < d.ledger <= m.From() ==> d in m.acked
  }

  lemma {:induction false} FetchedMembers(chain: seq<Deposit>, from: nat, latest: nat, dropped: set<Deposit>, d: Deposit)
    ensures d in Fetched(chain, from, latest, dropped) ==> d in chain && from <= d.ledger <= latest && d !in dropped
  {
    var all := InRange(chain, from, latest);
    KeepMembers((d: Deposit) => from <= d.ledger <= latest, chain, d);
    KeepMembers((d: Deposit) => d !in dropped, if |all| <= EVENT_LIMIT then all else all[..EVENT_LIMIT], d);
  }

  /** What is on the page and found by its lookup is fetched. */
  lemma {:induction false} FetchedAt(chain: seq<Deposit>, from: nat, latest: nat, dropped: set<Deposit>, i: nat)
    requires i < |InRange(chain, from, latest)|
    ensures var d := InRange(chain, from, latest)[i];
            i < EVENT_LIMIT && d !in dropped ==> d in Fetched(chain, from, latest, dropped)
    ensures var d := InRange(chain, from, latest)[i];
            Distinct(chain) && d in Fetched(chain, from, latest, dropped) ==> i < EVENT_LIMIT && d !in dropped
  {
    var all := InRange(chain, from, latest);
    var page := if |all| <= EVENT_LIMIT then all else all[..EVENT_LIMIT];
    KeepMembers((d: Deposit) => d !in dropped, page, all[i]);
    if i < EVENT_LIMIT {
      assert page[i] == all[i];
    }
    if Distinct(chain) {
      KeepStaysDistinct((d: Deposit) => from <= d.ledger <= latest, chain);
      assert forall j :: 0 <= j < |page| ==> page[j] == all[j];
    }
  }

  lemma {:induction false} PollKeepsCovered(chain: seq<Deposit>, start: nat, m: Monitor, w: World)
    requires 0 < start <= m.From() && Covered(chain, start, m) && Complete(chain, m, w)
    ensures Covered(chain, start, Polled(chain, m, w))
  {
    if w.Reply? {
      var t := Polled(chain, m, w);
      forall d | d in chain && start < d.ledger <= t.From() ensures d in t.acked {
        if d.ledger > m.From() && d !in m.acked {
          KeepMembers((d: Deposit) => m.From() <= d.ledger <= w.latest, chain, d);
          var all := InRange(chain, m.From(), w.latest);
          var i :| 0 <= i < |all| && all[i] == d;
          FetchedAt(chain, m.From(), w.latest, w.dropped, i);
        }
      }
    }
  }

  /** Cursor safety: over any polls with arbitrary RPC, webhook and store failures, if each
      fetch is complete, no deposit between the first cursor and the current one is missed. */
  lemma {:induction false} CursorSafety(chain: seq<Deposit>, start: nat, m: Monitor, worlds: seq<World>)
    requires 0 < start <= m.From() && Covered(chain, start, m) && AllComplete(chain, m, worlds)
    ensures Covered(chain, start, Run(chain, m, worlds))
    decreases |worlds|
  {
    if worlds != [] {
      PollKeepsCovered(chain, start, m, worlds[0]);
      CursorSafety(chain, start, Polled(chain, m, worlds[0]), worlds[1..]);
    }
  }

  // ---------------------------------------------------------------- where completeness matters

  /** A deposit left behind below the cursor is never acknowledged, whatever happens later. */
  lemma {:induction false} LeftBehindForever(chain: seq<Deposit>, m: Monitor, worlds: seq<World>, d: Deposit)
    requires d.ledger < m.From() && d !in m.acked
    ensures d !in Run(chain, m, worlds).acked
    decreases |worlds|
  {
    if worlds != [] {
      var w := worlds[0];
      if w.Reply? {
        FetchedMembers(chain, m.From(), w.latest, w.dropped, d);
      }
      LeftBehindForever(chain, Polled(chain, m, w), worlds[1..], d);
    }
  }

  /** A poll that moves the cursor has acknowledged at once everything above the old cursor up
      to the new one if and only if its fetch was complete. */
  lemma {:induction false} AllAckedIffComplete(chain: seq<Deposit>, m: Monitor, w: World)
    requires Distinct(chain) && 0 < m.From() < Polled(chain, m, w).From()
    ensures (forall d :: d in chain && m.From() < d.ledger <= Polled(chain, m, w).From() ==> d in Polled(chain, m, w).acked)
       <==> Complete(chain, m, w)
  {
    var from := m.From();
    var all := InRange(chain, from, w.latest);
    var events := Fetched(chain, from, w.latest, w.dropped);
    var t := Polled(chain, m, w);
    assert t.From() == w.latest && t.acked == m.acked + SetOf(events);
    if Complete(chain, m, w) {
      forall d | d in chain && from < d.ledger <= w.latest ensures d in t.acked {
        KeepMembers((d: Deposit) => from <= d.ledger <= w.latest, chain, d);
        var i :| 0 <= i < |all| && all[i] == d;
        FetchedAt(chain, from, w.latest, w.dropped, i);
      }
    } else {
      var i :| 0 <= i < |all| && all[i].ledger > from && all[i] !in m.acked && !(i < EVENT_LIMIT && all[i] !in w.dropped);
      FetchedAt(chain, from, w.latest, w.dropped, i);
      KeepMembers((d: Deposit) => from <= d.ledger <= w.latest, chain, all[i]);
      assert all[i] in chain && all[i] !in t.acked;
    }
  }

  // ---------------------------------------------------------------- exactly when a deposit is lost

  /** Everything below the cursor has been acknowledged. A deposit at the cursor's own ledger
      is fetched again. */
  ghost predicate NoneLost(chain: seq<Deposit>, start: nat, m: Monitor) {
    forall d :: d in chain && start <= d.ledger < m.From() ==> d in m.acked
  }

  /** If this poll moves the cursor, its page and its lookups spare no deposit that the cursor
      passes and that is still unacknowledged. */
  ghost predicate CompleteBelow(chain: seq<Deposit>, m: Monitor, w: World) {
    w.Reply? && Polled(chain, m, w).From() > m.From() ==>
      var all := InRange(chain, m.From(), w.latest);
      forall i :: 0 <= i < |all| && all[i].ledger < w.latest && all[i] !in m.acked ==>
        i < EVENT_LIMIT && all[i] !in w.dropped
  }

  ghost predicate AllCompleteBelow(chain: seq<Deposit>, m: Monitor, worlds: seq<World>)
    decreases |worlds|
  {
    worlds == [] ||
      (CompleteBelow(chain, m, worlds[0]) && AllCompleteBelow(chain, Polled(chain, m, worlds[0]), worlds[1..]))
  }

  lemma {:induction false} PollLosesNone(chain: seq<Deposit>, start: nat, m: Monitor, w: World)
    requires 0 < start <= m.From() && NoneLost(chain, start, m) && CompleteBelow(chain, m, w)
    ensures NoneLost(chain, start, Polled(chain, m, w))
  {
    var t := Polled(chain, m, w);
    if w.Reply? && t.From() > m.From() {
      var all := InRange(chain, m.From(), w.latest);
      forall d | d in chain && start <= d.ledger < t.From() ensures d in t.acked {
        if m.From() <= d.ledger && d !in m.acked {
          KeepMembers((d: Deposit) => m.From() <= d.ledger <= w.latest, chain, d);
          var i :| 0 <= i < |all| && all[i] == d;
          FetchedAt(chain, m.From(), w.latest, w.dropped, i);
        }
      }
    }
  }

  /** A poll that moves the cursor and spares one such deposit loses it for all time. */
  lemma {:induction false} IncompletePollLoses(chain: seq<Deposit>, m: Monitor, w: World) returns (d: Deposit)
    requires Distinct(chain) && 0 < m.From() && !CompleteBelow(chain, m, w)
    ensures d in chain && m.From() <= d.ledger < Polled(chain, m, w).From()
    ensures forall later: seq<World> :: d !in Run(chain, Polled(chain, m, w), later).acked
  {
    var all, t := InRange(chain, m.From(), w.latest), Polled(chain, m, w);
    var i :| 0 <= i < |all| && all[i].ledger < w.latest && all[i] !in m.acked && !(i < EVENT_LIMIT && all[i] !in w.dropped);
    d := all[i];
    FetchedAt(chain, m.From(), w.latest, w.dropped, i);
    KeepMembers((d: Deposit) => m.From() <= d.ledger <= w.latest, chain, d);
    forall later: seq<World> ensures d !in Run(chain, t, later).acked {
      LeftBehindForever(chain, t, later, d);
    }
  }

  /** Over any run no deposit below the cursor is lost if and only if every poll that moved the
      cursor had all it passed on its page and found by its lookups. */
  lemma {:induction false} NoneLostIff(chain: seq<Deposit>, start: nat, m: Monitor, worlds: seq<World>)
    requires Distinct(chain) && 0 < start <= m.From() && NoneLost(chain, start, m)
    ensures NoneLost(chain, start, Run(chain, m, worlds)) <==> AllCompleteBelow(chain, m, worlds)
    decreases |worlds|
  {
    if worlds != [] {
      var t := Polled(chain, m, worlds[0]);
      if CompleteBelow(chain, m, worlds[0]) {
        PollLosesNone(chain, start, m, worlds[0]);
        NoneLostIff(chain, start, t, worlds[1..]);
      } else {
        var d := IncompletePollLoses(chain, m, worlds[0]);
        CursorNeverDecreases(chain, t, worlds[1..]);
      }
    }
  }

  /** One failed lookup at the cursor's own ledger is enough: the cursor moves past the deposit
      and no later poll acknowledges it. */
  lemma {:induction false} FailedLookupLoses(d: Deposit, latest: nat, later: seq<World>)
    requires 0 < d.ledger < latest
    ensures var m := Monitor(Some(d.ledger), {});
            var t := Polled([d], m, Reply(latest, {d}, None, true));
            && NoneLost([d], d.ledger, m) && t.From() == latest
            && d !in Run([d], t, later).acked
  {
    var m := Monitor(Some(d.ledger), {});
    FetchedMembers([d], d.ledger, latest, {d}, d);
    LeftBehindForever([d], Polled([d], m, Reply(latest, {d}, None, true)), later, d);
  }

  // ---------------------------------------------------------------- one poll

  /** The first poll sets the cursor to the latest ledger and acknowledges nothing. */
  lemma {:induction false} FirstPoll(chain: seq<Deposit>, m: Monitor, w: World)
    requires m.From() == 0
    ensures Polled(chain, m, w).acked == m.acked
    ensures Polled(chain, m, w).cursor == if w.Reply? && w.saved then Some(w.latest) else m.cursor
  {
  }

  /** A refused deposit stops the poll: those before it are acknowledged, it and those after it
      are not, and the cursor stays. */
  lemma {:induction false} RefusalStops(chain: seq<Deposit>, m: Monitor, w: World)
    requires Distinct(chain) && m.From() > 0 && w.Reply? && w.refusedAt.Some?
    requires w.refusedAt.value < |Fetched(chain, m.From(), w.latest, w.dropped)|
    ensures var events, t := Fetched(chain, m.From(), w.latest, w.dropped), Polled(chain, m, w);
            && t.cursor == m.cursor
            && (forall i :: 0 <= i < |events| ==>
                  (events[i] in t.acked <==> i < w.refusedAt.value || events[i] in m.acked))
  {
    var events := Fetched(chain, m.From(), w.latest, w.dropped);
    FetchedIsDistinct(chain, m.From(), w.latest, w.dropped);
    forall i | 0 <= i < |events|
      ensures events[i] in events[..w.refusedAt.value] <==> i < w.refusedAt.value
    {
      if i < w.refusedAt.value {
        assert events[..w.refusedAt.value][i] == events[i];
      }
    }
  }

  lemma {:induction false} FetchedIsDistinct(chain: seq<Deposit>, from: nat, latest: nat, dropped: set<Deposit>)
    requires Distinct(chain)
    ensures Distinct(Fetched(chain, from, latest, dropped))
  {
    var all := InRange(chain, from, latest);
    var page := if |all| <= EVENT_LIMIT then all else all[..EVENT_LIMIT];
    KeepStaysDistinct((d: Deposit) => from <= d.ledger <= latest, chain);
    assert forall i :: 0 <= i < |page| ==> page[i] == all[i];
    KeepStaysDistinct((d: Deposit) => d !in dropped, page);
  }

  /** The cursor moves, to the latest ledger, exactly when that is ahead, nothing fetched was
      refused and the save went through. */
  lemma {:induction false} CursorMovesIff(chain: seq<Deposit>, m: Monitor, w: World)
    requires m.From() > 0
    ensures var t := Polled(chain, m, w);
            && (t.From() > m.From() ==> w.Reply? && t.cursor == Some(w.latest))
            && (t.From() > m.From() <==>
                  && w.Reply? && w.saved && w.latest > m.From()
                  && (w.refusedAt.Some? ==> w.refusedAt.value >= |Fetched(chain, m.From(), w.latest, w.dropped)|))
  {
  }

  /** Without refusals and failed lookups a poll acknowledges the first two hundred deposits of
      its range, the cursor's own ledger included. */
  lemma {:induction false} PageIsTwoHundred(chain: seq<Deposit>, m: Monitor, w: World, i: nat)
    requires Distinct(chain) && m.From() > 0 && w.Reply? && w.refusedAt.None? && w.dropped == {}
    requires i < |InRange(chain, m.From(), w.latest)|
    ensures var d := InRange(chain, m.From(), w.latest)[i];
            d in Polled(chain, m, w).acked <==> i < 200 || d in m.acked
  {
    FetchedAt(chain, m.From(), w.latest, w.dropped, i);
  }

  /** Nothing is acknowledged that is not a deposit at or above the cursor. */
  lemma {:induction false} OnlyDepositsAreAcked(chain: seq<Deposit>, m: Monitor, w: World, d: Deposit)
    requires d in Polled(chain, m, w).acked
    ensures d in m.acked || (w.Reply? && d in chain && 0 < m.From() <= d.ledger <= w.latest && d !in w.dropped)
  {
    if w.Reply? {
      FetchedMembers(chain, m.From(), w.latest, w.dropped, d);
    }
  }
}
