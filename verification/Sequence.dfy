/** Reserving Stellar sequence numbers through a shared key-value store: `reserveSequence`
    and `ensureBaseSequence` as a transition system with one step per store call, for any
    number of callers in any number of processes. */
module Sequence {
  import opened Options

  /** A string in the store, as far as the code can tell strings apart: "" is falsy yet
      `BigInt("")` is 0, a decimal parses, anything else makes `BigInt` throw. */
  datatype Text = Blank | Decimal(n: int) | Garbled
  {
    predicate Truthy() { !Blank? }

    function ToBigInt(): Option<int> {
      match this
      case Blank => Some(0)
      case Decimal(n) => Some(n)
      case Garbled => None
    }
  }

  /** One call of `reserveSequence`. */
  datatype Caller =
    | Idle
    | Missed                           // the base key was absent or empty
    | Awaiting(load: nat)              // waits for a load of its own process
    | Based(base: Text)                // `ensureBaseSequence` returned
    | Reserved(base: Text, offset: int)
    | Failed

  /** One shared base load, the value of an entry of `pendingBaseLoads`. */
  datatype Phase =
    | Fetching                         // `loadBaseSequence` is running
    | Fetched(loaded: Text)
    | Refused(loaded: Text)            // `setIfAbsent` found a value
    | Finishing(result: Text)          // only `finally` is left
    | Ready(result: Text)
    | Broken

  datatype Load = Load(process: nat, phase: Phase)

  datatype Issue = Issue(caller: nat, base: Text, offset: int)
  {
    /** `transactionSequence`: the account sequence base + offset - 1, plus one. */
    function Transaction(): Option<int> {
      match base.ToBigInt()
      case Some(n) => Some(n + (offset - 1) + 1)
      case None => None
    }
  }

  datatype State = State(
    base: Option<Text>,
    offset: Option<int>,
    process: seq<nat>,                 // which process each caller runs in
    callers: seq<Caller>,
    loads: seq<Load>,
    pending: map<nat, nat>,            // per process: its entry of `pendingBaseLoads`
    issued: seq<Issue>)                // every completed `incr`, in store order

  datatype Step =
    | Get(c: nat)
    | Join(c: nat)
    | Fetch(l: nat, loaded: int)
    | SetIfAbsent(l: nat)
    | Set(l: nat)                      // the store has no `setIfAbsent`
    | Reread(l: nat)
    | Settle(l: nat)
    | Break(l: nat)
    | Resume(c: nat)
    | Incr(c: nat)
    | Fail(c: nat)
    | ResetForget(process: nat)        // `resetSequence`: its process drops its pending load,
    | ResetBase(loaded: int)           // the base is written after a load of its own,
    | ResetOffset                      // and the offset is deleted in a second call

  predicate LoadIs(s: State, l: nat, p: Phase -> bool) {
    l < |s.loads| && p(s.loads[l].phase)
  }

  predicate Enabled(s: State, step: Step) {
    |s.process| == |s.callers| &&
    match step
    case Get(c) => c < |s.callers| && s.callers[c].Idle?
    case Join(c) => c < |s.callers| && s.callers[c].Missed?
    case Fetch(l, _) => LoadIs(s, l, (p: Phase) => p.Fetching?)
    case SetIfAbsent(l) => LoadIs(s, l, (p: Phase) => p.Fetched?)
    case Set(l) => LoadIs(s, l, (p: Phase) => p.Fetched?)
    case Reread(l) => LoadIs(s, l, (p: Phase) => p.Refused?)
    case Settle(l) => LoadIs(s, l, (p: Phase) => p.Finishing?)
    case Break(l) => LoadIs(s, l, (p: Phase) => p.Fetching? || p.Fetched? || p.Refused?)
    case Resume(c) =>
      && c < |s.callers| && s.callers[c].Awaiting?
      && LoadIs(s, s.callers[c].load, (p: Phase) => p.Ready? || p.Broken?)
    case Incr(c) => c < |s.callers| && s.callers[c].Based?
    case Fail(c) => c < |s.callers| && (s.callers[c].Idle? || s.callers[c].Based?)
    case ResetForget(_) => true
    case ResetBase(_) => true
    case ResetOffset => true
  }

  function WithCaller(s: State, c: nat, to: Caller): State
    requires c < |s.callers|
  {
    s.(callers := s.callers[c := to])
  }

  function WithPhase(s: State, l: nat, to: Phase): State
    requires l < |s.loads|
  {
    s.(loads := s.loads[l := s.loads[l].(phase := to)])
  }

  function Forget(s: State, process: nat): State {
    s.(pending := s.pending - {process})
  }

  function Apply(s: State, step: Step): State
    requires Enabled(s, step)
  {
    match step
    case Get(c) =>
      WithCaller(s, c, if s.base.Some? && s.base.value.Truthy() then Based(s.base.value) else Missed)
    case Join(c) =>
      var p := s.process[c];
      if p in s.pending then WithCaller(s, c, Awaiting(s.pending[p]))
      else
        WithCaller(s, c, Awaiting(|s.loads|))
          .(loads := s.loads + [Load(p, Fetching)], pending := s.pending[p := |s.loads|])
    case Fetch(l, n) => WithPhase(s, l, Fetched(Decimal(n)))
    case SetIfAbsent(l) =>
      var loaded := s.loads[l].phase.loaded;
      if s.base.None? then WithPhase(s, l, Finishing(loaded)).(base := Some(loaded))
      else WithPhase(s, l, Refused(loaded))
    case Set(l) =>
      var loaded := s.loads[l].phase.loaded;
      WithPhase(s, l, Finishing(loaded)).(base := Some(loaded))
    case Reread(l) =>
      WithPhase(s, l, Finishing(if s.base.Some? then s.base.value else s.loads[l].phase.loaded))
    case Settle(l) => Forget(WithPhase(s, l, Ready(s.loads[l].phase.result)), s.loads[l].process)
    case Break(l) => Forget(WithPhase(s, l, Broken), s.loads[l].process)
    case Resume(c) =>
      var phase := s.loads[s.callers[c].load].phase;
      WithCaller(s, c, if phase.Ready? then Based(phase.result) else Failed)
    case Incr(c) =>
      var next := (if s.offset.Some? then s.offset.value else 0) + 1;
      var base := s.callers[c].base;
      WithCaller(s, c, Reserved(base, next))
        .(offset := Some(next), issued := s.issued + [Issue(c, base, next)])
    case Fail(c) => WithCaller(s, c, Failed)
    case ResetForget(p) => Forget(s, p)
    case ResetBase(n) => s.(base := Some(Decimal(n)))
    case ResetOffset => s.(offset := None)
  }

  /** Every process has called `reserveSequence` any number of times; the store holds anything. */
  ghost predicate Initial(s: State) {
    && |s.process| == |s.callers|
    && (forall c :: 0 <= c < |s.callers| ==> s.callers[c].Idle?)
    && s.loads == [] && s.pending == map[] && s.issued == []
  }

  /** The steps can be taken in this order. */
  ghost predicate CanRun(s: State, steps: seq<Step>)
    decreases |steps|
  {
    steps == [] || (Enabled(s, steps[0]) && CanRun(Apply(s, steps[0]), steps[1..]))
  }

  ghost function Run(s: State, steps: seq<Step>): State
    requires CanRun(s, steps)
    decreases |steps|
  {
    if steps == [] then s else Run(Apply(s, steps[0]), steps[1..])
  }

  predicate Resets(step: Step) {
    step.ResetForget? || step.ResetBase? || step.ResetOffset?
  }

  /** The store offers `setIfAbsent` and nobody resets. */
  ghost predicate Calm(steps: seq<Step>) {
    forall i :: 0 <= i < |steps| ==> !steps[i].Set? && !Resets(steps[i])
  }

  lemma {:induction false} CalmTail(steps: seq<Step>)
    requires steps != [] && Calm(steps)
    ensures Calm(steps[1..]) && !steps[0].Set? && !Resets(steps[0])
  {
    forall i | 0 <= i < |steps[1..]| ensures !steps[1..][i].Set? && !Resets(steps[1..][i]) {
      assert steps[1..][i] == steps[i + 1];
    }
  }

  // ---------------------------------------------------------------- the invariant

  ghost predicate CallerOk(s: State, c: nat)
    requires c < |s.callers|
  {
    match s.callers[c]
    case Based(b) => s.base == Some(b)
    case Reserved(b, o) => exists k :: 0 <= k < |s.issued| && s.issued[k] == Issue(c, b, o)
    case _ => true
  }

  ghost predicate LoadOk(s: State, l: nat)
    requires l < |s.loads|
  {
    match s.loads[l].phase
    case Refused(_) => s.base.Some?
    case Finishing(b) => s.base == Some(b)
    case Ready(b) => s.base == Some(b)
    case _ => true
  }

  ghost predicate IssueOk(s: State, start: int, k: nat)
    requires k < |s.issued|
  {
    var i := s.issued[k];
    && i.offset == start + k + 1
    && s.base == Some(i.base)
    && i.caller < |s.callers| && s.callers[i.caller] == Reserved(i.base, i.offset)
  }

  /** `start` is the offset the store held at first, 0 for an absent key. */
  ghost predicate Inv(s: State, start: int) {
    && |s.process| == |s.callers|
    && (forall c :: 0 <= c < |s.callers| ==> CallerOk(s, c))
    && (forall l :: 0 <= l < |s.loads| ==> LoadOk(s, l))
    && (forall k :: 0 <= k < |s.issued| ==> IssueOk(s, start, k))
    && (if s.offset.Some? then s.offset.value else 0) == start + |s.issued|
  }

  lemma {:induction false} CallerStep(s: State, step: Step, start: int)
    requires Enabled(s, step) && Inv(s, start) && (step.Get? || step.Join? || step.Resume? || step.Fail?)
    ensures Inv(Apply(s, step), start)
  {
    var t := Apply(s, step);
    forall c | 0 <= c < |t.callers| ensures CallerOk(t, c) {
      assert CallerOk(s, c);
      if step.Resume? && c == step.c {
        assert LoadOk(s, s.callers[c].load);
      }
    }
    forall l | 0 <= l < |t.loads| ensures LoadOk(t, l) {
      assert l < |s.loads| ==> LoadOk(s, l);
    }
    forall k | 0 <= k < |t.issued| ensures IssueOk(t, start, k) {
      assert IssueOk(s, start, k);
    }
  }

  lemma {:induction false} LoadStep(s: State, step: Step, start: int)
    requires Enabled(s, step) && Inv(s, start)
    requires step.Fetch? || step.SetIfAbsent? || step.Reread? || step.Settle? || step.Break?
    ensures Inv(Apply(s, step), start)
  {
    var t := Apply(s, step);
    forall c | 0 <= c < |t.callers| ensures CallerOk(t, c) {
      assert CallerOk(s, c);
    }
    forall l | 0 <= l < |t.loads| ensures LoadOk(t, l) {
      assert LoadOk(s, l);
    }
    forall k | 0 <= k < |t.issued| ensures IssueOk(t, start, k) {
      assert IssueOk(s, start, k);
    }
  }

  lemma {:induction false} IncrStep(s: State, step: Step, start: int)
    requires Enabled(s, step) && Inv(s, start) && step.Incr?
    ensures Inv(Apply(s, step), start)
  {
    var t := Apply(s, step);
    var last := |s.issued|;
    assert CallerOk(s, step.c);
    assert t.issued[last] == Issue(step.c, s.callers[step.c].base, start + last + 1);
    forall c | 0 <= c < |t.callers| ensures CallerOk(t, c) {
      assert CallerOk(s, c);
      if c != step.c && s.callers[c].Reserved? {
        var k :| 0 <= k < |s.issued| && s.issued[k] == Issue(c, s.callers[c].base, s.callers[c].offset);
        assert t.issued[k] == s.issued[k];
      }
    }
    forall l | 0 <= l < |t.loads| ensures LoadOk(t, l) {
      assert LoadOk(s, l);
    }
    forall k | 0 <= k < |t.issued| ensures IssueOk(t, start, k) {
      if k < last {
        assert IssueOk(s, start, k);
      }
    }
  }

  lemma {:induction false} RunKeepsInv(s: State, steps: seq<Step>, start: int)
    requires Inv(s, start) && CanRun(s, steps) && Calm(steps)
    ensures Inv(Run(s, steps), start)
    decreases |steps|
  {
    if steps != [] {
      var step := steps[0];
      CalmTail(steps);
      if step.Incr? {
        IncrStep(s, step, start);
      } else if step.Get? || step.Join? || step.Resume? || step.Fail? {
        CallerStep(s, step, start);
      } else {
        LoadStep(s, step, start);
      }
      RunKeepsInv(Apply(s, step), steps[1..], start);
    }
  }

  // ---------------------------------------------------------------- what every run promises

  function TransactionOf(c: Caller): Option<int>
    requires c.Reserved?
  {
    Issue(0, c.base, c.offset).Transaction()
  }

  /** In every interleaving all reservations share one base, the one in the store, and no
      two callers hold the same transaction sequence. */
  lemma {:induction false} ReservationsAreDistinct(s: State, steps: seq<Step>, c: nat, d: nat)
    requires Initial(s) && CanRun(s, steps) && Calm(steps)
    requires var t := Run(s, steps);
             && c < |t.callers| && d < |t.callers| && c != d
             && t.callers[c].Reserved? && t.callers[d].Reserved?
    ensures var t := Run(s, steps);
            && t.base == Some(t.callers[c].base) == Some(t.callers[d].base)
            && (TransactionOf(t.callers[c]).Some? ==>
                  TransactionOf(t.callers[c]) != TransactionOf(t.callers[d]))
  {
    var start := if s.offset.Some? then s.offset.value else 0;
    RunKeepsInv(s, steps, start);
    var t := Run(s, steps);
    assert CallerOk(t, c) && CallerOk(t, d);
    var j :| 0 <= j < |t.issued| && t.issued[j] == Issue(c, t.callers[c].base, t.callers[c].offset);
    var k :| 0 <= k < |t.issued| && t.issued[k] == Issue(d, t.callers[d].base, t.callers[d].offset);
    assert IssueOk(t, start, j) && IssueOk(t, start, k);
  }

  /** With an absent offset key, n completed increments fill exactly base+1 to base+n, in
      order, and each belongs to the caller that holds it. */
  lemma {:induction false} ReservationsFillTheRange(s: State, steps: seq<Step>, k: nat)
    requires Initial(s) && s.offset.None? && CanRun(s, steps) && Calm(steps)
    requires k < |Run(s, steps).issued|
    ensures var t := Run(s, steps);
            && t.base.Some?
            && (t.base.value.ToBigInt().Some? ==>
                  t.issued[k].Transaction() == Some(t.base.value.ToBigInt().value + k + 1))
            && t.issued[k].caller < |t.callers|
            && t.callers[t.issued[k].caller] == Reserved(t.base.value, k + 1)
  {
    RunKeepsInv(s, steps, 0);
    assert IssueOk(Run(s, steps), 0, k);
  }

  /** No transaction sequence was handed out twice. */
  ghost predicate DistinctNumbers(s: State) {
    forall j, k :: 0 <= j < k < |s.issued| && s.issued[j].Transaction().Some? ==>
      s.issued[j].Transaction() != s.issued[k].Transaction()
  }

  lemma {:induction false} IssuesAreDistinct(s: State, steps: seq<Step>)
    requires Initial(s) && CanRun(s, steps) && Calm(steps)
    ensures DistinctNumbers(Run(s, steps))
  {
    var start := if s.offset.Some? then s.offset.value else 0;
    RunKeepsInv(s, steps, start);
    var t := Run(s, steps);
    forall j, k | 0 <= j < k < |t.issued| && t.issued[j].Transaction().Some?
      ensures t.issued[j].Transaction() != t.issued[k].Transaction()
    {
      assert IssueOk(t, start, j) && IssueOk(t, start, k);
    }
  }

  // ---------------------------------------------------------------- runs step by step

  /** A run grows by one enabled step. */
  lemma {:induction false} Append(s: State, steps: seq<Step>, step: Step) returns (longer: seq<Step>)
    requires CanRun(s, steps) && Enabled(Run(s, steps), step)
    ensures longer == steps + [step]
    ensures CanRun(s, longer) && Run(s, longer) == Apply(Run(s, steps), step)
    decreases |steps|
  {
    longer := steps + [step];
    if steps == [] {
      assert longer[1..] == [];
    } else {
      var rest := Append(Apply(s, steps[0]), steps[1..], step);
      assert longer[1..] == rest;
    }
  }

  /** Callers and pending entries refer to loads that exist. */
  ghost predicate WellFormed(s: State) {
    && |s.process| == |s.callers|
    && (forall c :: 0 <= c < |s.callers| && s.callers[c].Awaiting? ==> s.callers[c].load < |s.loads|)
    && (forall p :: p in s.pending ==> s.pending[p] < |s.loads|)
  }

  lemma {:induction false} RunsAreWellFormed(s: State, steps: seq<Step>)
    requires WellFormed(s) && CanRun(s, steps)
    ensures WellFormed(Run(s, steps))
    decreases |steps|
  {
    if steps != [] {
      RunsAreWellFormed(Apply(s, steps[0]), steps[1..]);
    }
  }

  // ---------------------------------------------------------------- where the base comes from

  /** Every sequence number that a load of this run brought from the chain. */
  ghost function Fetches(steps: seq<Step>): set<int> {
    set i | 0 <= i < |steps| && steps[i].Fetch? :: steps[i].loaded
  }

  predicate IsOneOf(base: Text, ns: set<int>) {
    base.Decimal? && base.n in ns
  }

  /** What the running loads carry was brought by one of these fetches. */
  ghost predicate Carry(s: State, ns: set<int>) {
    forall l :: 0 <= l < |s.loads| ==>
      match s.loads[l].phase
      case Fetched(b) => IsOneOf(b, ns)
      case Refused(b) => IsOneOf(b, ns)
      case _ => true
  }

  lemma {:induction false} StepCarries(s: State, step: Step, ns: set<int>)
    requires Enabled(s, step) && Carry(s, ns) && !step.Set? && !Resets(step)
    ensures var more := if step.Fetch? then ns + {step.loaded} else ns;
            && Carry(Apply(s, step), more)
            && (s.base.Some? ==> Apply(s, step).base == s.base)
            && (s.base.None? && Apply(s, step).base.Some? ==> IsOneOf(Apply(s, step).base.value, more))
  {
  }

  lemma {:induction false} BaseOfRun(s: State, steps: seq<Step>, ns: set<int>)
    requires CanRun(s, steps) && Calm(steps) && Carry(s, ns)
    ensures s.base.Some? ==> Run(s, steps).base == s.base
    ensures s.base.None? && Run(s, steps).base.Some? ==> IsOneOf(Run(s, steps).base.value, ns + Fetches(steps))
    decreases |steps|
  {
    if steps != [] {
      var step, rest := steps[0], steps[1..];
      var more := if step.Fetch? then ns + {step.loaded} else ns;
      CalmTail(steps);
      StepCarries(s, step, ns);
      BaseOfRun(Apply(s, step), rest, more);
      forall n | n in more + Fetches(rest) ensures n in ns + Fetches(steps) {
        if n in Fetches(rest) {
          var i :| 0 <= i < |rest| && rest[i].Fetch? && rest[i].loaded == n;
          assert steps[i + 1] == rest[i];
        }
      }
    }
  }

  /** A stored base never changes, and one that appears was loaded from the chain in this run. */
  lemma {:induction false} BaseIsLoaded(s: State, steps: seq<Step>)
    requires Initial(s) && CanRun(s, steps) && Calm(steps)
    ensures s.base.Some? ==> Run(s, steps).base == s.base
    ensures s.base.None? && Run(s, steps).base.Some? ==>
              exists n :: n in Fetches(steps) && Run(s, steps).base == Some(Decimal(n))
  {
    BaseOfRun(s, steps, {});
  }

  /** From an empty store, the numbers handed out follow on a sequence that was loaded. */
  lemma {:induction false} NumbersFollowTheChain(s: State, steps: seq<Step>) returns (n: int)
    requires Initial(s) && s.base.None? && s.offset.None? && CanRun(s, steps) && Calm(steps)
    requires Run(s, steps).issued != []
    ensures n in Fetches(steps)
    ensures forall k :: 0 <= k < |Run(s, steps).issued| ==> Run(s, steps).issued[k].Transaction() == Some(n + k + 1)
  {
    BaseIsLoaded(s, steps);
    var t := Run(s, steps);
    ReservationsFillTheRange(s, steps, 0);
    n := t.base.value.n;
    forall k | 0 <= k < |t.issued| ensures t.issued[k].Transaction() == Some(n + k + 1) {
      ReservationsFillTheRange(s, steps, k);
    }
  }

  // ---------------------------------------------------------------- loads are shared, callers get through

  predicate Running(phase: Phase) { !phase.Ready? && !phase.Broken? }

  ghost predicate PendingRuns(s: State)
    requires WellFormed(s)
  {
    forall p :: p in s.pending ==> Running(s.loads[s.pending[p]].phase) && s.loads[s.pending[p]].process == p
  }

  ghost predicate RunningIsPending(s: State) {
    forall l :: 0 <= l < |s.loads| && Running(s.loads[l].phase) ==>
      s.loads[l].process in s.pending && s.pending[s.loads[l].process] == l
  }

  /** `pendingBaseLoads` holds exactly the running load of each process. */
  ghost predicate Shared(s: State) {
    WellFormed(s) && PendingRuns(s) && RunningIsPending(s)
  }

  lemma {:induction false} CallersKeepShared(s: State, step: Step)
    requires Enabled(s, step) && Shared(s)
    requires step.Get? || step.Resume? || step.Incr? || step.Fail?
    ensures Shared(Apply(s, step))
  {
    var t := Apply(s, step);
    assert t.loads == s.loads && t.pending == s.pending;
  }

  lemma {:induction false} JoinKeepsShared(s: State, step: Step)
    requires Enabled(s, step) && Shared(s) && step.Join?
    ensures Shared(Apply(s, step))
  {
    var t, p := Apply(s, step), s.process[step.c];
    if p !in s.pending {
      forall l | 0 <= l < |t.loads| && Running(t.loads[l].phase)
        ensures t.loads[l].process in t.pending && t.pending[t.loads[l].process] == l
      {
        assert l < |s.loads| ==> s.loads[l].process in s.pending;
      }
    }
  }

  /** A load moves on. */
  lemma {:induction false} PhaseKeepsShared(s: State, l: nat, to: Phase)
    requires Shared(s) && l < |s.loads| && Running(s.loads[l].phase) && Running(to)
    ensures Shared(WithPhase(s, l, to))
  {
  }

  /** A load ends, well or badly, and its entry goes. */
  lemma {:induction false} EndKeepsShared(s: State, l: nat, to: Phase)
    requires Shared(s) && l < |s.loads| && Running(s.loads[l].phase) && !Running(to)
    ensures Shared(Forget(WithPhase(s, l, to), s.loads[l].process))
  {
    var t := Forget(WithPhase(s, l, to), s.loads[l].process);
    forall p | p in t.pending ensures Running(t.loads[t.pending[p]].phase) && t.loads[t.pending[p]].process == p {
      assert p in s.pending && s.pending[p] != l;
    }
  }

  lemma {:induction false} SameLoadsShared(s: State, t: State)
    requires Shared(s) && t == s.(base := t.base)
    ensures Shared(t)
  {
  }

  lemma {:induction false} StepKeepsShared(s: State, step: Step)
    requires Enabled(s, step) && Shared(s) && !Resets(step)
    ensures Shared(Apply(s, step))
  {
    hide Shared;
    var t := Apply(s, step);
    if step.Join? {
      JoinKeepsShared(s, step);
    } else if step.Get? || step.Resume? || step.Incr? || step.Fail? {
      CallersKeepShared(s, step);
    } else {
      var l := step.l;
      if step.Settle? || step.Break? {
        EndKeepsShared(s, l, t.loads[l].phase);
      } else {
        PhaseKeepsShared(s, l, t.loads[l].phase);
        SameLoadsShared(WithPhase(s, l, t.loads[l].phase), t);
      }
    }
  }

  lemma {:induction false} RunsAreShared(s: State, steps: seq<Step>)
    requires Shared(s) && CanRun(s, steps) && Calm(steps)
    ensures Shared(Run(s, steps))
    decreases |steps|
  {
    if steps != [] {
      CalmTail(steps);
      StepKeepsShared(s, steps[0]);
      RunsAreShared(Apply(s, steps[0]), steps[1..]);
    }
  }

  /** No process ever has two loads running at once. */
  lemma {:induction false} OneLoadPerProcess(s: State, steps: seq<Step>, l: nat, m: nat)
    requires Initial(s) && CanRun(s, steps) && Calm(steps)
    requires l < m < |Run(s, steps).loads|
    requires Running(Run(s, steps).loads[l].phase) && Running(Run(s, steps).loads[m].phase)
    ensures Run(s, steps).loads[l].process != Run(s, steps).loads[m].process
  {
    RunsAreShared(s, steps);
  }

  function Rank(phase: Phase): nat {
    match phase
    case Fetching => 4
    case Fetched(_) => 3
    case Refused(_) => 2
    case Finishing(_) => 1
    case _ => 0
  }

  /** A running load takes its next step. */
  lemma {:induction false} Advance(s: State, before: seq<Step>, l: nat, n: int) returns (steps: seq<Step>)
    requires CanRun(s, before) && Calm(before)
    requires |Run(s, before).process| == |Run(s, before).callers|
    requires l < |Run(s, before).loads| && Running(Run(s, before).loads[l].phase)
    ensures CanRun(s, steps) && Calm(steps)
    ensures var t, u := Run(s, before), Run(s, steps);
            && u.callers == t.callers && u.process == t.process && |u.loads| == |t.loads|
            && Rank(u.loads[l].phase) < Rank(t.loads[l].phase) && !u.loads[l].phase.Broken?
  {
    match Run(s, before).loads[l].phase {
      case Fetching => steps := Append(s, before, Fetch(l, n));
      case Fetched(_) => steps := Append(s, before, SetIfAbsent(l));
      case Refused(_) => steps := Append(s, before, Reread(l));
      case _ => steps := Append(s, before, Settle(l));
    }
  }

  /** A load that has not failed can be brought to its end, whatever it fetches. */
  lemma {:induction false} FinishLoad(s: State, before: seq<Step>, c: nat, n: int) returns (steps: seq<Step>)
    requires CanRun(s, before) && Calm(before)
    requires var t := Run(s, before);
             && |t.process| == |t.callers| && c < |t.callers| && t.callers[c].Awaiting?
             && t.callers[c].load < |t.loads| && !t.loads[t.callers[c].load].phase.Broken?
    ensures CanRun(s, steps) && Calm(steps)
    ensures var t := Run(s, steps);
            |t.process| == |t.callers| && c < |t.callers| && t.callers[c].Based?
    decreases Rank(Run(s, before).loads[Run(s, before).callers[c].load].phase)
  {
    var t := Run(s, before);
    var l := t.callers[c].load;
    if t.loads[l].phase.Ready? {
      steps := Append(s, before, Resume(c));
    } else {
      hide CanRun, Run, Calm;
      steps := Advance(s, before, l, n);
      steps := FinishLoad(s, steps, c, n);
    }
  }

  lemma {:induction false} ReachBase(s: State, before: seq<Step>, c: nat, n: int) returns (steps: seq<Step>)
    requires CanRun(s, before) && Calm(before)
    requires var t := Run(s, before);
             Shared(t) && c < |t.callers| && (t.callers[c].Idle? || t.callers[c].Missed?)
    ensures CanRun(s, steps) && Calm(steps)
    ensures var t := Run(s, steps);
            |t.process| == |t.callers| && c < |t.callers| && t.callers[c].Based?
  {
    steps := before;
    if Run(s, steps).callers[c].Idle? {
      steps := Append(s, steps, Get(c));
    }
    if Run(s, steps).callers[c].Missed? {
      steps := Append(s, steps, Join(c));
      steps := FinishLoad(s, steps, c, n);
    }
  }

  /** In every state a run reaches, every caller that has not failed, nor waits for a load that
      has, can still get its number, whatever the others did: no failure of theirs sticks. */
  lemma {:induction false} EveryCallerCanReserve(s: State, before: seq<Step>, c: nat, n: int) returns (steps: seq<Step>)
    requires Initial(s) && CanRun(s, before) && Calm(before) && c < |Run(s, before).callers|
    requires var t := Run(s, before);
             && WellFormed(t) && !t.callers[c].Failed?
             && (t.callers[c].Awaiting? ==> !t.loads[t.callers[c].load].phase.Broken?)
    ensures CanRun(s, steps) && Calm(steps) && c < |Run(s, steps).callers| && Run(s, steps).callers[c].Reserved?
  {
    RunsAreShared(s, before);
    var caller := Run(s, before).callers[c];
    steps := before;
    if caller.Reserved? {
      return;
    }
    if caller.Idle? || caller.Missed? {
      steps := ReachBase(s, before, c, n);
    } else if caller.Awaiting? {
      steps := FinishLoad(s, before, c, n);
    }
    steps := Append(s, steps, Incr(c));
  }

  // ---------------------------------------------------------------- exactly when a reset is safe

  /** The base a load has settled on for those who wait for it. */
  function Coming(s: State, l: nat): Option<Text>
    requires l < |s.loads|
  {
    match s.loads[l].phase
    case Finishing(b) => Some(b)
    case Ready(b) => Some(b)
    case _ => None
  }

  /** The base a caller is bound to build on, whatever the store says from now on. */
  function Held(s: State, c: nat): Option<Text>
    requires WellFormed(s) && c < |s.callers|
  {
    match s.callers[c]
    case Based(b) => Some(b)
    case Awaiting(l) => Coming(s, l)
    case Missed => if s.process[c] in s.pending then Coming(s, s.pending[s.process[c]]) else None
    case _ => None
  }

  predicate Agrees(base: Text, n: int) {
    base.ToBigInt().Some? ==> base.ToBigInt().value == n
  }

  /** Nobody in flight is bound to another base than n. */
  ghost predicate NoneStale(s: State, n: int)
    requires WellFormed(s)
  {
    forall c :: 0 <= c < |s.callers| && Held(s, c).Some? ==> Agrees(Held(s, c).value, n)
  }

  predicate AtMost(number: Option<int>, n: int) {
    number.Some? ==> number.value <= n
  }

  /** No number above n was handed out. */
  ghost predicate NumbersUpTo(s: State, n: int) {
    forall k :: 0 <= k < |s.issued| ==> AtMost(s.issued[k].Transaction(), n)
  }

  /** Further callers, in any processes. */
  function Joined(s: State, extra: seq<nat>): State {
    s.(process := s.process + extra, callers := s.callers + seq(|extra|, _ => Idle))
  }

  /** Whoever joins and whatever happens next, short of another reset, no number repeats. */
  ghost predicate StaysDistinct(s: State) {
    forall extra: seq<nat>, steps: seq<Step> :: CanRun(Joined(s, extra), steps) && Calm(steps) ==>
      DistinctNumbers(Run(Joined(s, extra), steps))
  }

  /** After the offset was deleted with base n in the store and `from` numbers handed out. */
  ghost predicate Counting(s: State, n: int, from: nat) {
    && WellFormed(s) && s.base == Some(Decimal(n)) && NoneStale(s, n)
    && from <= |s.issued|
    && (if s.offset.Some? then s.offset.value else 0) == |s.issued| - from
    && (forall k :: from <= k < |s.issued| ==> s.issued[k].offset == k - from + 1 && Agrees(s.issued[k].base, n))
  }

  lemma {:induction false} JoinCounts(s: State, c: nat, n: int, from: nat)
    requires Counting(s, n, from) && Enabled(s, Join(c))
    ensures Counting(Apply(s, Join(c)), n, from)
  {
    var t := Apply(s, Join(c));
    forall d | 0 <= d < |t.callers| && Held(t, d).Some? ensures Agrees(Held(t, d).value, n) {
      assert Held(s, d).Some? && Held(s, d) == Held(t, d);
    }
  }

  lemma {:induction false} LoadCounts(s: State, step: Step, n: int, from: nat)
    requires Counting(s, n, from) && Enabled(s, step)
    requires step.Fetch? || step.SetIfAbsent? || step.Reread? || step.Settle? || step.Break?
    ensures Counting(Apply(s, step), n, from)
  {
    var t := Apply(s, step);
    forall d | 0 <= d < |t.callers| && Held(t, d).Some? ensures Agrees(Held(t, d).value, n) {
      assert Held(t, d) == Held(s, d) || Held(t, d) == Some(Decimal(n));
    }
  }

  lemma {:induction false} CallerCounts(s: State, step: Step, n: int, from: nat)
    requires Counting(s, n, from) && Enabled(s, step)
    requires step.Get? || step.Resume? || step.Incr? || step.Fail?
    ensures Counting(Apply(s, step), n, from)
  {
    var t := Apply(s, step);
    assert Held(s, step.c).Some? ==> Agrees(Held(s, step.c).value, n);
    forall d | 0 <= d < |t.callers| && Held(t, d).Some? ensures Agrees(Held(t, d).value, n) {
      assert d != step.c ==> Held(t, d) == Held(s, d);
    }
  }

  lemma {:induction false} RunCounts(s: State, steps: seq<Step>, n: int, from: nat)
    requires Counting(s, n, from) && CanRun(s, steps) && Calm(steps)
    ensures Counting(Run(s, steps), n, from)
    ensures |s.issued| <= |Run(s, steps).issued| && Run(s, steps).issued[..|s.issued|] == s.issued
    decreases |steps|
  {
    if steps != [] {
      var step := steps[0];
      CalmTail(steps);
      if step.Join? {
        JoinCounts(s, step.c, n, from);
      } else if step.Get? || step.Resume? || step.Incr? || step.Fail? {
        CallerCounts(s, step, n, from);
      } else {
        LoadCounts(s, step, n, from);
      }
      var next := Apply(s, step);
      assert next.issued[..|s.issued|] == s.issued;
      RunCounts(next, steps[1..], n, from);
      var t := Run(s, steps);
      assert t.issued[..|s.issued|] == t.issued[..|next.issued|][..|s.issued|];
    }
  }

  lemma {:induction false} CountingIsDistinct(s: State, t: State, n: int)
    requires DistinctNumbers(s) && NumbersUpTo(s, n)
    requires Counting(t, n, |s.issued|) && t.issued[..|s.issued|] == s.issued
    ensures DistinctNumbers(t)
  {
    var from := |s.issued|;
    forall k | 0 <= k < from ensures t.issued[k] == s.issued[k] {
      assert t.issued[k] == t.issued[..from][k];
    }
    forall j, k | 0 <= j < k < |t.issued| && t.issued[j].Transaction().Some?
      ensures t.issued[j].Transaction() != t.issued[k].Transaction()
    {
      if k < from {
        assert s.issued[j].Transaction() != s.issued[k].Transaction();
      } else if j < from {
        assert AtMost(s.issued[j].Transaction(), n);
      }
    }
  }

  /** Callers that read base n and increment, one after the other. */
  function Fresh(first: nat, count: nat, n: int, offset: int): seq<Issue> {
    seq(count, i requires 0 <= i < count => Issue(first + i, Decimal(n), offset + i + 1))
  }

  function OffsetOf(s: State): int {
    if s.offset.Some? then s.offset.value else 0
  }

  lemma {:induction false} FreshCaller(s: State, before: seq<Step>, c: nat, n: int) returns (steps: seq<Step>)
    requires CanRun(s, before) && Calm(before)
    requires var t := Run(s, before);
             && t.base == Some(Decimal(n)) && |t.process| == |t.callers| && c < |t.callers| && t.callers[c].Idle?
    ensures CanRun(s, steps) && Calm(steps)
    ensures var t, u := Run(s, before), Run(s, steps);
            && u.issued == t.issued + [Issue(c, Decimal(n), OffsetOf(t) + 1)]
            && OffsetOf(u) == OffsetOf(t) + 1
            && u.base == t.base && u.process == t.process && |u.callers| == |t.callers|
            && forall d :: 0 <= d < |t.callers| && d != c ==> u.callers[d] == t.callers[d]
  {
    steps := Append(s, before, Get(c));
    steps := Append(s, steps, Incr(c));
  }

  lemma {:induction false} FreshCallers(s: State, before: seq<Step>, first: nat, count: nat, n: int) returns (steps: seq<Step>)
    requires CanRun(s, before) && Calm(before)
    requires var t := Run(s, before);
             && t.base == Some(Decimal(n)) && |t.process| == |t.callers| && first + count <= |t.callers|
             && forall c :: first <= c < first + count ==> t.callers[c].Idle?
    ensures CanRun(s, steps) && Calm(steps)
    ensures var t, u := Run(s, before), Run(s, steps);
            && u.issued == t.issued + Fresh(first, count, n, OffsetOf(t))
            && OffsetOf(u) == OffsetOf(t) + count
            && u.base == t.base && u.process == t.process && |u.callers| == |t.callers|
            && forall c :: 0 <= c < |t.callers| && !(first <= c < first + count) ==> u.callers[c] == t.callers[c]
    decreases count
  {
    hide CanRun, Run, Calm;
    if count == 0 {
      steps := before;
    } else {
      steps := FreshCallers(s, before, first, count - 1, n);
      steps := FreshCaller(s, steps, first + count - 1, n);
    }
  }

  /** A caller that waits for a settled load gets that load's base. */
  lemma {:induction false} Awaken(s: State, before: seq<Step>, c: nat, b: Text) returns (steps: seq<Step>)
    requires CanRun(s, before) && Calm(before)
    requires var t := Run(s, before);
             && WellFormed(t) && c < |t.callers| && t.callers[c].Awaiting? && Held(t, c) == Some(b)
    ensures CanRun(s, steps) && Calm(steps)
    ensures var t, u := Run(s, before), Run(s, steps);
            && u.callers == t.callers[c := Based(b)] && u.process == t.process
            && u.base == t.base && u.offset == t.offset && u.issued == t.issued
  {
    var t := Run(s, before);
    var l := t.callers[c].load;
    steps := before;
    if t.loads[l].phase.Finishing? {
      steps := Append(s, steps, Settle(l));
    }
    steps := Append(s, steps, Resume(c));
  }

  lemma {:induction false} BecomeBased(s: State, before: seq<Step>, c: nat, b: Text) returns (steps: seq<Step>)
    requires CanRun(s, before) && Calm(before)
    requires var t := Run(s, before);
             WellFormed(t) && c < |t.callers| && Held(t, c) == Some(b)
    ensures CanRun(s, steps) && Calm(steps)
    ensures var t, u := Run(s, before), Run(s, steps);
            && u.callers == t.callers[c := Based(b)] && u.process == t.process
            && u.base == t.base && u.offset == t.offset && u.issued == t.issued
  {
    var t := Run(s, before);
    match t.callers[c] {
      case Based(_) =>
        steps := before;
        assert t.callers[c := Based(b)] == t.callers;
      case Missed =>
        steps := Append(s, before, Join(c));
        steps := Awaken(s, steps, c, b);
      case _ =>
        steps := Awaken(s, before, c, b);
    }
  }

  function Cleared(s: State): State {
    s.(offset := None)
  }

  /** A number above n was handed out before: enough fresh callers reach it again. */
  lemma {:induction false} HandedOutAgain(s: State, n: int, k: nat) returns (extra: seq<nat>, steps: seq<Step>)
    requires |s.process| == |s.callers| && s.base == Some(Decimal(n)) && k < |s.issued|
    requires s.issued[k].Transaction().Some? && s.issued[k].Transaction().value > n
    ensures var t := Joined(Cleared(s), extra);
            CanRun(t, steps) && Calm(steps) && !DistinctNumbers(Run(t, steps))
  {
    var count: nat := s.issued[k].Transaction().value - n;
    extra := seq(count, _ => 0);
    var t := Joined(Cleared(s), extra);
    steps := FreshCallers(t, [], |s.callers|, count, n);
    var u := Run(t, steps);
    var last := |s.issued| + count - 1;
    assert u.issued[k] == s.issued[k];
    assert u.issued[last] == Fresh(|s.callers|, count, n, 0)[count - 1];
    assert u.issued[last].Transaction() == u.issued[k].Transaction();
  }

  /** A caller about to increment takes a number that was handed out. */
  lemma {:induction false} IncrRepeats(s: State, before: seq<Step>, c: nat, b: Text, k: nat) returns (steps: seq<Step>)
    requires CanRun(s, before) && Calm(before)
    requires var t := Run(s, before);
             && |t.process| == |t.callers| && c < |t.callers| && t.callers[c] == Based(b) && b.ToBigInt().Some?
             && k < |t.issued| && t.issued[k].Transaction() == Some(b.ToBigInt().value + OffsetOf(t) + 1)
    ensures CanRun(s, steps) && Calm(steps) && !DistinctNumbers(Run(s, steps))
  {
    var t := Run(s, before);
    steps := Append(s, before, Incr(c));
    var u := Run(s, steps);
    assert u.issued == t.issued + [Issue(c, b, OffsetOf(t) + 1)];
    assert u.issued[k].Transaction() == u.issued[|t.issued|].Transaction();
  }

  /** A caller in flight is bound to a lower base: it repeats the first fresh number. */
  lemma {:induction false} LowBaseCollides(s: State, n: int, c: nat, b: Text) returns (extra: seq<nat>, steps: seq<Step>)
    requires WellFormed(s) && s.base == Some(Decimal(n)) && c < |s.callers| && Held(s, c) == Some(b)
    requires b.ToBigInt().Some? && b.ToBigInt().value < n
    ensures var t := Joined(Cleared(s), extra);
            CanRun(t, steps) && Calm(steps) && !DistinctNumbers(Run(t, steps))
  {
    hide CanRun, Run, Calm, DistinctNumbers;
    var count: nat := n - b.ToBigInt().value;
    extra := seq(count, _ => 0);
    var t := Joined(Cleared(s), extra);
    assert Held(t, c) == Some(b);
    steps := Nothing(t);
    steps := BecomeBased(t, steps, c, b);
    steps := FreshCallers(t, steps, |s.callers|, count, n);
    assert Run(t, steps).issued[|s.issued|] == Fresh(|s.callers|, count, n, 0)[0];
    steps := IncrRepeats(t, steps, c, b, |s.issued|);
  }

  lemma {:induction false} Nothing(s: State) returns (steps: seq<Step>)
    ensures CanRun(s, steps) && Calm(steps) && Run(s, steps) == s
  {
    steps := [];
  }

  /** An issue under another base collides with the last of enough fresh callers. */
  lemma {:induction false} FreshReach(s: State, before: seq<Step>, first: nat, count: nat, n: int) returns (steps: seq<Step>)
    requires CanRun(s, before) && Calm(before) && count >= 1
    requires var t := Run(s, before);
             && t.base == Some(Decimal(n)) && |t.process| == |t.callers| && first + count <= |t.callers|
             && (forall c :: first <= c < first + count ==> t.callers[c].Idle?)
             && t.issued != [] && t.issued[|t.issued| - 1].Transaction() == Some(n + OffsetOf(t) + count)
    ensures CanRun(s, steps) && Calm(steps) && !DistinctNumbers(Run(s, steps))
  {
    steps := FreshCallers(s, before, first, count, n);
    var t, u := Run(s, before), Run(s, steps);
    var mine, last := |t.issued| - 1, |t.issued| + count - 1;
    assert u.issued[mine] == t.issued[mine];
    assert u.issued[last] == Fresh(first, count, n, OffsetOf(t))[count - 1];
    assert u.issued[mine].Transaction() == u.issued[last].Transaction();
  }

  /** A caller in flight is bound to a higher base: fresh callers reach its number later. */
  lemma {:induction false} HighBaseCollides(s: State, n: int, c: nat, b: Text) returns (extra: seq<nat>, steps: seq<Step>)
    requires WellFormed(s) && s.base == Some(Decimal(n)) && c < |s.callers| && Held(s, c) == Some(b)
    requires b.ToBigInt().Some? && b.ToBigInt().value > n
    ensures var t := Joined(Cleared(s), extra);
            CanRun(t, steps) && Calm(steps) && !DistinctNumbers(Run(t, steps))
  {
    var count: nat := b.ToBigInt().value - n;
    extra := seq(count, _ => 0);
    var t := Joined(Cleared(s), extra);
    assert Held(t, c) == Some(b);
    steps := BecomeBased(t, [], c, b);
    steps := Append(t, steps, Incr(c));
    assert Run(t, steps).issued == s.issued + [Issue(c, b, 1)];
    steps := FreshReach(t, steps, |s.callers|, count, n);
  }

  /** The failing half: a number handed out above n, or a caller bound to another base. */
  lemma {:induction false} ResetRaceCollides(s: State, n: int) returns (extra: seq<nat>, steps: seq<Step>)
    requires WellFormed(s) && s.base == Some(Decimal(n))
    requires !NumbersUpTo(s, n) || !NoneStale(s, n)
    ensures var t := Joined(Cleared(s), extra);
            CanRun(t, steps) && Calm(steps) && !DistinctNumbers(Run(t, steps))
  {
    if !NumbersUpTo(s, n) {
      var k :| 0 <= k < |s.issued| && !AtMost(s.issued[k].Transaction(), n);
      extra, steps := HandedOutAgain(s, n, k);
    } else {
      var c :| 0 <= c < |s.callers| && Held(s, c).Some? && !Agrees(Held(s, c).value, n);
      var b := Held(s, c).value;
      if b.ToBigInt().value < n {
        extra, steps := LowBaseCollides(s, n, c, b);
      } else {
        extra, steps := HighBaseCollides(s, n, c, b);
      }
    }
  }

  /** Deleting the offset under base n keeps all numbers distinct, for all time and all
      callers, if and only if they are distinct so far, none is above n, and nobody in
      flight is bound to another base. */
  lemma {:induction false} ClearingIsSafeIff(s: State, n: int)
    requires WellFormed(s) && s.base == Some(Decimal(n))
    ensures StaysDistinct(Cleared(s)) <==> DistinctNumbers(s) && NumbersUpTo(s, n) && NoneStale(s, n)
  {
    if DistinctNumbers(s) && NumbersUpTo(s, n) && NoneStale(s, n) {
      forall extra: seq<nat>, steps: seq<Step> | CanRun(Joined(Cleared(s), extra), steps) && Calm(steps)
        ensures DistinctNumbers(Run(Joined(Cleared(s), extra), steps))
      {
        var t := Joined(Cleared(s), extra);
        JoinedCounts(s, n, extra);
        RunCounts(t, steps, n, |s.issued|);
        CountingIsDistinct(s, Run(t, steps), n);
      }
    } else if DistinctNumbers(s) {
      var extra, steps := ResetRaceCollides(s, n);
    } else {
      var t := Joined(Cleared(s), []);
      assert CanRun(t, []) && Calm([]) && !DistinctNumbers(Run(t, []));
    }
  }

  lemma {:induction false} JoinedCounts(s: State, n: int, extra: seq<nat>)
    requires WellFormed(s) && s.base == Some(Decimal(n)) && NoneStale(s, n)
    ensures Counting(Joined(Cleared(s), extra), n, |s.issued|)
  {
    var t := Joined(Cleared(s), extra);
    forall c | 0 <= c < |t.callers| && Held(t, c).Some? ensures Agrees(Held(t, c).value, n) {
      assert c < |s.callers| && Held(t, c) == Held(s, c);
    }
  }

  /** Nobody is in flight. */
  ghost predicate Quiet(s: State) {
    forall c :: 0 <= c < |s.callers| ==> s.callers[c].Idle? || s.callers[c].Reserved? || s.callers[c].Failed?
  }

  /** `resetSequence` with nobody in between. */
  function ResetTo(n: int): seq<Step> {
    [ResetBase(n), ResetOffset]
  }

  lemma {:induction false} ResetRuns(s: State, n: int)
    requires |s.process| == |s.callers|
    ensures CanRun(s, ResetTo(n)) && Run(s, ResetTo(n)) == Cleared(s.(base := Some(Decimal(n))))
  {
    var steps := Append(s, [], ResetBase(n));
    steps := Append(s, steps, ResetOffset);
    assert steps == ResetTo(n);
  }

  /** With nobody in flight a reset to n is safe if and only if no number above n was handed
      out: a number that is out but not yet on the chain is enough to break it. */
  lemma {:induction false} ResetIsSafeIff(s: State, steps: seq<Step>, n: int)
    requires Initial(s) && CanRun(s, steps) && Calm(steps) && Quiet(Run(s, steps))
    ensures CanRun(Run(s, steps), ResetTo(n))
    ensures StaysDistinct(Run(Run(s, steps), ResetTo(n))) <==> NumbersUpTo(Run(s, steps), n)
  {
    RunsAreWellFormed(s, steps);
    IssuesAreDistinct(s, steps);
    var t := Run(s, steps);
    ResetRuns(t, n);
    ClearingIsSafeIff(t.(base := Some(Decimal(n))), n);
  }

  // ---------------------------------------------------------------- a store without setIfAbsent

  /** What a store without `setIfAbsent` can see, resets aside. */
  ghost predicate Plain(steps: seq<Step>) {
    forall i :: 0 <= i < |steps| ==> !steps[i].SetIfAbsent? && !Resets(steps[i])
  }

  lemma {:induction false} PlainTail(steps: seq<Step>)
    requires steps != [] && Plain(steps)
    ensures Plain(steps[1..]) && !steps[0].SetIfAbsent? && !Resets(steps[0])
  {
    forall i | 0 <= i < |steps[1..]| ensures !steps[1..][i].SetIfAbsent? && !Resets(steps[1..][i]) {
      assert steps[1..][i] == steps[i + 1];
    }
  }

  ghost predicate NoLoads(s: State) {
    && s.base.Some? && s.base.value.Truthy() && s.loads == []
    && forall c :: 0 <= c < |s.callers| ==> !s.callers[c].Missed?
  }

  /** Where a base stands, nobody loads, so nobody overwrites it. */
  lemma {:induction false} PlainIsCalm(s: State, steps: seq<Step>)
    requires NoLoads(s) && CanRun(s, steps) && Plain(steps)
    ensures Calm(steps)
    decreases |steps|
  {
    if steps != [] {
      PlainTail(steps);
      PlainIsCalm(Apply(s, steps[0]), steps[1..]);
      forall i | 0 <= i < |steps| ensures !steps[i].Set? && !Resets(steps[i]) {
        assert i > 0 ==> steps[i] == steps[1..][i - 1];
      }
    }
  }

  /** One caller reserves at most once. */
  lemma {:induction false} LonelyRun(s: State, steps: seq<Step>)
    requires |s.callers| < 2 && CanRun(s, steps)
    requires |s.issued| <= if |s.callers| == 1 && s.callers[0].Reserved? then 1 else 0
    ensures |Run(s, steps).issued| <= 1
    decreases |steps|
  {
    if steps != [] {
      LonelyRun(Apply(s, steps[0]), steps[1..]);
    }
  }

  /** A caller that missed the base loads one, overwrites what is there and builds on it. */
  lemma {:induction false} LoadOverwrites(s: State, before: seq<Step>, c: nat, n: int) returns (steps: seq<Step>)
    requires CanRun(s, before) && Plain(before)
    requires var t := Run(s, before);
             && |t.process| == |t.callers| && c < |t.callers| && t.callers[c].Missed? && t.pending == map[]
    ensures CanRun(s, steps) && Plain(steps)
    ensures var t, u := Run(s, before), Run(s, steps);
            && u.callers == t.callers[c := Based(Decimal(n))] && u.process == t.process
            && u.pending == map[] && u.offset == t.offset && u.issued == t.issued
  {
    var l := |Run(s, before).loads|;
    steps := Append(s, before, Join(c));
    steps := Append(s, steps, Fetch(l, n));
    steps := Append(s, steps, Set(l));
    steps := Append(s, steps, Settle(l));
    steps := Append(s, steps, Resume(c));
  }

  lemma {:induction false} BothMiss(s: State) returns (steps: seq<Step>)
    requires Initial(s) && |s.callers| >= 2 && (s.base.Some? ==> !s.base.value.Truthy())
    ensures CanRun(s, steps) && Plain(steps)
    ensures Run(s, steps) == s.(callers := s.callers[0 := Missed][1 := Missed])
  {
    steps := Append(s, [], Get(0));
    steps := Append(s, steps, Get(1));
  }

  /** Two callers on the bases 1000 and 1001 take one number. */
  lemma {:induction false} NeighboursCollide(s: State, before: seq<Step>) returns (steps: seq<Step>)
    requires CanRun(s, before) && Plain(before)
    requires var t := Run(s, before);
             && |t.process| == |t.callers| >= 2 && t.issued == []
             && t.callers[0] == Based(Decimal(1000)) && t.callers[1] == Based(Decimal(1001))
    ensures CanRun(s, steps) && Plain(steps) && !DistinctNumbers(Run(s, steps))
  {
    var offset := OffsetOf(Run(s, before));
    steps := Append(s, before, Incr(1));
    steps := Append(s, steps, Incr(0));
    var t := Run(s, steps);
    assert t.issued == [Issue(1, Decimal(1001), offset + 1), Issue(0, Decimal(1000), offset + 2)];
    assert t.issued[0].Transaction() == t.issued[1].Transaction();
  }

  /** Two callers that both missed the base settle on two bases and then on one number. */
  lemma {:induction false} PlainSetCollides(s: State) returns (steps: seq<Step>)
    requires Initial(s) && |s.callers| >= 2 && (s.base.Some? ==> !s.base.value.Truthy())
    ensures CanRun(s, steps) && Plain(steps) && !DistinctNumbers(Run(s, steps))
  {
    hide CanRun, Run, Plain, DistinctNumbers;
    steps := BothMiss(s);
    steps := LoadOverwrites(s, steps, 0, 1000);
    steps := LoadOverwrites(s, steps, 1, 1001);
    steps := NeighboursCollide(s, steps);
  }

  /** Without `setIfAbsent` reservations stay distinct if and only if a base is there from the
      start or there are not two callers. */
  lemma {:induction false} PlainStoreIsSafeIff(s: State)
    requires Initial(s)
    ensures (forall steps :: CanRun(s, steps) && Plain(steps) ==> DistinctNumbers(Run(s, steps)))
       <==> (s.base.Some? && s.base.value.Truthy()) || |s.callers| < 2
  {
    if s.base.Some? && s.base.value.Truthy() {
      forall steps | CanRun(s, steps) && Plain(steps) ensures DistinctNumbers(Run(s, steps)) {
        PlainIsCalm(s, steps);
        IssuesAreDistinct(s, steps);
      }
    } else if |s.callers| < 2 {
      forall steps | CanRun(s, steps) && Plain(steps) ensures DistinctNumbers(Run(s, steps)) {
        LonelyRun(s, steps);
      }
    } else {
      var steps := PlainSetCollides(s);
    }
  }
}
