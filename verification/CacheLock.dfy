/** The stampede-protected cache: `cached` and `withCoalescing` for one key, as a timed
    transition system with one step per Redis call, loader return or timer. */
module CacheLock {
  import opened Options

  /** Times are in milliseconds. `cached` never takes the lock again while waiting;
      `withCoalescing` does when it finds the lock gone. */
  datatype Config = Config(cacheTtl: nat, lockTtl: nat, wait: nat, poll: nat, retakesLock: bool)

  function Cached(ttlSec: nat): Config {
    Config(ttlSec * 1000, 10_000, 500, 50, false)
  }

  function WithCoalescing(ttlSec: nat, lockTtlSec: nat): Config {
    Config(ttlSec * 1000, lockTtlSec * 1000, lockTtlSec * 1000, 100, true)
  }

  datatype Entry = Entry(value: int, writtenAt: int)

  /** A waiter's clock: when it gives up, when its current round began, and how many rounds
      it has finished. */
  datatype Wait = Wait(deadline: int, since: int, rounds: nat)

  datatype Caller =
    | Start
    | Missed
    | Loading(acquired: int)                       // holds the lock from here ...
    | Storing(acquired: int, value: int)
    | Releasing(acquired: int, loaded: Option<int>) // ... to here
    | Looping(w: Wait)                             // about to test the deadline
    | Sleeping(w: Wait)
    | Checking(w: Wait)                            // about to ask whether the lock exists
    | Retaking(w: Wait)
    | LoadingAlone                                 // fell through without the lock
    | StoringAlone(value: int)
    | Hit(value: int, writtenAt: int, at: int)
    | Loaded(value: int)
    | Failed
  {
    predicate Holds() { Loading? || Storing? || Releasing? }
    predicate Waits() { Looping? || Sleeping? || Checking? || Retaking? }
  }

  datatype State = State(
    now: int,
    cache: Option<Entry>,
    lock: Option<int>,             // when it expires
    callers: seq<Caller>,
    produced: set<int>,            // every value a loader has returned
    writes: set<Entry>)            // every write made to the cache key

  datatype Step =
    | Tick(d: nat)
    | Get(c: nat)
    | Acquire(c: nat)
    | Load(c: nat, value: int)
    | LoadFails(c: nat)
    | Store(c: nat)
    | Release(c: nat)
    | Loop(c: nat)
    | Poll(c: nat)
    | Exists(c: nat)
    | Retake(c: nat)
    | Crash(c: nat)

  function CallerAt(s: State, c: nat): Caller {
    if c < |s.callers| then s.callers[c] else Failed
  }

  predicate Enabled(k: Config, s: State, step: Step) {
    match step
    case Tick(_) => true
    case Get(c) => CallerAt(s, c).Start?
    case Acquire(c) => CallerAt(s, c).Missed?
    case Load(c, _) => CallerAt(s, c).Loading? || CallerAt(s, c).LoadingAlone?
    case LoadFails(c) => CallerAt(s, c).Loading? || CallerAt(s, c).LoadingAlone?
    case Store(c) => CallerAt(s, c).Storing? || CallerAt(s, c).StoringAlone?
    case Release(c) => CallerAt(s, c).Releasing?
    case Loop(c) => CallerAt(s, c).Looping?
    case Poll(c) => CallerAt(s, c).Sleeping? && CallerAt(s, c).w.since + k.poll <= s.now
    case Exists(c) => CallerAt(s, c).Checking?
    case Retake(c) => CallerAt(s, c).Retaking?
    case Crash(c) => c < |s.callers|
  }

  /** The cache key, if it has not expired. */
  function Live(k: Config, s: State): Option<Entry> {
    if s.cache.Some? && s.now < s.cache.value.writtenAt + k.cacheTtl then s.cache else None
  }

  predicate Locked(s: State) {
    s.lock.Some? && s.now < s.lock.value
  }

  function To(s: State, c: nat, to: Caller): State
    requires c < |s.callers|
  {
    s.(callers := s.callers[c := to])
  }

  /** `SET lock NX EX`: won, or lost to a live lock. */
  function TakeLock(k: Config, s: State, c: nat, lost: Caller): State
    requires c < |s.callers|
  {
    if Locked(s) then To(s, c, lost)
    else To(s, c, Loading(s.now)).(lock := Some(s.now + k.lockTtl))
  }

  function Write(s: State, value: int): State {
    s.(cache := Some(Entry(value, s.now)), writes := s.writes + {Entry(value, s.now)})
  }

  function Apply(k: Config, s: State, step: Step): State
    requires Enabled(k, s, step)
  {
    match step
    case Tick(d) => s.(now := s.now + d)
    case Get(c) =>
      var hit := Live(k, s);
      To(s, c, if hit.Some? then Hit(hit.value.value, hit.value.writtenAt, s.now) else Missed)
    case Acquire(c) => TakeLock(k, s, c, Looping(Wait(s.now + k.wait, s.now, 0)))
    case Load(c, v) =>
      var next := if s.callers[c].Loading? then Storing(s.callers[c].acquired, v) else StoringAlone(v);
      To(s, c, next).(produced := s.produced + {v})
    case LoadFails(c) =>
      To(s, c, if s.callers[c].Loading? then Releasing(s.callers[c].acquired, None) else Failed)
    case Store(c) =>
      var v := s.callers[c].value;
      To(Write(s, v), c, if s.callers[c].Storing? then Releasing(s.callers[c].acquired, Some(v)) else Loaded(v))
    case Release(c) =>
      var loaded := s.callers[c].loaded;
      To(s, c, if loaded.Some? then Loaded(loaded.value) else Failed).(lock := None)
    case Loop(c) =>
      var w := s.callers[c].w;
      To(s, c, if s.now < w.deadline then Sleeping(w.(since := s.now)) else LoadingAlone)
    case Poll(c) =>
      var w, hit := s.callers[c].w, Live(k, s);
      var later := w.(rounds := w.rounds + 1);
      To(s, c, if hit.Some? then Hit(hit.value.value, hit.value.writtenAt, s.now)
               else if k.retakesLock then Checking(later) else Looping(later))
    case Exists(c) => To(s, c, if Locked(s) then Looping(s.callers[c].w) else Retaking(s.callers[c].w))
    case Retake(c) => TakeLock(k, s, c, Looping(s.callers[c].w))
    case Crash(c) => To(s, c, Failed)
  }

  ghost predicate Initial(s: State) {
    && (forall c :: 0 <= c < |s.callers| ==> s.callers[c].Start?)
    && (s.cache.Some? ==> s.cache.value in s.writes)
    && (forall e :: e in s.writes ==> e.value in s.produced && e.writtenAt <= s.now)
  }

  ghost predicate CanRun(k: Config, s: State, steps: seq<Step>)
    decreases |steps|
  {
    steps == [] || (Enabled(k, s, steps[0]) && CanRun(k, Apply(k, s, steps[0]), steps[1..]))
  }

  ghost function Run(k: Config, s: State, steps: seq<Step>): State
    requires CanRun(k, s, steps)
    decreases |steps|
  {
    if steps == [] then s else Run(k, Apply(k, s, steps[0]), steps[1..])
  }

  // ---------------------------------------------------------------- one loader under the lock

  /** No lock holder outlives its lock. */
  ghost predicate Timely(k: Config, s: State) {
    forall c :: 0 <= c < |s.callers| && s.callers[c].Holds() ==> s.now < s.callers[c].acquired + k.lockTtl
  }

  ghost predicate AlwaysTimely(k: Config, s: State, steps: seq<Step>)
    requires CanRun(k, s, steps)
    decreases |steps|
  {
    Timely(k, s) && (steps == [] || AlwaysTimely(k, Apply(k, s, steps[0]), steps[1..]))
  }

  /** The lock in the store is the holder's, so there is only one holder. */
  ghost predicate Exclusive(k: Config, s: State) {
    && (forall c :: 0 <= c < |s.callers| && s.callers[c].Holds() ==>
          s.lock == Some(s.callers[c].acquired + k.lockTtl))
    && (forall c, d :: 0 <= c < d < |s.callers| ==> !(s.callers[c].Holds() && s.callers[d].Holds()))
  }

  /** This caller holds the lock and its time has run out. */
  predicate Late(k: Config, s: State, c: nat) {
    c < |s.callers| && s.callers[c].Holds() && s.callers[c].acquired + k.lockTtl <= s.now
  }

  ghost predicate SomeoneLate(k: Config, s: State) {
    exists c: nat :: Late(k, s, c)
  }

  predicate Takes(step: Step) {
    step.Acquire? || step.Retake?
  }

  lemma {:induction false} FreeLockHasNoHolder(k: Config, s: State, c: nat)
    requires Exclusive(k, s) && !SomeoneLate(k, s) && !Locked(s) && c < |s.callers|
    ensures !s.callers[c].Holds()
  {
    assert !Late(k, s, c);
  }

  lemma {:induction false} OnlyHolder(k: Config, s: State, c: nat, d: nat)
    requires Exclusive(k, s) && c < |s.callers| && d < |s.callers| && s.callers[c].Holds()
    ensures d == c || !s.callers[d].Holds()
  {
  }

  lemma {:induction false} TakingKeepsExclusive(k: Config, s: State, c: nat, lost: Caller)
    requires Exclusive(k, s) && !SomeoneLate(k, s) && c < |s.callers| && !s.callers[c].Holds() && !lost.Holds()
    ensures Exclusive(k, TakeLock(k, s, c, lost))
  {
    if !Locked(s) {
      forall d | 0 <= d < |s.callers| ensures !s.callers[d].Holds() {
        FreeLockHasNoHolder(k, s, d);
      }
    }
  }

  /** A caller that keeps its lock, or was not holding and still is not. */
  lemma {:induction false} MovingKeepsExclusive(k: Config, s: State, c: nat, to: Caller)
    requires Exclusive(k, s) && c < |s.callers|
    requires to.Holds() ==> s.callers[c].Holds() && to.acquired == s.callers[c].acquired
    ensures Exclusive(k, To(s, c, to))
  {
    var t := To(s, c, to);
    forall d | 0 <= d < |t.callers| && t.callers[d].Holds()
      ensures t.lock == Some(t.callers[d].acquired + k.lockTtl)
    {
      assert s.callers[d].Holds();
    }
  }

  lemma {:induction false} StepKeepsExclusive(k: Config, s: State, step: Step)
    requires Enabled(k, s, step) && Exclusive(k, s) && (Takes(step) ==> !SomeoneLate(k, s))
    ensures Exclusive(k, Apply(k, s, step))
  {
    var t := Apply(k, s, step);
    match step
    case Tick(_) => assert t == s.(now := t.now);
    case Acquire(c) => TakingKeepsExclusive(k, s, c, Looping(Wait(s.now + k.wait, s.now, 0)));
    case Retake(c) => TakingKeepsExclusive(k, s, c, Looping(s.callers[c].w));
    case Release(c) => ReleaseKeepsExclusive(k, s, c);
    case _ => OthersKeepExclusive(k, s, step);
  }

  lemma {:induction false} ReleaseKeepsExclusive(k: Config, s: State, c: nat)
    requires Enabled(k, s, Release(c)) && Exclusive(k, s)
    ensures Exclusive(k, Apply(k, s, Release(c)))
  {
    var t := Apply(k, s, Release(c));
    forall d | 0 <= d < |t.callers| ensures !t.callers[d].Holds() {
      OnlyHolder(k, s, c, d);
    }
  }

  /** Steps of one caller that leave the lock alone. */
  lemma {:induction false} OthersKeepExclusive(k: Config, s: State, step: Step)
    requires Enabled(k, s, step) && Exclusive(k, s) && !step.Tick? && !Takes(step) && !step.Release?
    ensures Exclusive(k, Apply(k, s, step))
  {
    hide Exclusive, Live;
    var t := Apply(k, s, step);
    MovingKeepsExclusive(k, s, step.c, t.callers[step.c]);
    SameCallersExclusive(k, To(s, step.c, t.callers[step.c]), t);
  }

  lemma {:induction false} SameCallersExclusive(k: Config, s: State, t: State)
    requires Exclusive(k, s) && t.callers == s.callers && t.lock == s.lock
    ensures Exclusive(k, t)
  {
  }

  /** At most one caller loads under the lock, now. */
  ghost predicate OneHolder(s: State) {
    forall c, d :: 0 <= c < d < |s.callers| ==> !(s.callers[c].Holds() && s.callers[d].Holds())
  }

  ghost predicate AlwaysOneHolder(k: Config, s: State, steps: seq<Step>)
    requires CanRun(k, s, steps)
    decreases |steps|
  {
    OneHolder(s) && (steps == [] || AlwaysOneHolder(k, Apply(k, s, steps[0]), steps[1..]))
  }

  /** Nobody asks for the lock while a holder's lock has run out. */
  ghost predicate NoLateTake(k: Config, s: State, steps: seq<Step>)
    requires CanRun(k, s, steps)
    decreases |steps|
  {
    steps == [] ||
      ((Takes(steps[0]) ==> !SomeoneLate(k, s)) && NoLateTake(k, Apply(k, s, steps[0]), steps[1..]))
  }

  /** Asking for the lock while another caller holds it succeeds if and only if that caller
      is late. */
  lemma {:induction false} TakeSucceedsIffLate(k: Config, s: State, step: Step, c: nat)
    requires Enabled(k, s, step) && Takes(step) && Exclusive(k, s)
    requires c < |s.callers| && s.callers[c].Holds()
    ensures Apply(k, s, step).callers[c].Holds()
    ensures Apply(k, s, step).callers[step.c].Holds() <==> Late(k, s, c)
  {
    assert s.lock == Some(s.callers[c].acquired + k.lockTtl);
  }

  lemma {:induction false} RunIsExclusiveIff(k: Config, s: State, steps: seq<Step>)
    requires CanRun(k, s, steps) && Exclusive(k, s)
    ensures AlwaysOneHolder(k, s, steps) <==> NoLateTake(k, s, steps)
    ensures NoLateTake(k, s, steps) ==> Exclusive(k, Run(k, s, steps))
    decreases |steps|
  {
    if steps != [] {
      var step := steps[0];
      var t := Apply(k, s, step);
      if Takes(step) && SomeoneLate(k, s) {
        var c: nat :| Late(k, s, c);
        TakeSucceedsIffLate(k, s, step, c);
        assert !OneHolder(t) by {
          var low, high := if c < step.c then c else step.c, if c < step.c then step.c else c;
          assert t.callers[low].Holds() && t.callers[high].Holds();
        }
      } else {
        StepKeepsExclusive(k, s, step);
        RunIsExclusiveIff(k, t, steps[1..]);
      }
    }
  }

  /** Exactly when the lock does its work: in a run from the start there is never a second
      holder if and only if nobody asks for the lock while a holder's has run out. */
  lemma {:induction false} OneHolderIff(k: Config, s: State, steps: seq<Step>)
    requires Initial(s) && CanRun(k, s, steps)
    ensures AlwaysOneHolder(k, s, steps) <==> NoLateTake(k, s, steps)
  {
    RunIsExclusiveIff(k, s, steps);
  }

  /** The same for the next request, in any state such a run reaches. */
  lemma {:induction false} NextTakeJoinsIffLate(k: Config, s: State, steps: seq<Step>, step: Step, c: nat)
    requires Initial(s) && CanRun(k, s, steps) && AlwaysOneHolder(k, s, steps)
    requires var t := Run(k, s, steps);
             && Enabled(k, t, step) && Takes(step) && c < |t.callers| && t.callers[c].Holds()
    ensures var t := Run(k, s, steps);
            Apply(k, t, step).callers[step.c].Holds() <==> t.callers[c].acquired + k.lockTtl <= t.now
  {
    RunIsExclusiveIff(k, s, steps);
    TakeSucceedsIffLate(k, Run(k, s, steps), step, c);
  }

  lemma {:induction false} TimelyIsNotLate(k: Config, s: State, steps: seq<Step>)
    requires CanRun(k, s, steps) && AlwaysTimely(k, s, steps)
    ensures NoLateTake(k, s, steps)
    decreases |steps|
  {
    if steps != [] {
      assert !SomeoneLate(k, s);
      TimelyIsNotLate(k, Apply(k, s, steps[0]), steps[1..]);
    }
  }

  /** In every interleaving in which no holder outlives its lock, at most one caller loads
      under the lock. */
  lemma {:induction false} AtMostOneHolder(k: Config, s: State, steps: seq<Step>, c: nat, d: nat)
    requires Initial(s) && CanRun(k, s, steps) && AlwaysTimely(k, s, steps)
    requires c < d < |Run(k, s, steps).callers|
    ensures !(Run(k, s, steps).callers[c].Holds() && Run(k, s, steps).callers[d].Holds())
  {
    TimelyIsNotLate(k, s, steps);
    RunIsExclusiveIff(k, s, steps);
  }

  /** A run grows by one enabled step. */
  lemma {:induction false} Append(k: Config, s: State, steps: seq<Step>, step: Step) returns (longer: seq<Step>)
    requires CanRun(k, s, steps) && Enabled(k, Run(k, s, steps), step)
    ensures longer == steps + [step]
    ensures CanRun(k, s, longer) && Run(k, s, longer) == Apply(k, Run(k, s, steps), step)
    decreases |steps|
  {
    longer := steps + [step];
    if steps == [] {
      assert longer[1..] == [];
    } else {
      var rest := Append(k, Apply(k, s, steps[0]), steps[1..], step);
      assert longer[1..] == rest;
    }
  }

  /** Without that condition two callers can load under the lock at once. */
  lemma {:induction false} LateHolderIsJoined(k: Config) returns (s: State, steps: seq<Step>)
    ensures Initial(s) && CanRun(k, s, steps)
    ensures |Run(k, s, steps).callers| == 2
    ensures Run(k, s, steps).callers[0].Holds() && Run(k, s, steps).callers[1].Holds()
  {
    s := State(0, None, None, [Start, Start], {}, {});
    steps := Append(k, s, [], Get(0));
    steps := Append(k, s, steps, Get(1));
    steps := Append(k, s, steps, Acquire(0));
    steps := Append(k, s, steps, Tick(k.lockTtl));
    steps := Append(k, s, steps, Acquire(1));
  }

  // ---------------------------------------------------------------- values and freshness

  ghost predicate CallerGenuine(k: Config, s: State, c: Caller) {
    match c
    case Storing(_, v) => v in s.produced
    case StoringAlone(v) => v in s.produced
    case Releasing(_, Some(v)) => v in s.produced
    case Loaded(v) => v in s.produced
    case Hit(v, writtenAt, at) =>
      v in s.produced && Entry(v, writtenAt) in s.writes && writtenAt <= at < writtenAt + k.cacheTtl
    case _ => true
  }

  ghost predicate Genuine(k: Config, s: State) {
    && (forall c :: 0 <= c < |s.callers| ==> CallerGenuine(k, s, s.callers[c]))
    && (s.cache.Some? ==> s.cache.value in s.writes)
    && (forall e :: e in s.writes ==> e.value in s.produced && e.writtenAt <= s.now)
  }

  lemma {:induction false} StepKeepsGenuine(k: Config, s: State, step: Step)
    requires Enabled(k, s, step) && Genuine(k, s)
    ensures Genuine(k, Apply(k, s, step))
  {
    var t := Apply(k, s, step);
    forall c | 0 <= c < |t.callers| ensures CallerGenuine(k, t, t.callers[c]) {
      assert CallerGenuine(k, s, s.callers[c]);
    }
  }

  lemma {:induction false} RunKeepsGenuine(k: Config, s: State, steps: seq<Step>)
    requires CanRun(k, s, steps) && Genuine(k, s)
    ensures Genuine(k, Run(k, s, steps))
    decreases |steps|
  {
    if steps != [] {
      StepKeepsGenuine(k, s, steps[0]);
      RunKeepsGenuine(k, Apply(k, s, steps[0]), steps[1..]);
    }
  }

  /** Whatever a call returns came out of some loader call for the key; a hit was written
      less than the time to live before. No timing assumption is needed. */
  lemma {:induction false} ReturnsAreGenuine(k: Config, s: State, steps: seq<Step>, c: nat)
    requires Initial(s) && CanRun(k, s, steps) && c < |Run(k, s, steps).callers|
    ensures CallerGenuine(k, Run(k, s, steps), Run(k, s, steps).callers[c])
  {
    RunKeepsGenuine(k, s, steps);
  }

  // ---------------------------------------------------------------- waiting ends

  /** When the wait began. */
  function Begun(k: Config, w: Wait): int { w.deadline - k.wait }

  /** A round begins before the deadline and each finished round took at least one poll. */
  ghost predicate WaitOk(k: Config, s: State, c: Caller) {
    c.Waits() ==>
      && c.w.since < c.w.deadline && c.w.since <= s.now
      && Begun(k, c.w) + c.w.rounds * k.poll <= (if c.Sleeping? then c.w.since else s.now)
  }

  ghost predicate WaitsOk(k: Config, s: State) {
    forall c :: 0 <= c < |s.callers| ==> WaitOk(k, s, s.callers[c])
  }

  lemma {:induction false} StepKeepsWaits(k: Config, s: State, step: Step)
    requires Enabled(k, s, step) && WaitsOk(k, s) && k.wait > 0
    ensures WaitsOk(k, Apply(k, s, step))
  {
    var t := Apply(k, s, step);
    forall c | 0 <= c < |t.callers| ensures WaitOk(k, t, t.callers[c]) {
      assert WaitOk(k, s, s.callers[c]);
      if step.Poll? && c == step.c {
        var w := s.callers[c].w;
        assert (w.rounds + 1) * k.poll == w.rounds * k.poll + k.poll;
      }
    }
  }

  lemma {:induction false} RunKeepsWaits(k: Config, s: State, steps: seq<Step>)
    requires CanRun(k, s, steps) && WaitsOk(k, s) && k.wait > 0
    ensures WaitsOk(k, Run(k, s, steps))
    decreases |steps|
  {
    if steps != [] {
      StepKeepsWaits(k, s, steps[0]);
      RunKeepsWaits(k, Apply(k, s, steps[0]), steps[1..]);
    }
  }

  /** The clock does not pass the end of a waiter's round: `round` bounds its timer, its
      Redis calls and its turns on the event loop together. */
  ghost predicate TickInTime(s: State, step: Step, round: nat) {
    step.Tick? ==>
      forall c :: 0 <= c < |s.callers| && s.callers[c].Waits() ==> s.now + step.d <= s.callers[c].w.since + round
  }

  ghost predicate RoundsWithin(k: Config, s: State, steps: seq<Step>, round: nat)
    requires CanRun(k, s, steps)
    decreases |steps|
  {
    steps == [] ||
      (TickInTime(s, steps[0], round) && RoundsWithin(k, Apply(k, s, steps[0]), steps[1..], round))
  }

  /** So far: the current round is within its bound, and the rounds before it add up. */
  ghost predicate PaceOk(k: Config, s: State, c: Caller, round: nat) {
    c.Waits() ==>
      && s.now <= c.w.since + round
      && c.w.since <= Begun(k, c.w) + (if c.Sleeping? then c.w.rounds + 1 else c.w.rounds) * round
  }

  ghost predicate PacesOk(k: Config, s: State, round: nat) {
    forall c :: 0 <= c < |s.callers| ==> PaceOk(k, s, s.callers[c], round)
  }

  lemma {:induction false} StepKeepsPace(k: Config, s: State, step: Step, round: nat)
    requires Enabled(k, s, step) && PacesOk(k, s, round) && TickInTime(s, step, round)
    ensures PacesOk(k, Apply(k, s, step), round)
  {
    var t := Apply(k, s, step);
    forall c | 0 <= c < |t.callers| ensures PaceOk(k, t, t.callers[c], round) {
      assert PaceOk(k, s, s.callers[c], round);
      if step.Loop? && c == step.c {
        var rounds := s.callers[c].w.rounds;
        assert (rounds + 1) * round == rounds * round + round;
      }
    }
  }

  lemma {:induction false} RunKeepsPace(k: Config, s: State, steps: seq<Step>, round: nat)
    requires CanRun(k, s, steps) && PacesOk(k, s, round) && RoundsWithin(k, s, steps, round)
    ensures PacesOk(k, Run(k, s, steps), round)
    decreases |steps|
  {
    if steps != [] {
      StepKeepsPace(k, s, steps[0], round);
      RunKeepsPace(k, Apply(k, s, steps[0]), steps[1..], round);
    }
  }

  /** A caller asleep has finished fewer than wait / poll rounds, however late its timers fire. */
  lemma {:induction false} RoundsAreBounded(k: Config, s: State, steps: seq<Step>, c: nat)
    requires Initial(s) && CanRun(k, s, steps) && k.wait > 0
    requires c < |Run(k, s, steps).callers|
    ensures var t := Run(k, s, steps);
            t.callers[c].Sleeping? ==> t.callers[c].w.rounds * k.poll < k.wait
  {
    RunKeepsWaits(k, s, steps);
    assert WaitOk(k, Run(k, s, steps), Run(k, s, steps).callers[c]);
  }

  /** If no round of the run takes longer than `round`, nobody waits until that long past the
      deadline, and whoever still waits has looked at the cache once per `round`, but for the
      first round and the current one. */
  lemma {:induction false} WaitingEnds(k: Config, s: State, steps: seq<Step>, round: nat, c: nat)
    requires Initial(s) && CanRun(k, s, steps) && k.wait > 0 && RoundsWithin(k, s, steps, round)
    requires c < |Run(k, s, steps).callers| && Run(k, s, steps).callers[c].Waits()
    ensures var t := Run(k, s, steps);
            var w := t.callers[c].w;
            && t.now < w.deadline + round
            && t.now <= Begun(k, w) + (w.rounds + 2) * round
  {
    RunKeepsWaits(k, s, steps);
    RunKeepsPace(k, s, steps, round);
    var t := Run(k, s, steps);
    var w := t.callers[c].w;
    assert WaitOk(k, t, t.callers[c]) && PaceOk(k, t, t.callers[c], round);
    assert (w.rounds + 2) * round == (w.rounds + 1) * round + round == w.rounds * round + round + round;
  }

  /** `cached` polls every 50 ms: with rounds of at most 100 ms nobody waits 600 ms. */
  lemma {:induction false} CachedWait(ttlSec: nat, s: State, steps: seq<Step>, c: nat)
    requires var k := Cached(ttlSec);
             Initial(s) && CanRun(k, s, steps) && RoundsWithin(k, s, steps, 100)
    requires var t := Run(Cached(ttlSec), s, steps);
             c < |t.callers| && t.callers[c].Waits()
    ensures var t := Run(Cached(ttlSec), s, steps);
            t.now < Begun(Cached(ttlSec), t.callers[c].w) + 600 && (t.callers[c].Sleeping? ==> t.callers[c].w.rounds < 10)
  {
    WaitingEnds(Cached(ttlSec), s, steps, 100, c);
    RoundsAreBounded(Cached(ttlSec), s, steps, c);
  }

  /** `withCoalescing` waits for the life of a lock and at most one more round. */
  lemma {:induction false} CoalescedWait(ttlSec: nat, lockTtlSec: nat, round: nat, s: State, steps: seq<Step>, c: nat)
    requires var k := WithCoalescing(ttlSec, lockTtlSec);
             lockTtlSec > 0 && Initial(s) && CanRun(k, s, steps) && RoundsWithin(k, s, steps, round)
    requires var t := Run(WithCoalescing(ttlSec, lockTtlSec), s, steps);
             c < |t.callers| && t.callers[c].Waits()
    ensures var t := Run(WithCoalescing(ttlSec, lockTtlSec), s, steps);
            && t.now < Begun(WithCoalescing(ttlSec, lockTtlSec), t.callers[c].w) + lockTtlSec * 1000 + round
            && (t.callers[c].Sleeping? ==> t.callers[c].w.rounds < 10 * lockTtlSec)
  {
    WaitingEnds(WithCoalescing(ttlSec, lockTtlSec), s, steps, round, c);
    RoundsAreBounded(WithCoalescing(ttlSec, lockTtlSec), s, steps, c);
  }

  // ---------------------------------------------------------------- the cache is used

  /** A first look finds the entry exactly when it is younger than its time to live, and then
      the call ends with its value: nothing is loaded or locked. */
  lemma {:induction false} GetHitsIffFresh(k: Config, s: State, c: nat)
    requires Enabled(k, s, Get(c))
    ensures var t := Apply(k, s, Get(c));
            if s.cache.Some? && s.now - s.cache.value.writtenAt < k.cacheTtl
            then t == To(s, c, Hit(s.cache.value.value, s.cache.value.writtenAt, s.now))
            else t == To(s, c, Missed)
  {
  }

  /** So does a waiter's look, and on a miss `withCoalescing` goes on to ask for the lock. */
  lemma {:induction false} PollHitsIffFresh(k: Config, s: State, c: nat)
    requires Enabled(k, s, Poll(c))
    ensures var t := Apply(k, s, Poll(c));
            if s.cache.Some? && s.now - s.cache.value.writtenAt < k.cacheTtl
            then t == To(s, c, Hit(s.cache.value.value, s.cache.value.writtenAt, s.now))
            else (if k.retakesLock then t.callers[c].Checking? else t.callers[c].Looping?)
  {
  }

  /** Both functions keep an entry for `ttlSec` seconds. */
  lemma {:induction false} HitWithinSeconds(k: Config, ttlSec: nat, lockTtlSec: nat, s: State, c: nat)
    requires k == Cached(ttlSec) || k == WithCoalescing(ttlSec, lockTtlSec)
    requires Enabled(k, s, Get(c)) && s.cache.Some?
    ensures Apply(k, s, Get(c)).callers[c].Hit? <==> s.now - s.cache.value.writtenAt < 1000 * ttlSec
  {
  }

  ghost predicate NoStore(steps: seq<Step>) {
    forall i :: 0 <= i < |steps| ==> !steps[i].Store?
  }

  lemma {:induction false} CacheStays(k: Config, s: State, steps: seq<Step>)
    requires CanRun(k, s, steps) && NoStore(steps)
    ensures Run(k, s, steps).cache == s.cache
    decreases |steps|
  {
    if steps != [] {
      assert !steps[0].Store?;
      forall i | 0 <= i < |steps[1..]| ensures !steps[1..][i].Store? {
        assert steps[1..][i] == steps[i + 1];
      }
      CacheStays(k, Apply(k, s, steps[0]), steps[1..]);
    }
  }

  /** What one caller stores, the next one finds, until something else is stored or the time
      to live is over. */
  lemma {:induction false} StoredIsFound(k: Config, s: State, c: nat, steps: seq<Step>, d: nat)
    requires Enabled(k, s, Store(c))
    requires var t := Apply(k, s, Store(c));
             && CanRun(k, t, steps) && NoStore(steps) && Enabled(k, Run(k, t, steps), Get(d))
             && Run(k, t, steps).now - s.now < k.cacheTtl
    ensures var u := Run(k, Apply(k, s, Store(c)), steps);
            Apply(k, u, Get(d)).callers[d] == Hit(s.callers[c].value, s.now, u.now)
  {
    var t := Apply(k, s, Store(c));
    CacheStays(k, t, steps);
    GetHitsIffFresh(k, Run(k, t, steps), d);
  }

  // ---------------------------------------------------------------- the lock is given back

  ghost predicate NoTake(steps: seq<Step>) {
    forall i :: 0 <= i < |steps| ==> !Takes(steps[i])
  }

  lemma {:induction false} FreeStays(k: Config, s: State, steps: seq<Step>)
    requires CanRun(k, s, steps) && NoTake(steps) && s.lock.None?
    ensures Run(k, s, steps).lock.None?
    decreases |steps|
  {
    if steps != [] {
      assert !Takes(steps[0]);
      forall i | 0 <= i < |steps[1..]| ensures !Takes(steps[1..][i]) {
        assert steps[1..][i] == steps[i + 1];
      }
      FreeStays(k, Apply(k, s, steps[0]), steps[1..]);
    }
  }

  /** After a release the next caller to ask gets the lock. */
  lemma {:induction false} ReleasedIsTaken(k: Config, s: State, c: nat, steps: seq<Step>, take: Step)
    requires Enabled(k, s, Release(c)) && Takes(take)
    requires var t := Apply(k, s, Release(c));
             CanRun(k, t, steps) && NoTake(steps) && Enabled(k, Run(k, t, steps), take)
    ensures var u := Run(k, Apply(k, s, Release(c)), steps);
            Apply(k, u, take).callers[take.c] == Loading(u.now) && Apply(k, u, take).lock == Some(u.now + k.lockTtl)
  {
    FreeStays(k, Apply(k, s, Release(c)), steps);
  }

  /** A waiter of `withCoalescing` that finds no live lock takes it over, and otherwise waits on. */
  lemma {:induction false} WaiterTakesOverIff(k: Config, s: State, c: nat)
    requires Enabled(k, s, Exists(c))
    ensures var t := Apply(k, s, Exists(c));
            if s.lock.Some? && s.now < s.lock.value then t == To(s, c, Looping(s.callers[c].w))
            else Enabled(k, t, Retake(c)) && Apply(k, t, Retake(c)).callers[c] == Loading(s.now)
  {
  }

  ghost predicate NoCrash(steps: seq<Step>) {
    forall i :: 0 <= i < |steps| ==> !steps[i].Crash?
  }

  /** A lock in the store belongs to a caller that will release it. */
  ghost predicate LockIsHeld(k: Config, s: State) {
    s.lock.Some? ==>
      exists c :: 0 <= c < |s.callers| && s.callers[c].Holds() && s.callers[c].acquired + k.lockTtl == s.lock.value
  }

  lemma {:induction false} HolderMoves(k: Config, s: State, c: nat, to: Caller)
    requires LockIsHeld(k, s) && c < |s.callers|
    requires s.callers[c].Holds() ==> to.Holds() && to.acquired == s.callers[c].acquired
    ensures LockIsHeld(k, To(s, c, to))
  {
    if s.lock.Some? {
      var d :| 0 <= d < |s.callers| && s.callers[d].Holds() && s.callers[d].acquired + k.lockTtl == s.lock.value;
      var t := To(s, c, to);
      assert t.callers[d].Holds() && t.callers[d].acquired + k.lockTtl == s.lock.value;
    }
  }

  lemma {:induction false} StepKeepsHeld(k: Config, s: State, step: Step)
    requires Enabled(k, s, step) && LockIsHeld(k, s) && !step.Crash?
    ensures LockIsHeld(k, Apply(k, s, step))
  {
    var t := Apply(k, s, step);
    if step.Tick? {
      assert t.callers == s.callers && t.lock == s.lock;
    } else if Takes(step) && !Locked(s) {
      assert t.callers[step.c].Holds();
    } else if !step.Release? {
      HolderMoves(k, s, step.c, t.callers[step.c]);
      assert t.callers == To(s, step.c, t.callers[step.c]).callers && t.lock == s.lock;
    }
  }

  /** Unless a caller crashes, no lock is ever left behind: while it is in the store, somebody
      is at work under it. */
  lemma {:induction false} NoLockIsLeft(k: Config, s: State, steps: seq<Step>)
    requires LockIsHeld(k, s) && CanRun(k, s, steps) && NoCrash(steps)
    ensures LockIsHeld(k, Run(k, s, steps))
    decreases |steps|
  {
    if steps != [] {
      assert !steps[0].Crash?;
      forall i | 0 <= i < |steps[1..]| ensures !steps[1..][i].Crash? {
        assert steps[1..][i] == steps[i + 1];
      }
      StepKeepsHeld(k, s, steps[0]);
      NoLockIsLeft(k, Apply(k, s, steps[0]), steps[1..]);
    }
  }

  // ---------------------------------------------------------------- why a call ends as it does

  /** A value loaded came from the caller's own loader and was stored, and a failure from its
      own loader's failure or a crash. */
  ghost predicate Caused(c: Caller, id: nat, past: set<Step>) {
    match c
    case Storing(_, v) => Load(id, v) in past
    case StoringAlone(v) => Load(id, v) in past
    case Releasing(_, Some(v)) => Load(id, v) in past && Store(id) in past
    case Releasing(_, None) => LoadFails(id) in past
    case Loaded(v) => Load(id, v) in past && Store(id) in past
    case Failed => LoadFails(id) in past || Crash(id) in past
    case _ => true
  }

  lemma {:induction false} StepCauses(k: Config, s: State, step: Step, past: set<Step>, c: nat)
    requires Enabled(k, s, step) && c < |s.callers| && Caused(s.callers[c], c, past)
    ensures c < |Apply(k, s, step).callers| && Caused(Apply(k, s, step).callers[c], c, past + {step})
  {
  }

  lemma {:induction false} RunCauses(k: Config, s: State, steps: seq<Step>, past: set<Step>, c: nat)
    requires CanRun(k, s, steps) && c < |s.callers| && Caused(s.callers[c], c, past)
    ensures c < |Run(k, s, steps).callers|
    ensures Caused(Run(k, s, steps).callers[c], c, past + (set step | step in steps))
    decreases |steps|
  {
    if steps != [] {
      var first, rest := steps[0], steps[1..];
      StepCauses(k, s, first, past, c);
      RunCauses(k, Apply(k, s, first), rest, past + {first}, c);
      assert steps == [first] + rest;
      assert past + {first} + (set step | step in rest) == past + (set step | step in steps);
    } else {
      assert past + (set step | step in steps) == past;
    }
  }

  /** How a call ends is its own loader's doing, or the cache's. */
  lemma {:induction false} EndsForAReason(k: Config, s: State, steps: seq<Step>, c: nat)
    requires Initial(s) && CanRun(k, s, steps) && c < |s.callers|
    ensures c < |Run(k, s, steps).callers|
    ensures var end := Run(k, s, steps).callers[c];
            && (end.Loaded? ==> Load(c, end.value) in steps && Store(c) in steps)
            && (end.Failed? ==> LoadFails(c) in steps || Crash(c) in steps)
  {
    RunCauses(k, s, steps, {}, c);
  }

  // ---------------------------------------------------------------- every call can end

  predicate Done(c: Caller) { c.Hit? || c.Loaded? || c.Failed? }

  /** The loader has failed, or the call is over without a value. */
  predicate Doomed(c: Caller) { c.Failed? || (c.Releasing? && c.loaded.None?) }

  /** Steps to go when every loader answers and waiting is cut short by the deadline. */
  function ToGo(c: Caller): nat {
    match c
    case Start => 9
    case Missed => 8
    case Sleeping(_) => 7
    case Checking(_) => 6
    case Retaking(_) => 5
    case Looping(_) => 4
    case Loading(_) => 3
    case LoadingAlone => 3
    case Storing(_, _) => 2
    case StoringAlone(_) => 2
    case Releasing(_, _) => 1
    case _ => 0
  }

  function NextStep(caller: Caller, c: nat, v: int): Step {
    match caller
    case Start => Get(c)
    case Missed => Acquire(c)
    case Sleeping(_) => Poll(c)
    case Checking(_) => Exists(c)
    case Retaking(_) => Retake(c)
    case Looping(_) => Loop(c)
    case Loading(_) => Load(c, v)
    case LoadingAlone => Load(c, v)
    case Storing(_, _) => Store(c)
    case StoringAlone(_) => Store(c)
    case _ => Release(c)
  }

  /** How long until that step is due and leads on. */
  function DueIn(k: Config, s: State, caller: Caller): nat {
    var due := if caller.Sleeping? then caller.w.since + k.poll else if caller.Looping? then caller.w.deadline else s.now;
    if due > s.now then due - s.now else 0
  }

  lemma {:induction false} NextStepLeadsOn(k: Config, s: State, c: nat, v: int)
    requires c < |s.callers| && !Done(s.callers[c]) && DueIn(k, s, s.callers[c]) == 0
    ensures Enabled(k, s, NextStep(s.callers[c], c, v))
    ensures var t := Apply(k, s, NextStep(s.callers[c], c, v));
            && c < |t.callers| && ToGo(t.callers[c]) < ToGo(s.callers[c])
            && (Doomed(t.callers[c]) ==> Doomed(s.callers[c]))
  {
  }

  /** Whatever state a call is in, it comes nearer to its end, given time. */
  lemma {:induction false} CanMove(k: Config, s: State, before: seq<Step>, c: nat, v: int) returns (steps: seq<Step>)
    requires CanRun(k, s, before)
    requires c < |Run(k, s, before).callers| && !Done(Run(k, s, before).callers[c])
    ensures CanRun(k, s, steps) && c < |Run(k, s, steps).callers|
    ensures ToGo(Run(k, s, steps).callers[c]) < ToGo(Run(k, s, before).callers[c])
    ensures Doomed(Run(k, s, steps).callers[c]) ==> Doomed(Run(k, s, before).callers[c])
  {
    hide ToGo, NextStep, CanRun, Run, Doomed;
    var t := Run(k, s, before);
    steps := Append(k, s, before, Tick(DueIn(k, t, t.callers[c])));
    NextStepLeadsOn(k, Run(k, s, steps), c, v);
    steps := Append(k, s, steps, NextStep(t.callers[c], c, v));
  }

  /** In every state of every run each call can still end, and with a value unless its own
      loader has failed or it crashed. */
  lemma {:induction false} EveryCallCanEnd(k: Config, s: State, before: seq<Step>, c: nat, v: int) returns (steps: seq<Step>)
    requires CanRun(k, s, before) && c < |Run(k, s, before).callers|
    ensures CanRun(k, s, steps) && c < |Run(k, s, steps).callers| && Done(Run(k, s, steps).callers[c])
    ensures Run(k, s, steps).callers[c].Failed? ==> Doomed(Run(k, s, before).callers[c])
    decreases ToGo(Run(k, s, before).callers[c])
  {
    if Done(Run(k, s, before).callers[c]) {
      steps := before;
    } else {
      hide CanRun, Run, ToGo;
      steps := CanMove(k, s, before, c, v);
      steps := EveryCallCanEnd(k, s, steps, c, v);
    }
  }

  // ---------------------------------------------------------------- how long a lock lasts

  /** `cached` holds its lock for ten seconds. */
  lemma {:induction false} CachedTakeJoinsIff(ttlSec: nat, s: State, steps: seq<Step>, step: Step, c: nat)
    requires var k := Cached(ttlSec);
             Initial(s) && CanRun(k, s, steps) && AlwaysOneHolder(k, s, steps)
    requires var t := Run(Cached(ttlSec), s, steps);
             && Enabled(Cached(ttlSec), t, step) && Takes(step) && c < |t.callers| && t.callers[c].Holds()
    ensures var t := Run(Cached(ttlSec), s, steps);
            Apply(Cached(ttlSec), t, step).callers[step.c].Holds() <==> t.now - t.callers[c].acquired >= 10_000
  {
    NextTakeJoinsIffLate(Cached(ttlSec), s, steps, step, c);
  }

  /** `withCoalescing` holds it for `lockTtlSec` seconds. */
  lemma {:induction false} CoalescedTakeJoinsIff(ttlSec: nat, lockTtlSec: nat, s: State, steps: seq<Step>, step: Step, c: nat)
    requires var k := WithCoalescing(ttlSec, lockTtlSec);
             Initial(s) && CanRun(k, s, steps) && AlwaysOneHolder(k, s, steps)
    requires var k := WithCoalescing(ttlSec, lockTtlSec);
             var t := Run(k, s, steps);
             && Enabled(k, t, step) && Takes(step) && c < |t.callers| && t.callers[c].Holds()
    ensures var k := WithCoalescing(ttlSec, lockTtlSec);
            var t := Run(k, s, steps);
            Apply(k, t, step).callers[step.c].Holds() <==> t.now - t.callers[c].acquired >= 1000 * lockTtlSec
  {
    NextTakeJoinsIffLate(WithCoalescing(ttlSec, lockTtlSec), s, steps, step, c);
  }
}
