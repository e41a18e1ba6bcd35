/** Daily play streaks: the counter kept by `updateStreak` against the days actually played. */
module Streaks {
  import opened Options

  const DAY_MS: int := 86_400_000

  /** The UTC day of a time in milliseconds; `toUtcDay` and `dayDiff` number days this way. */
  function DayOf(time: int): int {
    time / DAY_MS
  }

  datatype Stored = Stored(streak: nat, lastPlayDay: Option<int>, repairAvailable: bool)

  function Updated(s: Stored, now: int): Stored {
    var today := DayOf(now);
    if s.lastPlayDay == Some(today) then s else
    var streak := if s.lastPlayDay.Some? && today - s.lastPlayDay.value == 1 then s.streak + 1 else 1;
    Stored(streak, Some(today), streak >= 3)
  }

  class User {
    var streak: nat
    var lastPlayDay: Option<int>
    var repairAvailable: bool

    constructor ()
      ensures Contents() == Stored(0, None, false)
    {
      streak, lastPlayDay, repairAvailable := 0, None, false;
    }

    function Contents(): Stored
      reads this
    {
      Stored(streak, lastPlayDay, repairAvailable)
    }

    method UpdateStreak(now: int) returns (result: Stored)
      modifies this
      ensures Contents() == Updated(old(Contents()), now) && result == Contents()
    {
      var today := DayOf(now);
      if lastPlayDay == Some(today) {
        return Contents();
      }
      var newStreak := 1;
      if lastPlayDay.Some? && today - lastPlayDay.value == 1 {
        newStreak := streak + 1;
      }
      streak, lastPlayDay, repairAvailable := newStreak, Some(today), newStreak >= 3;
      result := Contents();
    }
  }

  // ---------------------------------------------------------------- against the days played

  /** The state after calls at the given times, from a user who never played. */
  function After(times: seq<int>): Stored {
    if times == [] then Stored(0, None, false)
    else Updated(After(times[..|times| - 1]), times[|times| - 1])
  }

  function Played(times: seq<int>): set<int> {
    set t | t in times :: DayOf(t)
  }

  /** The maximal run of played days ending at `day` is `length` days long. */
  ghost predicate RunEndsAt(days: set<int>, day: int, length: nat) {
    (forall d :: day - length < d <= day ==> d in days) && day - length !in days
  }

  ghost predicate NonDecreasing(times: seq<int>) {
    forall i, j :: 0 <= i <= j < |times| ==> times[i] <= times[j]
  }

  lemma {:induction false} PlayedAppend(times: seq<int>, now: int)
    ensures Played(times + [now]) == Played(times) + {DayOf(now)}
  {
    forall d ensures d in Played(times + [now]) <==> d in Played(times) + {DayOf(now)} {
      if d in Played(times) {
        var t :| t in times && DayOf(t) == d;
        assert t in times + [now];
      }
      if d == DayOf(now) {
        assert now in times + [now];
      }
    }
  }

  /** With a clock that never goes back, the counter is the length of the maximal run of
      played days that ends at the last one. */
  lemma {:induction false} StreakIsTheRun(times: seq<int>)
    requires times != [] && NonDecreasing(times)
    ensures After(times).lastPlayDay == Some(DayOf(times[|times| - 1]))
    ensures RunEndsAt(Played(times), DayOf(times[|times| - 1]), After(times).streak)
    ensures forall d :: d in Played(times) ==> d <= DayOf(times[|times| - 1])
  {
    var before, now := times[..|times| - 1], times[|times| - 1];
    assert times == before + [now];
    PlayedAppend(before, now);
    if before == [] {
      assert Played(before) == {};
    } else {
      StreakIsTheRun(before);
      assert before[|before| - 1] <= now;
      StreakStep(before, now);
    }
  }

  /** One more play, on any day, keeps the counter right exactly when the day is not before
      the last one or its own eve was not played. */
  lemma {:induction false} StreakStep(times: seq<int>, now: int)
    requires times != []
    requires var last := DayOf(times[|times| - 1]);
             && After(times).lastPlayDay == Some(last)
             && RunEndsAt(Played(times), last, After(times).streak)
             && (forall d :: d in Played(times) ==> d <= last)
    ensures RunEndsAt(Played(times + [now]), DayOf(now), After(times + [now]).streak)
       <==> DayOf(now) >= DayOf(times[|times| - 1]) || DayOf(now) - 1 !in Played(times)
    ensures After(times + [now]).lastPlayDay == Some(DayOf(now))
  {
    CounterStep(times, now);
    PlayedAppend(times, now);
    assert times[|times| - 1] in times;
    RunStep(Played(times), DayOf(times[|times| - 1]), After(times).streak, DayOf(now));
  }

  lemma {:induction false} CounterStep(times: seq<int>, now: int)
    requires After(times).lastPlayDay.Some?
    ensures After(times + [now]).lastPlayDay == Some(DayOf(now))
    ensures After(times + [now]).streak
         == NextLength(After(times).lastPlayDay.value, After(times).streak, DayOf(now))
  {
    assert (times + [now])[..|times|] == times;
  }

  function NextLength(last: int, length: nat, today: int): nat {
    if today == last then length else if today - last == 1 then length + 1 else 1
  }

  lemma {:induction false} RunStep(days: set<int>, last: int, length: nat, today: int)
    requires RunEndsAt(days, last, length) && last in days && forall d :: d in days ==> d <= last
    ensures RunEndsAt(days + {today}, today, NextLength(last, length, today))
       <==> today >= last || today - 1 !in days
  {
    var more, next := days + {today}, NextLength(last, length, today);
    assert length >= 1;
    if today >= last {
      forall d | today - next < d <= today ensures d in more {
        assert d <= last ==> last - length < d;
      }
      assert today - next !in more;
    } else {
      assert today - next == today - 1;
    }
  }

  /** Right after any history on a clock that never goes back, the next update is right if and
      only if that play is not on an earlier day whose eve was played. */
  lemma {:induction false} NextUpdateIsRightIff(times: seq<int>, now: int)
    requires times != [] && NonDecreasing(times)
    ensures RunEndsAt(Played(times + [now]), DayOf(now), After(times + [now]).streak)
       <==> DayOf(now) >= DayOf(times[|times| - 1]) || DayOf(now) - 1 !in Played(times)
  {
    StreakIsTheRun(times);
    StreakStep(times, now);
  }

  /** Days are the UTC days of 24 hours from the epoch on. */
  lemma {:induction false} DayIs(time: int, day: int)
    ensures DayOf(time) == day <==> day * (24 * 60 * 60 * 1000) <= time < (day + 1) * (24 * 60 * 60 * 1000)
  {
    if day < DayOf(time) {
      assert (day + 1) * DAY_MS <= DayOf(time) * DAY_MS <= time;
    } else if day > DayOf(time) {
      assert time < (DayOf(time) + 1) * DAY_MS <= day * DAY_MS;
    }
  }

  /** Over any plays at all, repair is on offer exactly from a streak of three on. */
  lemma {:induction false} RepairFromThree(times: seq<int>)
    ensures After(times).repairAvailable <==> After(times).streak >= 3
    ensures After(times).streak >= 1 <==> times != []
    ensures times != [] ==> After(times).lastPlayDay == Some(DayOf(times[|times| - 1]))
  {
    if times != [] {
      RepairFromThree(times[..|times| - 1]);
    }
  }
}
