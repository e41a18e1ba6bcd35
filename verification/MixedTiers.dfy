/** Winners without a tier beside winners with one: they share the whole player pool while the
    tiers draw on it as well. */
module MixedTiers {
  import opened Allocation
  import opened Lists
  import opened Options
  import opened Scoring

  // ---------------------------------------------------------------- sums over both kinds

  /** What the winners without a tier get together. */
  ghost function FreeSum(rules: Rules, ws: seq<Winner>): nat {
    if ws == [] then 0 else (if ws[0].tier.None? then rules.ShareOf(ws[0]) else 0) + FreeSum(rules, ws[1..])
  }

  function FreePoints(ws: seq<Winner>): nat {
    if ws == [] then 0 else (if ws[0].tier.None? then ws[0].score else 0) + FreePoints(ws[1..])
  }

  lemma {:induction false} FreeHead(rules: Rules, ws: seq<Winner>, tiers: seq<Tier>)
    requires ws != [] && ws[0].tier.None?
    ensures TierSums(rules, ws, tiers) == TierSums(rules, ws[1..], tiers)
    decreases |tiers|
  {
    if tiers != [] {
      FreeHead(rules, ws, tiers[1..]);
    }
  }

  lemma {:induction false} SumsAddUp(rules: Rules, ws: seq<Winner>, tiers: seq<Tier>)
    requires DistinctTiers(tiers)
    requires forall w :: w in ws && w.tier.Some? ==> TierPool(tiers, w.tier.value).Some?
    ensures AllSum(rules, ws) == FreeSum(rules, ws) + TierSums(rules, ws, tiers)
    decreases |ws|
  {
    if ws == [] {
      NoWinners(rules, tiers);
    } else {
      assert ws[0] in ws;
      SumsAddUp(rules, ws[1..], tiers);
      if ws[0].tier.Some? {
        CountedOnce(rules, ws, tiers);
      } else {
        FreeHead(rules, ws, tiers);
      }
    }
  }

  lemma {:induction false} PointsAddUp(ws: seq<Winner>, tier: string)
    ensures FreePoints(ws) + TierPoints(ws, tier) <= Points(ws)
  {
    if ws != [] {
      PointsAddUp(ws[1..], tier);
    }
  }

  lemma {:induction false} FreeSumScaled(rules: Rules, ws: seq<Winner>, scope: Scope)
    requires scope == Scope(rules.player, Points(rules.winners)) && scope.points > 0
    ensures scope.points * FreeSum(rules, ws) <= scope.pool * FreePoints(ws)
  {
    if ws != [] {
      FreeSumScaled(rules, ws[1..], scope);
      if ws[0].tier.None? {
        FloorBounds(scope.pool, ws[0].score, scope.points);
        Distribute(scope.points, rules.ShareOf(ws[0]), FreeSum(rules, ws[1..]));
        Distribute(scope.pool, ws[0].score, FreePoints(ws[1..]));
      }
    }
  }

  lemma {:induction false} PointlessSum(rules: Rules, ws: seq<Winner>)
    requires Points(rules.winners) == 0
    ensures FreeSum(rules, ws) == 0
  {
    if ws != [] {
      PointlessSum(rules, ws[1..]);
    }
  }

  lemma {:induction false} PointlessTiers(rules: Rules, tiers: seq<Tier>)
    requires FreePoints(rules.winners) == Points(rules.winners)
    ensures TierSums(rules, rules.winners, tiers) == 0
  {
    if tiers != [] {
      PointsAddUp(rules.winners, tiers[0].id);
      PointlessTier(rules, rules.winners, tiers[0].id);
      PointlessTiers(rules, tiers[1..]);
    }
  }

  /** Winners without a tier get at most the player pool, and less if a tier gets anything. */
  lemma {:induction false} FreeWithinPlayer(rules: Rules, tiers: seq<Tier>)
    ensures FreeSum(rules, rules.winners) <= rules.player
    ensures TierSums(rules, rules.winners, tiers) > 0 && rules.player > 0 ==>
              FreeSum(rules, rules.winners) < rules.player
  {
    var ws, points := rules.winners, Points(rules.winners);
    if points == 0 {
      PointlessSum(rules, ws);
    } else {
      FreeSumScaled(rules, ws, Scope(rules.player, points));
      PointsAddUp(ws, "");
      MulMonotone(rules.player, FreePoints(ws), points);
      Cancel(points, FreeSum(rules, ws), rules.player);
      if FreePoints(ws) == points {
        PointlessTiers(rules, tiers);
      } else if rules.player > 0 {
        MulStrict(rules.player, FreePoints(ws), points);
        assert rules.player * points == points * rules.player;
        Cancel(points, FreeSum(rules, ws), rules.player);
      }
    }
  }

  // ---------------------------------------------------------------- one stroop in the tiers

  /** Tiers worth one stroop together: the untiered winners leave it to them. */
  lemma {:induction false} OneStroopFits(winners: seq<Winner>, gross: nat, rows: seq<Tier>, license: Option<License>)
    requires gross > 0 && LicenseFee(gross, license) <= gross
    requires DistinctTiers(rows) && (forall t :: t in rows ==> t.pool > 0) && PoolSum(rows) <= 1
    requires forall w :: w in winners && w.tier.Some? ==> TierPool(rows, w.tier.value).Some?
    ensures Total(Allotments(winners, gross, rows, license)) <= gross
  {
    var rules := RulesFor(winners, gross, rows, license);
    var scoped := rules.tiers;
    ScopedKeepsIds(rows, gross, rules.player);
    forall w | w in winners && w.tier.Some? ensures TierPool(scoped, w.tier.value).Some? {
      ScopedLookup(rows, gross, rules.player, w.tier.value);
    }
    AllotAtMostSum(rules, winners);
    SumsAddUp(rules, winners, scoped);
    forall t | t in scoped ensures TierPool(scoped, t.id) == Some(t.pool) {
      var i :| 0 <= i < |scoped| && scoped[i] == t;
      TierLookup(scoped, i);
    }
    TiersWithinPools(rules, scoped);
    ScopedSum(rows, gross, rules.player);
    ScopedWithinOne(gross, rules.player, PoolSum(scoped), PoolSum(rows));
    FreeWithinPlayer(rules, scoped);
    FeeTotal(rules.Allot(winners), license, LicenseFee(gross, license));
  }

  lemma {:induction false} ScopedWithinOne(gross: nat, player: nat, scoped: nat, pools: nat)
    requires gross > 0 && player <= gross && pools <= 1 && gross * scoped <= player * pools
    ensures scoped <= 1 && scoped <= player
  {
    MulMonotone(player, pools, 1);
    Cancel(gross, scoped, 1);
    if player == 0 {
      Cancel(gross, scoped, 0);
    }
  }

  // ---------------------------------------------------------------- two stroops in the tiers

  /** A winner without a tier who outweighs the tiers' winners by far. */
  function Crowd(gross: nat, played: seq<string>): seq<Winner> {
    OneEach(played) + [Winner("u", "G", gross * |played|, None)]
  }

  lemma {:induction false} PointsOfOneEach(played: seq<string>)
    ensures Points(OneEach(played)) == |played|
  {
    if played != [] {
      assert OneEach(played)[1..] == OneEach(played[1..]);
      PointsOfOneEach(played[1..]);
    }
  }

  lemma {:induction false} PointsAppend(ws: seq<Winner>, w: Winner)
    ensures Points(ws + [w]) == Points(ws) + w.score
  {
    if ws == [] {
      assert ws + [w] == [w] && [w][1..] == [];
    } else {
      assert (ws + [w])[1..] == ws[1..] + [w];
      PointsAppend(ws[1..], w);
    }
  }

  /** gross * (gross n) / (n + gross n) is gross - 1. */
  lemma {:induction false} CrowdShare(gross: nat, n: nat)
    requires gross > 0 && n > 0
    ensures Share(gross * n, n + gross * n, gross) == gross - 1
  {
    var points, share := n + gross * n, Share(gross * n, n + gross * n, gross);
    FloorBounds(gross, gross * n, points);
    assert points * gross == gross * n + gross * (gross * n);
    assert points * (gross - 1) == points * gross - points;
    assert gross * n <= gross * n + n;
    assert points * (gross - 1) <= gross * (gross * n) < points * gross;
    assert points * share <= gross * (gross * n) < points * share + points;
    Cancel(points, share, gross);
    Distribute(points, share, 1);
    Cancel(points, gross - 1, share + 1);
  }

  lemma {:induction false} CrowdDistinct(gross: nat, played: seq<string>)
    requires Distinct(played)
    ensures DistinctWinners(Crowd(gross, played)) && MayPlay(Crowd(gross, played), played)
  {
    var ws := Crowd(gross, played);
    OneEachDistinct(played);
    forall i, j | 0 <= i < j < |ws| ensures ws[i].userId != ws[j].userId {
      assert i < |played| && ws[i] == OneEach(played)[i];
      if j < |played| {
        assert ws[j] == OneEach(played)[j];
      } else {
        assert ws[i].userId[0] == 't' && ws[j].userId[0] == 'u';
      }
    }
  }

  lemma {:induction false} CrowdFront(gross: nat, rows: seq<Tier>, played: seq<string>, i: nat)
    requires gross > 0 && Distinct(played) && i < |played| == |rows|
    requires DistinctTiers(rows) && rows[i].id == played[i] && rows[i].pool > 0
    ensures Rules(gross, ScopedTiers(rows, gross, gross), Crowd(gross, played)).ShareOf(OneEach(played)[i]) == rows[i].pool
  {
    hide TierPoints, ScopedTiers, Share;
    var ws := Crowd(gross, played);
    TierPointsAppend(OneEach(played), ws[|played|], played[i]);
    OnePointEach(played, played[i]);
    FullShare(Rules(gross, ScopedTiers(rows, gross, gross), ws), gross, rows, played, i);
  }

  lemma {:induction false} CrowdLast(rules: Rules, gross: nat, played: seq<string>)
    requires gross > 0 && played != [] && rules.player == gross && rules.winners == Crowd(gross, played)
    ensures rules.ShareOf(Crowd(gross, played)[|played|]) == gross - 1
  {
    hide Share, Points;
    PointsOfOneEach(played);
    PointsAppend(OneEach(played), Crowd(gross, played)[|played|]);
    CrowdShare(gross, |played|);
  }

  lemma {:induction false} CrowdTotal(gross: nat, tiers: seq<Tier>, played: seq<string>)
    requires gross > 0 && Distinct(played) && played != []
    ensures MayPlay(Crowd(gross, played), played)
    ensures Total(Allotments(Crowd(gross, played), gross, tiers, None))
         == PoolSum(Funded(tiers, gross, played)) + gross - 1
  {
    hide ScopedTiers, Total, AllSum, PoolSum;
    var rows, front, ws := Funded(tiers, gross, played), OneEach(played), Crowd(gross, played);
    CrowdDistinct(gross, played);
    FundedAllotments(ws, gross, tiers, played, None);
    var rules := RulesFor(ws, gross, rows, None);
    forall i | 0 <= i < |played| ensures rules.ShareOf(front[i]) == rows[i].pool {
      CrowdFront(gross, rows, played, i);
    }
    SumOfPools(rules, front, rows);
    CrowdLast(rules, gross, played);
    AllSumAppend(rules, front, ws[|played|]);
    AllotIsSum(rules, ws);
  }

  /** No scoring of winners in these tiers or in none pays more than the gross pool, whatever
      the licence. */
  ghost predicate NeverOverpaysMixed(gross: nat, tiers: seq<Tier>, played: seq<string>) {
    forall winners: seq<Winner>, license: Option<License> :: MayPlay(winners, played) && LicenseFee(gross, license) <= gross ==>
      Total(Allotments(winners, gross, tiers, license)) <= gross
  }

  /** With untiered winners beside the tiers, the pool holds for every scoring if and only if
      the tiers played are worth at most one stroop together. */
  lemma {:induction false} MixedTiersAreSafeIff(gross: nat, tiers: seq<Tier>, played: seq<string>)
    requires gross > 0 && Distinct(played)
    ensures NeverOverpaysMixed(gross, tiers, played) <==> PoolSum(Funded(tiers, gross, played)) <= 1
  {
    var rows := Funded(tiers, gross, played);
    if PoolSum(rows) <= 1 {
      forall winners: seq<Winner>, license: Option<License> | MayPlay(winners, played) && LicenseFee(gross, license) <= gross
        ensures Total(Allotments(winners, gross, tiers, license)) <= gross
      {
        FundedAllotments(winners, gross, tiers, played, license);
        forall w | w in winners && w.tier.Some? ensures TierPool(rows, w.tier.value).Some? {
          FundedLookup(tiers, gross, played, w.tier.value);
        }
        OneStroopFits(winners, gross, rows, license);
      }
    } else {
      CrowdTotal(gross, tiers, played);
      assert LicenseFee(gross, None) <= gross;
    }
  }
}
