/** How `processPayout` splits a prize pool: floor-divided shares, the licence fee, and the
    merge of both by user. */
module Allocation {
  import opened Lists
  import opened Options
  import opened Scoring
  import Decimal

  datatype Winner = Winner(userId: string, address: string, score: nat, tier: Option<string>)

  datatype Tier = Tier(id: string, pool: nat)

  /** The licensor's terms; an empty address stands for none on file. */
  datatype License = License(userId: string, address: string, feeBps: nat)

  datatype Allotment = Allotment(userId: string, address: string, amount: nat)

  // ---------------------------------------------------------------- an insertion-ordered map

  /** `map.get(userId)?.amountStroops ?? 0n`. */
  function AmountOf(allots: seq<Allotment>, userId: string): nat {
    if allots == [] then 0
    else if allots[0].userId == userId then allots[0].amount
    else AmountOf(allots[1..], userId)
  }

  /** `map.set`: an existing entry keeps its place. */
  function Put(allots: seq<Allotment>, a: Allotment): seq<Allotment> {
    if allots == [] then [a]
    else if allots[0].userId == a.userId then [a] + allots[1..]
    else [allots[0]] + Put(allots[1..], a)
  }

  function Total(allots: seq<Allotment>): nat {
    if allots == [] then 0 else allots[0].amount + Total(allots[1..])
  }

  ghost predicate OnePerUser(allots: seq<Allotment>) {
    forall i, j :: 0 <= i < j < |allots| ==> allots[i].userId != allots[j].userId
  }

  lemma {:induction false} PutTotal(allots: seq<Allotment>, a: Allotment)
    ensures AmountOf(allots, a.userId) <= Total(allots)
    ensures Total(Put(allots, a)) == Total(allots) - AmountOf(allots, a.userId) + a.amount
  {
    if allots == [] {
      assert [a][1..] == [];
    } else if allots[0].userId == a.userId {
      assert ([a] + allots[1..])[1..] == allots[1..];
    } else {
      PutTotal(allots[1..], a);
      assert ([allots[0]] + Put(allots[1..], a))[1..] == Put(allots[1..], a);
    }
  }

  lemma {:induction false} PutMembers(allots: seq<Allotment>, a: Allotment)
    ensures forall x :: x in Put(allots, a) ==> x == a || x in allots
  {
    if allots != [] {
      PutMembers(allots[1..], a);
    }
  }

  lemma {:induction false} PutKeepsOnePerUser(allots: seq<Allotment>, a: Allotment)
    requires OnePerUser(allots)
    ensures OnePerUser(Put(allots, a))
  {
    if allots != [] && allots[0].userId != a.userId {
      var rest := Put(allots[1..], a);
      PutKeepsOnePerUser(allots[1..], a);
      PutMembers(allots[1..], a);
      forall j | 0 <= j < |rest| ensures rest[j].userId != allots[0].userId {
        assert rest[j] in rest;
      }
    }
  }

  // ---------------------------------------------------------------- the rules

  function Points(ws: seq<Winner>): nat {
    if ws == [] then 0 else ws[0].score + Points(ws[1..])
  }

  function TierPoints(ws: seq<Winner>, tier: string): nat {
    if ws == [] then 0
    else (if ws[0].tier == Some(tier) then ws[0].score else 0) + TierPoints(ws[1..], tier)
  }

  function TierPool(tiers: seq<Tier>, tier: string): Option<nat> {
    if tiers == [] then None
    else if tiers[0].id == tier then Some(tiers[0].pool)
    else TierPool(tiers[1..], tier)
  }

  function LicenseFee(gross: nat, license: Option<License>): nat {
    if license.Some? && license.value.address != "" && license.value.feeBps > 0
    then gross * license.value.feeBps / 10_000
    else 0
  }

  /** A pool and the players' points that divide it. */
  datatype Scope = Scope(pool: nat, points: nat)

  /** What a tier may pay: its part of the player pool, or, for an empty tier pool, which
      is falsy in the source, all of it. */
  function ScopedPool(pool: nat, gross: nat, player: nat): nat {
    if pool == 0 || gross == 0 then player else pool * player / gross
  }

  function ScopedTiers(tiers: seq<Tier>, gross: nat, player: nat): seq<Tier> {
    if tiers == [] then []
    else [Tier(tiers[0].id, ScopedPool(tiers[0].pool, gross, player))] + ScopedTiers(tiers[1..], gross, player)
  }

  /** One payout run: what the fee leaves for players, what each tier may pay, and who plays. */
  datatype Rules = Rules(player: nat, tiers: seq<Tier>, winners: seq<Winner>)
  {
    /** A tier without a row falls back to the whole player pool. */
    function ScopeOf(w: Winner): Scope {
      if w.tier.None? then Scope(player, Points(winners)) else
      var pool := TierPool(tiers, w.tier.value);
      Scope(if pool.Some? then pool.value else player, TierPoints(winners, w.tier.value))
    }

    function ShareOf(w: Winner): nat {
      Share(w.score, ScopeOf(w).points, ScopeOf(w).pool)
    }

    /** The allotments after the loop over `ws`. */
    function Allot(ws: seq<Winner>): seq<Allotment> {
      if ws == [] then [] else
      var front, w := ws[..|ws| - 1], ws[|ws| - 1];
      var amount := ShareOf(w);
      if amount < 1 then Allot(front)
      else Put(Allot(front), Allotment(w.userId, w.address, amount))
    }
  }

  function WithFee(allots: seq<Allotment>, license: Option<License>, fee: nat): seq<Allotment> {
    if license.Some? && license.value.address != "" && fee > 0
    then Put(allots, Allotment(license.value.userId, license.value.address,
                               AmountOf(allots, license.value.userId) + fee))
    else allots
  }

  /** The rules one run works with. A fee above the whole pool would leave a negative one. */
  function RulesFor(winners: seq<Winner>, gross: nat, tiers: seq<Tier>, license: Option<License>): Rules
    requires LicenseFee(gross, license) <= gross
  {
    var player := gross - LicenseFee(gross, license);
    Rules(player, ScopedTiers(tiers, gross, player), winners)
  }

  method ComputeTierPoints(winners: seq<Winner>) returns (points: map<string, nat>)
    ensures forall t :: TierPoints(winners, t) == if t in points then points[t] else 0
  {
    points := map[];
    for i := 0 to |winners|
      invariant forall t :: TierPoints(winners[..i], t) == if t in points then points[t] else 0
    {
      var w := winners[i];
      forall t ensures TierPoints(winners[..i + 1], t)
                    == TierPoints(winners[..i], t) + (if w.tier == Some(t) then w.score else 0)
      {
        assert winners[..i + 1] == winners[..i] + [w];
        TierPointsAppend(winners[..i], w, t);
      }
      if w.tier.Some? {
        var t := w.tier.value;
        points := points[t := (if t in points then points[t] else 0) + w.score];
      }
    }
    assert winners[..|winners|] == winners;
  }

  lemma {:induction false} TierPointsAppend(ws: seq<Winner>, w: Winner, t: string)
    ensures TierPoints(ws + [w], t) == TierPoints(ws, t) + (if w.tier == Some(t) then w.score else 0)
  {
    if ws == [] {
      assert ws + [w] == [w] && [w][1..] == [];
    } else {
      assert (ws + [w])[1..] == ws[1..] + [w];
      TierPointsAppend(ws[1..], w, t);
    }
  }

  lemma {:induction false} ScopedLookup(tiers: seq<Tier>, gross: nat, player: nat, tier: string)
    ensures var pool := TierPool(tiers, tier);
            TierPool(ScopedTiers(tiers, gross, player), tier)
            == if pool.Some? then Some(ScopedPool(pool.value, gross, player)) else None
  {
    if tiers != [] {
      ScopedLookup(tiers[1..], gross, player, tier);
    }
  }

  function Allotments(winners: seq<Winner>, gross: nat, tiers: seq<Tier>, license: Option<License>): seq<Allotment>
    requires LicenseFee(gross, license) <= gross
  {
    WithFee(RulesFor(winners, gross, tiers, license).Allot(winners), license, LicenseFee(gross, license))
  }

  /** The allocation part of `processPayout`, loop by loop. With an empty gross pool a tiered
      winner makes the source divide by zero. */
  method ComputeAllotments(winners: seq<Winner>, gross: nat, tiers: seq<Tier>, license: Option<License>)
    returns (allots: seq<Allotment>)
    requires LicenseFee(gross, license) <= gross
    requires gross > 0 || Untiered(winners)
    ensures allots == Allotments(winners, gross, tiers, license)
  {
    ghost var rules := RulesFor(winners, gross, tiers, license);
    var totalPoints := Points(winners);
    var tierPoints := ComputeTierPoints(winners);
    var fee := LicenseFee(gross, license);
    var player := gross - fee;
    allots := [];
    for i := 0 to |winners|
      invariant allots == rules.Allot(winners[..i])
    {
      var w := winners[i];
      assert winners[..i + 1][..i] == winners[..i];
      assert w in winners;
      var pool, points := player, totalPoints;
      if w.tier.Some? {
        var tierPool := TierPool(tiers, w.tier.value);
        ScopedLookup(tiers, gross, player, w.tier.value);
        if tierPool.Some? && tierPool.value != 0 {
          pool := tierPool.value * player / gross;
        }
        points := if w.tier.value in tierPoints then tierPoints[w.tier.value] else 0;
      }
      assert rules.ScopeOf(w) == Scope(pool, points);
      var amount := Share(w.score, points, pool);
      if amount >= 1 {
        allots := Put(allots, Allotment(w.userId, w.address, amount));
      }
    }
    assert winners[..|winners|] == winners;
    allots := WithFee(allots, license, fee);
  }

  // ---------------------------------------------------------------- sums of shares

  function SumShares(ws: seq<Winner>, scope: Scope): nat {
    if ws == [] then 0 else Share(ws[0].score, scope.points, scope.pool) + SumShares(ws[1..], scope)
  }

  lemma {:induction false} FloorBounds(pool: nat, score: nat, points: nat)
    requires points > 0
    ensures points * Share(score, points, pool) <= pool * score
    ensures pool * score - points < points * Share(score, points, pool)
  {
    var product := pool * score;
    assert product == points * (product / points) + product % points;
  }

  /** Each floor loses less than one stroop. */
  lemma {:induction false} SumBounds(ws: seq<Winner>, scope: Scope)
    requires scope.points > 0
    ensures scope.points * SumShares(ws, scope) <= scope.pool * Points(ws)
    ensures scope.pool * Points(ws) <= scope.points * SumShares(ws, scope) + (scope.points - 1) * |ws|
  {
    if ws != [] {
      SumBounds(ws[1..], scope);
      var share, rest := Share(ws[0].score, scope.points, scope.pool), SumShares(ws[1..], scope);
      FloorBounds(scope.pool, ws[0].score, scope.points);
      Distribute(scope.points, share, rest);
      Distribute(scope.pool, ws[0].score, Points(ws[1..]));
      Distribute(scope.points - 1, 1, |ws[1..]|);
    }
  }

  lemma {:induction false} Distribute(k: nat, a: nat, b: nat)
    ensures k * (a + b) == k * a + k * b
  {
  }

  lemma {:induction false} MulStrict(k: nat, a: nat, b: nat)
    requires k > 0 && a < b
    ensures k * a < k * b
  {
  }

  lemma {:induction false} Cancel(k: nat, a: nat, b: nat)
    requires k > 0
    ensures k * a <= k * b ==> a <= b
    ensures k * a < k * b ==> a < b
  {
    if a > b {
      MulStrict(k, b, a);
    }
  }

  /** Shares of a pool by points never exceed it and miss it by less than one stroop each. */
  lemma {:induction false} PoolIsSplit(ws: seq<Winner>, pool: nat)
    requires Points(ws) > 0
    ensures var sum := SumShares(ws, Scope(pool, Points(ws)));
            sum <= pool <= sum + |ws| - 1
  {
    var points, n := Points(ws), |ws|;
    var sum := SumShares(ws, Scope(pool, points));
    SumBounds(ws, Scope(pool, points));
    Cancel(points, sum, pool);
    Distribute(points, sum, pool - sum);
    assert (points - 1) * n == points * n - n;
    Cancel(points, pool - sum, n);
  }

  ghost predicate DistinctWinners(ws: seq<Winner>) {
    forall i, j :: 0 <= i < j < |ws| ==> ws[i].userId != ws[j].userId
  }

  ghost predicate Untiered(ws: seq<Winner>) {
    forall w :: w in ws ==> w.tier.None?
  }

  lemma {:induction false} SumAppend(ws: seq<Winner>, w: Winner, scope: Scope)
    ensures SumShares(ws + [w], scope) == SumShares(ws, scope) + Share(w.score, scope.points, scope.pool)
  {
    if ws == [] {
      assert ws + [w] == [w] && [w][1..] == [];
    } else {
      assert (ws + [w])[1..] == ws[1..] + [w];
      SumAppend(ws[1..], w, scope);
    }
  }

  lemma {:induction false} AbsentMeansZero(allots: seq<Allotment>, u: string)
    requires forall x :: x in allots ==> x.userId != u
    ensures AmountOf(allots, u) == 0
  {
    if allots != [] {
      assert allots[0] in allots;
      AbsentMeansZero(allots[1..], u);
    }
  }

  lemma {:induction false} AllotUsers(rules: Rules, ws: seq<Winner>, u: string)
    requires forall w :: w in ws ==> w.userId != u
    ensures forall x :: x in rules.Allot(ws) ==> x.userId != u
    decreases |ws|
  {
    if ws != [] {
      var front, w := ws[..|ws| - 1], ws[|ws| - 1];
      assert w in ws;
      AllotUsers(rules, front, u);
      PutMembers(rules.Allot(front), Allotment(w.userId, w.address, rules.ShareOf(w)));
    }
  }

  /** With distinct ids the merge loses nothing: the map holds the sum of the shares. */
  lemma {:induction false} AllotTotal(rules: Rules, ws: seq<Winner>, scope: Scope)
    requires Untiered(ws) && DistinctWinners(ws)
    requires scope == Scope(rules.player, Points(rules.winners))
    ensures Total(rules.Allot(ws)) == SumShares(ws, scope)
    decreases |ws|
  {
    if ws != [] {
      var front, w := ws[..|ws| - 1], ws[|ws| - 1];
      assert w in ws && ws == front + [w];
      AllotTotal(rules, front, scope);
      SumAppend(front, w, scope);
      AllotUsers(rules, front, w.userId);
      AbsentMeansZero(rules.Allot(front), w.userId);
      PutTotal(rules.Allot(front), Allotment(w.userId, w.address, rules.ShareOf(w)));
    }
  }

  lemma {:induction false} FeeTotal(allots: seq<Allotment>, license: Option<License>, fee: nat)
    requires fee > 0 ==> license.Some? && license.value.address != ""
    ensures Total(WithFee(allots, license, fee)) == Total(allots) + fee
  {
    if fee > 0 {
      var l := license.value;
      PutTotal(allots, Allotment(l.userId, l.address, AmountOf(allots, l.userId) + fee));
    }
  }

  lemma {:induction false} FeeWithinPool(gross: nat, license: Option<License>)
    requires license.Some? ==> license.value.feeBps <= 10_000
    ensures LicenseFee(gross, license) <= gross
  {
    if license.Some? {
      MulMonotone(gross, license.value.feeBps, 10_000);
    }
  }

  /** Conservation: shares plus licence fee never exceed the gross pool and leave at most
      one stroop per eligible winner but one, even when the licensor is also a winner. */
  lemma {:induction false} Conservation(winners: seq<Winner>, gross: nat, tiers: seq<Tier>, license: Option<License>)
    requires license.Some? ==> license.value.feeBps <= 10_000
    requires Untiered(winners) && DistinctWinners(winners) && Points(winners) > 0
    ensures LicenseFee(gross, license) <= gross
    ensures var allots := Allotments(winners, gross, tiers, license);
            Total(allots) <= gross <= Total(allots) + |winners| - 1
  {
    FeeWithinPool(gross, license);
    var rules := RulesFor(winners, gross, tiers, license);
    AllotTotal(rules, winners, Scope(rules.player, Points(winners)));
    PoolIsSplit(winners, rules.player);
    FeeTotal(rules.Allot(winners), license, LicenseFee(gross, license));
  }

  // ---------------------------------------------------------------- the bound is tight

  /** k winners with one point each. */
  function Equals(k: nat): seq<Winner> {
    seq(k, i requires 0 <= i < k => Winner(Decimal.ToText(i), "G", 1, None))
  }

  lemma {:induction false} EqualsSums(ws: seq<Winner>, scope: Scope)
    requires forall w :: w in ws ==> w.score == 1
    requires scope.points > 0 && scope.pool / scope.points == 1
    ensures Points(ws) == |ws| && SumShares(ws, scope) == |ws|
  {
    if ws != [] {
      assert ws[0] in ws;
      EqualsSums(ws[1..], scope);
    }
  }

  /** For every number of winners some pool leaves exactly one stroop less than that number. */
  lemma {:induction false} DustBoundIsTight(k: nat) returns (winners: seq<Winner>, gross: nat)
    requires k >= 1
    ensures |winners| == k && Untiered(winners) && DistinctWinners(winners) && Points(winners) > 0
    ensures Total(RulesFor(winners, gross, [], None).Allot(winners)) + k - 1 == gross
  {
    winners, gross := Equals(k), 2 * k - 1;
    forall i, j | 0 <= i < j < k ensures winners[i].userId != winners[j].userId {
      Decimal.ValueOfText(i);
      Decimal.ValueOfText(j);
    }
    EqualsSums(winners, Scope(gross, k));
    AllotTotal(RulesFor(winners, gross, [], None), winners, Scope(gross, k));
  }

  // ---------------------------------------------------------------- what is handed on

  ghost predicate Payable(a: Allotment) {
    a.amount >= 1 && a.address != ""
  }

  lemma {:induction false} AllotsArePayable(rules: Rules, ws: seq<Winner>)
    requires forall w :: w in ws ==> w.address != ""
    ensures OnePerUser(rules.Allot(ws))
    ensures forall a :: a in rules.Allot(ws) ==> Payable(a)
    decreases |ws|
  {
    if ws != [] {
      var front, w := ws[..|ws| - 1], ws[|ws| - 1];
      assert w in ws;
      AllotsArePayable(rules, front);
      var a := Allotment(w.userId, w.address, rules.ShareOf(w));
      PutMembers(rules.Allot(front), a);
      PutKeepsOnePerUser(rules.Allot(front), a);
    }
  }

  /** Every allotment is for another user, of at least one stroop, to a known address. */
  lemma {:induction false} AllotmentsArePayable(winners: seq<Winner>, gross: nat, tiers: seq<Tier>, license: Option<License>)
    requires LicenseFee(gross, license) <= gross
    requires forall w :: w in winners ==> w.address != ""
    ensures var allots := Allotments(winners, gross, tiers, license);
            OnePerUser(allots) && forall a :: a in allots ==> Payable(a)
  {
    var rules, fee := RulesFor(winners, gross, tiers, license), LicenseFee(gross, license);
    AllotsArePayable(rules, winners);
    if fee > 0 {
      var l, allots := license.value, rules.Allot(winners);
      var a := Allotment(l.userId, l.address, AmountOf(allots, l.userId) + fee);
      PutMembers(allots, a);
      PutKeepsOnePerUser(allots, a);
    }
  }

  // ---------------------------------------------------------------- tiers

  ghost predicate DistinctTiers(tiers: seq<Tier>) {
    forall i, j :: 0 <= i < j < |tiers| ==> tiers[i].id != tiers[j].id
  }

  function PoolSum(tiers: seq<Tier>): nat {
    if tiers == [] then 0 else tiers[0].pool + PoolSum(tiers[1..])
  }

  /** Every winner plays in a tier that has a row. */
  ghost predicate TierKnown(tiers: seq<Tier>, ws: seq<Winner>) {
    forall w :: w in ws ==> w.tier.Some? && TierPool(tiers, w.tier.value).Some?
  }

  /** What the winners of one tier get together. */
  ghost function TierSum(rules: Rules, ws: seq<Winner>, tier: string): nat
  {
    if ws == [] then 0
    else (if ws[0].tier == Some(tier) then rules.ShareOf(ws[0]) else 0) + TierSum(rules, ws[1..], tier)
  }

  ghost function TierSums(rules: Rules, ws: seq<Winner>, tiers: seq<Tier>): nat
  {
    if tiers == [] then 0 else TierSum(rules, ws, tiers[0].id) + TierSums(rules, ws, tiers[1..])
  }

  ghost function AllSum(rules: Rules, ws: seq<Winner>): nat
  {
    if ws == [] then 0 else rules.ShareOf(ws[0]) + AllSum(rules, ws[1..])
  }

  /** A winner is counted in the one tier it plays in. */
  lemma {:induction false} CountedOnce(rules: Rules, ws: seq<Winner>, tiers: seq<Tier>)
    requires ws != [] && ws[0].tier.Some? && DistinctTiers(tiers)
    ensures TierSums(rules, ws, tiers) == TierSums(rules, ws[1..], tiers)
              + (if TierPool(tiers, ws[0].tier.value).Some? then rules.ShareOf(ws[0]) else 0)
    decreases |tiers|
  {
    if tiers != [] {
      assert DistinctTiers(tiers[1..]);
      CountedOnce(rules, ws, tiers[1..]);
      if tiers[0].id == ws[0].tier.value {
        forall i | 0 <= i < |tiers[1..]| ensures tiers[1..][i].id != tiers[0].id {
          assert tiers[1..][i] == tiers[i + 1];
        }
        NotListed(tiers[1..], tiers[0].id);
      }
    }
  }

  lemma {:induction false} NotListed(tiers: seq<Tier>, id: string)
    requires forall i :: 0 <= i < |tiers| ==> tiers[i].id != id
    ensures TierPool(tiers, id).None?
  {
    if tiers != [] {
      NotListed(tiers[1..], id);
    }
  }

  lemma {:induction false} SumByTier(rules: Rules, ws: seq<Winner>, tiers: seq<Tier>)
    requires DistinctTiers(tiers) && TierKnown(tiers, ws)
    ensures AllSum(rules, ws) == TierSums(rules, ws, tiers)
    decreases |ws|
  {
    if ws == [] {
      NoWinners(rules, tiers);
    } else {
      assert ws[0] in ws;
      CountedOnce(rules, ws, tiers);
      SumByTier(rules, ws[1..], tiers);
    }
  }

  lemma {:induction false} NoWinners(rules: Rules, tiers: seq<Tier>)
    ensures TierSums(rules, [], tiers) == 0
  {
    if tiers != [] {
      NoWinners(rules, tiers[1..]);
    }
  }

  /** The winners of a tier, and only their points, divide the tier's scoped pool. */
  lemma {:induction false} TierSumScaled(rules: Rules, ws: seq<Winner>, tier: string, scope: Scope)
    requires scope.points > 0
    requires forall w :: w in ws && w.tier == Some(tier) ==> rules.ScopeOf(w) == scope
    ensures scope.points * TierSum(rules, ws, tier) <= scope.pool * TierPoints(ws, tier)
    decreases |ws|
  {
    if ws != [] {
      assert ws[0] in ws;
      TierSumScaled(rules, ws[1..], tier, scope);
      if ws[0].tier == Some(tier) {
        FloorBounds(scope.pool, ws[0].score, scope.points);
        Distribute(scope.points, rules.ShareOf(ws[0]), TierSum(rules, ws[1..], tier));
        Distribute(scope.pool, ws[0].score, TierPoints(ws[1..], tier));
      }
    }
  }

  lemma {:induction false} PointlessTier(rules: Rules, ws: seq<Winner>, tier: string)
    requires TierPoints(rules.winners, tier) == 0
    ensures TierSum(rules, ws, tier) == 0
  {
    if ws != [] {
      assert ws[0] in ws;
      PointlessTier(rules, ws[1..], tier);
    }
  }

  lemma {:induction false} TierWithinPool(rules: Rules, tier: string)
    requires TierPool(rules.tiers, tier).Some?
    ensures TierSum(rules, rules.winners, tier) <= TierPool(rules.tiers, tier).value
  {
    var points, pool := TierPoints(rules.winners, tier), TierPool(rules.tiers, tier).value;
    if points == 0 {
      PointlessTier(rules, rules.winners, tier);
    } else {
      TierSumScaled(rules, rules.winners, tier, Scope(pool, points));
      Cancel(points, TierSum(rules, rules.winners, tier), pool);
    }
  }

  lemma {:induction false} TiersWithinPools(rules: Rules, tiers: seq<Tier>)
    requires forall t :: t in tiers ==> TierPool(rules.tiers, t.id) == Some(t.pool)
    ensures TierSums(rules, rules.winners, tiers) <= PoolSum(tiers)
  {
    if tiers != [] {
      assert tiers[0] in tiers;
      TiersWithinPools(rules, tiers[1..]);
      TierWithinPool(rules, tiers[0].id);
    }
  }

  /** The scoped pools together are the same part of the player pool, rounded down. */
  lemma {:induction false} ScopedSum(tiers: seq<Tier>, gross: nat, player: nat)
    requires gross > 0 && forall t :: t in tiers ==> t.pool > 0
    ensures gross * PoolSum(ScopedTiers(tiers, gross, player)) <= player * PoolSum(tiers)
  {
    if tiers != [] {
      assert tiers[0] in tiers;
      ScopedSum(tiers[1..], gross, player);
      var scoped := ScopedPool(tiers[0].pool, gross, player);
      FloorBounds(player, tiers[0].pool, gross);
      Distribute(gross, scoped, PoolSum(ScopedTiers(tiers[1..], gross, player)));
      Distribute(player, tiers[0].pool, PoolSum(tiers[1..]));
    }
  }

  lemma {:induction false} ScopedKeepsIds(tiers: seq<Tier>, gross: nat, player: nat)
    ensures |ScopedTiers(tiers, gross, player)| == |tiers|
    ensures forall i :: 0 <= i < |tiers| ==> ScopedTiers(tiers, gross, player)[i].id == tiers[i].id
  {
    if tiers != [] {
      ScopedKeepsIds(tiers[1..], gross, player);
    }
  }

  lemma {:induction false} TierLookup(tiers: seq<Tier>, i: nat)
    requires DistinctTiers(tiers) && i < |tiers|
    ensures TierPool(tiers, tiers[i].id) == Some(tiers[i].pool)
  {
    if i > 0 {
      TierLookup(tiers[1..], i - 1);
    }
  }

  /** The map never holds more than the shares put into it. */
  lemma {:induction false} AllotAtMostSum(rules: Rules, ws: seq<Winner>)
    ensures Total(rules.Allot(ws)) <= AllSum(rules, ws)
    decreases |ws|
  {
    if ws != [] {
      var front, w := ws[..|ws| - 1], ws[|ws| - 1];
      assert w in ws && ws == front + [w];
      AllotAtMostSum(rules, front);
      AllSumAppend(rules, front, w);
      PutTotal(rules.Allot(front), Allotment(w.userId, w.address, rules.ShareOf(w)));
    }
  }

  lemma {:induction false} AllSumAppend(rules: Rules, ws: seq<Winner>, w: Winner)
    ensures AllSum(rules, ws + [w]) == AllSum(rules, ws) + rules.ShareOf(w)
  {
    if ws == [] {
      assert ws + [w] == [w] && [w][1..] == [];
    } else {
      assert (ws + [w])[1..] == ws[1..] + [w];
      AllSumAppend(rules, ws[1..], w);
    }
  }

  /** Conservation with tiers: when every winner is in a known tier, every tier pool is
      positive and together they fit in the gross pool, the payouts fit too, ids repeated or not. */
  lemma {:induction false} TieredConservation(winners: seq<Winner>, gross: nat, tiers: seq<Tier>, license: Option<License>)
    requires LicenseFee(gross, license) <= gross
    requires gross > 0 && DistinctTiers(tiers) && TierKnown(tiers, winners)
    requires (forall t :: t in tiers ==> t.pool > 0) && PoolSum(tiers) <= gross
    ensures Total(Allotments(winners, gross, tiers, license)) <= gross
  {
    var rules := RulesFor(winners, gross, tiers, license);
    var scoped := rules.tiers;
    ScopedKeepsIds(tiers, gross, rules.player);
    forall w | w in winners ensures w.tier.Some? && TierPool(scoped, w.tier.value).Some? {
      ScopedLookup(tiers, gross, rules.player, w.tier.value);
    }
    AllotAtMostSum(rules, winners);
    SumByTier(rules, winners, scoped);
    forall t | t in scoped ensures TierPool(scoped, t.id) == Some(t.pool) {
      var i :| 0 <= i < |scoped| && scoped[i] == t;
      TierLookup(scoped, i);
    }
    TiersWithinPools(rules, scoped);
    ScopedSum(tiers, gross, rules.player);
    MulMonotone(rules.player, PoolSum(tiers), gross);
    Cancel(gross, PoolSum(scoped), rules.player);
    FeeTotal(rules.Allot(winners), license, LicenseFee(gross, license));
  }

  // ---------------------------------------------------------------- exactly when tiers are safe

  /** The pool a tier really draws on: its own if it has a positive one, else the whole. */
  function EffectivePool(tiers: seq<Tier>, gross: nat, id: string): nat {
    var pool := TierPool(tiers, id);
    if pool.Some? && pool.value > 0 then pool.value else gross
  }

  /** One row per played tier, holding its effective pool. */
  function Funded(tiers: seq<Tier>, gross: nat, played: seq<string>): (rows: seq<Tier>)
    ensures |rows| == |played|
    ensures forall i :: 0 <= i < |played| ==> rows[i] == Tier(played[i], EffectivePool(tiers, gross, played[i]))
  {
    seq(|played|, i requires 0 <= i < |played| => Tier(played[i], EffectivePool(tiers, gross, played[i])))
  }

  ghost predicate PlayIn(winners: seq<Winner>, played: seq<string>) {
    forall w :: w in winners ==> w.tier.Some? && w.tier.value in played
  }

  lemma {:induction false} FundedLookup(tiers: seq<Tier>, gross: nat, played: seq<string>, id: string)
    requires id in played
    ensures TierPool(Funded(tiers, gross, played), id) == Some(EffectivePool(tiers, gross, id))
  {
    if played[0] != id {
      assert Funded(tiers, gross, played)[1..] == Funded(tiers, gross, played[1..]);
      FundedLookup(tiers, gross, played[1..], id);
    }
  }

  /** Winners of these tiers and winners without a tier. */
  ghost predicate MayPlay(winners: seq<Winner>, played: seq<string>) {
    forall w :: w in winners && w.tier.Some? ==> w.tier.value in played
  }

  /** A tier draws on the same scoped pool as its funded row. */
  lemma {:induction false} SameScope(w: Winner, winners: seq<Winner>, gross: nat, tiers: seq<Tier>, played: seq<string>, license: Option<License>)
    requires gross > 0 && LicenseFee(gross, license) <= gross
    requires w.tier.Some? ==> w.tier.value in played
    ensures RulesFor(winners, gross, tiers, license).ScopeOf(w)
         == RulesFor(winners, gross, Funded(tiers, gross, played), license).ScopeOf(w)
  {
    var player := gross - LicenseFee(gross, license);
    if w.tier.Some? {
      FundedLookup(tiers, gross, played, w.tier.value);
      ScopedLookup(tiers, gross, player, w.tier.value);
      ScopedLookup(Funded(tiers, gross, played), gross, player, w.tier.value);
      WholePool(gross, player);
    }
  }

  lemma {:induction false} WholePool(gross: nat, player: nat)
    requires gross > 0
    ensures gross * player / gross == player
  {
    var p := gross * player;
    var q := p / gross;
    DivBounds(p, gross);
    Cancel(gross, q, player);
    Distribute(gross, q, 1);
    Cancel(gross, player, q + 1);
  }

  lemma {:induction false} DivBounds(p: nat, k: nat)
    requires k > 0
    ensures k * (p / k) <= p < k * (p / k) + k
  {
  }

  lemma {:induction false} SameAllotments(r: Rules, q: Rules, ws: seq<Winner>)
    requires forall w :: w in ws ==> r.ScopeOf(w) == q.ScopeOf(w)
    ensures r.Allot(ws) == q.Allot(ws)
    decreases |ws|
  {
    if ws != [] {
      var front, w := ws[..|ws| - 1], ws[|ws| - 1];
      assert w in ws;
      assert forall v :: v in front ==> v in ws;
      SameAllotments(r, q, front);
    }
  }

  lemma {:induction false} FundedAllotments(winners: seq<Winner>, gross: nat, tiers: seq<Tier>, played: seq<string>, license: Option<License>)
    requires gross > 0 && LicenseFee(gross, license) <= gross && MayPlay(winners, played)
    ensures Allotments(winners, gross, tiers, license)
         == Allotments(winners, gross, Funded(tiers, gross, played), license)
  {
    forall w | w in winners
      ensures RulesFor(winners, gross, tiers, license).ScopeOf(w)
           == RulesFor(winners, gross, Funded(tiers, gross, played), license).ScopeOf(w)
    {
      SameScope(w, winners, gross, tiers, played, license);
    }
    SameAllotments(RulesFor(winners, gross, tiers, license),
                   RulesFor(winners, gross, Funded(tiers, gross, played), license), winners);
  }

  /** One winner of one point in each played tier. */
  function OneEach(played: seq<string>): (ws: seq<Winner>)
    ensures |ws| == |played|
    ensures forall i :: 0 <= i < |played| ==> ws[i] == Winner("t" + played[i], "G", 1, Some(played[i]))
  {
    seq(|played|, i requires 0 <= i < |played| => Winner("t" + played[i], "G", 1, Some(played[i])))
  }

  lemma {:induction false} OneEachDistinct(played: seq<string>)
    requires Distinct(played)
    ensures DistinctWinners(OneEach(played))
  {
    var ws := OneEach(played);
    forall i, j | 0 <= i < j < |ws| ensures ws[i].userId != ws[j].userId {
      assert ws[i].userId[1..] == played[i] && ws[j].userId[1..] == played[j];
    }
  }

  lemma {:induction false} OnePointEach(played: seq<string>, id: string)
    requires Distinct(played)
    ensures TierPoints(OneEach(played), id) == if id in played then 1 else 0
  {
    if played != [] {
      assert OneEach(played)[1..] == OneEach(played[1..]);
      OnePointEach(played[1..], id);
      assert id in played <==> id == played[0] || id in played[1..];
    }
  }

  lemma {:induction false} ScopedWhole(pool: nat, gross: nat)
    requires gross > 0 && pool > 0
    ensures ScopedPool(pool, gross, gross) == pool
  {
    assert pool * gross == gross * pool;
    WholePool(gross, pool);
  }

  lemma {:induction false} FullShare(rules: Rules, gross: nat, rows: seq<Tier>, played: seq<string>, i: nat)
    requires gross > 0 && i < |played| && TierPoints(rules.winners, played[i]) == 1
    requires rules == Rules(gross, ScopedTiers(rows, gross, gross), rules.winners)
    requires |rows| == |played| && DistinctTiers(rows) && rows[i].id == played[i] && rows[i].pool > 0
    ensures rules.ShareOf(OneEach(played)[i]) == rows[i].pool
  {
    hide Share, TierPoints, ScopedPool, ScopedTiers;
    ScopedLookup(rows, gross, gross, played[i]);
    TierLookup(rows, i);
    ScopedWhole(rows[i].pool, gross);
    WholeShare(rows[i].pool, 1);
  }

  /** With distinct ids the merge loses nothing, tiers or not. */
  lemma {:induction false} AllotIsSum(rules: Rules, ws: seq<Winner>)
    requires DistinctWinners(ws)
    ensures Total(rules.Allot(ws)) == AllSum(rules, ws)
    decreases |ws|
  {
    if ws != [] {
      var front, w := ws[..|ws| - 1], ws[|ws| - 1];
      assert ws == front + [w];
      AllotIsSum(rules, front);
      AllSumAppend(rules, front, w);
      AllotUsers(rules, front, w.userId);
      AbsentMeansZero(rules.Allot(front), w.userId);
      PutTotal(rules.Allot(front), Allotment(w.userId, w.address, rules.ShareOf(w)));
    }
  }

  lemma {:induction false} SumOfPools(rules: Rules, ws: seq<Winner>, rows: seq<Tier>)
    requires |ws| == |rows| && forall i :: 0 <= i < |ws| ==> rules.ShareOf(ws[i]) == rows[i].pool
    ensures AllSum(rules, ws) == PoolSum(rows)
  {
    if ws != [] {
      SumOfPools(rules, ws[1..], rows[1..]);
    }
  }

  /** Without a licence, one winner in each tier draws every effective pool to the last stroop. */
  lemma {:induction false} PoolsAreDrawn(gross: nat, tiers: seq<Tier>, played: seq<string>)
    requires gross > 0 && Distinct(played)
    ensures PlayIn(OneEach(played), played)
    ensures Total(Allotments(OneEach(played), gross, tiers, None)) == PoolSum(Funded(tiers, gross, played))
  {
    var ws, rows := OneEach(played), Funded(tiers, gross, played);
    FundedAllotments(ws, gross, tiers, played, None);
    var rules := RulesFor(ws, gross, rows, None);
    forall i | 0 <= i < |played| ensures rules.ShareOf(ws[i]) == rows[i].pool {
      OnePointEach(played, played[i]);
      FullShare(rules, gross, rows, played, i);
    }
    OneEachDistinct(played);
    AllotIsSum(rules, ws);
    SumOfPools(rules, ws, rows);
  }

  /** No scoring of winners who all play in these tiers pays more than the gross pool,
      whatever the licence. */
  ghost predicate NeverOverpays(gross: nat, tiers: seq<Tier>, played: seq<string>) {
    forall winners: seq<Winner>, license: Option<License> :: PlayIn(winners, played) && LicenseFee(gross, license) <= gross ==>
      Total(Allotments(winners, gross, tiers, license)) <= gross
  }

  /** When every winner plays in a tier, no scoring pays more than the pool if and only if the
      effective pools of the tiers played fit in it. A tier without a row or with an empty pool counts as the whole. */
  lemma {:induction false} TiersAreSafeIff(gross: nat, tiers: seq<Tier>, played: seq<string>)
    requires gross > 0 && Distinct(played)
    ensures NeverOverpays(gross, tiers, played) <==> PoolSum(Funded(tiers, gross, played)) <= gross
  {
    var rows := Funded(tiers, gross, played);
    if PoolSum(rows) <= gross {
      forall winners: seq<Winner>, license: Option<License> | PlayIn(winners, played) && LicenseFee(gross, license) <= gross
        ensures Total(Allotments(winners, gross, tiers, license)) <= gross
      {
        FundedAllotments(winners, gross, tiers, played, license);
        forall w | w in winners ensures w.tier.Some? && TierPool(rows, w.tier.value).Some? {
          FundedLookup(tiers, gross, played, w.tier.value);
        }
        TieredConservation(winners, gross, rows, license);
      }
    } else {
      PoolsAreDrawn(gross, tiers, played);
      assert LicenseFee(gross, None) <= gross;
    }
  }

  /** A tier without a row, or with an empty pool, is not funded. */
  ghost predicate Unfunded(tiers: seq<Tier>, tier: string) {
    TierPool(tiers, tier) in {None, Some(0)}
  }

  lemma {:induction false} WholeShare(pool: nat, score: nat)
    requires score > 0
    ensures Share(score, score, pool) == pool
  {
    FloorBounds(pool, score, score);
    Cancel(score, Share(score, score, pool), pool);
    Distribute(score, Share(score, score, pool), 1);
    Cancel(score, pool, Share(score, score, pool) + 1);
  }

  /** An unfunded tier pays out of the whole player pool, so two of them pay it out twice:
      the condition on funded tiers cannot be dropped. */
  lemma {:induction false} UnfundedTiersOverpay(gross: nat, tiers: seq<Tier>, u: Winner, v: Winner)
    requires gross > 0 && u.userId != v.userId && u.score > 0 && v.score > 0
    requires u.tier.Some? && v.tier.Some? && u.tier != v.tier
    requires Unfunded(tiers, u.tier.value) && Unfunded(tiers, v.tier.value)
    ensures Total(Allotments([u, v], gross, tiers, None)) == 2 * gross
  {
    var winners := [u, v];
    var rules := RulesFor(winners, gross, tiers, None);
    assert winners[1..] == [v] && [v][1..] == [];
    TierPointsAppend([], v, u.tier.value);
    TierPointsAppend([], v, v.tier.value);
    assert [] + [v] == [v];
    assert TierPoints([v], u.tier.value) == 0 && TierPoints([v], v.tier.value) == v.score;
    ScopedLookup(tiers, gross, gross, u.tier.value);
    ScopedLookup(tiers, gross, gross, v.tier.value);
    assert rules.ScopeOf(u) == Scope(gross, u.score) && rules.ScopeOf(v) == Scope(gross, v.score);
    WholeShare(gross, u.score);
    WholeShare(gross, v.score);
    assert winners[..1] == [u] && [u][..0] == [];
    assert rules.ShareOf(u) == gross && rules.ShareOf(v) == gross;
    var before := rules.Allot([u]);
    assert rules.Allot([u][..0]) == [];
    assert before == [Allotment(u.userId, u.address, gross)] && before[1..] == [];
    assert rules.Allot(winners) == Put(before, Allotment(v.userId, v.address, gross));
    PutTotal(before, Allotment(v.userId, v.address, gross));
  }
}
