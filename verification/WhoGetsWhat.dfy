/** Who receives what from a payout run, told by inequalities: the fee, each pool and each share
    is the one whole number of stroops that the rule leaves room for. */
module WhoGetsWhat {
  import opened Allocation
  import opened Options
  import opened Scoring

  // ---------------------------------------------------------------- the rule

  /** Terms with an address and a rate above zero. */
  predicate Licensed(license: Option<License>) {
    license.Some? && license.value.address != "" && license.value.feeBps > 0
  }

  /** The fee is the rate in hundredths of a per cent of the gross pool, rounded down. */
  ghost predicate FeeIs(fee: nat, gross: nat, license: Option<License>) {
    if Licensed(license) then 10_000 * fee <= gross * license.value.feeBps < 10_000 * (fee + 1) else fee == 0
  }

  /** A funded tier draws on its part of the player pool, anybody else on all of it. */
  ghost predicate PoolIs(pool: nat, w: Winner, gross: nat, player: nat, tiers: seq<Tier>) {
    var own := if w.tier.Some? then TierPool(tiers, w.tier.value) else None;
    if own.Some? && own.value > 0 then gross * pool <= own.value * player < gross * (pool + 1) else pool == player
  }

  /** Winners compete within their tier, and those without one against everybody. */
  function PointsAgainst(w: Winner, winners: seq<Winner>): nat {
    if w.tier.Some? then TierPoints(winners, w.tier.value) else Points(winners)
  }

  /** The share is the score's part of the pool, rounded down. */
  ghost predicate ShareIs(share: nat, pool: nat, score: nat, points: nat) {
    if points == 0 then share == 0 else points * share <= pool * score < points * (share + 1)
  }

  // ---------------------------------------------------------------- there is one such number

  lemma {:induction false} OneFloor(k: nat, n: nat, a: nat, b: nat)
    requires k > 0 && k * a <= n < k * (a + 1) && k * b <= n < k * (b + 1)
    ensures a == b
  {
    Cancel(k, a, b + 1);
    Cancel(k, b, a + 1);
  }

  lemma {:induction false} NextMultiple(k: nat, q: nat)
    ensures k * (q + 1) == k * q + k
  {
  }

  /** `q` is n / k. */
  lemma {:induction false} FloorIs(k: nat, n: nat, q: nat)
    requires k > 0 && q == n / k
    ensures k * q <= n < k * (q + 1)
  {
    DivBounds(n, k);
    NextMultiple(k, q);
  }

  lemma {:induction false} FloorIff(k: nat, n: nat, a: nat)
    requires k > 0
    ensures k * a <= n < k * (a + 1) <==> a == n / k
  {
    var q := n / k;
    FloorIs(k, n, q);
    if k * a <= n < k * (a + 1) {
      OneFloor(k, n, a, q);
    }
  }

  lemma {:induction false} FeeIsUnique(fee: nat, gross: nat, license: Option<License>)
    ensures FeeIs(fee, gross, license) <==> fee == LicenseFee(gross, license)
  {
    if Licensed(license) {
      FloorIff(10_000, gross * license.value.feeBps, fee);
    }
  }

  lemma {:induction false} PoolIsUnique(pool: nat, w: Winner, winners: seq<Winner>, gross: nat, tiers: seq<Tier>, license: Option<License>)
    requires LicenseFee(gross, license) <= gross && (gross > 0 || w.tier.None?)
    ensures var player := gross - LicenseFee(gross, license);
            PoolIs(pool, w, gross, player, tiers) <==> pool == RulesFor(winners, gross, tiers, license).ScopeOf(w).pool
  {
    var player := gross - LicenseFee(gross, license);
    if w.tier.Some? {
      ScopedLookup(tiers, gross, player, w.tier.value);
      var own := TierPool(tiers, w.tier.value);
      if own.Some? && own.value > 0 {
        FloorIff(gross, own.value * player, pool);
      }
    }
  }

  lemma {:induction false} ShareIsUnique(share: nat, pool: nat, score: nat, points: nat)
    ensures ShareIs(share, pool, score, points) <==> share == Share(score, points, pool)
  {
    if points > 0 {
      FloorIff(points, pool * score, share);
    }
  }

  // ---------------------------------------------------------------- what the map holds

  lemma {:induction false} AmountAfterPut(allots: seq<Allotment>, a: Allotment, u: string)
    ensures AmountOf(Put(allots, a), u) == if u == a.userId then a.amount else AmountOf(allots, u)
  {
    if allots != [] && allots[0].userId != a.userId {
      AmountAfterPut(allots[1..], a, u);
    }
  }

  lemma {:induction false} AmountInMap(rules: Rules, ws: seq<Winner>, w: Winner)
    requires DistinctWinners(ws) && w in ws
    ensures AmountOf(rules.Allot(ws), w.userId) == rules.ShareOf(w)
    decreases |ws|
  {
    var front, last := ws[..|ws| - 1], ws[|ws| - 1];
    var before := rules.Allot(front);
    assert ws == front + [last];
    AmountAfterPut(before, Allotment(last.userId, last.address, rules.ShareOf(last)), w.userId);
    if w == last {
      AllotUsers(rules, front, w.userId);
      AbsentMeansZero(before, w.userId);
    } else {
      AmountInMap(rules, front, w);
      var i :| 0 <= i < |front| && front[i] == w;
      assert ws[i].userId != ws[|ws| - 1].userId;
    }
  }

  lemma {:induction false} AmountWithFee(allots: seq<Allotment>, license: Option<License>, fee: nat, u: string)
    requires fee > 0 ==> Licensed(license)
    ensures AmountOf(WithFee(allots, license, fee), u)
         == AmountOf(allots, u) + (if Licensed(license) && u == license.value.userId then fee else 0)
  {
    if fee > 0 {
      var l := license.value;
      AmountAfterPut(allots, Allotment(l.userId, l.address, AmountOf(allots, l.userId) + fee), u);
    }
  }

  // ---------------------------------------------------------------- main results

  /** Every winner receives the share of the rule, and the licensor the fee on top. */
  lemma {:induction false} WinnerGets(
    winners: seq<Winner>, gross: nat, tiers: seq<Tier>, license: Option<License>,
    w: Winner, fee: nat, pool: nat, share: nat
  )
    requires DistinctWinners(winners) && w in winners && (gross > 0 || w.tier.None?)
    requires FeeIs(fee, gross, license) && fee <= gross
    requires PoolIs(pool, w, gross, gross - fee, tiers)
    requires ShareIs(share, pool, w.score, PointsAgainst(w, winners))
    ensures LicenseFee(gross, license) <= gross
    ensures AmountOf(Allotments(winners, gross, tiers, license), w.userId)
         == share + (if Licensed(license) && w.userId == license.value.userId then fee else 0)
  {
    FeeIsUnique(fee, gross, license);
    var rules := RulesFor(winners, gross, tiers, license);
    PoolIsUnique(pool, w, winners, gross, tiers, license);
    ShareIsUnique(share, pool, w.score, PointsAgainst(w, winners));
    AmountInMap(rules, winners, w);
    AmountWithFee(rules.Allot(winners), license, fee, w.userId);
  }

  /** There always are such numbers, so the result above says what everybody gets. */
  lemma {:induction false} RuleHasValues(winners: seq<Winner>, gross: nat, tiers: seq<Tier>, license: Option<License>, w: Winner)
    returns (fee: nat, pool: nat, share: nat)
    requires LicenseFee(gross, license) <= gross && (gross > 0 || w.tier.None?)
    ensures FeeIs(fee, gross, license) && fee <= gross && PoolIs(pool, w, gross, gross - fee, tiers)
    ensures ShareIs(share, pool, w.score, PointsAgainst(w, winners))
  {
    fee := LicenseFee(gross, license);
    FeeIsUnique(fee, gross, license);
    pool := RulesFor(winners, gross, tiers, license).ScopeOf(w).pool;
    PoolIsUnique(pool, w, winners, gross, tiers, license);
    share := Share(w.score, PointsAgainst(w, winners), pool);
    ShareIsUnique(share, pool, w.score, PointsAgainst(w, winners));
  }

  /** Who did not win receives nothing, unless it is the licensor, who receives the fee. */
  lemma {:induction false} OthersGet(winners: seq<Winner>, gross: nat, tiers: seq<Tier>, license: Option<License>, u: string, fee: nat)
    requires FeeIs(fee, gross, license) && fee <= gross && forall w :: w in winners ==> w.userId != u
    ensures LicenseFee(gross, license) <= gross
    ensures AmountOf(Allotments(winners, gross, tiers, license), u)
         == if Licensed(license) && u == license.value.userId then fee else 0
  {
    FeeIsUnique(fee, gross, license);
    var rules := RulesFor(winners, gross, tiers, license);
    AllotUsers(rules, winners, u);
    AbsentMeansZero(rules.Allot(winners), u);
    AmountWithFee(rules.Allot(winners), license, fee, u);
  }

  /** Money goes to the licensor's address where a fee is due, and else to the winner's own. */
  lemma {:induction false} PaidToOwnAddress(winners: seq<Winner>, gross: nat, tiers: seq<Tier>, license: Option<License>, a: Allotment)
    requires LicenseFee(gross, license) <= gross && a in Allotments(winners, gross, tiers, license)
    ensures if Licensed(license) && LicenseFee(gross, license) > 0 && a.userId == license.value.userId
            then a.address == license.value.address
            else exists w :: w in winners && w.userId == a.userId && w.address == a.address
  {
    var rules, fee := RulesFor(winners, gross, tiers, license), LicenseFee(gross, license);
    var allots := rules.Allot(winners);
    AddressInMap(rules, winners);
    AllotOnePerUser(rules, winners);
    if fee > 0 {
      var l := license.value;
      PutReplaces(allots, Allotment(l.userId, l.address, AmountOf(allots, l.userId) + fee));
    }
  }

  lemma {:induction false} AddressInMap(rules: Rules, ws: seq<Winner>)
    ensures forall a :: a in rules.Allot(ws) ==> exists w :: w in ws && w.userId == a.userId && w.address == a.address
    decreases |ws|
  {
    if ws != [] {
      var front, last := ws[..|ws| - 1], ws[|ws| - 1];
      AddressInMap(rules, front);
      PutMembers(rules.Allot(front), Allotment(last.userId, last.address, rules.ShareOf(last)));
      assert forall w :: w in front ==> w in ws;
      assert last in ws;
    }
  }

  lemma {:induction false} AllotOnePerUser(rules: Rules, ws: seq<Winner>)
    ensures OnePerUser(rules.Allot(ws))
    decreases |ws|
  {
    if ws != [] {
      var front, last := ws[..|ws| - 1], ws[|ws| - 1];
      AllotOnePerUser(rules, front);
      PutKeepsOnePerUser(rules.Allot(front), Allotment(last.userId, last.address, rules.ShareOf(last)));
    }
  }

  /** After `map.set` the user's only entry is the new one. */
  lemma {:induction false} PutReplaces(allots: seq<Allotment>, a: Allotment)
    requires OnePerUser(allots)
    ensures forall x :: x in Put(allots, a) && x.userId == a.userId ==> x == a
    ensures forall x :: x in Put(allots, a) && x.userId != a.userId ==> x in allots
  {
    PutMembers(allots, a);
    if allots != [] {
      if allots[0].userId == a.userId {
        forall x | x in allots[1..] ensures x.userId != a.userId {
          var i :| 0 <= i < |allots[1..]| && allots[1..][i] == x;
          assert allots[i + 1] == x;
        }
      } else {
        PutReplaces(allots[1..], a);
      }
    }
  }
}
