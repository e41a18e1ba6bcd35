/** Ranking of a challenge's sessions, and the share each score earns. */
module Scoring {
  import opened Ordering

  datatype Session = Session(userId: string, stellarAddress: string, totalScore: nat, endedAt: int)

  /** The comparator of `rankWinners`: higher score first, then the earlier finish, then the
      user id. `idLess` is the order `localeCompare` puts on user ids. */
  predicate Outranks(idLess: Less<string>, a: Session, b: Session) {
    if a.totalScore != b.totalScore then a.totalScore > b.totalScore
    else if a.endedAt != b.endedAt then a.endedAt < b.endedAt
    else idLess(a.userId, b.userId)
  }

  function RankOrder(idLess: Less<string>): Less<Session> {
    (a, b) => Outranks(idLess, a, b)
  }

  /** `topN` of zero means no cut, as a falsy argument does in the source. */
  function RankWinners(idLess: Less<string>, sessions: seq<Session>, topN: nat): seq<Session> {
    var sorted := Sort(RankOrder(idLess), sessions);
    if topN != 0 && topN < |sorted| then sorted[..topN] else sorted
  }

  /** A collation that tells any two ids apart. */
  ghost predicate Collation(idLess: Less<string>) {
    Strict(idLess) && forall a, b :: a != b ==> idLess(a, b) || idLess(b, a)
  }

  ghost predicate DistinctUsers(sessions: seq<Session>) {
    forall i, j :: 0 <= i < j < |sessions| ==> sessions[i].userId != sessions[j].userId
  }

  lemma {:induction false} RankOrderIsStrict(idLess: Less<string>)
    requires Collation(idLess)
    ensures Strict(RankOrder(idLess))
  {
    var less := RankOrder(idLess);
    forall x, y, z | less(x, y) && less(y, z) ensures less(x, z) {
      if x.totalScore == y.totalScore == z.totalScore && x.endedAt == y.endedAt == z.endedAt {
        assert idLess(x.userId, y.userId) && idLess(y.userId, z.userId);
      }
    }
  }

  lemma {:induction false} RankOrderSeparates(idLess: Less<string>, sessions: seq<Session>)
    requires Collation(idLess) && DistinctUsers(sessions)
    ensures Separates(RankOrder(idLess), sessions)
  {
  }

  /** The ranking is a permutation of the sessions, best first: a higher score, then an earlier
      finish, then the smaller id. */
  lemma {:induction false} RankingIsSortedPermutation(idLess: Less<string>, sessions: seq<Session>)
    requires Collation(idLess) && DistinctUsers(sessions)
    ensures multiset(RankWinners(idLess, sessions, 0)) == multiset(sessions)
    ensures Ascending(RankOrder(idLess), RankWinners(idLess, sessions, 0))
    ensures var ranked := RankWinners(idLess, sessions, 0);
            forall i, j :: 0 <= i < j < |ranked| ==>
              || ranked[i].totalScore > ranked[j].totalScore
              || (ranked[i].totalScore == ranked[j].totalScore && ranked[i].endedAt < ranked[j].endedAt)
              || (ranked[i].totalScore == ranked[j].totalScore && ranked[i].endedAt == ranked[j].endedAt
                  && idLess(ranked[i].userId, ranked[j].userId))
  {
    RankOrderIsStrict(idLess);
    RankOrderSeparates(idLess, sessions);
    SortKeepsElements(RankOrder(idLess), sessions);
    SortAscends(RankOrder(idLess), sessions);
    var ranked := RankWinners(idLess, sessions, 0);
    assert forall i, j :: 0 <= i < j < |ranked| ==> RankOrder(idLess)(ranked[i], ranked[j]);
  }

  /** A cut keeps the best, and zero cuts nothing. */
  lemma {:induction false} CutKeepsBest(idLess: Less<string>, sessions: seq<Session>, topN: nat)
    ensures RankWinners(idLess, sessions, topN) <= RankWinners(idLess, sessions, 0)
    ensures |RankWinners(idLess, sessions, topN)| == if 0 < topN < |sessions| then topN else |sessions|
  {
    SortKeepsElements(RankOrder(idLess), sessions);
  }

  /** The order in which the rows arrive does not matter, with or without a cut. */
  lemma {:induction false} RankingIgnoresInputOrder(idLess: Less<string>, a: seq<Session>, b: seq<Session>, topN: nat)
    requires Collation(idLess) && DistinctUsers(a) && DistinctUsers(b)
    requires multiset(a) == multiset(b)
    ensures RankWinners(idLess, a, topN) == RankWinners(idLess, b, topN)
  {
    var less := RankOrder(idLess);
    RankingIsSortedPermutation(idLess, a);
    RankingIsSortedPermutation(idLess, b);
    RankOrderIsStrict(idLess);
    SameElements(Sort(less, a), Sort(less, b));
    AscendingIsUnique(less, Sort(less, a), Sort(less, b));
  }

  // ---------------------------------------------------------------- shares

  /** `calculatePayoutShareStroops`. */
  function Share(score: nat, totalPoints: nat, pool: nat): nat {
    if totalPoints == 0 then 0 else pool * score / totalPoints
  }

  lemma {:induction false} ShareGrowsWithScore(a: nat, b: nat, totalPoints: nat, pool: nat)
    requires a <= b
    ensures Share(a, totalPoints, pool) <= Share(b, totalPoints, pool)
  {
    if totalPoints > 0 {
      MulMonotone(pool, a, b);
      DivMonotone(pool * a, pool * b, totalPoints);
    }
  }

  lemma {:induction false} MulMonotone(p: nat, a: nat, b: nat)
    requires a <= b
    ensures p * a <= p * b
  {
  }

  lemma {:induction false} DivMonotone(x: nat, y: nat, d: nat)
    requires x <= y && d > 0
    ensures x / d <= y / d
  {
    if x / d > y / d {
      MulMonotone(d, y / d + 1, x / d);
    }
  }

  /** Along the ranking no share is smaller than a later one, and equal scores earn equally. */
  lemma {:induction false} RankedSharesAreFair(idLess: Less<string>, sessions: seq<Session>, totalPoints: nat, pool: nat, i: nat, j: nat)
    requires Collation(idLess) && DistinctUsers(sessions)
    requires i < j < |RankWinners(idLess, sessions, 0)|
    ensures var ranked := RankWinners(idLess, sessions, 0);
            var first, later := Share(ranked[i].totalScore, totalPoints, pool), Share(ranked[j].totalScore, totalPoints, pool);
            first >= later && (ranked[i].totalScore == ranked[j].totalScore ==> first == later)
  {
    RankingIsSortedPermutation(idLess, sessions);
    var ranked := RankWinners(idLess, sessions, 0);
    assert RankOrder(idLess)(ranked[i], ranked[j]);
    ShareGrowsWithScore(ranked[j].totalScore, ranked[i].totalScore, totalPoints, pool);
  }
}
