/** The movie_ratings table seen from the queries: the ratings of one movie,
    the cascade that drops them, and the per-movie aggregate. */
module RatingTable {
  import opened Schema

  /** The ratings of one movie, in table order. */
  function RatingsOf(rs: seq<Rating>, movieId: int): (mine: seq<Rating>)
    ensures |mine| <= |rs|
    ensures forall x | x in mine :: x in rs && x.movieId == movieId
    ensures forall x | x in rs && x.movieId == movieId :: x in mine
  {
    if rs == [] then []
    else (if rs[0].movieId == movieId then [rs[0]] else []) + RatingsOf(rs[1..], movieId)
  }

  /** The table after the cascade removes every rating of one movie. */
  function Without(rs: seq<Rating>, movieId: int): (rest: seq<Rating>)
    ensures |rest| <= |rs|
    ensures forall x | x in rest :: x in rs && x.movieId != movieId
    ensures forall x | x in rs && x.movieId != movieId :: x in rest
  {
    if rs == [] then []
    else (if rs[0].movieId != movieId then [rs[0]] else []) + Without(rs[1..], movieId)
  }

  lemma {:induction false} WithoutKeepsDistinctIds(rs: seq<Rating>, movieId: int)
    requires DistinctIds(rs)
    ensures DistinctIds(Without(rs, movieId))
  {
    if rs != [] {
      WithoutKeepsDistinctIds(rs[1..], movieId);
      var tail := Without(rs[1..], movieId);
      forall x | x in tail ensures x.id != rs[0].id {
        var k :| 0 <= k < |rs[1..]| && rs[1..][k] == x;
        assert rs[k + 1] == x;
      }
    }
  }

  /** Filtering a table that grew by one row filters the old rows and then the new one. */
  lemma {:induction false} WithoutAppend(rs: seq<Rating>, r: Rating, movieId: int)
    ensures Without(rs + [r], movieId) == Without(rs, movieId) + (if r.movieId != movieId then [r] else [])
  {
    if rs == [] {
      assert [r][1..] == [];
    } else {
      assert (rs + [r])[0] == rs[0] && (rs + [r])[1..] == rs[1..] + [r];
      WithoutAppend(rs[1..], r, movieId);
    }
  }

  /** Every rating id is below `bound`, the next id to hand out. */
  predicate IdsBelow(rs: seq<Rating>, bound: int)
  {
    forall i | 0 <= i < |rs| :: rs[i].id < bound
  }

  lemma WithoutKeepsIdsBelow(rs: seq<Rating>, movieId: int, bound: int)
    requires IdsBelow(rs, bound)
    ensures IdsBelow(Without(rs, movieId), bound)
  {
    var rest := Without(rs, movieId);
    forall i | 0 <= i < |rest| ensures rest[i].id < bound {
      assert rest[i] in rs;
      var k :| 0 <= k < |rs| && rs[k] == rest[i];
    }
  }

  /** Removing one movie's ratings leaves every other movie's ratings as they were. */
  lemma {:induction false} RatingsOfWithout(rs: seq<Rating>, gone: int, movieId: int)
    requires movieId != gone
    ensures RatingsOf(Without(rs, gone), movieId) == RatingsOf(rs, movieId)
  {
    if rs != [] {
      RatingsOfWithout(rs[1..], gone, movieId);
      var head := if rs[0].movieId != gone then [rs[0]] else [];
      RatingsOfAppend(head, Without(rs[1..], gone), movieId);
    }
  }

  /** A movie that no row references has no ratings. */
  lemma {:induction false} RatingsOfNone(rs: seq<Rating>, movieId: int)
    requires forall x | x in rs :: x.movieId != movieId
    ensures RatingsOf(rs, movieId) == []
  {
    if rs != [] {
      assert rs[0] in rs;
      assert forall x | x in rs[1..] :: x in rs;
      RatingsOfNone(rs[1..], movieId);
    }
  }

  lemma {:induction false} RatingsOfAppend(rs: seq<Rating>, more: seq<Rating>, movieId: int)
    ensures RatingsOf(rs + more, movieId) == RatingsOf(rs, movieId) + RatingsOf(more, movieId)
  {
    if rs != [] {
      assert (rs + more)[0] == rs[0] && (rs + more)[1..] == rs[1..] + more;
      RatingsOfAppend(rs[1..], more, movieId);
    } else {
      assert rs + more == more;
    }
  }

  function Sum(rs: seq<Rating>): int
  {
    if rs == [] then 0 else rs[0].score + Sum(rs[1..])
  }

  lemma {:induction false} SumBounds(rs: seq<Rating>)
    requires forall i | 0 <= i < |rs| :: 1 <= rs[i].score <= 10
    ensures |rs| <= Sum(rs) <= 10 * |rs|
  {
    if rs != [] {
      SumBounds(rs[1..]);
    }
  }

  lemma MeanTimesCount(total: real, n: real)
    requires n > 0.0
    ensures (total / n) * n == total
  {
  }

  lemma MeanBetween(total: real, n: real, lo: real, hi: real)
    requires n > 0.0 && lo * n <= total <= hi * n
    ensures lo <= total / n <= hi
  {
    MeanTimesCount(total, n);
  }

  /** Exact arithmetic mean of `count` values summing to `total`. */
  function Mean(total: int, count: nat): (m: real)
    requires count > 0
    ensures m * count as real == total as real
  {
    var t, n := total as real, count as real;
    MeanTimesCount(t, n);
    t / n
  }

  /** AVG(score) and COUNT(id) of one movie's ratings. */
  datatype Aggregate = Aggregate(average: real, count: nat)

  /** The grouped aggregate joined to a movie, coalesced to 0 / 0 when it has no ratings. */
  function AggregateOf(rs: seq<Rating>, movieId: int): (a: Aggregate)
    ensures a.count == |RatingsOf(rs, movieId)|
    ensures a.count == 0 ==> a.average == 0.0
    ensures a.count > 0 ==> a.average == Mean(Sum(RatingsOf(rs, movieId)), a.count)
  {
    var mine := RatingsOf(rs, movieId);
    var n := |mine|;
    if n == 0 then Aggregate(0.0, 0) else Aggregate(Mean(Sum(mine), n), n)
  }

  /** With scores kept in 1..10 the average of a rated movie is in 1..10 too. */
  lemma AverageWithinScoreRange(rs: seq<Rating>, movieId: int)
    requires forall i | 0 <= i < |rs| :: 1 <= rs[i].score <= 10
    ensures var a := AggregateOf(rs, movieId); a.count > 0 ==> 1.0 <= a.average <= 10.0
  {
    var mine := RatingsOf(rs, movieId);
    forall i | 0 <= i < |mine| ensures 1 <= mine[i].score <= 10 {
      assert mine[i] in rs;
    }
    SumBounds(mine);
    if |mine| > 0 {
      MeanBetween(Sum(mine) as real, |mine| as real, 1.0, 10.0);
    }
  }
}
