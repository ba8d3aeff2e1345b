/** The rating service: the score range check, then the movie's existence,
    then the insert. */
module RatingService {
  import opened Common
  import opened Schema
  import opened CatalogUpdates
  import opened Repository

  /** The error `add_rating` raises before touching the store, if any. */
  function RatingCheck(c: Catalog, movieId: int, score: int): (e: Option<Error>)
    ensures e.None? <==> 1 <= score <= 10 && movieId in c.movies
    ensures !(1 <= score <= 10) ==> e == Some(Validation(ScoreOutOfRange))
    ensures 1 <= score <= 10 && movieId !in c.movies ==> e == Some(NotFound(MovieNotFound))
  {
    if score < 1 || score > 10 then Some(Validation(ScoreOutOfRange))
    else if movieId !in c.movies then Some(NotFound(MovieNotFound))
    else None
  }

  /** What the service accepts is exactly what the table's CHECK constraint and
      foreign key allow, so an accepted rating keeps the store consistent. */
  lemma AcceptedRatingIsStorable(c: Catalog, r: Rating)
    requires Consistent(c)
    requires forall i | 0 <= i < |c.ratings| :: c.ratings[i].id != r.id
    ensures RatingCheck(c, r.movieId, r.score).None? <==>
      r.movieId in c.movies && Consistent(Rated(c, r))
  {
    if RatingCheck(c, r.movieId, r.score).None? {
      RatedConsistent(c, r);
    } else if r.movieId in c.movies {
      assert Rated(c, r).ratings[|c.ratings|] == r;
    }
  }

  /** `add_rating`: check, insert, and return the stored row. */
  method AddRating(db: Store, movieId: int, score: int) returns (r: Result<RatingOut, Error>)
    requires db.Valid()
    modifies db
    ensures db.Valid()
    ensures RatingCheck(old(db.Snapshot()), movieId, score).Some? ==>
      r == Err(RatingCheck(old(db.Snapshot()), movieId, score).value) && unchanged(db)
    ensures RatingCheck(old(db.Snapshot()), movieId, score).None? ==>
      && r.Ok? && r.value.movieId == movieId && r.value.score == score
      && (forall i | 0 <= i < |old(db.ratings)| :: old(db.ratings)[i].id != r.value.id)
      && db.Snapshot() == Rated(old(db.Snapshot()), Rating(r.value.id, movieId, score))
  {
    if score < 1 || score > 10 {
      return Err(Validation(ScoreOutOfRange));
    }
    if movieId !in db.movies {
      return Err(NotFound(MovieNotFound));
    }
    var row := db.CreateRating(movieId, score);
    r := Ok(RatingOut(row.id, row.movieId, row.score));
  }
}
