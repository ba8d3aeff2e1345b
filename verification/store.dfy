/** The relational store as one object: the movies, movie_genres and
    movie_ratings tables that the repositories change in place, the read-only
    directors and genres tables, and the counters that hand out new primary keys. */
module Repository {
  import opened Common
  import opened Schema
  import opened RatingTable
  import opened CatalogUpdates

  /** The rows the delete cascade leaves: it visits the table and drops each
      rating of the deleted movie. */
  method RatingsNotOf(rs: seq<Rating>, movieId: int) returns (kept: seq<Rating>)
    ensures kept == Without(rs, movieId)
  {
    kept := [];
    for i := 0 to |rs|
      invariant kept == Without(rs[..i], movieId)
    {
      WithoutAppend(rs[..i], rs[i], movieId);
      if rs[i].movieId != movieId {
        kept := kept + [rs[i]];
      }
      assert rs[..i + 1] == rs[..i] + [rs[i]];
    }
    assert rs[..|rs|] == rs;
  }

  class Store {
    var movies: map<int, Movie>
    var links: set<Link>
    var ratings: seq<Rating>
    var nextMovieId: int
    var nextRatingId: int
    const directors: map<int, string>
    const genres: map<int, string>

    /** The current content of the tables as a value. */
    function Snapshot(): Catalog
      reads this
    {
      Catalog(movies, links, ratings, directors, genres)
    }

    /** The schema's constraints hold and every key in use is below its counter. */
    ghost predicate Valid()
      reads this
    {
      && Consistent(Snapshot())
      && (forall id | id in movies :: id < nextMovieId)
      && IdsBelow(ratings, nextRatingId)
    }

    /** An empty store over fixed directors and genres. */
    constructor(directors: map<int, string>, genres: map<int, string>)
      requires UniqueNames(genres)
      ensures Valid()
      ensures Snapshot() == Catalog(map[], {}, [], directors, genres)
    {
      this.directors := directors;
      this.genres := genres;
      movies, links, ratings := map[], {}, [];
      nextMovieId, nextRatingId := 1, 1;
    }

    /** `create_movie`: insert the movie under a new key, then one link per genre id. */
    method CreateMovie(m: MovieCreate) returns (id: int)
      requires Valid()
      requires m.directorId in directors && forall g | g in m.genres :: g in genres
      requires Distinct(m.genres)
      modifies this
      ensures Valid()
      ensures id !in old(movies)
      ensures Snapshot() == Created(old(Snapshot()), id, m)
    {
      id := nextMovieId;
      nextMovieId := nextMovieId + 1;
      movies := movies[id := NewMovie(m)];
      for i := 0 to |m.genres|
        invariant links == old(links) + LinksFor(id, m.genres[..i])
        invariant movies == old(movies)[id := NewMovie(m)] && ratings == old(ratings)
        invariant nextMovieId == id + 1 && nextRatingId == old(nextRatingId)
      {
        // the composite primary key (movie_id, genre_id) is not yet taken
        assert (id, m.genres[i]) !in links;
        links := links + {(id, m.genres[i])};
        assert m.genres[..i + 1] == m.genres[..i] + [m.genres[i]];
      }
      assert m.genres[..|m.genres|] == m.genres;
      CreatedConsistent(old(Snapshot()), id, m);
    }

    /** `update_movie`: None for an unknown id; otherwise write the sent columns
        and, when genres were sent, delete the movie's links and insert the new ones. */
    method UpdateMovie(id: int, u: MovieUpdate) returns (updated: Option<Movie>)
      requires Valid()
      requires id in movies && u.directorId.Set? ==> u.directorId.value in directors
      requires id in movies && u.genres.Set? ==> (forall g | g in u.genres.value :: g in genres) && Distinct(u.genres.value)
      modifies this
      ensures Valid()
      ensures id !in old(movies) ==> updated == None && unchanged(this)
      ensures id in old(movies) ==> id in movies && updated == Some(movies[id]) && Snapshot() == Updated(old(Snapshot()), id, u)
    {
      if id !in movies {
        return None;
      }
      var m := movies[id];
      if u.title.Set? {
        m := m.(title := u.title.value);
      }
      if u.directorId.Set? {
        m := m.(directorId := u.directorId.value);
      }
      if u.releaseYear.Set? {
        m := m.(releaseYear := u.releaseYear.value);
      }
      if u.cast.Set? {
        m := m.(cast := u.cast.value);
      }
      movies := movies[id := m];
      if u.genres.Set? {
        var gids := u.genres.value;
        links := LinksExcept(links, id);
        for i := 0 to |gids|
          invariant links == LinksExcept(old(links), id) + LinksFor(id, gids[..i])
          invariant movies == old(movies)[id := m] && ratings == old(ratings)
          invariant nextMovieId == old(nextMovieId) && nextRatingId == old(nextRatingId)
        {
          assert (id, gids[i]) !in links;
          links := links + {(id, gids[i])};
          assert gids[..i + 1] == gids[..i] + [gids[i]];
        }
        assert gids[..|gids|] == gids;
      }
      UpdatedConsistent(old(Snapshot()), id, u);
      updated := Some(m);
    }

    /** `delete_movie`: False for an unknown id; otherwise remove the movie, its
        ratings (the ORM cascade, one row at a time) and its genre links. */
    method DeleteMovie(id: int) returns (deleted: bool)
      requires Valid()
      modifies this
      ensures Valid()
      ensures deleted <==> id in old(movies)
      ensures !deleted ==> unchanged(this)
      ensures Snapshot() == Deleted(old(Snapshot()), id)
    {
      if id !in movies {
        return false;
      }
      ghost var before := Snapshot();
      var rs := ratings;
      var kept := RatingsNotOf(rs, id);
      ratings := kept;
      links := LinksExcept(links, id);
      movies := movies - {id};
      assert Snapshot() == Deleted(before, id);
      DeletedConsistent(before, id);
      WithoutKeepsIdsBelow(rs, id, nextRatingId);
      deleted := true;
    }

    /** `create_rating`: append one row under a new key. */
    method CreateRating(movieId: int, score: int) returns (r: Rating)
      requires Valid() && movieId in movies && 1 <= score <= 10
      modifies this
      ensures Valid()
      ensures r.movieId == movieId && r.score == score
      ensures forall i | 0 <= i < |old(ratings)| :: old(ratings)[i].id != r.id
      ensures Snapshot() == Rated(old(Snapshot()), r)
    {
      r := Rating(nextRatingId, movieId, score);
      nextRatingId := nextRatingId + 1;
      ratings := ratings + [r];
      RatedConsistent(old(Snapshot()), r);
    }
  }
}
