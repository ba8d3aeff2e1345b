/** What each mutation of the store does to its content, as functions from the
    catalog before to the catalog after, and what those changes mean for the
    integrity rules and for the views of every movie. */
module CatalogUpdates {
  import opened Common
  import opened Schema
  import opened RatingTable
  import opened MovieQuery

  /** One movie_genres row per listed genre id. */
  function LinksFor(id: int, gids: seq<int>): (ls: set<Link>)
    ensures forall g :: (id, g) in ls <==> g in gids
    ensures forall l | l in ls :: l.0 == id
  {
    set g | g in gids :: (id, g)
  }

  /** The association after deleting every row of one movie. */
  function LinksExcept(links: set<Link>, id: int): (ls: set<Link>)
    ensures forall l :: l in ls <==> l in links && l.0 != id
  {
    set l | l in links && l.0 != id
  }

  /** The movies row built from a create request. */
  function NewMovie(m: MovieCreate): Movie
  {
    Movie(m.title, m.releaseYear, m.cast, m.directorId)
  }

  /** The value of a column after an update: the sent value, or the current one. */
  function Pick<T>(field: Field<T>, current: T): T
  {
    if field.Set? then field.value else current
  }

  /** A movies row with the sent fields of an update written into it. */
  function Patched(m: Movie, u: MovieUpdate): Movie
  {
    Movie(Pick(u.title, m.title), Pick(u.releaseYear, m.releaseYear), Pick(u.cast, m.cast),
          Pick(u.directorId, m.directorId))
  }

  predicate NothingSent(u: MovieUpdate)
  {
    u.title.Unset? && u.directorId.Unset? && u.releaseYear.Unset? && u.cast.Unset? && u.genres.Unset?
  }

  /** The store after `create_movie` gave the new movie the id `id`. */
  function Created(c: Catalog, id: int, m: MovieCreate): Catalog
  {
    c.(movies := c.movies[id := NewMovie(m)], links := c.links + LinksFor(id, m.genres))
  }

  /** The store after `update_movie` on an existing movie. */
  function Updated(c: Catalog, id: int, u: MovieUpdate): Catalog
    requires id in c.movies
  {
    c.(movies := c.movies[id := Patched(c.movies[id], u)],
       links := if u.genres.Set? then LinksExcept(c.links, id) + LinksFor(id, u.genres.value) else c.links)
  }

  /** The store after `delete_movie`, with the cascades to links and ratings. */
  function Deleted(c: Catalog, id: int): Catalog
  {
    if id !in c.movies then c
    else c.(movies := c.movies - {id}, links := LinksExcept(c.links, id), ratings := Without(c.ratings, id))
  }

  /** The store after `create_rating` inserted the row `r`. */
  function Rated(c: Catalog, r: Rating): Catalog
  {
    c.(ratings := c.ratings + [r])
  }

  // ------------------------------------------------------------------ create

  /** A movie with a known director and known genres keeps the store consistent. */
  lemma CreatedConsistent(c: Catalog, id: int, m: MovieCreate)
    requires Consistent(c) && id !in c.movies
    requires m.directorId in c.directors && forall g | g in m.genres :: g in c.genres
    ensures Consistent(Created(c, id, m))
  {
  }

  /** A movie id that is not in the table has no ratings in a consistent store. */
  lemma AbsentHasNoRatings(c: Catalog, id: int)
    requires Consistent(c) && id !in c.movies
    ensures RatingsOf(c.ratings, id) == []
  {
    forall x | x in c.ratings ensures x.movieId != id {
      var k :| 0 <= k < |c.ratings| && c.ratings[k] == x;
    }
    RatingsOfNone(c.ratings, id);
  }

  /** The detail view of a just created movie: its own fields, the names of its
      genres, no ratings and an average of 0. */
  lemma CreatedDetail(c: Catalog, id: int, m: MovieCreate)
    requires Consistent(c) && id !in c.movies
    requires m.directorId in c.directors && forall g | g in m.genres :: g in c.genres
    ensures var d := Detail(Created(c, id, m), id);
      && d.Ok?
      && d.value.summary.id == id
      && d.value.summary.title == m.title
      && d.value.summary.releaseYear == m.releaseYear
      && d.value.cast == m.cast
      && d.value.summary.director == DirectorOut(m.directorId, c.directors[m.directorId])
      && d.value.summary.genres == (set g | g in m.genres :: c.genres[g])
      && d.value.ratingsCount == 0
      && d.value.summary.averageRating == 0.0
  {
    var after := Created(c, id, m);
    AbsentHasNoRatings(c, id);
    assert GenreNames(after, id) == (set g | g in m.genres :: c.genres[g]) by {
      forall name | name in GenreNames(after, id) ensures name in (set g | g in m.genres :: c.genres[g]) {
        var l :| l in after.links && l.0 == id && l.1 in after.genres && after.genres[l.1] == name;
        assert l !in c.links;
      }
      forall name | name in (set g | g in m.genres :: c.genres[g]) ensures name in GenreNames(after, id) {
        var g :| g in m.genres && c.genres[g] == name;
        assert (id, g) in after.links;
      }
    }
  }

  /** A movie created without genres has no genre links. */
  lemma CreatedWithoutGenres(c: Catalog, id: int, m: MovieCreate)
    requires Consistent(c) && id !in c.movies && m.genres == []
    ensures forall l | l in Created(c, id, m).links :: l.0 != id
  {
  }

  /** Creating a movie changes the view of no other movie. */
  lemma CreatedKeepsOthers(c: Catalog, id: int, m: MovieCreate, x: int)
    requires Consistent(c) && id !in c.movies && x in c.movies
    ensures Detail(Created(c, id, m), x) == Detail(c, x)
  {
    assert GenreNames(Created(c, id, m), x) == GenreNames(c, x);
  }

  // ------------------------------------------------------------------ update

  /** An update with known director and genres keeps the store consistent. */
  lemma UpdatedConsistent(c: Catalog, id: int, u: MovieUpdate)
    requires Consistent(c) && id in c.movies
    requires u.directorId.Set? ==> u.directorId.value in c.directors
    requires u.genres.Set? ==> forall g | g in u.genres.value :: g in c.genres
    ensures Consistent(Updated(c, id, u))
  {
  }

  /** Only the sent columns change; every other column keeps its value. */
  lemma UpdatedFields(c: Catalog, id: int, u: MovieUpdate)
    requires id in c.movies
    ensures var before, after := c.movies[id], Updated(c, id, u).movies[id];
      && (if u.title.Set? then after.title == u.title.value else after.title == before.title)
      && (if u.releaseYear.Set? then after.releaseYear == u.releaseYear.value else after.releaseYear == before.releaseYear)
      && (if u.cast.Set? then after.cast == u.cast.value else after.cast == before.cast)
      && (if u.directorId.Set? then after.directorId == u.directorId.value else after.directorId == before.directorId)
  {
  }

  /** Sent genres replace the movie's whole link set; unsent genres leave it
      alone; the links of other movies never change. */
  lemma UpdatedLinks(c: Catalog, id: int, u: MovieUpdate)
    requires id in c.movies
    ensures forall l :: l in Updated(c, id, u).links <==>
      if l.0 == id && u.genres.Set? then l.1 in u.genres.value else l in c.links
  {
  }

  /** After sending `genres`, the movie shows exactly the names of those genres. */
  lemma UpdatedGenreNames(c: Catalog, id: int, u: MovieUpdate)
    requires id in c.movies && u.genres.Set?
    requires forall g | g in u.genres.value :: g in c.genres
    ensures GenreNames(Updated(c, id, u), id) == set g | g in u.genres.value :: c.genres[g]
  {
    var after := Updated(c, id, u);
    UpdatedLinks(c, id, u);
    forall name | name in GenreNames(after, id) ensures name in (set g | g in u.genres.value :: c.genres[g]) {
      var l :| l in after.links && l.0 == id && l.1 in after.genres && after.genres[l.1] == name;
    }
    forall name | name in (set g | g in u.genres.value :: c.genres[g]) ensures name in GenreNames(after, id) {
      var g :| g in u.genres.value && c.genres[g] == name;
      assert (id, g) in after.links;
    }
  }

  /** Sending an empty genre list removes every genre of the movie. */
  lemma UpdatedWithNoGenres(c: Catalog, id: int, u: MovieUpdate)
    requires id in c.movies && u.genres == Set([])
    ensures GenreNames(Updated(c, id, u), id) == {}
  {
    UpdatedGenreNames(c, id, u);
  }

  /** An update that sends nothing leaves the store as it was. */
  lemma UpdateOfNothing(c: Catalog, id: int, u: MovieUpdate)
    requires id in c.movies && NothingSent(u)
    ensures Updated(c, id, u) == c
  {
    assert Patched(c.movies[id], u) == c.movies[id];
  }

  /** Updating a movie changes the view of no other movie and keeps its own ratings. */
  lemma UpdatedKeepsOthers(c: Catalog, id: int, u: MovieUpdate, x: int)
    requires Consistent(c) && id in c.movies && x in c.movies && x != id
    ensures Detail(Updated(c, id, u), x) == Detail(c, x)
    ensures Updated(c, id, u).ratings == c.ratings
  {
    UpdatedLinks(c, id, u);
    assert GenreNames(Updated(c, id, u), x) == GenreNames(c, x);
  }

  // ------------------------------------------------------------------ delete

  lemma DeletedConsistent(c: Catalog, id: int)
    requires Consistent(c)
    ensures Consistent(Deleted(c, id))
  {
    if id in c.movies {
      var d := Deleted(c, id);
      WithoutKeepsDistinctIds(c.ratings, id);
      forall i | 0 <= i < |d.ratings| ensures d.ratings[i].movieId in d.movies && 1 <= d.ratings[i].score <= 10 {
        assert d.ratings[i] in Without(c.ratings, id);
        var k :| 0 <= k < |c.ratings| && c.ratings[k] == d.ratings[i];
      }
    }
  }

  /** Deleting an existing movie leaves no movie, link or rating of it behind,
      and its detail view becomes NotFound. */
  lemma DeleteRemovesEveryTrace(c: Catalog, id: int)
    requires id in c.movies
    ensures var d := Deleted(c, id);
      && id !in d.movies
      && (forall l | l in d.links :: l.0 != id)
      && (forall x | x in d.ratings :: x.movieId != id)
      && RatingsOf(d.ratings, id) == []
      && Detail(d, id) == Err(NotFound(MovieNotFound))
  {
    RatingsOfNone(Deleted(c, id).ratings, id);
  }

  /** Deleting a movie changes the view of no other movie: its row, its genres
      and its ratings stay. */
  lemma DeleteKeepsOthers(c: Catalog, id: int, x: int)
    requires Consistent(c) && x in c.movies && x != id
    ensures x in Deleted(c, id).movies
    ensures RatingsOf(Deleted(c, id).ratings, x) == RatingsOf(c.ratings, x)
    ensures Detail(Deleted(c, id), x) == Detail(c, x)
  {
    if id in c.movies {
      RatingsOfWithout(c.ratings, id, x);
      assert GenreNames(Deleted(c, id), x) == GenreNames(c, x);
    }
  }

  // ------------------------------------------------------------------ rating

  /** Storing an accepted score under a fresh id keeps the store consistent. */
  lemma RatedConsistent(c: Catalog, r: Rating)
    requires Consistent(c) && r.movieId in c.movies && 1 <= r.score <= 10
    requires forall i | 0 <= i < |c.ratings| :: c.ratings[i].id != r.id
    ensures Consistent(Rated(c, r))
  {
  }

  /** The new rating joins its movie's ratings; other movies' ratings stay. */
  lemma RatedAddsOne(c: Catalog, r: Rating, x: int)
    ensures RatingsOf(Rated(c, r).ratings, x) ==
      if x == r.movieId then RatingsOf(c.ratings, x) + [r] else RatingsOf(c.ratings, x)
  {
    RatingsOfAppend(c.ratings, [r], x);
    assert RatingsOf([r], x) == (if r.movieId == x then [r] else []) by {
      assert [r][1..] == [];
    }
  }

  /** Scores 8 and 6 on a movie with no ratings give an average of 7 over 2 ratings. */
  lemma EightAndSixAverageSeven(c: Catalog, movieId: int, first: int, second: int)
    requires RatingsOf(c.ratings, movieId) == []
    ensures AggregateOf(Rated(Rated(c, Rating(first, movieId, 8)), Rating(second, movieId, 6)).ratings, movieId)
      == Aggregate(7.0, 2)
  {
    var r1, r2 := Rating(first, movieId, 8), Rating(second, movieId, 6);
    var once := Rated(c, r1);
    RatedAddsOne(c, r1, movieId);
    RatedAddsOne(once, r2, movieId);
    var mine := RatingsOf(Rated(once, r2).ratings, movieId);
    assert mine == [r1, r2];
    assert Sum(mine) == 14 by {
      assert mine[1..] == [r2];
      assert mine[1..][1..] == [];
      assert Sum(mine[1..]) == 6;
    }
    var m := Mean(14, 2);
    assert m * 2.0 == 14.0;
  }

  /** The detail view after scores 8 and 6 on a movie with no ratings shows an
      average of 7.0 over 2 ratings. */
  lemma EightAndSixDetail(c: Catalog, movieId: int, first: int, second: int)
    requires movieId in c.movies && c.movies[movieId].directorId in c.directors
    requires RatingsOf(c.ratings, movieId) == []
    ensures var after := Rated(Rated(c, Rating(first, movieId, 8)), Rating(second, movieId, 6));
      var d := Detail(after, movieId);
      d.Ok? && d.value.summary.averageRating == 7.0 && d.value.ratingsCount == 2
  {
    EightAndSixAverageSeven(c, movieId, first, second);
  }
}
