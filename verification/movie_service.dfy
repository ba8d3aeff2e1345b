/** The movie service: the checks that guard create and update (director first,
    then each genre in request order, and for update only then the existence of
    the movie), and the mapping of a listing page to its response envelope. */
module MovieService {
  import opened Common
  import opened Schema
  import opened MovieQuery
  import opened CatalogUpdates
  import opened Repository
  import opened RatingTable

  /** The first genre id, in request order, that names no genre. */
  function FirstUnknown(gids: seq<int>, genres: map<int, string>): (bad: Option<int>)
    ensures bad.None? <==> forall i | 0 <= i < |gids| :: gids[i] in genres
    ensures bad.Some? ==> exists i | 0 <= i < |gids| ::
      gids[i] == bad.value && gids[i] !in genres && forall j | 0 <= j < i :: gids[j] in genres
  {
    if gids == [] then None
    else if gids[0] !in genres then Some(gids[0])
    else
      var rest := FirstUnknown(gids[1..], genres);
      assert forall i | 0 < i < |gids| :: gids[i] == gids[1..][i - 1];
      assert rest.Some? ==> exists i | 0 <= i < |gids| ::
        gids[i] == rest.value && gids[i] !in genres && forall j | 0 <= j < i :: gids[j] in genres by {
        if rest.Some? {
          var k :| 0 <= k < |gids[1..]| && gids[1..][k] == rest.value && rest.value !in genres
                   && forall j | 0 <= j < k :: gids[1..][j] in genres;
          assert gids[k + 1] == rest.value;
          assert forall j | 0 <= j < k + 1 :: gids[j] in genres by {
            forall j | 0 <= j < k + 1 ensures gids[j] in genres {
              if j > 0 { assert gids[j] == gids[1..][j - 1]; }
            }
          }
        }
      }
      rest
  }

  /** The genre loop of both services: stops at the first unknown id. */
  method FindUnknownGenre(db: Store, gids: seq<int>) returns (bad: Option<int>)
    ensures bad == FirstUnknown(gids, db.genres)
  {
    for i := 0 to |gids|
      invariant FirstUnknown(gids, db.genres) == FirstUnknown(gids[i..], db.genres)
    {
      if gids[i] !in db.genres {
        return Some(gids[i]);
      }
      assert gids[i..][1..] == gids[i + 1..];
    }
    return None;
  }

  /** The error `create_new_movie` raises before touching the store, if any. */
  function CreateCheck(c: Catalog, m: MovieCreate): (e: Option<Error>)
    ensures e.None? <==> m.directorId in c.directors && forall g | g in m.genres :: g in c.genres
    ensures m.directorId !in c.directors ==> e == Some(Validation(InvalidDirector))
    ensures m.directorId in c.directors && e.Some? ==> exists i | 0 <= i < |m.genres| ::
      && e == Some(Validation(InvalidGenre(m.genres[i])))
      && m.genres[i] !in c.genres
      && forall j | 0 <= j < i :: m.genres[j] in c.genres
  {
    if m.directorId !in c.directors then Some(Validation(InvalidDirector))
    else match FirstUnknown(m.genres, c.genres)
      case Some(g) => Some(Validation(InvalidGenre(g)))
      case None => None
  }

  /** The error `update_existing_movie` raises, if any: the director when sent,
      then the genres when sent, and only after both the movie's existence. */
  function UpdateCheck(c: Catalog, id: int, u: MovieUpdate): (e: Option<Error>)
    ensures e.None? <==>
      && (u.directorId.Set? ==> u.directorId.value in c.directors)
      && (u.genres.Set? ==> forall g | g in u.genres.value :: g in c.genres)
      && id in c.movies
    ensures u.directorId.Set? && u.directorId.value !in c.directors ==> e == Some(Validation(InvalidDirector))
    ensures (u.directorId.Set? ==> u.directorId.value in c.directors) && e.Some? && e.value.Validation? ==>
      u.genres.Set? && exists i | 0 <= i < |u.genres.value| ::
        && e == Some(Validation(InvalidGenre(u.genres.value[i])))
        && u.genres.value[i] !in c.genres
        && forall j | 0 <= j < i :: u.genres.value[j] in c.genres
    ensures e.Some? && e.value.NotFound? ==>
      && e.value == NotFound(MovieNotFound) && id !in c.movies
      && (u.directorId.Set? ==> u.directorId.value in c.directors)
      && (u.genres.Set? ==> forall g | g in u.genres.value :: g in c.genres)
  {
    if u.directorId.Set? && u.directorId.value !in c.directors then Some(Validation(InvalidDirector))
    else if u.genres.Set? && FirstUnknown(u.genres.value, c.genres).Some? then
      Some(Validation(InvalidGenre(FirstUnknown(u.genres.value, c.genres).value)))
    else if id !in c.movies then Some(NotFound(MovieNotFound))
    else None
  }

  /** `create_new_movie`: check, insert, and return the new movie's detail view. */
  method CreateNewMovie(db: Store, m: MovieCreate) returns (r: Result<MovieDetailOut, Error>)
    requires db.Valid() && (CreateCheck(db.Snapshot(), m).None? ==> Distinct(m.genres))
    modifies db
    ensures db.Valid()
    ensures CreateCheck(old(db.Snapshot()), m).Some? ==>
      r == Err(CreateCheck(old(db.Snapshot()), m).value) && unchanged(db)
    ensures CreateCheck(old(db.Snapshot()), m).None? ==>
      && r.Ok?
      && r.value.summary.id !in old(db.movies)
      && db.Snapshot() == Created(old(db.Snapshot()), r.value.summary.id, m)
      && r == Detail(db.Snapshot(), r.value.summary.id)
      && r.value.ratingsCount == 0 && r.value.summary.averageRating == 0.0
  {
    if m.directorId !in db.directors {
      return Err(Validation(InvalidDirector));
    }
    var bad := FindUnknownGenre(db, m.genres);
    if bad.Some? {
      return Err(Validation(InvalidGenre(bad.value)));
    }
    ghost var before := db.Snapshot();
    var id := db.CreateMovie(m);
    CreatedDetail(before, id, m);
    r := Detail(db.Snapshot(), id);
  }

  /** `update_existing_movie`: check, update, and return the detail view. */
  method UpdateExistingMovie(db: Store, id: int, u: MovieUpdate) returns (r: Result<MovieDetailOut, Error>)
    requires db.Valid() && (UpdateCheck(db.Snapshot(), id, u).None? && u.genres.Set? ==> Distinct(u.genres.value))
    modifies db
    ensures db.Valid()
    ensures UpdateCheck(old(db.Snapshot()), id, u).Some? ==>
      r == Err(UpdateCheck(old(db.Snapshot()), id, u).value) && unchanged(db)
    ensures UpdateCheck(old(db.Snapshot()), id, u).None? ==>
      && db.Snapshot() == Updated(old(db.Snapshot()), id, u)
      && r == Detail(db.Snapshot(), id) && r.Ok?
  {
    if u.directorId.Set? && u.directorId.value !in db.directors {
      return Err(Validation(InvalidDirector));
    }
    if u.genres.Set? {
      var bad := FindUnknownGenre(db, u.genres.value);
      if bad.Some? {
        return Err(Validation(InvalidGenre(bad.value)));
      }
    }
    var updated := db.UpdateMovie(id, u);
    if updated.None? {
      return Err(NotFound(MovieNotFound));
    }
    r := Detail(db.Snapshot(), id);
  }

  /** `get_all_movies`: the page envelope around the list views of one listing page. */
  method GetAllMovies(db: Store, page: int, pageSize: int, f: MovieFilter) returns (resp: PaginatedResponse)
    requires db.Valid() && page >= 1 && pageSize >= 1
    ensures var listing := GetMovies(db.Snapshot(), page, pageSize, f);
      && resp.page == page && resp.pageSize == pageSize
      && resp.totalItems == listing.total
      && |resp.items| == |listing.rows|
      && forall i | 0 <= i < |resp.items| ::
           listing.rows[i].movie.directorId in db.directors
           && resp.items[i] == ListItem(db.Snapshot(), listing.rows[i])
  {
    var c := db.Snapshot();
    var listing := GetMovies(c, page, pageSize, f);
    var items := [];
    for i := 0 to |listing.rows|
      invariant |items| == i
      invariant forall k | 0 <= k < i ::
        listing.rows[k].movie.directorId in c.directors && items[k] == ListItem(c, listing.rows[k])
    {
      items := items + [ListItem(c, listing.rows[i])];
    }
    resp := PaginatedResponse(page, pageSize, listing.total, items);
  }

  /** Each list item shows its movie's columns, director, genre names and the
      row's average, in the listing's ascending id order. */
  lemma ListItemsDescribeTheirMovies(c: Catalog, page: int, pageSize: int, f: MovieFilter, i: int)
    requires Consistent(c) && page >= 1 && pageSize >= 1
    requires 0 <= i < |GetMovies(c, page, pageSize, f).rows|
    ensures var row := GetMovies(c, page, pageSize, f).rows[i];
      var m := c.movies[row.id];
      && row.movie.directorId in c.directors
      && var item := ListItem(c, row);
      && item.id == MatchingIds(c, f)[Offset(page, pageSize) + i]
      && item.title == m.title && item.releaseYear == m.releaseYear
      && item.director == DirectorOut(m.directorId, c.directors[m.directorId])
      && item.genres == GenreNames(c, row.id)
      && (row.count == 0 ==> item.averageRating == 0.0)
      && (row.count > 0 ==> item.averageRating == Mean(Sum(RatingsOf(c.ratings, row.id)), row.count))
  {
  }
}
