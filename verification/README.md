# Movie rating catalogue — a Dafny model

This project models the core of a small movie-rating web service. The service
keeps movies, their genres (through a `movie_genres` association), their
ratings, and fixed lookup tables of directors and genres in a relational store.
On top of that store it offers:

- a listing query that filters, orders by id, paginates and attaches each
  movie's average score and rating count;
- create, update and delete of movies, with the delete cascading to links and
  ratings;
- a rating insert;
- service functions that validate requests in a fixed order and raise
  `NotFound` (404) or `Validation` (422) with fixed messages.

The model is layered as follows:

- `common.dfy` (`Common`): option, result and set/unset request-field types;
  the two error kinds with their status codes; the error messages, including
  the decimal rendering of the genre id in `Invalid genre_id: {gid}`.
- `schema.dfy` (`Schema`): the table rows, the request and response shapes,
  the `Catalog` value (the content of the store at one moment) and the
  schema's integrity rules (`Consistent`).
- `ratings.dfy` (`RatingTable`): one movie's ratings, the delete cascade on the
  ratings table, and the per-movie aggregate. The average is an exact `real`.
- `query.dfy` (`MovieQuery`): the listing query as functions on a `Catalog`.
  It covers the conjunctive filters, the ascending id order, the
  `OFFSET/LIMIT` window, the distinct total, and the detail view of one movie.
- `catalog_ops.dfy` (`CatalogUpdates`): the effect of each mutation, as a
  function from the catalog before to the catalog after. The lemmas here cover
  integrity, the views of the changed movie and of all other movies, and the
  update and cascade rules.
- `store.dfy` (`Repository`): the store as a class whose methods change its
  tables in place: insert, field-by-field update, delete-then-insert of links,
  and the cascade loop. Each method is proved to produce exactly the catalog
  that its specification function describes.
- `movie_service.dfy` (`MovieService`) and `rating_service.dfy`
  (`RatingService`): the validation order, and the services that run on top
  of the store.

Several repository and service files exist twice in the source tree with the
same logic (`repositories/` and `app/repositories/`, `services/` and
`app/services/`, and two copies of the rating service). Each operation is
modelled once. The table below cites whichever copy the member's contract is
closest to.

## Model

| member | source | states |
|---|---|---|
| Common.Error.Code | app/exceptions/custom_exceptions.py:3-9 | NotFound carries status 404 and Validation carries 422, and no other pairing occurs |
| Common.InvalidGenreNamesTheId | services/movie_service.py:18 | two different genre ids give two different `Invalid genre_id: ` messages, so the message identifies the rejected id |
| RatingTable.RatingsOf | repositories/movie_repository.py:55-59 | the ratings grouped under one movie are exactly the table rows with that movie id |
| RatingTable.Without | app/models/movie.py:18 | the ratings left by the cascade are exactly the rows of other movies |
| RatingTable.WithoutKeepsDistinctIds | app/models/rating.py:8 | the cascade keeps the rating primary key unique |
| RatingTable.RatingsOfWithout | app/repositories/movie_repository.py:47-53 | deleting one movie's ratings leaves every other movie's ratings, in order, as they were |
| RatingTable.RatingsOfAppend | app/repositories/rating_repository.py:5-7 | appending rows to the table appends the matching ones to each movie's ratings |
| RatingTable.SumBounds | app/models/rating.py:10 | with every score in 1..10 the score sum lies between the count and ten times the count |
| RatingTable.Mean | repositories/movie_repository.py:57 | the average multiplied by the count gives back the sum of the scores |
| RatingTable.AggregateOf | repositories/movie_repository.py:55-64 | the count is the number of the movie's ratings; with no ratings the coalesced average and count are 0 and 0, otherwise average times count is the sum of the scores |
| RatingTable.AverageWithinScoreRange | repositories/movie_repository.py:57-63 | a rated movie's average lies in 1..10 when all stored scores do |
| MovieQuery.SortedIds | repositories/movie_repository.py:88 | the ordered ids are strictly ascending and hold exactly the given set, each once |
| MovieQuery.KeepIn | repositories/movie_repository.py:75-83 | an id is kept if and only if it was a candidate and belongs to the matching set; ascending input stays ascending |
| MovieQuery.ListedIffFiltersHold | repositories/movie_repository.py:75-83 | a movie is listed if and only if every active filter holds of it: the title contains the parameter ignoring case, the year is equal, and some linked genre has the name; absent or falsy parameters are ignored |
| MovieQuery.MatchingIds | repositories/movie_repository.py:75-89 | the ordered result holds exactly the movies that pass all filters, in strictly ascending id order |
| MovieQuery.TotalIsMatchCount | repositories/movie_repository.py:71-85 | the distinct count equals the length of the ordered matching list |
| MovieQuery.PageIds | repositories/movie_repository.py:88 | the ids on a page are at most page_size, empty past the end, the matching ids from position (page-1)*page_size on, ascending, and all known movies |
| MovieQuery.GetMoviesIsWindow | repositories/movie_repository.py:87-91 | the rows of a page are the result rows of exactly the page window of the ordered matching ids |
| MovieQuery.Slice | repositories/movie_repository.py:88 | the window has at most `limit` items, is empty past the end, and its i-th item is the item at position offset + i |
| MovieQuery.PagesArePrefix | repositories/movie_repository.py:88-89 | pages 1..k read in turn give exactly the first k * page_size items of the list |
| MovieQuery.RowOf | repositories/movie_repository.py:61-66 | a result row holds the movie, its rating count, an average of 0 when it has no ratings, and otherwise the mean of its scores |
| MovieQuery.GetMovies | repositories/movie_repository.py:47-91 | the total is the number of matching movies; the page has at most page_size rows and is empty past the end; row i is the matching movie at position (page-1)*page_size + i; ids are strictly ascending, so no movie repeats; each row carries the movie's own rating count, a 0 average when unrated, and otherwise the mean of its scores |
| MovieQuery.TotalIgnoresWindow | repositories/movie_repository.py:85 | the total is the same whichever page and page size are asked for |
| MovieQuery.AllPagesListEveryMatchOnce | repositories/movie_repository.py:87-89 | reading pages 1..k, once they cover the total, lists every matching movie exactly once, in ascending id order |
| MovieQuery.NoFilterListsAllMovies | repositories/movie_repository.py:75-83 | with no filter parameters every movie matches, so the listing enumerates the whole table by id |
| MovieQuery.UnknownYearListsNothing | repositories/movie_repository.py:78-80 | a non-zero year that no movie has gives total 0 and an empty page |
| MovieQuery.Detail | test.py:313-320 | the detail view fails with NotFound "Movie not found" exactly when the id is absent; otherwise it shows the movie's columns, its director, the names of its linked genres and its rating count, with a 0 average when unrated and otherwise the mean of its scores |
| CatalogUpdates.LinksFor | repositories/movie_repository.py:22-23 | the inserted association rows are exactly (new id, g) for the genre ids g of the request |
| CatalogUpdates.LinksExcept | repositories/movie_repository.py:39 | the bulk delete removes exactly the association rows of the movie |
| CatalogUpdates.CreatedConsistent | repositories/movie_repository.py:11-26 | inserting a movie with a known director and known genres under a new id keeps every foreign key, the score check and the primary keys |
| CatalogUpdates.CreatedDetail | services/movie_service.py:19-20 | the new movie's detail view shows the sent title, year, cast and director, the names of the sent genres, 0 ratings and a 0 average |
| CatalogUpdates.CreatedWithoutGenres | app/repositories/movie_repository.py:22-23 | a movie created with an empty genre list has no genre links |
| CatalogUpdates.CreatedKeepsOthers | app/repositories/movie_repository.py:11-26 | creating a movie leaves the detail view of every existing movie unchanged |
| CatalogUpdates.UpdatedConsistent | app/repositories/movie_repository.py:28-45 | an update with a known director and known genres keeps the store consistent |
| CatalogUpdates.UpdatedFields | repositories/movie_repository.py:33-36 | each sent column takes the sent value (null included for year and cast) and each unsent column keeps its value |
| CatalogUpdates.UpdatedLinks | repositories/movie_repository.py:38-41 | sent genres replace the movie's whole link set, even when the list is empty; unsent genres leave it alone; other movies' links never change |
| CatalogUpdates.UpdatedGenreNames | app/repositories/movie_repository.py:38-41 | after sending genres the movie shows exactly the names of those genres |
| CatalogUpdates.UpdatedWithNoGenres | test.py:240-252 | sending `genres: []` leaves the movie with no genre names |
| CatalogUpdates.UpdateOfNothing | app/repositories/movie_repository.py:33-36 | an update that sends no field leaves the store exactly as it was |
| CatalogUpdates.UpdatedKeepsOthers | app/repositories/movie_repository.py:28-45 | an update changes no other movie's view and no rating |
| CatalogUpdates.DeletedConsistent | app/models/movie_genre.py:7 | the delete with its cascades keeps every foreign key and the primary keys |
| CatalogUpdates.DeleteRemovesEveryTrace | app/models/movie.py:18 | after deleting an existing movie, no row, link or rating of it is left, and its detail view is NotFound "Movie not found" |
| CatalogUpdates.DeleteKeepsOthers | app/repositories/movie_repository.py:47-53 | deleting a movie leaves every other movie's row, genres, ratings and detail view unchanged |
| CatalogUpdates.RatedConsistent | app/repositories/rating_repository.py:4-9 | a score in 1..10 for an existing movie, under an unused id, keeps the store consistent |
| CatalogUpdates.RatedAddsOne | app/repositories/rating_repository.py:5-7 | the new row becomes the last rating of its movie; other movies' ratings stay |
| CatalogUpdates.EightAndSixAverageSeven | test.py:192-214 | scores 8 and 6 on an unrated movie give average 7 over 2 ratings |
| CatalogUpdates.EightAndSixDetail | test.py:209-214 | after scores 8 and 6 on an unrated movie, its detail view shows average_rating 7.0 and ratings_count 2 |
| Repository.RatingsNotOf | app/models/movie.py:18 | the cascade loop keeps exactly the rows of other movies, in table order |
| Repository.Store.CreateMovie | repositories/movie_repository.py:11-26 | the movie gets an id not in use, its genre links are inserted one at a time under an unused composite key, and the store becomes the created catalog and stays consistent |
| Repository.Store.UpdateMovie | app/repositories/movie_repository.py:28-45 | an absent id gives None and changes nothing; otherwise the store becomes the updated catalog, stays consistent, and the refreshed row is returned |
| Repository.Store.DeleteMovie | app/repositories/movie_repository.py:47-53 | returns False and changes nothing for an absent id; otherwise returns True and the store becomes the catalog with the movie, its links and its ratings removed |
| Repository.Store.CreateRating | app/repositories/rating_repository.py:4-9 | one row with the given movie id and score is appended under an id that no existing rating uses, and nothing else changes |
| MovieService.FirstUnknown | services/movie_service.py:16-18 | no id is reported exactly when all genre ids are known; a reported id is unknown, and every id before it in the request is known |
| MovieService.FindUnknownGenre | app/services/movie_service.py:16-18 | the loop stops at, and returns, the first unknown genre id in request order |
| MovieService.CreateCheck | services/movie_service.py:13-18 | create is accepted exactly when the director and all genres exist; an unknown director is reported before any genre; otherwise the first unknown genre is named |
| MovieService.UpdateCheck | services/movie_service.py:22-32 | the director is checked only when sent, and the genres only when sent, both before existence; NotFound is reported only for a valid update of an absent movie |
| MovieService.CreateNewMovie | app/services/movie_service.py:13-20 | a rejected create changes nothing and returns the check's error; an accepted one inserts the movie under a new id and returns its detail view with 0 ratings and a 0 average |
| MovieService.UpdateExistingMovie | app/services/movie_service.py:22-33 | a rejected update, including one on a missing movie, changes nothing and returns the check's error; an accepted one applies the update and returns the new detail view |
| MovieService.GetAllMovies | services/movie_service.py:36-55 | page and page size are echoed; total_items is the repository total; the items are the listing rows in order, one list view each |
| MovieService.ListItemsDescribeTheirMovies | services/movie_service.py:47-52 | list item i is the matching movie at position (page-1)*page_size + i, with its title, year, director id and name, genre names, a 0 average when unrated, and otherwise the mean of the movie's scores |
| RatingService.RatingCheck | app/app/services/rating_service.py:8-11 | a score outside 1..10 gives Validation "Score must be between 1 and 10" whether or not the movie exists; a valid score on an absent movie gives NotFound "Movie not found"; otherwise nothing |
| RatingService.AcceptedRatingIsStorable | app/models/rating.py:10 | the service accepts a rating exactly when the table's score check and foreign key accept it |
| RatingService.AddRating | app/services/rating_service.py:8-28 | a rejected rating changes nothing and returns the check's error; an accepted one appends exactly one row with this movie id and score under a new id and returns it |

## Left out

- HTTP routing, the success and failure response envelope, and the mapping
  of exceptions to JSON bodies are not modelled. The controllers only pass
  `page >= 1` and `page_size >= 1` through, and that pass-through appears here
  as preconditions.
- Logging in the rating service is not modelled; it has no effect on the
  store.
- Session mechanics are not modelled: commit, refresh, eager loading, subquery
  construction and storage failures. Every storage call succeeds here, so the
  `try`/`except` around the insert in `add_rating` has no modelled failure
  path.
- `create_movie` commits the movie row before it inserts the genre links. A
  failure between the two commits would leave the movie stored without links.
  The model follows the state after both commits and does not model the state
  in between.
- Repository.Store.CreateMovie requires distinct genre ids, and so do
  Repository.Store.UpdateMovie for an existing movie and the two services for a
  request that passes validation. A repeated id in such a request breaks the
  composite primary key of `movie_genres` in storage. That storage failure is
  not modelled. Requests that fail validation, or update a missing movie, are
  answered with their error whatever their genre ids.
- Repository.Store.CreateMovie, Repository.Store.UpdateMovie (for an existing
  movie) and Repository.Store.CreateRating require the foreign keys, and the score range
  for ratings, to hold. The services check these before calling, and the
  storage layer enforces them. A direct call that would violate them is not
  modelled.
- MovieService.GetAllMovies reports the exact mean as a `real`. The
  `round(float(avg), 1)` of the list view is not modelled.
- MovieQuery.Detail and MovieService.GetAllMovies report genre names as a set.
  The order in which the relationship loads them is not specified, so list
  order is not modelled.
- MovieQuery.ListedIffFiltersHold treats the title parameter literally. `%` and `_` inside it,
  which act as LIKE wildcards in storage, are not modelled.
- MovieQuery.ListedIffFiltersHold lower-cases ASCII letters only. Case folding beyond ASCII is
  not modelled.
- `get_movie_detail` and `get_movie_by_id` are not part of this model. The
  service files call them, but their definitions are not in the files shown.
  `get_movie_detail` is modelled as `MovieQuery.Detail`: the listing row of one
  id, or NotFound "Movie not found". `get_movie_by_id` is modelled as
  membership in the movies map.
- The `updated_at` field of the detail view is not modelled, because it needs
  an external clock.
- Pydantic request parsing is not modelled. This covers type errors such as a
  non-numeric year, and an explicit `null` sent for `title`, `director_id` or
  `genres` in an update, which the storage layer or the genre loop would
  reject. Request fields are typed values here, and `Field` records only
  whether a field was sent.
- New primary keys come from counters that never reuse an id. The store's own
  allocation policy, which may reuse the largest deleted id, is not modelled.
  The model promises only that a new id is not in use.
- The directors and genres tables are fixed. No core operation changes them,
  so the cascades from deleting a director or a genre are not modelled.
- Concurrent requests are not modelled. Every operation runs alone, to
  completion.
