/** The tables of the store (movies, movie_genres, movie_ratings, directors,
    genres), the request and response shapes, and the store's integrity rules. */
module Schema {
  import opened Common

  /** One row of the movies table; its id is the key of the map that holds it. */
  datatype Movie = Movie(title: string, releaseYear: Option<int>, cast: Option<string>, directorId: int)

  /** One row of the movie_ratings table. */
  datatype Rating = Rating(id: int, movieId: int, score: int)

  /** One row of the movie_genres association: the composite key (movie id, genre id). */
  type Link = (int, int)

  /** Body of a create request; a missing `genres` arrives here as []. */
  datatype MovieCreate = MovieCreate(
    title: string,
    directorId: int,
    releaseYear: Option<int>,
    cast: Option<string>,
    genres: seq<int>)

  /** Body of a partial update; release year and cast may be set to null. */
  datatype MovieUpdate = MovieUpdate(
    title: Field<string>,
    directorId: Field<int>,
    releaseYear: Field<Option<int>>,
    cast: Field<Option<string>>,
    genres: Field<seq<int>>)

  datatype DirectorOut = DirectorOut(id: int, name: string)

  /** The list view of a movie. The average is exact here (see README). */
  datatype MovieListOut = MovieListOut(
    id: int,
    title: string,
    releaseYear: Option<int>,
    director: DirectorOut,
    genres: set<string>,
    averageRating: real)

  /** The detail view: the list view plus cast and number of ratings. */
  datatype MovieDetailOut = MovieDetailOut(summary: MovieListOut, cast: Option<string>, ratingsCount: nat)

  datatype PaginatedResponse = PaginatedResponse(page: int, pageSize: int, totalItems: nat, items: seq<MovieListOut>)

  datatype RatingOut = RatingOut(id: int, movieId: int, score: int)

  /** The content of the store at one moment; directors and genres map ids to names. */
  datatype Catalog = Catalog(
    movies: map<int, Movie>,
    links: set<Link>,
    ratings: seq<Rating>,
    directors: map<int, string>,
    genres: map<int, string>)

  predicate DistinctIds(rs: seq<Rating>)
  {
    forall i, j | 0 <= i < j < |rs| :: rs[i].id != rs[j].id
  }

  predicate Distinct(gids: seq<int>)
  {
    forall i, j | 0 <= i < j < |gids| :: gids[i] != gids[j]
  }

  predicate UniqueNames(genres: map<int, string>)
  {
    forall g, h | g in genres && h in genres && g != h :: genres[g] != genres[h]
  }

  /** The schema's constraints: foreign keys, the score check, primary keys and
      unique genre names. */
  ghost predicate Consistent(c: Catalog)
  {
    && (forall id | id in c.movies :: c.movies[id].directorId in c.directors)
    && (forall l | l in c.links :: l.0 in c.movies && l.1 in c.genres)
    && (forall i | 0 <= i < |c.ratings| :: c.ratings[i].movieId in c.movies && 1 <= c.ratings[i].score <= 10)
    && DistinctIds(c.ratings)
    && UniqueNames(c.genres)
  }
}
