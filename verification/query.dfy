/** The read side of the movie repository: the filtered, id-ordered, paginated
    listing joined with each movie's rating aggregate, and the single-movie
    views built from the same rows. Nothing here changes the store. */
module MovieQuery {
  import opened Common
  import opened Schema
  import opened RatingTable

  // ---------------------------------------------------------------- filters

  /** Lower-casing as the case-insensitive LIKE does it: ASCII letters only. */
  function LowerChar(ch: char): char
  {
    if 'A' <= ch <= 'Z' then (ch as int + 32) as char else ch
  }

  function Lower(s: string): (r: string)
    ensures |r| == |s| && forall i | 0 <= i < |s| :: r[i] == LowerChar(s[i])
  {
    seq(|s|, i requires 0 <= i < |s| => LowerChar(s[i]))
  }

  predicate OccursAt(needle: string, hay: string, i: int)
  {
    0 <= i && i + |needle| <= |hay| && hay[i..i + |needle|] == needle
  }

  /** `needle` occurs as a contiguous part of `hay`. */
  predicate Occurs(needle: string, hay: string)
  {
    exists i | 0 <= i <= |hay| - |needle| :: OccursAt(needle, hay, i)
  }

  /** `hay ILIKE '%needle%'`. */
  predicate ContainsIgnoringCase(hay: string, needle: string)
  {
    Occurs(Lower(needle), Lower(hay))
  }

  /** The optional query parameters; each is ignored when absent or falsy
      (an empty string, a year of 0). */
  datatype MovieFilter = MovieFilter(title: Option<string>, releaseYear: Option<int>, genre: Option<string>)

  const NoFilter := MovieFilter(None, None, None)

  predicate TitleApplies(f: MovieFilter) { f.title.Some? && f.title.value != "" }
  predicate YearApplies(f: MovieFilter) { f.releaseYear.Some? && f.releaseYear.value != 0 }
  predicate GenreApplies(f: MovieFilter) { f.genre.Some? && f.genre.value != "" }

  /** The movie is linked to a genre with exactly this name. */
  predicate HasGenreNamed(c: Catalog, id: int, name: string)
  {
    exists l | l in c.links :: l.0 == id && l.1 in c.genres && c.genres[l.1] == name
  }

  /** All active filters hold of the movie (they are combined with AND). */
  predicate Matches(c: Catalog, id: int, f: MovieFilter)
    requires id in c.movies
  {
    var m := c.movies[id];
    && (TitleApplies(f) ==> ContainsIgnoringCase(m.title, f.title.value))
    && (YearApplies(f) ==> m.releaseYear == Some(f.releaseYear.value))
    && (GenreApplies(f) ==> HasGenreNamed(c, id, f.genre.value))
  }

  // --------------------------------------------------------------- ordering

  predicate Ascending(s: seq<int>)
  {
    forall i, j | 0 <= i < j < |s| :: s[i] < s[j]
  }

  predicate IsLeast(m: int, s: set<int>)
  {
    m in s && forall x | x in s :: m <= x
  }

  predicate Inhabited(s: set<int>)
  {
    exists x | x in s :: true
  }

  lemma {:induction false} HasLeast(s: set<int>)
    requires Inhabited(s)
    ensures exists m :: IsLeast(m, s)
    decreases |s|
  {
    var y :| y in s;
    var rest := s - {y};
    if !Inhabited(rest) {
      assert forall x | x in s :: x == y || x in rest;
      assert IsLeast(y, s);
    } else {
      HasLeast(rest);
      var m :| IsLeast(m, rest);
      var least := if y < m then y else m;
      forall x | x in s ensures least <= x {
        if x != y { assert x in rest; }
      }
      assert IsLeast(least, s);
    }
  }

  function Least(s: set<int>): (m: int)
    requires Inhabited(s)
    ensures IsLeast(m, s)
  {
    HasLeast(s);
    var m :| m in s && forall x | x in s :: m <= x;
    m
  }

  /** The ids of a set in ascending order (ORDER BY id). */
  function SortedIds(s: set<int>): (r: seq<int>)
    ensures |r| == |s| && Ascending(r)
    ensures forall x :: x in r <==> x in s
    decreases |s|
  {
    if !Inhabited(s) then
      assert s == {};
      []
    else
      var m := Least(s);
      [m] + SortedIds(s - {m})
  }

  lemma AscendingCons(h: int, rest: seq<int>)
    requires Ascending(rest) && forall x | x in rest :: h < x
    ensures Ascending([h] + rest)
  {
    forall i, j | 0 <= i < j < |[h] + rest| ensures ([h] + rest)[i] < ([h] + rest)[j] {
      if i == 0 {
        assert ([h] + rest)[j] == rest[j - 1];
        assert rest[j - 1] in rest;
      }
    }
  }

  /** The movies that pass every active filter. */
  function MatchSet(c: Catalog, f: MovieFilter): (s: set<int>)
    ensures s <= c.movies.Keys
  {
    set id | id in c.movies && Matches(c, id, f)
  }

  /** The ids of `ids` that belong to `s`, in their original order. */
  function KeepIn(ids: seq<int>, s: set<int>): (r: seq<int>)
    ensures forall x :: x in r <==> x in ids && x in s
    ensures Ascending(ids) ==> Ascending(r)
  {
    if ids == [] then []
    else
      var rest := KeepIn(ids[1..], s);
      assert Ascending(ids) ==> Ascending(ids[1..]) && forall x | x in rest :: ids[0] < x by {
        if Ascending(ids) {
          forall x | x in rest ensures ids[0] < x {
            var k :| 0 <= k < |ids[1..]| && ids[1..][k] == x;
            assert ids[k + 1] == x;
          }
        }
      }
      if ids[0] in s then
        assert Ascending(ids) ==> Ascending([ids[0]] + rest) by {
          if Ascending(ids) { AscendingCons(ids[0], rest); }
        }
        [ids[0]] + rest
      else rest
  }

  /** The matching movies' ids in ascending order: the listing before the window. */
  function MatchingIds(c: Catalog, f: MovieFilter): (r: seq<int>)
    ensures Ascending(r)
    ensures forall x :: x in r <==> x in MatchSet(c, f)
  {
    KeepIn(SortedIds(c.movies.Keys), MatchSet(c, f))
  }

  /** A movie is listed exactly when every active filter holds of it: the title
      contains the parameter ignoring case, the year is equal, and some linked
      genre carries the name. */
  lemma ListedIffFiltersHold(c: Catalog, f: MovieFilter, id: int)
    ensures id in MatchingIds(c, f) <==>
      && id in c.movies
      && (TitleApplies(f) ==> ContainsIgnoringCase(c.movies[id].title, f.title.value))
      && (YearApplies(f) ==> c.movies[id].releaseYear == Some(f.releaseYear.value))
      && (GenreApplies(f) ==> exists l | l in c.links ::
            l.0 == id && l.1 in c.genres && c.genres[l.1] == f.genre.value)
  {
    assert id in MatchSet(c, f) <==> id in c.movies && Matches(c, id, f);
  }

  /** COUNT(DISTINCT movies.id) over the filtered join. */
  function Total(c: Catalog, f: MovieFilter): nat
  {
    |MatchSet(c, f)|
  }

  lemma {:induction false} AscendingCardinality(s: seq<int>)
    requires Ascending(s)
    ensures |set x | x in s| == |s|
  {
    if s != [] {
      AscendingCardinality(s[1..]);
      assert (set x | x in s) == {s[0]} + (set x | x in s[1..]);
      assert s[0] !in (set x | x in s[1..]);
    }
  }

  /** The distinct count equals the length of the ordered matching list. */
  lemma TotalIsMatchCount(c: Catalog, f: MovieFilter)
    ensures Total(c, f) == |MatchingIds(c, f)|
  {
    var ids := MatchingIds(c, f);
    AscendingCardinality(ids);
    assert MatchSet(c, f) == set x | x in ids;
  }

  // ------------------------------------------------------------- pagination

  function Min(a: int, b: int): int { if a <= b then a else b }

  /** OFFSET offset LIMIT limit. */
  function Slice<T>(s: seq<T>, offset: nat, limit: nat): (w: seq<T>)
    ensures |w| <= limit
    ensures offset >= |s| ==> w == []
    ensures offset < |s| ==> |w| == Min(limit, |s| - offset)
    ensures offset + |w| <= |s| || w == []
    ensures forall i | 0 <= i < |w| :: w[i] == s[offset + i]
  {
    if offset >= |s| then [] else s[offset..Min(offset + limit, |s|)]
  }

  /** Rows skipped before a page: (page - 1) * pageSize. */
  function Offset(page: int, pageSize: int): nat
    requires page >= 1 && pageSize >= 1
  {
    (page - 1) * pageSize
  }

  /** The page window: OFFSET (page - 1) * pageSize LIMIT pageSize. */
  function Window<T>(s: seq<T>, page: int, pageSize: int): (w: seq<T>)
    requires page >= 1 && pageSize >= 1
  {
    Slice(s, Offset(page, pageSize), pageSize)
  }

  /** Pages 1..k of a list, one after the other. */
  function Pages<T>(s: seq<T>, pageSize: int, k: nat): seq<T>
    requires pageSize >= 1
  {
    if k == 0 then [] else Pages(s, pageSize, k - 1) + Window(s, k, pageSize)
  }

  /** Reading pages 1..k in order gives the first k * pageSize items, each once. */
  lemma {:induction false} PagesArePrefix<T>(s: seq<T>, pageSize: int, k: nat)
    requires pageSize >= 1
    ensures Pages(s, pageSize, k) == s[..Min(k * pageSize, |s|)]
  {
    if k > 0 {
      PagesArePrefix(s, pageSize, k - 1);
      var offset := Offset(k, pageSize);
      assert k * pageSize == offset + pageSize;
      var lo := Min(offset, |s|);
      var hi := Min(offset + pageSize, |s|);
      assert Window(s, k, pageSize) == s[lo..hi];
      assert s[..lo] + s[lo..hi] == s[..hi];
    }
  }

  // ---------------------------------------------------------------- listing

  /** One result tuple: the movie, its average score and its rating count. */
  datatype Row = Row(id: int, movie: Movie, average: real, count: nat)

  function RowOf(c: Catalog, id: int): (row: Row)
    requires id in c.movies
    ensures row.id == id && row.movie == c.movies[id]
    ensures row.count == |RatingsOf(c.ratings, id)| && (row.count == 0 ==> row.average == 0.0)
    ensures row.count > 0 ==> row.average == Mean(Sum(RatingsOf(c.ratings, id)), row.count)
  {
    var a := AggregateOf(c.ratings, id);
    Row(id, c.movies[id], a.average, a.count)
  }

  function RowsOf(c: Catalog, ids: seq<int>): (rows: seq<Row>)
    requires forall x | x in ids :: x in c.movies
    ensures |rows| == |ids| && forall i | 0 <= i < |ids| :: rows[i] == RowOf(c, ids[i]) && rows[i].id == ids[i]
  {
    seq(|ids|, i requires 0 <= i < |ids| => RowOf(c, ids[i]))
  }

  datatype Listing = Listing(total: nat, rows: seq<Row>)

  /** A slice of an ascending list is an ascending part of it. */
  lemma SliceOfAscending(s: seq<int>, offset: nat, limit: nat, keys: set<int>)
    requires Ascending(s) && forall x | x in s :: x in keys
    ensures var w := Slice(s, offset, limit); Ascending(w) && forall x | x in w :: x in keys
  {
    var w := Slice(s, offset, limit);
    forall x | x in w ensures x in keys {
      var k :| 0 <= k < |w| && w[k] == x;
      assert s[offset + k] == x;
    }
  }

  /** The ids on one page: the window of the ascending matching list. */
  function PageIds(c: Catalog, f: MovieFilter, page: int, pageSize: int): (w: seq<int>)
    requires page >= 1 && pageSize >= 1
    ensures |w| <= pageSize
    ensures Offset(page, pageSize) >= |MatchingIds(c, f)| ==> w == []
    ensures Offset(page, pageSize) < |MatchingIds(c, f)| ==>
      |w| == Min(pageSize, |MatchingIds(c, f)| - Offset(page, pageSize))
    ensures forall i | 0 <= i < |w| :: w[i] == MatchingIds(c, f)[Offset(page, pageSize) + i]
    ensures Ascending(w) && forall x | x in w :: x in c.movies
  {
    var all := MatchingIds(c, f);
    SliceOfAscending(all, Offset(page, pageSize), pageSize, c.movies.Keys);
    Slice(all, Offset(page, pageSize), pageSize)
  }

  /** `get_movies`: the total of distinct matches and the requested page of rows. */
  function GetMovies(c: Catalog, page: int, pageSize: int, f: MovieFilter): (r: Listing)
    requires page >= 1 && pageSize >= 1
    ensures r.total == |MatchingIds(c, f)|
    ensures |r.rows| <= pageSize
    ensures Offset(page, pageSize) >= |MatchingIds(c, f)| ==> r.rows == []
    ensures Offset(page, pageSize) < |MatchingIds(c, f)| ==>
      |r.rows| == Min(pageSize, |MatchingIds(c, f)| - Offset(page, pageSize))
    ensures forall i | 0 <= i < |r.rows| ::
      && r.rows[i].id == MatchingIds(c, f)[Offset(page, pageSize) + i]
      && r.rows[i].id in c.movies
      && r.rows[i].movie == c.movies[r.rows[i].id]
      && r.rows[i].count == |RatingsOf(c.ratings, r.rows[i].id)|
      && (r.rows[i].count == 0 ==> r.rows[i].average == 0.0)
    ensures forall i | 0 <= i < |r.rows| :: r.rows[i].count > 0 ==>
      r.rows[i].average == Mean(Sum(RatingsOf(c.ratings, r.rows[i].id)), r.rows[i].count)
    ensures forall i, j | 0 <= i < j < |r.rows| :: r.rows[i].id < r.rows[j].id
  {
    TotalIsMatchCount(c, f);
    var w := PageIds(c, f, page, pageSize);
    Listing(Total(c, f), RowsOf(c, w))
  }

  /** The total is the same whatever page is asked for. */
  lemma TotalIgnoresWindow(c: Catalog, f: MovieFilter, p1: int, s1: int, p2: int, s2: int)
    requires p1 >= 1 && s1 >= 1 && p2 >= 1 && s2 >= 1
    ensures GetMovies(c, p1, s1, f).total == GetMovies(c, p2, s2, f).total
  {
  }

  /** The rows of pages 1..k, one after the other. */
  function PagedRows(c: Catalog, f: MovieFilter, pageSize: int, k: nat): seq<Row>
    requires pageSize >= 1
  {
    if k == 0 then [] else PagedRows(c, f, pageSize, k - 1) + GetMovies(c, k, pageSize, f).rows
  }

  lemma {:induction false} RowsOfAppend(c: Catalog, a: seq<int>, b: seq<int>)
    requires forall x | x in a + b :: x in c.movies
    ensures RowsOf(c, a + b) == RowsOf(c, a) + RowsOf(c, b)
  {
    assert forall x | x in a :: x in a + b;
    assert forall x | x in b :: x in a + b;
  }

  /** The rows of one page are the rows of the page window of the matching ids. */
  lemma GetMoviesIsWindow(c: Catalog, f: MovieFilter, page: int, pageSize: int)
    requires page >= 1 && pageSize >= 1
    ensures var w := Window(MatchingIds(c, f), page, pageSize);
      (forall x | x in w :: x in c.movies) && GetMovies(c, page, pageSize, f).rows == RowsOf(c, w)
  {
    assert PageIds(c, f, page, pageSize) == Window(MatchingIds(c, f), page, pageSize);
  }

  lemma {:induction false} PagedRowsArePages(c: Catalog, f: MovieFilter, pageSize: int, k: nat)
    requires pageSize >= 1
    ensures var ids := Pages(MatchingIds(c, f), pageSize, k);
      (forall x | x in ids :: x in c.movies) && PagedRows(c, f, pageSize, k) == RowsOf(c, ids)
  {
    if k > 0 {
      PagedRowsArePages(c, f, pageSize, k - 1);
      GetMoviesIsWindow(c, f, k, pageSize);
      RowsOfAppend(c, Pages(MatchingIds(c, f), pageSize, k - 1), Window(MatchingIds(c, f), k, pageSize));
    }
  }

  /** Reading every page in turn lists every matching movie exactly once, in
      ascending id order, with its aggregate. */
  lemma AllPagesListEveryMatchOnce(c: Catalog, f: MovieFilter, pageSize: int, k: nat)
    requires pageSize >= 1 && k * pageSize >= |MatchingIds(c, f)|
    ensures PagedRows(c, f, pageSize, k) == RowsOf(c, MatchingIds(c, f))
  {
    var all := MatchingIds(c, f);
    PagedRowsArePages(c, f, pageSize, k);
    PagesArePrefix(all, pageSize, k);
    var n := Min(k * pageSize, |all|);
    assert n == |all|;
    assert all[..n] == all;
  }

  /** Without filters every movie matches, so the listing enumerates the whole table. */
  lemma NoFilterListsAllMovies(c: Catalog)
    ensures MatchingIds(c, NoFilter) == SortedIds(c.movies.Keys)
  {
    assert MatchSet(c, NoFilter) == c.movies.Keys;
    KeepAll(SortedIds(c.movies.Keys), c.movies.Keys);
  }

  lemma {:induction false} KeepAll(ids: seq<int>, s: set<int>)
    requires forall i | 0 <= i < |ids| :: ids[i] in s
    ensures KeepIn(ids, s) == ids
  {
    if ids != [] {
      var tail := ids[1..];
      assert forall i | 0 <= i < |tail| :: tail[i] in s by {
        forall i | 0 <= i < |tail| ensures tail[i] in s {
          assert tail[i] == ids[i + 1];
        }
      }
      KeepAll(tail, s);
      assert ids == [ids[0]] + tail;
    }
  }

  /** A year that no movie has gives an empty page and a total of 0. */
  lemma UnknownYearListsNothing(c: Catalog, year: int, page: int, pageSize: int)
    requires year != 0 && page >= 1 && pageSize >= 1
    requires forall id | id in c.movies :: c.movies[id].releaseYear != Some(year)
    ensures GetMovies(c, page, pageSize, MovieFilter(None, Some(year), None)) == Listing(0, [])
  {
    var f := MovieFilter(None, Some(year), None);
    assert MatchSet(c, f) == {};
    TotalIsMatchCount(c, f);
  }

  // ------------------------------------------------------------------ views

  /** Names of the genres the movie is linked to. */
  function GenreNames(c: Catalog, id: int): set<string>
  {
    set l | l in c.links && l.0 == id && l.1 in c.genres :: c.genres[l.1]
  }

  /** The list view of one result row (`MovieListOut`). */
  function ListItem(c: Catalog, row: Row): MovieListOut
    requires row.movie.directorId in c.directors
  {
    var m := row.movie;
    MovieListOut(row.id, m.title, m.releaseYear, DirectorOut(m.directorId, c.directors[m.directorId]),
                 GenreNames(c, row.id), row.average)
  }

  /** `get_movie_detail`: the detail view of one movie, or NotFound. */
  function Detail(c: Catalog, id: int): (r: Result<MovieDetailOut, Error>)
    requires id in c.movies ==> c.movies[id].directorId in c.directors
    ensures r.Err? <==> id !in c.movies
    ensures r.Err? ==> r.error == NotFound(MovieNotFound)
    ensures r.Ok? ==>
      var v := r.value;
      var m := c.movies[id];
      && v.summary.id == id && v.summary.title == m.title && v.summary.releaseYear == m.releaseYear
      && v.cast == m.cast
      && v.summary.director == DirectorOut(m.directorId, c.directors[m.directorId])
      && v.summary.genres == GenreNames(c, id)
      && v.ratingsCount == |RatingsOf(c.ratings, id)|
      && (v.ratingsCount == 0 ==> v.summary.averageRating == 0.0)
      && (v.ratingsCount > 0 ==> v.summary.averageRating == Mean(Sum(RatingsOf(c.ratings, id)), v.ratingsCount))
  {
    if id !in c.movies then Err(NotFound(MovieNotFound))
    else
      var row := RowOf(c, id);
      Ok(MovieDetailOut(ListItem(c, row), row.movie.cast, row.count))
  }
}
