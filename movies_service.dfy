/**
 * The movie catalogue service (src/movies/movies.service.ts) over in-memory
 * repositories: movies, genres and directors are maps from id to row, and
 * the database's query engine is a function from the movie table and a
 * query to the rows of one page and the total count. Listings are read
 * through the cache; every write clears the movie namespaces afterwards.
 */
module Movies {
  import opened Wrappers
  import opened Exceptions
  import opened Strings
  import opened Cache
  import opened Pagination
  import CreateMovie

  datatype Genre = Genre(id: int, name: string)
  datatype Director = Director(id: int, firstName: string, lastName: string)

  /** A movie row with its genre and director joined in; ratings are in tenths. */
  datatype Movie = Movie(
    id: int,
    title: string,
    description: Option<string>,
    releaseYear: int,
    duration: Option<int>,
    ratingTenths: Option<int>,
    posterUrl: Option<string>,
    synopsis: Option<string>,
    genre: Genre,
    director: Director)

  /** `{ data, total, page, limit }`. */
  datatype ListPage = ListPage(data: seq<Movie>, total: int, page: int, limit: int)

  /** What the query engine answers: the rows of the page and the count over all pages. */
  datatype Rows = Rows(data: seq<Movie>, total: int)

  datatype SortColumn = ByTitle | ByReleaseYear | ByRating | ByCreatedAt

  /** The queries the service sends; a filter is present only when it applies. */
  datatype Query =
    | Search(search: Option<string>, genre: Option<string>, director: Option<string>, year: Option<int>,
             sortColumn: SortColumn, order: string, skip: int, take: int)
    | OfGenre(genreId: int, skip: int, take: int)
    | OfDirector(directorId: int, skip: int, take: int)
    | Popular(skip: int, take: int)

  // ---------------------------------------------------------------------
  // findAll: parameters, cache key, query
  // ---------------------------------------------------------------------

  /** JavaScript truthiness of an optional string: present and not empty. */
  predicate Truthy(s: Option<string>) {
    s.Some? && s.value != ""
  }

  /** JavaScript truthiness of an optional number: present and not 0. */
  predicate TruthyYear(y: Option<int>) {
    y.Some? && y.value != 0
  }

  /** Some filter applies. */
  predicate IsFiltered(f: MovieFilterDto) {
    Truthy(f.search) || Truthy(f.genre) || Truthy(f.director) || TruthyYear(f.year)
  }

  function PageOf(f: MovieFilterDto): int { f.page.GetOr(DefaultPage) }
  function LimitOf(f: MovieFilterDto): int { f.limit.GetOr(DefaultLimit) }
  function SortByOf(f: MovieFilterDto): string { f.sortBy.GetOr(DefaultSortBy) }
  function OrderOf(f: MovieFilterDto): string { f.order.GetOr(DefaultOrder) }

  /** The cache parameters of findAll; an absent or empty filter is rendered as `''`. */
  function CacheParams(f: MovieFilterDto): Params {
    [ Param("page", Num(PageOf(f))),
      Param("limit", Num(LimitOf(f))),
      Param("search", Text(f.search.GetOr(""))),
      Param("genre", Text(f.genre.GetOr(""))),
      Param("director", Text(f.director.GetOr(""))),
      Param("year", if TruthyYear(f.year) then Num(f.year.value) else Text("")),
      Param("sortBy", Text(SortByOf(f))),
      Param("order", Text(OrderOf(f))) ]
  }

  /** Filtered listings are cached under the search namespace, the plain listing under movies:all. */
  function ListingNamespace(f: MovieFilterDto): string {
    if IsFiltered(f) then MoviesSearch else MoviesAll
  }

  function ListingKey(f: MovieFilterDto): string {
    GenerateKey(ListingNamespace(f), CacheParams(f))
  }

  /** The rows skipped before the requested page. */
  function Skip(page: int, limit: int): int {
    (page - 1) * limit
  }

  /** The ordering column for `sortBy`: anything not known sorts by creation date. */
  function SortColumnOf(sortBy: string): SortColumn {
    if sortBy == "title" then ByTitle
    else if sortBy == "releaseYear" then ByReleaseYear
    else if sortBy == "rating" then ByRating
    else ByCreatedAt
  }

  function ColumnName(c: SortColumn): string {
    match c
    case ByTitle => "title"
    case ByReleaseYear => "releaseYear"
    case ByRating => "rating"
    case ByCreatedAt => "createdAt"
  }

  /** The query findAll sends on a cache miss. */
  function ListingQuery(f: MovieFilterDto): Query {
    Search(if Truthy(f.search) then f.search else None,
           if Truthy(f.genre) then f.genre else None,
           if Truthy(f.director) then f.director else None,
           if TruthyYear(f.year) then f.year else None,
           SortColumnOf(SortByOf(f)), ToUpper(OrderOf(f)),
           Skip(PageOf(f), LimitOf(f)), LimitOf(f))
  }

  /** Each known sort field orders by its own column, and every other value by createdAt. */
  lemma SortColumnChoice(sortBy: string)
    ensures sortBy in SortFields ==> ColumnName(SortColumnOf(sortBy)) == sortBy
    ensures sortBy !in SortFields ==> SortColumnOf(sortBy) == ByCreatedAt
  {
  }

  /** Upper-casing is the identity on the orders the DTO admits. */
  lemma ValidOrderUnchanged(order: string)
    requires order in Orders
    ensures ToUpper(order) == order
  {
    if order == "ASC" {
      assert ToUpper(order) == [UpperChar('A'), UpperChar('S'), UpperChar('C')];
    } else {
      assert ToUpper(order) == [UpperChar('D'), UpperChar('E'), UpperChar('S'), UpperChar('C')];
    }
  }

  /** Pages tile the result: page 1 starts at row 0 and each next page starts where the last ended. */
  lemma PagesTile(page: int, limit: int)
    requires page >= 1 && limit >= 1
    ensures Skip(1, limit) == 0
    ensures Skip(page + 1, limit) == Skip(page, limit) + limit
    ensures 0 <= Skip(page, limit)
  {
    assert Skip(page + 1, limit) == page * limit;
  }

  /** A year of 0 is no filter: it selects the same namespace and the same key as no year at all. */
  lemma YearZeroIsNoFilter(f: MovieFilterDto)
    ensures ListingKey(f.(year := Some(0))) == ListingKey(f.(year := None))
    ensures ListingQuery(f.(year := Some(0))) == ListingQuery(f.(year := None))
  {
  }

  /** The filtered and the plain listing never share a cache entry. */
  lemma NamespacesSeparate(f: MovieFilterDto, g: MovieFilterDto)
    requires IsFiltered(f) && !IsFiltered(g)
    ensures ListingKey(f) != ListingKey(g)
  {
    assert CacheParams(f) != [] && CacheParams(g) != [];
    SearchKeyIsNotListingKey(ListingKey(f), ListingKey(g));
  }

  lemma SearchKeyIsNotListingKey(a: string, b: string)
    requires |a| > |MoviesSearch| && a[..|MoviesSearch| + 1] == MoviesSearch + ":"
    requires |b| > |MoviesAll| && b[..|MoviesAll| + 1] == MoviesAll + ":"
    ensures a != b
  {
    assert a[10] == (MoviesSearch + ":")[10];
    assert b[10] == (MoviesAll + ":")[10];
  }

  /**
   * A findAll page cached before a write is still there after the write's
   * `clearMovieCache`, under the same key: clearing removes only the bare
   * namespace keys, and findAll keys always carry parameters.
   */
  lemma StaleListingAfterClear(store: map<string, Entry<ListPage>>, failing: set<string>, f: MovieFilterDto)
    ensures Cached(AfterMovieClear(store, failing), ListingKey(f)) == Cached(store, ListingKey(f))
  {
    ListingSurvivesMovieClear(store, failing, ListingNamespace(f), CacheParams(f));
  }

  // ---------------------------------------------------------------------
  // The per-genre, per-director and popular listings
  // ---------------------------------------------------------------------

  function PageNumber(p: PaginationDto): int { p.page.GetOr(DefaultPage) }
  function PageSize(p: PaginationDto): int { p.limit.GetOr(DefaultLimit) }

  function PageParams(p: PaginationDto): Params {
    [Param("page", Num(PageNumber(p))), Param("limit", Num(PageSize(p)))]
  }

  function GenreQuery(genreId: int, p: PaginationDto): Query {
    OfGenre(genreId, Skip(PageNumber(p), PageSize(p)), PageSize(p))
  }

  function DirectorQuery(directorId: int, p: PaginationDto): Query {
    OfDirector(directorId, Skip(PageNumber(p), PageSize(p)), PageSize(p))
  }

  function PopularQuery(p: PaginationDto): Query {
    Popular(Skip(PageNumber(p), PageSize(p)), PageSize(p))
  }

  function GenreListingKey(genreId: int, p: PaginationDto): string {
    GenerateKey(MoviesByGenre, Spread(Param("genreId", Num(genreId)), PageParams(p)))
  }

  function DirectorListingKey(directorId: int, p: PaginationDto): string {
    GenerateKey(MoviesByDirector, Spread(Param("directorId", Num(directorId)), PageParams(p)))
  }

  function PopularKey(p: PaginationDto): string {
    GenerateKey(MoviesPopular, PageParams(p))
  }

  /** The per-genre pages survive a clear as well. */
  lemma StaleGenreListingAfterClear(store: map<string, Entry<ListPage>>, failing: set<string>, genreId: int, p: PaginationDto)
    ensures Cached(AfterMovieClear(store, failing), GenreListingKey(genreId, p)) == Cached(store, GenreListingKey(genreId, p))
  {
    ListingSurvivesMovieClear(store, failing, MoviesByGenre, Spread(Param("genreId", Num(genreId)), PageParams(p)));
  }

  // ---------------------------------------------------------------------
  // create and update
  // ---------------------------------------------------------------------

  /** The row `create` saves: the body's fields with the genre and director rows joined in. */
  function NewMovie(id: int, d: CreateMovie.CreateMovieDto, g: Genre, dir: Director): (r: Movie)
    ensures r.id == id
    ensures g.id == d.genreId && dir.id == d.directorId ==> AsCreateDto(r) == d
  {
    Movie(id, d.title, d.description, d.releaseYear, d.duration, d.ratingTenths, d.posterUrl, d.synopsis, g, dir)
  }

  /** The body that would create `m` again. */
  function AsCreateDto(m: Movie): CreateMovie.CreateMovieDto {
    CreateMovie.CreateMovieDto(m.title, m.description, m.releaseYear, m.duration, m.ratingTenths,
                               m.posterUrl, m.synopsis, m.genre.id, m.director.id)
  }

  /** A property of an update body: absent (or undefined), a new value, or null. */
  datatype Patch<T> = Keep | Put(value: T) | Clear

  /** A nullable column after `Object.assign` and save: undefined leaves it, null empties it. */
  function Patched<T>(current: Option<T>, p: Patch<T>): (r: Option<T>)
    ensures p.Keep? ==> r == current
    ensures p.Put? ==> r == Some(p.value)
    ensures p.Clear? ==> r.None?
  {
    match p
    case Keep => current
    case Put(v) => Some(v)
    case Clear => None
  }

  /** The update body: every property of the create body, each optional. */
  datatype UpdateMovieDto = UpdateMovieDto(
    title: Option<string>,
    description: Patch<string>,
    releaseYear: Option<int>,
    duration: Patch<int>,
    ratingTenths: Patch<int>,
    posterUrl: Patch<string>,
    synopsis: Patch<string>,
    genreId: Option<int>,
    directorId: Option<int>)

  const NoChanges: UpdateMovieDto := UpdateMovieDto(None, Keep, None, Keep, Keep, Keep, Keep, None, None)

  /** An update of the poster URL alone. */
  function PosterUpdate(p: Patch<string>): UpdateMovieDto {
    NoChanges.(posterUrl := p)
  }

  /** `Object.assign(movie, movieData)`: the provided properties overwrite, the others stay. */
  function AssignFields(m: Movie, d: UpdateMovieDto): (r: Movie)
    ensures r.id == m.id && r.genre == m.genre && r.director == m.director
    ensures r.title == d.title.GetOr(m.title) && r.releaseYear == d.releaseYear.GetOr(m.releaseYear)
    ensures r.posterUrl == Patched(m.posterUrl, d.posterUrl)
  {
    m.(title := d.title.GetOr(m.title),
       description := Patched(m.description, d.description),
       releaseYear := d.releaseYear.GetOr(m.releaseYear),
       duration := Patched(m.duration, d.duration),
       ratingTenths := Patched(m.ratingTenths, d.ratingTenths),
       posterUrl := Patched(m.posterUrl, d.posterUrl),
       synopsis := Patched(m.synopsis, d.synopsis))
  }

  /** The first reason `update` refuses: the movie, then the genre, then the director. */
  function UpdateError(movies: map<int, Movie>, genres: map<int, Genre>, directors: map<int, Director>,
                       id: int, d: UpdateMovieDto): (r: Option<HttpError>)
    ensures r.None? <==> id in movies && (d.genreId.Some? ==> d.genreId.value in genres)
                                      && (d.directorId.Some? ==> d.directorId.value in directors)
    ensures id !in movies ==> r == Some(NotFound("Movie", id))
  {
    if id !in movies then Some(NotFound("Movie", id))
    else if d.genreId.Some? && d.genreId.value !in genres then Some(BadRequest(GenreNotFound(d.genreId.value)))
    else if d.directorId.Some? && d.directorId.value !in directors then Some(BadRequest(DirectorNotFound(d.directorId.value)))
    else None
  }

  /** The movie `update` saves: the new genre and director if given, then the other properties. */
  function Updated(m: Movie, d: UpdateMovieDto, genres: map<int, Genre>, directors: map<int, Director>): Movie
    requires d.genreId.Some? ==> d.genreId.value in genres
    requires d.directorId.Some? ==> d.directorId.value in directors
  {
    var g := if d.genreId.Some? then genres[d.genreId.value] else m.genre;
    var dir := if d.directorId.Some? then directors[d.directorId.value] else m.director;
    AssignFields(m.(genre := g, director := dir), d)
  }

  /** An empty update body saves the movie as it was. */
  lemma EmptyUpdateKeepsMovie(m: Movie, genres: map<int, Genre>, directors: map<int, Director>)
    ensures Updated(m, NoChanges, genres, directors) == m
  {
  }

  /** Applying the same update twice is applying it once. */
  lemma UpdateIdempotent(m: Movie, d: UpdateMovieDto, genres: map<int, Genre>, directors: map<int, Director>)
    requires d.genreId.Some? ==> d.genreId.value in genres
    requires d.directorId.Some? ==> d.directorId.value in directors
    ensures Updated(Updated(m, d, genres, directors), d, genres, directors) == Updated(m, d, genres, directors)
  {
  }

  /** The update body that sets every property of a create body. */
  function FullUpdate(c: CreateMovie.CreateMovieDto): UpdateMovieDto {
    UpdateMovieDto(Some(c.title), PatchOf(c.description), Some(c.releaseYear), PatchOf(c.duration),
                   PatchOf(c.ratingTenths), PatchOf(c.posterUrl), PatchOf(c.synopsis),
                   Some(c.genreId), Some(c.directorId))
  }

  /** An optional property given as a body property: absent stays absent, a value is set. */
  function PatchOf<T>(o: Option<T>): Patch<T> {
    match o
    case None => Keep
    case Some(v) => Put(v)
  }

  /**
   * Updating with every property of a create body that sets all its
   * optional properties gives the movie that body creates, under the old id.
   */
  lemma FullUpdateRecreates(m: Movie, c: CreateMovie.CreateMovieDto, genres: map<int, Genre>, directors: map<int, Director>)
    requires c.genreId in genres && c.directorId in directors
    requires c.description.Some? && c.duration.Some? && c.ratingTenths.Some? && c.posterUrl.Some? && c.synopsis.Some?
    ensures Updated(m, FullUpdate(c), genres, directors) == NewMovie(m.id, c, genres[c.genreId], directors[c.directorId])
  {
  }

  // ---------------------------------------------------------------------
  // The service
  // ---------------------------------------------------------------------

  class MoviesService {
    /** The movie table, by id. */
    var movies: map<int, Movie>
    /** The genre and director tables, which this service only reads. */
    var genres: map<int, Genre>
    var directors: map<int, Director>
    /** The id the table assigns to the next row. */
    var nextId: int
    const cache: CacheService<ListPage>
    /** The database's answer to a query over the movie table. */
    const engine: (map<int, Movie>, Query) -> Rows

    /** Every row sits under its own id, and every movie id is below the next one. */
    ghost predicate Valid()
      reads this
    {
      && (forall id :: id in movies ==> movies[id].id == id && id < nextId)
      && (forall id :: id in genres ==> genres[id].id == id)
      && (forall id :: id in directors ==> directors[id].id == id)
    }

    constructor (movies0: map<int, Movie>, genres0: map<int, Genre>, directors0: map<int, Director>, nextId0: int,
                 cache0: CacheService<ListPage>, engine0: (map<int, Movie>, Query) -> Rows)
      requires forall id :: id in movies0 ==> movies0[id].id == id && id < nextId0
      requires forall id :: id in genres0 ==> genres0[id].id == id
      requires forall id :: id in directors0 ==> directors0[id].id == id
      ensures Valid()
      ensures movies == movies0 && genres == genres0 && directors == directors0 && nextId == nextId0
      ensures cache == cache0 && engine == engine0
    {
      movies := movies0;
      genres := genres0;
      directors := directors0;
      nextId := nextId0;
      cache := cache0;
      engine := engine0;
    }

    /**
     * create: the genre is checked before the director; a missing one is a
     * BadRequest naming its id and changes nothing. Otherwise the movie is
     * saved under a fresh id and the movie cache is cleared.
     */
    method Create(d: CreateMovie.CreateMovieDto) returns (r: Result<Movie, HttpError>)
      requires Valid()
      modifies this`movies, this`nextId, cache`store
      ensures Valid()
      ensures d.genreId !in genres ==>
                r == Err(BadRequest(GenreNotFound(d.genreId))) && unchanged(this) && unchanged(cache)
      ensures d.genreId in genres && d.directorId !in directors ==>
                r == Err(BadRequest(DirectorNotFound(d.directorId))) && unchanged(this) && unchanged(cache)
      ensures d.genreId in genres && d.directorId in directors ==>
                && r == Ok(NewMovie(old(nextId), d, genres[d.genreId], directors[d.directorId]))
                && old(nextId) !in old(movies)
                && movies == old(movies)[old(nextId) := r.value]
                && AsCreateDto(r.value) == d
                && nextId == old(nextId) + 1
                && cache.store == AfterMovieClear(old(cache.store), cache.failingDeletes)
    {
      if d.genreId !in genres {
        return Err(BadRequest(GenreNotFound(d.genreId)));
      }
      var genre := genres[d.genreId];
      if d.directorId !in directors {
        return Err(BadRequest(DirectorNotFound(d.directorId)));
      }
      var director := directors[d.directorId];
      var movie := NewMovie(nextId, d, genre, director);
      movies := movies[nextId := movie];
      nextId := nextId + 1;
      cache.ClearMovieCache();
      r := Ok(movie);
    }

    /**
     * findAll: look the page up under the namespace the filters select; on a
     * miss, query with the applicable filters, the sort column and the skip,
     * and cache the page under the same key. Either way the cache afterwards
     * holds the page returned.
     */
    method FindAll(f: MovieFilterDto) returns (r: ListPage)
      modifies cache`store
      ensures var hit := Cached(old(cache.store), ListingKey(f));
              && (hit.Some? ==> r == hit.value && cache.store == old(cache.store))
              && (hit.None? ==>
                    && r == ListPage(engine(movies, ListingQuery(f)).data, engine(movies, ListingQuery(f)).total,
                                     PageOf(f), LimitOf(f))
                    && cache.store == old(cache.store)[ListingKey(f) := Entry(r, Short)])
      ensures Cached(cache.store, ListingKey(f)) == Some(r)
    {
      var cached := LookUpListing(f);
      if cached.Some? {
        return cached.value;
      }
      var query := BuildListingQuery(f);
      var rows := engine(movies, query);
      r := ListPage(rows.data, rows.total, PageOf(f), LimitOf(f));
      StoreListing(f, r);
    }

    /** The cache lookup of findAll, in the namespace the filters select. */
    method LookUpListing(f: MovieFilterDto) returns (cached: Option<ListPage>)
      ensures cached == Cached(cache.store, ListingKey(f))
    {
      var cacheParams := CacheParams(f);
      if IsFiltered(f) {
        cached := cache.GetSearchMovies(cacheParams);
      } else {
        cached := cache.GetMovies(cacheParams);
      }
    }

    /** The cache store of findAll, in the same namespace as the lookup, for the short tier. */
    method StoreListing(f: MovieFilterDto, page: ListPage)
      modifies cache`store
      ensures cache.store == old(cache.store)[ListingKey(f) := Entry(page, Short)]
    {
      var cacheParams := CacheParams(f);
      if IsFiltered(f) {
        cache.SetSearchMovies(page, cacheParams);
      } else {
        cache.SetMovies(page, cacheParams);
      }
    }

    /**
     * The query builder of findAll: each truthy filter is added, the sort
     * column falls back to createdAt, the direction is upper-cased, and the
     * page becomes a skip and a take.
     */
    method BuildListingQuery(f: MovieFilterDto) returns (q: Query)
      ensures q == ListingQuery(f)
    {
      var page := f.page.GetOr(DefaultPage);
      var limit := f.limit.GetOr(DefaultLimit);
      var sortBy := f.sortBy.GetOr(DefaultSortBy);
      var order := f.order.GetOr(DefaultOrder);
      var skip := (page - 1) * limit;
      var search, genre, director, year := None, None, None, None;
      if Truthy(f.search) {
        search := f.search;
      }
      if Truthy(f.genre) {
        genre := f.genre;
      }
      if Truthy(f.director) {
        director := f.director;
      }
      if TruthyYear(f.year) {
        year := f.year;
      }
      var orderDirection := ToUpper(order);
      var column;
      if sortBy == "title" {
        column := ByTitle;
      } else if sortBy == "releaseYear" {
        column := ByReleaseYear;
      } else if sortBy == "rating" {
        column := ByRating;
      } else {
        column := ByCreatedAt;
      }
      q := Search(search, genre, director, year, column, orderDirection, skip, limit);
    }

    /** findOne: the movie with its genre and director, or NotFound. */
    method FindOne(id: int) returns (r: Result<Movie, HttpError>)
      requires Valid()
      ensures r.Ok? <==> id in movies
      ensures r.Ok? ==> r.value == movies[id] && r.value.id == id
      ensures r.Err? ==> r.error == NotFound("Movie", id)
    {
      if id !in movies {
        return Err(NotFound("Movie", id));
      }
      r := Ok(movies[id]);
    }

    /**
     * update: NotFound first; the genre and the director are looked up only
     * when the body names them; then the other properties are assigned, the
     * row saved and the movie cache cleared.
     */
    method Update(id: int, d: UpdateMovieDto) returns (r: Result<Movie, HttpError>)
      requires Valid()
      modifies this`movies, cache`store
      ensures Valid()
      ensures var e := UpdateError(old(movies), genres, directors, id, d);
              e.Some? ==> r == Err(e.value) && unchanged(this) && unchanged(cache)
      ensures UpdateError(old(movies), genres, directors, id, d).None? ==>
                && r == Ok(Updated(old(movies)[id], d, genres, directors))
                && r.value.id == id
                && movies == old(movies)[id := r.value]
                && cache.store == AfterMovieClear(old(cache.store), cache.failingDeletes)
    {
      var found := FindOne(id);
      if found.Err? {
        return Err(found.error);
      }
      var movie := found.value;
      if d.genreId.Some? {
        if d.genreId.value !in genres {
          return Err(BadRequest(GenreNotFound(d.genreId.value)));
        }
        movie := movie.(genre := genres[d.genreId.value]);
      }
      if d.directorId.Some? {
        if d.directorId.value !in directors {
          return Err(BadRequest(DirectorNotFound(d.directorId.value)));
        }
        movie := movie.(director := directors[d.directorId.value]);
      }
      movie := AssignFields(movie, d);
      movies := movies[id := movie];
      cache.ClearMovieCache();
      r := Ok(movie);
    }

    /** remove: NotFound changes nothing; otherwise the row goes and the movie cache is cleared. */
    method Remove(id: int) returns (r: Result<(), HttpError>)
      requires Valid()
      modifies this`movies, cache`store
      ensures Valid()
      ensures id !in old(movies) ==> r == Err(NotFound("Movie", id)) && unchanged(this) && unchanged(cache)
      ensures id in old(movies) ==>
                && r == Ok(())
                && movies == old(movies) - {id}
                && cache.store == AfterMovieClear(old(cache.store), cache.failingDeletes)
    {
      var found := FindOne(id);
      if found.Err? {
        return Err(found.error);
      }
      movies := movies - {id};
      cache.ClearMovieCache();
      r := Ok(());
    }

    /** findByGenre: read through the per-genre cache, newest first. */
    method FindByGenre(genreId: int, p: PaginationDto) returns (r: ListPage)
      modifies cache`store
      ensures var hit := Cached(old(cache.store), GenreListingKey(genreId, p));
              && (hit.Some? ==> r == hit.value && cache.store == old(cache.store))
              && (hit.None? ==>
                    && r == ListPage(engine(movies, GenreQuery(genreId, p)).data, engine(movies, GenreQuery(genreId, p)).total,
                                     PageNumber(p), PageSize(p))
                    && cache.store == old(cache.store)[GenreListingKey(genreId, p) := Entry(r, Short)])
      ensures Cached(cache.store, GenreListingKey(genreId, p)) == Some(r)
    {
      var page := p.page.GetOr(DefaultPage);
      var limit := p.limit.GetOr(DefaultLimit);
      var cached := LookUpGenreListing(genreId, p);
      if cached.Some? {
        return cached.value;
      }
      var skip := Skip(page, limit);
      var query := OfGenre(genreId, skip, limit);
      assert query == GenreQuery(genreId, p);
      var rows := engine(movies, query);
      r := ListPage(rows.data, rows.total, page, limit);
      StoreGenreListing(genreId, p, r);
    }

    /** The cache lookup of the per-genre listing. */
    method LookUpGenreListing(genreId: int, p: PaginationDto) returns (cached: Option<ListPage>)
      ensures cached == Cached(cache.store, GenreListingKey(genreId, p))
    {
      cached := cache.GetMoviesByGenre(genreId, PageParams(p));
    }

    /** The cache store of the per-genre listing, for the short tier. */
    method StoreGenreListing(genreId: int, p: PaginationDto, page: ListPage)
      modifies cache`store
      ensures cache.store == old(cache.store)[GenreListingKey(genreId, p) := Entry(page, Short)]
    {
      cache.SetMoviesByGenre(genreId, page, PageParams(p));
    }

    /** findByDirector: read through the per-director cache, newest first. */
    method FindByDirector(directorId: int, p: PaginationDto) returns (r: ListPage)
      modifies cache`store
      ensures var hit := Cached(old(cache.store), DirectorListingKey(directorId, p));
              && (hit.Some? ==> r == hit.value && cache.store == old(cache.store))
              && (hit.None? ==>
                    && r == ListPage(engine(movies, DirectorQuery(directorId, p)).data, engine(movies, DirectorQuery(directorId, p)).total,
                                     PageNumber(p), PageSize(p))
                    && cache.store == old(cache.store)[DirectorListingKey(directorId, p) := Entry(r, Short)])
      ensures Cached(cache.store, DirectorListingKey(directorId, p)) == Some(r)
    {
      var page := p.page.GetOr(DefaultPage);
      var limit := p.limit.GetOr(DefaultLimit);
      var cached := LookUpDirectorListing(directorId, p);
      if cached.Some? {
        return cached.value;
      }
      var skip := Skip(page, limit);
      var query := OfDirector(directorId, skip, limit);
      assert query == DirectorQuery(directorId, p);
      var rows := engine(movies, query);
      r := ListPage(rows.data, rows.total, page, limit);
      StoreDirectorListing(directorId, p, r);
    }

    /** The cache lookup of the per-director listing. */
    method LookUpDirectorListing(directorId: int, p: PaginationDto) returns (cached: Option<ListPage>)
      ensures cached == Cached(cache.store, DirectorListingKey(directorId, p))
    {
      cached := cache.GetMoviesByDirector(directorId, PageParams(p));
    }

    /** The cache store of the per-director listing, for the short tier. */
    method StoreDirectorListing(directorId: int, p: PaginationDto, page: ListPage)
      modifies cache`store
      ensures cache.store == old(cache.store)[DirectorListingKey(directorId, p) := Entry(page, Short)]
    {
      cache.SetMoviesByDirector(directorId, page, PageParams(p));
    }

    /** findPopular: read through the popular cache, which keeps pages for the medium tier. */
    method FindPopular(p: PaginationDto) returns (r: ListPage)
      modifies cache`store
      ensures var hit := Cached(old(cache.store), PopularKey(p));
              && (hit.Some? ==> r == hit.value && cache.store == old(cache.store))
              && (hit.None? ==>
                    && r == ListPage(engine(movies, PopularQuery(p)).data, engine(movies, PopularQuery(p)).total,
                                     PageNumber(p), PageSize(p))
                    && cache.store == old(cache.store)[PopularKey(p) := Entry(r, Medium)])
      ensures Cached(cache.store, PopularKey(p)) == Some(r)
    {
      var page := p.page.GetOr(DefaultPage);
      var limit := p.limit.GetOr(DefaultLimit);
      var cached := LookUpPopularListing(p);
      if cached.Some? {
        return cached.value;
      }
      var skip := Skip(page, limit);
      var query := Popular(skip, limit);
      assert query == PopularQuery(p);
      var rows := engine(movies, query);
      r := ListPage(rows.data, rows.total, page, limit);
      StorePopularListing(p, r);
    }

    /** The cache lookup of the popular listing. */
    method LookUpPopularListing(p: PaginationDto) returns (cached: Option<ListPage>)
      ensures cached == Cached(cache.store, PopularKey(p))
    {
      cached := cache.GetPopularMovies(PageParams(p));
    }

    /** The cache store of the popular listing, for the medium tier. */
    method StorePopularListing(p: PaginationDto, page: ListPage)
      modifies cache`store
      ensures cache.store == old(cache.store)[PopularKey(p) := Entry(page, Medium)]
    {
      cache.SetPopularMovies(page, PageParams(p));
    }
  }
}
