# Movie catalogue backend: a Dafny model of its services

This project models the core of a NestJS movie catalogue: a REST backend
over movies, genres and directors with a Redis-style cache and poster-image
uploads to a local directory or to S3. The modelled parts are:

- **The cache service** (`Cache`, a class over a map of entries). It covers:
  - cache keys built from a namespace and a parameter record, with the names sorted;
  - get, set and delete;
  - the per-listing helpers and their TTL tiers (5 min, 15 min, 1 h);
  - invalidation by namespace: `delPattern`, plus the movie, genre and director clears.
- **The upload interceptor** (`FileValidation`, pure). It checks, in this order: the MIME type, the 5 MB size ceiling, the name's extension, then the JPEG or PNG signature in the first bytes.
- **The upload service** (`Upload`, mixed). It covers:
  - choosing between S3 and local storage;
  - its own 2 MB validator and the generated `poster-<uuid><ext>` file name;
  - the URL each backend returns, and the key or file name recovered from that URL when a poster is deleted;
  - the effect of an upload or a delete on both stores.
- **The request bodies** (`CreateMovie`, `Pagination`, pure). They cover the field constraints of `POST /movies` and of the listing queries, and the class defaults of the query DTOs.
- **The movie service** (`Movies`, mixed). It covers:
  - create, findAll, findOne, update, remove, findByGenre, findByDirector and findPopular, over in-memory tables;
  - each listing's cache lookup and cache store;
  - the query findAll builds;
  - clearing the movie cache after every write.
- **The poster endpoints of the movie controller** (`MoviesApi`, imperative): `POST /movies/:id/poster` and `DELETE /movies/:id/poster`, as sequences of calls into the two services.

`Strings` spells out, over `seq<char>`, the JavaScript string operations these use: `includes`, `split(...).pop()`, `split(...)[1]`, `sort()`, `join`, `toLowerCase`/`toUpperCase` and number rendering. `Wrappers` holds `Option` and `Result`. `Exceptions` holds the `BadRequest` and `NotFound` errors, each carrying a structured reason instead of a message string.

Behaviour of the code that the model makes explicit:

- `delPattern` deletes only the bare namespace keys the pattern contains (src/common/services/cache.service.ts:71-105), and the comment at line 98 leaves pattern-based deletion to Redis. Every listing is cached under a key with parameters (src/common/services/cache.service.ts:116-148), so cached listings survive the clear that follows a movie write. See `Cache.ListingSurvivesMovieClear` and `Movies.StaleListingAfterClear`.
- `remove` deletes the row and clears the movie cache, and nothing else (src/movies/movies.service.ts:221-227). A stored poster file stays (`Movies.MoviesService.Remove`).
- `setPopularMovies` caches for the medium tier, 15 min (src/common/services/cache.service.ts:140). `setSearchMovies` caches for the short tier, 5 min (src/common/services/cache.service.ts:148).
- `limit` is documented with `maximum: 100` (src/common/dto/pagination.dto.ts:23). Only `@IsInt()` and `@IsPositive()` are enforced (src/common/dto/pagination.dto.ts:26-27), so no cap applies (`Pagination.LimitNotCapped`).
- The magic-byte check accepts either signature whatever MIME type was declared (src/common/interceptors/file-validation.interceptor.ts:63-71). See `FileValidation.MagicIndependentOfDeclaredType`.
- The interceptor admits 5 MB (src/common/interceptors/file-validation.interceptor.ts:13). The upload service refuses more than 2 MB (src/common/services/upload.service.ts:17, 103), so the service's ceiling is the one that binds (`Upload.UploadCeilingBinds`).

## Model

| member | source | states |
|---|---|---|
| Strings.ContainsIff | src/common/services/cache.service.ts:76 | `includes` holds iff the substring occurs at some index; the character-by-character search agrees with the first-index search |
| Strings.SplitSecondOf | src/common/services/upload.service.ts:185 | splitting `a + sep + b` on its first separator yields `b` as the second piece when `sep` starts nowhere inside `a` and does not occur in `b` |
| Strings.LastSegmentAfter | src/common/interceptors/file-validation.interceptor.ts:43 | `split(c).pop()` of `a + c + b`, with `b` free of `c`, is `b` |
| Strings.SortMembers | src/common/services/cache.service.ts:36 | sorting the property names keeps exactly the names |
| Strings.StrictlySortedUnique | src/common/services/cache.service.ts:36 | two strictly sorted name lists holding the same names are the same list, so the sorted order of distinct names is unique |
| Cache.GenerateKey | src/common/services/cache.service.ts:30-41 | an empty record gives the bare namespace; any other record gives a key that extends the namespace by `:` |
| Cache.KeyIgnoresInsertionOrder | src/common/services/cache.service.ts:35-38 | two records with the same properties give the same key whatever order they were inserted in |
| Cache.ParameterisedKeyIsNotBare | src/common/services/cache.service.ts:30-41 | a key built from a non-empty record is never one of the seven bare namespace keys |
| Cache.KeyCollision | src/common/services/cache.service.ts:35-40 | keys are not injective: values are not escaped, so two different records share one key |
| Cache.EffectiveTtl | src/common/services/cache.service.ts:56 | an absent or zero TTL falls back to the medium tier; any other TTL is kept |
| Cache.KeysMatching | src/common/services/cache.service.ts:74-96 | the keys collected are exactly the known keys that occur in the pattern |
| Cache.UntilFailure | src/common/services/cache.service.ts:99-105 | the keys deleted are the prefix that ends just before the first key whose deletion fails |
| Cache.KnownKeysUnrelated | src/common/services/cache.service.ts:76-96 | no known key occurs inside another known key |
| Cache.PatternOfNamespace | src/common/services/cache.service.ts:76-96 | a namespace used as a pattern selects exactly its own key |
| Cache.KeysToDelete | src/common/services/cache.service.ts:74-96 | the seven `if (pattern.includes(..)) push` steps collect exactly the keys matched by the pattern |
| Cache.ListingSurvivesMovieClear | src/common/services/cache.service.ts:176-184 | an entry stored under a parameterised key has the same value after the movie clear as before it |
| Cache.GetAfterSet | src/common/services/cache.service.ts:46-57 | reading a key just written returns the written value |
| Cache.CacheService.constructor | src/common/services/cache.service.ts:7 | the service starts over the given cache contents |
| Cache.CacheService.Get | src/common/services/cache.service.ts:46-49 | returns the cached value under the generated key, or nothing |
| Cache.CacheService.Set | src/common/services/cache.service.ts:54-57 | stores the value under the generated key with the effective TTL; nothing else changes |
| Cache.CacheService.Del | src/common/services/cache.service.ts:62-65 | deletes the generated key; a rejected delete reaches the caller and changes nothing |
| Cache.CacheService.DelPattern | src/common/services/cache.service.ts:71-106 | removes the matched bare keys up to the first rejected delete; the rejection is swallowed |
| Cache.CacheService.GetMovies | src/common/services/cache.service.ts:111-113 | reads `movies:all` with the record |
| Cache.CacheService.SetMovies | src/common/services/cache.service.ts:115-117 | writes `movies:all` with the record for the short tier |
| Cache.CacheService.GetMoviesByGenre | src/common/services/cache.service.ts:119-121 | reads `movies:genre` with `{ genreId, ...params }` |
| Cache.CacheService.SetMoviesByGenre | src/common/services/cache.service.ts:123-125 | writes `movies:genre` with `{ genreId, ...params }` for the short tier |
| Cache.CacheService.GetMoviesByDirector | src/common/services/cache.service.ts:127-129 | reads `movies:director` with `{ directorId, ...params }` |
| Cache.CacheService.SetMoviesByDirector | src/common/services/cache.service.ts:131-133 | writes `movies:director` with `{ directorId, ...params }` for the short tier |
| Cache.CacheService.GetPopularMovies | src/common/services/cache.service.ts:135-137 | reads `movies:popular` with the record |
| Cache.CacheService.SetPopularMovies | src/common/services/cache.service.ts:139-141 | writes `movies:popular` for the medium tier |
| Cache.CacheService.GetSearchMovies | src/common/services/cache.service.ts:143-145 | reads `movies:search` with the record |
| Cache.CacheService.SetSearchMovies | src/common/services/cache.service.ts:147-149 | writes `movies:search` for the short tier |
| Cache.CacheService.GetGenres | src/common/services/cache.service.ts:154-156 | reads `genres:all` with the record |
| Cache.CacheService.SetGenres | src/common/services/cache.service.ts:158-160 | writes `genres:all` for the long tier |
| Cache.CacheService.GetDirectors | src/common/services/cache.service.ts:165-167 | reads the bare `directors:all` key |
| Cache.CacheService.SetDirectors | src/common/services/cache.service.ts:169-171 | writes the bare `directors:all` key for the long tier |
| Cache.CacheService.ClearMovieCache | src/common/services/cache.service.ts:176-184 | removes the five bare movie keys, except those whose delete is rejected; every other entry stays |
| Cache.CacheService.ClearGenreCache | src/common/services/cache.service.ts:189-193 | removes `genres:all` and the five bare movie keys, except rejected ones |
| Cache.CacheService.ClearDirectorCache | src/common/services/cache.service.ts:198-202 | removes `directors:all` and the five bare movie keys, except rejected ones |
| FileValidation.ValidateImageMagicBytes | src/common/interceptors/file-validation.interceptor.ts:54-76 | passes iff the buffer exists, has at least 8 bytes and starts with the JPEG or the PNG signature; a missing or short buffer is reported as corrupted, any other failure as not an image |
| FileValidation.ValidateFile | src/common/interceptors/file-validation.interceptor.ts:26-52 | passes iff the file meets every constraint; the first failing check, in source order, decides the error: the MIME type, the size and the extension errors each exactly when that check is the first to fail, and once those pass, the magic-byte check's own error (corrupted or not an image) |
| FileValidation.DottedExtension | src/common/interceptors/file-validation.interceptor.ts:42-44 | prefixing a dot makes an allow-list entry exactly from jpg, jpeg and png |
| FileValidation.Intercept | src/common/interceptors/file-validation.interceptor.ts:15-24 | a request without a file passes; one with a file passes iff the file is acceptable |
| FileValidation.MagicIndependentOfDeclaredType | src/common/interceptors/file-validation.interceptor.ts:63-71 | a file declared and named PNG whose bytes are a JPEG passes |
| FileValidation.ShortBufferIsCorrupted | src/common/interceptors/file-validation.interceptor.ts:55-57 | fewer than 8 bytes are reported as corrupted even when they start with a valid signature |
| FileValidation.DotlessNameExtension | src/common/interceptors/file-validation.interceptor.ts:43-44 | a name without a dot is its own extension, so the lower-cased names "jpg", "jpeg" and "png" pass |
| Upload.ValidateUpload | src/common/services/upload.service.ts:92-108 | passes iff a file is present with an allowed MIME type and at most 2 MB; a missing file, a disallowed MIME type and an oversized file each give their own BadRequest |
| Upload.UploadCeilingBinds | src/common/services/upload.service.ts:103-107 | for a file the interceptor accepts, the service accepts it iff it is at most 2 MB |
| Upload.ThreeMegabytesRefused | src/common/services/upload.service.ts:103-107 | a 3 MB JPEG passes the interceptor and is refused by the service |
| Upload.Extname | src/common/services/upload.service.ts:114 | `path.extname` is empty or starts with a dot, and never holds a slash |
| Upload.ExtnameOf | src/common/services/upload.service.ts:114 | the extension of `stem.ext`, for a slash-free stem and a dot-free extension, is `.ext` |
| Upload.GenerateFileName | src/common/services/upload.service.ts:113-117 | the generated name holds no slash when the uuid holds none |
| Upload.FileNameKeepsOnlyExtension | src/common/services/upload.service.ts:113-117 | the generated name is `poster-` + uuid + the lower-cased extension; nothing else of the original name survives |
| Upload.GetFileExtension | src/common/services/upload.service.ts:224-231 | `.png` exactly for `image/png`; `.jpg` for every other MIME type that is not an inherited object property name |
| Upload.LocalFileFromUrl | src/common/services/upload.service.ts:202 | the file name taken from a URL holds no slash |
| Upload.S3KeyFromUrl | src/common/services/upload.service.ts:185 | a key is found iff the URL contains `.amazonaws.com/` |
| Upload.LocalRoundTrip | src/common/services/upload.service.ts:166 | the file name taken from the local URL is the name the URL was built from |
| Upload.S3RoundTrip | src/common/services/upload.service.ts:145 | the key taken from the S3 URL is the key the URL was built from, for a slash-free bucket name |
| Upload.DeleteTargetsUpload | src/common/services/upload.service.ts:178-209 | deleting by the URL an upload returned targets exactly the object or file that upload wrote, on either backend |
| Upload.AfterDelete | src/common/services/upload.service.ts:73-87 | a delete only removes entries and never changes a value; an empty URL or a failed delete changes nothing |
| Upload.AfterUpload | src/common/services/upload.service.ts:58-68 | succeeds iff validation passes and the write succeeds; on failure storage is unchanged; the error is the validator's or the backend's; the URL names the generated file |
| Upload.UploadThenDeleteRestores | src/common/services/upload.service.ts:58-87 | deleting by the URL an upload returned restores the storage the upload started from, when the generated name was unused |
| Upload.UploadService.constructor | src/common/services/upload.service.ts:20-53 | S3 is selected iff in production with both AWS keys and the bucket set |
| Upload.UploadService.UploadPoster | src/common/services/upload.service.ts:58-68 | the result and the new storage are those of `AfterUpload` |
| Upload.UploadService.UploadToS3 | src/common/services/upload.service.ts:122-152 | a successful put stores the buffer under `posters/<name>` and returns the bucket URL; a failed put is a BadRequest and stores nothing |
| Upload.UploadService.UploadToLocal | src/common/services/upload.service.ts:157-173 | a successful write stores the buffer under `uploads/posters/<name>` and returns `/uploads/posters/<name>`; a failed write is a BadRequest and stores nothing |
| Upload.UploadService.DeletePoster | src/common/services/upload.service.ts:73-87 | the new storage is that of `AfterDelete`: empty URLs and failures change nothing |
| Upload.UploadService.DeleteFromS3 | src/common/services/upload.service.ts:178-195 | removes the object whose key follows `.amazonaws.com/`, if that key is non-empty |
| Upload.UploadService.DeleteFromLocal | src/common/services/upload.service.ts:200-209 | removes the file named by the URL's last segment, if that name is non-empty and the file exists |
| CreateMovie.ValidSpelledOut | src/movies/dto/create-movie.dto.ts:11-92 | a body is valid iff the title has 1 to 200 characters, the year is in 1888..2030, a given duration is positive, a given rating is in 0..10, a given poster URL is a URL, and both ids are positive |
| CreateMovie.Validate | src/movies/dto/create-movie.dto.ts:5-93 | accepts iff the body is valid, returning it unchanged; otherwise reports exactly the failing properties |
| CreateMovie.DocumentedExampleIsValid | src/movies/dto/create-movie.dto.ts:6-66 | the documented example body is accepted |
| CreateMovie.BoundaryCases | src/movies/dto/create-movie.dto.ts:32-56 | the year and rating bounds are inclusive: 1888, 2030, 0 and 10.0 pass, while 1887 and 2031 fail |
| CreateMovie.AllFailuresReported | src/movies/dto/create-movie.dto.ts:41-92 | a body with a zero duration and a zero genre id is refused with both properties named |
| Pagination.AsPagination | src/common/dto/pagination.dto.ts:32 | a valid filter is a valid pagination |
| Pagination.PaginationWithDefaults | src/common/dto/pagination.dto.ts:16-29 | an absent page becomes 1 and an absent limit 10; a given value is kept |
| Pagination.FilterWithDefaults | src/common/dto/pagination.dto.ts:32-85 | an absent sortBy becomes "createdAt" and an absent order "DESC"; a given sortBy or order is kept; the filters are untouched; the pagination part gets the pagination defaults |
| Pagination.EmptyFilterDefaults | src/common/dto/pagination.dto.ts:16-84 | an empty query becomes page 1, limit 10, sorted by createdAt, DESC |
| Pagination.DefaultsKeepValidity | src/common/dto/pagination.dto.ts:66-84 | filling in the defaults keeps a valid query valid and an invalid one invalid |
| Pagination.DefaultsIdempotent | src/common/dto/pagination.dto.ts:16-84 | filling in the defaults twice is filling them in once |
| Pagination.LimitNotCapped | src/common/dto/pagination.dto.ts:18-29 | a limit of 1000 is valid, and a page of 0 is not |
| Movies.SortColumnChoice | src/movies/movies.service.ts:136-145 | each known sort field orders by its own column; any other value orders by createdAt |
| Movies.ValidOrderUnchanged | src/movies/movies.service.ts:136 | upper-casing leaves ASC and DESC unchanged |
| Movies.PagesTile | src/movies/movies.service.ts:103 | page 1 skips nothing, and each page starts where the previous one ended |
| Movies.YearZeroIsNoFilter | src/movies/movies.service.ts:82 | a year of 0 selects the same cache key and the same query as no year |
| Movies.NamespacesSeparate | src/movies/movies.service.ts:88-100 | a filtered listing and an unfiltered one never share a cache key |
| Movies.StaleListingAfterClear | src/movies/movies.service.ts:87-100 | a findAll page cached before a write is still returned, under the same key, after the write's cache clear |
| Movies.StaleGenreListingAfterClear | src/movies/movies.service.ts:235-244 | a per-genre page cached before a write survives the clear as well |
| Movies.NewMovie | src/movies/movies.service.ts:47-51 | the saved row, read back as a create body, is the body it was made from |
| Movies.Patched | src/movies/movies.service.ts:211 | an undefined property keeps the column, a value sets it, and null empties it |
| Movies.AssignFields | src/movies/movies.service.ts:211 | `Object.assign` keeps the id, genre and director; a given title, year or poster URL replaces the old one |
| Movies.UpdateError | src/movies/movies.service.ts:182-208 | an update is refused iff the movie is missing, or a named genre or director is missing; a missing movie is NotFound |
| Movies.EmptyUpdateKeepsMovie | src/movies/movies.service.ts:182-213 | an empty update body saves the movie unchanged |
| Movies.UpdateIdempotent | src/movies/movies.service.ts:182-213 | applying the same update twice is applying it once |
| Movies.FullUpdateRecreates | src/movies/movies.service.ts:182-213 | updating with every property of a create body gives the movie that body creates, under the old id |
| Movies.MoviesService.constructor | src/movies/movies.service.ts:18-26 | the service starts over the given tables, cache and query engine |
| Movies.MoviesService.Create | src/movies/movies.service.ts:28-59 | the genre is checked before the director, and a missing one changes nothing; otherwise the new row gets a fresh id, reproduces the body, and the movie cache is cleared |
| Movies.MoviesService.FindAll | src/movies/movies.service.ts:61-167 | a cache hit is returned as stored; a miss queries with the filters, sort and page and caches the result for the short tier; either way the cache then holds the page returned |
| Movies.MoviesService.LookUpListing | src/movies/movies.service.ts:87-100 | reads the search namespace iff some filter is truthy, otherwise movies:all |
| Movies.MoviesService.StoreListing | src/movies/movies.service.ts:159-164 | writes to the same namespace and key the lookup reads |
| Movies.MoviesService.BuildListingQuery | src/movies/movies.service.ts:103-148 | the query built step by step is the listing query: truthy filters, sort column, upper-cased order, skip and take |
| Movies.MoviesService.FindOne | src/movies/movies.service.ts:169-180 | returns the row iff the id exists; otherwise NotFound |
| Movies.MoviesService.Update | src/movies/movies.service.ts:182-219 | a refused update changes nothing; otherwise exactly that row is replaced by the updated movie and the movie cache is cleared |
| Movies.MoviesService.Remove | src/movies/movies.service.ts:221-227 | NotFound changes nothing; otherwise exactly that row is gone and the movie cache is cleared; the poster is not touched |
| Movies.MoviesService.FindByGenre | src/movies/movies.service.ts:229-268 | read-through cache under `movies:genre` with the genre id: a hit is returned as stored, a miss is queried and cached for the short tier |
| Movies.MoviesService.FindByDirector | src/movies/movies.service.ts:270-313 | read-through cache under `movies:director` with the director id, with the same hit/miss behaviour |
| Movies.MoviesService.FindPopular | src/movies/movies.service.ts:318-356 | read-through cache under `movies:popular`, cached for the medium tier |
| MoviesApi.Reply | src/movies/movies.controller.ts:93-97 | the reply carries the stored URL and a slash-free file name |
| MoviesApi.ReplyNamesGeneratedFile | src/movies/movies.controller.ts:96 | the reply's file name is the generated file name, on either backend |
| MoviesApi.WithoutOldPoster | src/movies/movies.controller.ts:83-85 | a movie without a poster leaves storage as it was |
| MoviesApi.DeleteThenUpload | src/movies/movies.controller.ts:83-88 | as written: a refused upload leaves storage without the old poster |
| MoviesApi.UploadThenDelete | src/movies/movies.controller.ts:83-91 | corrected order: a refused upload leaves storage exactly as it was, with the same result as the upload alone |
| MoviesApi.FailedReplacementKeepsPoster | src/movies/movies.controller.ts:83-91 | in the corrected order, a failed replacement never leaves the movie naming a missing file |
| MoviesApi.InterceptorAdmitsThreeMegabytes | src/movies/movies.controller.ts:53 | the 3 MB JPEG passes the endpoint's interceptor and fails the upload service |
| MoviesApi.OversizedUploadLosesPoster | src/movies/movies.controller.ts:83-88 | as written, uploading a 3 MB JPEG for a movie with a stored poster fails after that poster is deleted, leaving the movie naming a missing file |
| MoviesApi.OversizedUploadKeepsPosterWhenUploadingFirst | src/movies/movies.controller.ts:83-91 | in the corrected order the same request fails and the old poster is still stored |
| MoviesApi.UndefinedPosterUrlIsKept | src/movies/movies.controller.ts:195 | `update(id, { posterUrl: undefined })` saves the row unchanged, so the poster URL is kept |
| MoviesApi.DeletedPosterStaysReferenced | src/movies/movies.controller.ts:186-196 | as written, after deletePoster the row still names the deleted file |
| MoviesApi.PosterUpdateSetsUrl | src/movies/movies.controller.ts:91 | updating only the poster URL sets it and changes nothing else in the row |
| MoviesApi.NullPosterUrlClears | src/movies/movies.controller.ts:195 | with null instead of undefined the column is emptied and no file is referenced |
| MoviesApi.MoviesController.UploadPoster | src/movies/movies.controller.ts:71-98 | interceptor errors, a missing file and a missing movie each change nothing; otherwise the storage follows `DeleteThenUpload`; the row and cache change only when the upload succeeds, and the reply names the new poster |
| MoviesApi.MoviesController.UploadPosterSafely | src/movies/movies.controller.ts:71-98 | corrected endpoint: every error leaves the movies, the cache and both stores unchanged; success is as in uploadPoster |
| MoviesApi.MoviesController.DeleteThenUploadPoster | src/movies/movies.controller.ts:82-97 | the handler's steps after the lookup, in the source's order: delete, upload, update, reply |
| MoviesApi.MoviesController.UploadThenDeletePoster | src/movies/movies.controller.ts:82-97 | the same steps with the upload before the delete; an error changes nothing |
| MoviesApi.MoviesController.LinkPoster | src/movies/movies.controller.ts:91 | the movie now names the new URL, nothing else in the row changes, and the movie cache is cleared |
| MoviesApi.MoviesController.DeletePosterAsWritten | src/movies/movies.controller.ts:186-199 | NotFound or no poster changes nothing; otherwise the file is deleted, the row is saved unchanged and the cache is cleared |
| MoviesApi.MoviesController.DeletePoster | src/movies/movies.controller.ts:186-199 | the corrected endpoint: the file is deleted and the row's poster URL becomes null |

## Left out

- The interplay of TTLs and time: an entry stays until it is deleted or overwritten, because no clock is modelled. Each entry records the TTL it was written with.
- Cache `get`/`set` failures of the backend are not modelled. Rejected deletes are modelled, as a set of keys whose delete fails.
- `clearMovieCache` runs its five `delPattern` calls concurrently with `Promise.all`. The model runs them one after the other, which gives the same final store because the calls touch disjoint keys.
- The database: TypeORM's query semantics (ILIKE matching, joins, ordering, counting) are an uninterpreted `engine` parameter from the movie table and a query to a page of rows and a total. Saves and removes always succeed.
- findPopular's `rating >= 5.0` filter and its rating-then-createdAt order are left to the engine; the query only carries skip and take.
- Ratings are integers in tenths. A rating with more than one decimal place, which the validator rejects, cannot be expressed, and floating point is not modelled.
- `createdAt`/`updatedAt` timestamps are not modelled; ordering by them is left to the engine.
- `@IsUrl()` is a parameter `isUrl` of the body validator, since URL syntax is not part of this model. Type coercion (`@Type(() => Number)`, `@IsInt`, `@IsString`) has already happened before validation.
- src/movies/dto/update-movie.dto.ts is not part of this model. The update body is taken to be the create body with every property optional and the nullable ones able to carry null (`Patch`). A null title, year or id in an update is not modelled.
- The genre and director services and controllers are not part of this model. Their tables are read-only maps here, and their clears are modelled only as `ClearGenreCache`/`ClearDirectorCache`.
- The other movie controller endpoints are thin calls into the service and are not modelled separately.
- Case mapping is ASCII only, and string order compares characters by code point, not UTF-16 code units. Names outside ASCII may sort or lower-case differently.
- The uuid generator, the file system and the S3 client are parameters: the uuid is passed in, and each write or delete succeeds or fails according to a boolean.
- Logging and the logged messages are left out. Error messages are kept as structured reasons.
- Upload.Extname: `path.extname` is modelled for slash-separated POSIX paths only.
- Upload.UploadService.DeleteFromLocal: `fs.existsSync` followed by `unlink` is one atomic step; races with other requests are not modelled.
- Upload.GetFileExtension: the `mimeToExt[mimetype] || '.jpg'` lookup is modelled over the object's own keys only. An inherited property name such as `constructor`, `toString` or `__proto__` yields a truthy non-string in JavaScript, not `.jpg`. The method has no callers.
- Strings.IntToString, Cache.GenerateKey, Movies.Skip: JavaScript numbers are doubles, but the model uses exact unbounded integers. Page, limit, year and ids above 2^53 lose precision in the source, so two different pages can share one cache key and one skip. `${n}` renders numbers of 1e21 and above in exponent form (`page:1e+21`), which `IntToString` does not.
- CreateMovie.Valid: `@MaxLength(200)` is checked as at most 200 characters. validator.js's `isLength` does not count the variation selectors U+FE0E and U+FE0F, so a 200-character title plus one selector passes the source and fails this predicate.
- Movies.MoviesService.Update returns the row as the model saves it. The in-memory object the source returns after assigning `undefined` to a property is not modelled, because TypeORM skips that property when saving.

## Findings

| source | as written | input that shows it | evidently intended | confidence | as-written member | corrected member |
|---|---|---|---|---|---|---|
| src/movies/movies.controller.ts:83-88 | uploadPoster deletes the old poster before the upload service validates the new file; the interceptor allows 5 MB but the service refuses more than 2 MB | a 3 MB JPEG uploaded for a movie whose poster is stored: the request fails, the old file is gone, and the row still names it | replacing a poster should leave the old one in place when the new one is refused; upload first, delete after | not executed | MoviesApi.MoviesController.UploadPoster, MoviesApi.OversizedUploadLosesPoster | MoviesApi.MoviesController.UploadPosterSafely, MoviesApi.UploadThenDelete |
| src/movies/movies.controller.ts:195 | deletePoster updates the movie with `posterUrl: undefined`, which `save` then skips, so the column keeps the old URL | DELETE /movies/1/poster for a movie whose poster is stored: the file is deleted and the row still names it | the poster URL should be cleared (null) once its file is deleted | not executed | MoviesApi.MoviesController.DeletePosterAsWritten, MoviesApi.DeletedPosterStaysReferenced | MoviesApi.MoviesController.DeletePoster, MoviesApi.NullPosterUrlClears |
