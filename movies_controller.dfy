/**
 * The poster endpoints of the movies controller
 * (src/movies/movies.controller.ts): `POST /movies/:id/poster`, which runs
 * the file validation interceptor and then replaces a movie's poster, and
 * `DELETE /movies/:id/poster`. Each step is a call into the movie service or
 * the upload service, in the order the handler makes them.
 */
module MoviesApi {
  import opened Wrappers
  import opened Exceptions
  import opened Strings
  import opened Cache
  import opened FileValidation
  import opened Upload
  import opened Movies

  const PosterUploadedMessage := "Poster uploaded successfully"

  /** The body `uploadPoster` answers with. */
  datatype PosterReply = PosterReply(posterUrl: string, message: string, fileName: string)

  /** `if (movie.posterUrl)`: the movie names a poster. */
  predicate HasPoster(m: Movie) {
    m.posterUrl.Some? && m.posterUrl.value != ""
  }

  /** The reply for a stored poster: the URL and its last `/` segment. */
  function Reply(url: string): (r: PosterReply)
    ensures r.posterUrl == url && '/' !in r.fileName
  {
    PosterReply(url, PosterUploadedMessage, LocalFileFromUrl(url))
  }

  /** The reply names the file the upload generated, on either backend. */
  lemma ReplyNamesGeneratedFile(useS3: bool, bucket: string, name: string)
    requires '/' !in name
    ensures Reply(if useS3 then S3Url(bucket, S3Key(name)) else LocalUrl(name)).fileName == name
  {
    if useS3 {
      var prefix := "https://" + bucket + ".s3" + ".amazonaws.com/" + "posters";
      assert S3Url(bucket, S3Key(name)) == prefix + ['/'] + name;
      LastSegmentAfter(prefix, '/', name);
    } else {
      LocalRoundTrip(name);
    }
  }

  /**
   * The movie names a poster that storage no longer holds: the target its
   * URL gives on the selected backend is gone.
   */
  predicate Dangling(useS3: bool, s: Storage, m: Movie) {
    && HasPoster(m)
    && var target := if useS3 then S3DeleteTarget(m.posterUrl.value) else LocalDeleteTarget(m.posterUrl.value);
       target.Some? && target.value !in (if useS3 then s.s3Objects else s.localFiles)
  }

  /** Storage after the old poster, if the movie names one, has been deleted. */
  function WithoutOldPoster(useS3: bool, s: Storage, m: Movie, deleteOk: bool): (r: Storage)
    ensures !HasPoster(m) ==> r == s
  {
    if HasPoster(m) then AfterDelete(useS3, s, m.posterUrl.value, deleteOk) else s
  }

  /** The order uploadPoster uses: delete the old poster, then upload the new one. */
  function DeleteThenUpload(useS3: bool, bucket: string, s: Storage, m: Movie, f: UploadedFile,
                            uuid: string, writeOk: bool, deleteOk: bool): (r: Outcome)
    ensures r.result.Err? ==> r.storage == WithoutOldPoster(useS3, s, m, deleteOk)
  {
    AfterUpload(useS3, bucket, WithoutOldPoster(useS3, s, m, deleteOk), Some(f), uuid, writeOk)
  }

  /** Upload the new poster first and delete the old one only once the new one is stored. */
  function UploadThenDelete(useS3: bool, bucket: string, s: Storage, m: Movie, f: UploadedFile,
                            uuid: string, writeOk: bool, deleteOk: bool): (r: Outcome)
    ensures r.result.Err? ==> r.storage == s
    ensures r.result == AfterUpload(useS3, bucket, s, Some(f), uuid, writeOk).result
  {
    var up := AfterUpload(useS3, bucket, s, Some(f), uuid, writeOk);
    if up.result.Ok? then Outcome(WithoutOldPoster(useS3, up.storage, m, deleteOk), up.result) else up
  }

  /** A failed replacement leaves a movie's poster backed by storage if it was before. */
  lemma FailedReplacementKeepsPoster(useS3: bool, bucket: string, s: Storage, m: Movie, f: UploadedFile,
                                     uuid: string, writeOk: bool, deleteOk: bool)
    ensures var out := UploadThenDelete(useS3, bucket, s, m, f, uuid, writeOk, deleteOk);
            out.result.Err? && !Dangling(useS3, s, m) ==> !Dangling(useS3, out.storage, m)
  {
  }

  // ---------------------------------------------------------------------
  // A movie whose poster is replaced by a file of 3 MB
  // ---------------------------------------------------------------------

  const OldPoster := "poster-old.jpg"

  function Nolan(): Director { Director(1, "Christopher", "Nolan") }

  function WithOldPoster(): Movie {
    Movie(1, "Inception", None, 2010, None, None, Some(LocalUrl(OldPoster)), None, Genre(1, "Sci-Fi"), Nolan())
  }

  function DiskWithOldPoster(): Storage {
    Storage(map[UploadPath(OldPoster) := [0xFF, 0xD8, 0xFF]], map[])
  }

  /** A JPEG of 3 MB: within the interceptor's 5 MB, above the upload service's 2 MB. */
  function ThreeMegabyteJpeg(): UploadedFile {
    UploadedFile("new.jpg", "image/jpeg", 3 * 1024 * 1024, Some([0xFF, 0xD8, 0xFF, 0xE0, 0, 0x10, 0x4A, 0x46]))
  }

  lemma InterceptorAdmitsThreeMegabytes()
    ensures Intercept(Some(ThreeMegabyteJpeg())).Ok?
    ensures ValidateUpload(Some(ThreeMegabyteJpeg())) == Err(BadRequest(FileTooLarge(MaxUploadSize)))
  {
    LastSegmentAfter(ToLower("new"), '.', "jpg");
    assert ToLower("new.jpg") == ToLower("new") + ['.'] + "jpg";
  }

  lemma OldPosterStored()
    ensures LocalDeleteTarget(LocalUrl(OldPoster)) == Some(UploadPath(OldPoster))
    ensures !Dangling(false, DiskWithOldPoster(), WithOldPoster())
  {
    LocalRoundTrip(OldPoster);
  }

  /**
   * As written, the old poster is deleted before the new one is validated:
   * the 3 MB file is refused after the old file is gone, and the movie,
   * which is not updated, keeps naming it.
   */
  lemma OversizedUploadLosesPoster()
    ensures var out := DeleteThenUpload(false, "", DiskWithOldPoster(), WithOldPoster(), ThreeMegabyteJpeg(), "u", true, true);
            && out.result == Err(BadRequest(FileTooLarge(MaxUploadSize)))
            && !Dangling(false, DiskWithOldPoster(), WithOldPoster())
            && Dangling(false, out.storage, WithOldPoster())
  {
    InterceptorAdmitsThreeMegabytes();
    OldPosterStored();
    assert WithoutOldPoster(false, DiskWithOldPoster(), WithOldPoster(), true).localFiles
        == DiskWithOldPoster().localFiles - {UploadPath(OldPoster)};
  }

  /** Uploading first, the same request leaves the old poster in place. */
  lemma OversizedUploadKeepsPosterWhenUploadingFirst()
    ensures var out := UploadThenDelete(false, "", DiskWithOldPoster(), WithOldPoster(), ThreeMegabyteJpeg(), "u", true, true);
            && out.result == Err(BadRequest(FileTooLarge(MaxUploadSize)))
            && !Dangling(false, out.storage, WithOldPoster())
  {
    InterceptorAdmitsThreeMegabytes();
    OldPosterStored();
  }

  // ---------------------------------------------------------------------
  // Deleting a poster
  // ---------------------------------------------------------------------

  /**
   * `update(id, { posterUrl: undefined })` saves the row as it was: the
   * undefined property is skipped, so the deleted file stays referenced.
   */
  lemma UndefinedPosterUrlIsKept(m: Movie, genres: map<int, Genre>, directors: map<int, Director>)
    ensures Updated(m, PosterUpdate(Keep), genres, directors) == m
    ensures HasPoster(m) ==> HasPoster(Updated(m, PosterUpdate(Keep), genres, directors))
  {
  }

  /** The concrete case: after the file is deleted the unchanged row names a missing file. */
  lemma DeletedPosterStaysReferenced()
    ensures var m := WithOldPoster();
            var after := AfterDelete(false, DiskWithOldPoster(), m.posterUrl.value, true);
            && !Dangling(false, DiskWithOldPoster(), m)
            && Updated(m, PosterUpdate(Keep), map[], map[]) == m
            && Dangling(false, after, Updated(m, PosterUpdate(Keep), map[], map[]))
  {
    OldPosterStored();
    assert AfterDelete(false, DiskWithOldPoster(), LocalUrl(OldPoster), true).localFiles
        == DiskWithOldPoster().localFiles - {UploadPath(OldPoster)};
  }

  /** Setting the URL alone changes nothing else in the row. */
  lemma PosterUpdateSetsUrl(m: Movie, url: string, genres: map<int, Genre>, directors: map<int, Director>)
    ensures Updated(m, PosterUpdate(Put(url)), genres, directors) == m.(posterUrl := Some(url))
  {
  }

  /** Passing null empties the column, so nothing names the deleted file. */
  lemma NullPosterUrlClears(m: Movie, genres: map<int, Genre>, directors: map<int, Director>, useS3: bool, s: Storage)
    ensures Updated(m, PosterUpdate(Clear), genres, directors).posterUrl.None?
    ensures !Dangling(useS3, s, Updated(m, PosterUpdate(Clear), genres, directors))
    ensures Updated(m, PosterUpdate(Clear), genres, directors) == m.(posterUrl := None)
  {
  }

  // ---------------------------------------------------------------------
  // The controller
  // ---------------------------------------------------------------------

  class MoviesController {
    const service: MoviesService
    const uploads: UploadService

    ghost predicate Valid()
      reads service, uploads
    {
      service.Valid() && uploads.Valid()
    }

    constructor (service0: MoviesService, uploads0: UploadService)
      requires service0.Valid() && uploads0.Valid()
      ensures Valid() && service == service0 && uploads == uploads0
    {
      service := service0;
      uploads := uploads0;
    }

    /**
     * `POST /movies/:id/poster`: the interceptor's checks, then a missing
     * file, then the movie lookup, each refusing with nothing changed; then
     * the old poster is deleted, the new one uploaded and, only if that
     * succeeds, the movie's URL updated.
     */
    method UploadPoster(movieId: int, file: Option<UploadedFile>, uuid: string, writeOk: bool, deleteOk: bool)
      returns (r: Result<PosterReply, HttpError>)
      requires Valid()
      requires '/' !in uuid
      modifies service`movies, service.cache`store, uploads`localFiles, uploads`s3Objects
      ensures Valid()
      ensures Intercept(file).Err? ==>
                r == Err(Intercept(file).error) && unchanged(service, service.cache, uploads)
      ensures Intercept(file).Ok? && file.None? ==>
                r == Err(BadRequest(NoFileProvided)) && unchanged(service, service.cache, uploads)
      ensures Intercept(file).Ok? && file.Some? && movieId !in old(service.movies) ==>
                r == Err(NotFound("Movie", movieId)) && unchanged(service, service.cache, uploads)
      ensures Intercept(file).Ok? && file.Some? && movieId in old(service.movies) ==>
                var m := old(service.movies)[movieId];
                var out := DeleteThenUpload(uploads.useS3, uploads.bucketName, old(uploads.Stored()), m,
                                            file.value, uuid, writeOk, deleteOk);
                && uploads.Stored() == out.storage
                && (out.result.Err? ==>
                      && r == Err(out.result.error)
                      && service.movies == old(service.movies)
                      && service.cache.store == old(service.cache.store))
                && (out.result.Ok? ==>
                      && r == Ok(Reply(out.result.value))
                      && service.movies == old(service.movies)[movieId := m.(posterUrl := Some(out.result.value))]
                      && service.cache.store == AfterMovieClear(old(service.cache.store), service.cache.failingDeletes))
    {
      var checked := Intercept(file);
      if checked.Err? {
        return Err(checked.error);
      }
      if file.None? {
        return Err(BadRequest(NoFileProvided));
      }
      var found := service.FindOne(movieId);
      if found.Err? {
        return Err(found.error);
      }
      r := DeleteThenUploadPoster(movieId, found.value, file.value, uuid, writeOk, deleteOk);
    }

    /**
     * The same endpoint with the new poster stored before the old one is
     * deleted: a refused or failed upload changes nothing at all.
     */
    method UploadPosterSafely(movieId: int, file: Option<UploadedFile>, uuid: string, writeOk: bool, deleteOk: bool)
      returns (r: Result<PosterReply, HttpError>)
      requires Valid()
      requires '/' !in uuid
      modifies service`movies, service.cache`store, uploads`localFiles, uploads`s3Objects
      ensures Valid()
      ensures r.Err? ==> unchanged(service, service.cache, uploads)
      ensures Intercept(file).Ok? && file.Some? && movieId in old(service.movies) ==>
                var m := old(service.movies)[movieId];
                var out := UploadThenDelete(uploads.useS3, uploads.bucketName, old(uploads.Stored()), m,
                                            file.value, uuid, writeOk, deleteOk);
                && uploads.Stored() == out.storage
                && (out.result.Err? ==> r == Err(out.result.error))
                && (out.result.Ok? ==>
                      && r == Ok(Reply(out.result.value))
                      && service.movies == old(service.movies)[movieId := m.(posterUrl := Some(out.result.value))]
                      && service.cache.store == AfterMovieClear(old(service.cache.store), service.cache.failingDeletes))
    {
      var checked := Intercept(file);
      if checked.Err? {
        return Err(checked.error);
      }
      if file.None? {
        return Err(BadRequest(NoFileProvided));
      }
      var found := service.FindOne(movieId);
      if found.Err? {
        return Err(found.error);
      }
      r := UploadThenDeletePoster(movieId, found.value, file.value, uuid, writeOk, deleteOk);
    }

    /** The steps of uploadPoster once the file and the movie are known. */
    method DeleteThenUploadPoster(movieId: int, movie: Movie, f: UploadedFile, uuid: string, writeOk: bool, deleteOk: bool)
      returns (r: Result<PosterReply, HttpError>)
      requires Valid() && movieId in service.movies && service.movies[movieId] == movie
      requires '/' !in uuid
      modifies service`movies, service.cache`store, uploads`localFiles, uploads`s3Objects
      ensures Valid()
      ensures var out := DeleteThenUpload(uploads.useS3, uploads.bucketName, old(uploads.Stored()), movie,
                                          f, uuid, writeOk, deleteOk);
              && uploads.Stored() == out.storage
              && (out.result.Err? ==>
                    && r == Err(out.result.error)
                    && service.movies == old(service.movies)
                    && service.cache.store == old(service.cache.store))
              && (out.result.Ok? ==>
                    && r == Ok(Reply(out.result.value))
                    && service.movies == old(service.movies)[movieId := movie.(posterUrl := Some(out.result.value))]
                    && service.cache.store == AfterMovieClear(old(service.cache.store), service.cache.failingDeletes))
    {
      if HasPoster(movie) {
        uploads.DeletePoster(movie.posterUrl.value, deleteOk);
      }
      var uploaded := uploads.UploadPoster(Some(f), uuid, writeOk);
      if uploaded.Err? {
        return Err(uploaded.error);
      }
      var posterUrl := uploaded.value;
      LinkPoster(movieId, posterUrl);
      r := Ok(Reply(posterUrl));
    }

    /** The steps of the corrected endpoint once the file and the movie are known. */
    method UploadThenDeletePoster(movieId: int, movie: Movie, f: UploadedFile, uuid: string, writeOk: bool, deleteOk: bool)
      returns (r: Result<PosterReply, HttpError>)
      requires Valid() && movieId in service.movies && service.movies[movieId] == movie
      requires '/' !in uuid
      modifies service`movies, service.cache`store, uploads`localFiles, uploads`s3Objects
      ensures Valid()
      ensures r.Err? ==> unchanged(service, service.cache, uploads)
      ensures var out := UploadThenDelete(uploads.useS3, uploads.bucketName, old(uploads.Stored()), movie,
                                          f, uuid, writeOk, deleteOk);
              && uploads.Stored() == out.storage
              && (out.result.Err? ==> r == Err(out.result.error))
              && (out.result.Ok? ==>
                    && r == Ok(Reply(out.result.value))
                    && service.movies == old(service.movies)[movieId := movie.(posterUrl := Some(out.result.value))]
                    && service.cache.store == AfterMovieClear(old(service.cache.store), service.cache.failingDeletes))
    {
      var uploaded := uploads.UploadPoster(Some(f), uuid, writeOk);
      if uploaded.Err? {
        return Err(uploaded.error);
      }
      if HasPoster(movie) {
        uploads.DeletePoster(movie.posterUrl.value, deleteOk);
      }
      var posterUrl := uploaded.value;
      LinkPoster(movieId, posterUrl);
      r := Ok(Reply(posterUrl));
    }

    /** `update(movieId, { posterUrl })`: the movie now names the new poster. */
    method LinkPoster(movieId: int, posterUrl: string)
      requires service.Valid() && movieId in service.movies
      modifies service`movies, service.cache`store
      ensures service.Valid()
      ensures service.movies == old(service.movies)[movieId := old(service.movies)[movieId].(posterUrl := Some(posterUrl))]
      ensures service.cache.store == AfterMovieClear(old(service.cache.store), service.cache.failingDeletes)
    {
      PosterUpdateSetsUrl(service.movies[movieId], posterUrl, service.genres, service.directors);
      var _ := service.Update(movieId, PosterUpdate(Put(posterUrl)));
    }

    /**
     * `DELETE /movies/:id/poster` as written: the file is deleted and the
     * movie updated with an undefined URL, which saves the row unchanged.
     */
    method DeletePosterAsWritten(movieId: int, deleteOk: bool) returns (r: Result<(), HttpError>)
      requires Valid()
      modifies service`movies, service.cache`store, uploads`localFiles, uploads`s3Objects
      ensures Valid()
      ensures movieId !in old(service.movies) ==>
                r == Err(NotFound("Movie", movieId)) && unchanged(service, service.cache, uploads)
      ensures movieId in old(service.movies) && !HasPoster(old(service.movies)[movieId]) ==>
                r == Ok(()) && unchanged(service, service.cache, uploads)
      ensures movieId in old(service.movies) && HasPoster(old(service.movies)[movieId]) ==>
                && r == Ok(())
                && uploads.Stored() == AfterDelete(uploads.useS3, old(uploads.Stored()),
                                                   old(service.movies)[movieId].posterUrl.value, deleteOk)
                && service.movies == old(service.movies)
                && service.cache.store == AfterMovieClear(old(service.cache.store), service.cache.failingDeletes)
    {
      var found := service.FindOne(movieId);
      if found.Err? {
        return Err(found.error);
      }
      var movie := found.value;
      if HasPoster(movie) {
        uploads.DeletePoster(movie.posterUrl.value, deleteOk);
        var _ := service.Update(movieId, PosterUpdate(Keep));
      }
      r := Ok(());
    }

    /**
     * `DELETE /movies/:id/poster` with the URL set to null: the file is
     * deleted and the movie no longer names a poster.
     */
    method DeletePoster(movieId: int, deleteOk: bool) returns (r: Result<(), HttpError>)
      requires Valid()
      modifies service`movies, service.cache`store, uploads`localFiles, uploads`s3Objects
      ensures Valid()
      ensures movieId !in old(service.movies) ==>
                r == Err(NotFound("Movie", movieId)) && unchanged(service, service.cache, uploads)
      ensures movieId in old(service.movies) && !HasPoster(old(service.movies)[movieId]) ==>
                r == Ok(()) && unchanged(service, service.cache, uploads)
      ensures movieId in old(service.movies) && HasPoster(old(service.movies)[movieId]) ==>
                && r == Ok(())
                && uploads.Stored() == AfterDelete(uploads.useS3, old(uploads.Stored()),
                                                   old(service.movies)[movieId].posterUrl.value, deleteOk)
                && service.movies == old(service.movies)[movieId := old(service.movies)[movieId].(posterUrl := None)]
                && service.cache.store == AfterMovieClear(old(service.cache.store), service.cache.failingDeletes)
    {
      var found := service.FindOne(movieId);
      if found.Err? {
        return Err(found.error);
      }
      var movie := found.value;
      if HasPoster(movie) {
        uploads.DeletePoster(movie.posterUrl.value, deleteOk);
        var _ := service.Update(movieId, PosterUpdate(Clear));
      }
      r := Ok(());
    }
  }
}
