/**
 * The body of `POST /movies` (src/movies/dto/create-movie.dto.ts) and the
 * field constraints the validation pipe applies to it. Numbers arrive already
 * converted to integers; a rating is held in tenths, so 8.8 is 88 and a
 * rating with more than one decimal place cannot be written down here.
 */
module CreateMovie {
  import opened Wrappers

  datatype CreateMovieDto = CreateMovieDto(
    title: string,
    description: Option<string>,
    releaseYear: int,
    duration: Option<int>,
    ratingTenths: Option<int>,
    posterUrl: Option<string>,
    synopsis: Option<string>,
    genreId: int,
    directorId: int)

  /** The properties of the body, in declaration order. */
  datatype Field = Title | Description | ReleaseYear | Duration | Rating | PosterUrl | Synopsis | GenreId | DirectorId

  const Fields := [Title, Description, ReleaseYear, Duration, Rating, PosterUrl, Synopsis, GenreId, DirectorId]

  const MaxTitleLength := 200
  const FirstReleaseYear := 1888
  const LastReleaseYear := 2030
  const MaxRatingTenths := 100

  /**
   * The constraint on one property. `isUrl` stands for the URL syntax check,
   * which is not part of this model; every optional property may be left out.
   */
  predicate FieldOk(d: CreateMovieDto, f: Field, isUrl: string -> bool) {
    match f
    case Title => 0 < |d.title| <= MaxTitleLength
    case Description => true
    case ReleaseYear => FirstReleaseYear <= d.releaseYear <= LastReleaseYear
    case Duration => d.duration.Some? ==> d.duration.value > 0
    case Rating => d.ratingTenths.Some? ==> 0 <= d.ratingTenths.value <= MaxRatingTenths
    case PosterUrl => d.posterUrl.Some? ==> isUrl(d.posterUrl.value)
    case Synopsis => true
    case GenreId => d.genreId > 0
    case DirectorId => d.directorId > 0
  }

  /** A body the validation pipe lets through to the controller: every property meets its constraint. */
  predicate Valid(d: CreateMovieDto, isUrl: string -> bool) {
    forall f: Field :: FieldOk(d, f, isUrl)
  }

  /** The same constraints written out property by property. */
  lemma ValidSpelledOut(d: CreateMovieDto, isUrl: string -> bool)
    ensures Valid(d, isUrl) <==>
      && 0 < |d.title| <= MaxTitleLength
      && FirstReleaseYear <= d.releaseYear <= LastReleaseYear
      && (d.duration.Some? ==> d.duration.value > 0)
      && (d.ratingTenths.Some? ==> 0 <= d.ratingTenths.value <= MaxRatingTenths)
      && (d.posterUrl.Some? ==> isUrl(d.posterUrl.value))
      && d.genreId > 0
      && d.directorId > 0
  {
    if Valid(d, isUrl) {
      assert FieldOk(d, Title, isUrl) && FieldOk(d, ReleaseYear, isUrl) && FieldOk(d, Duration, isUrl);
      assert FieldOk(d, Rating, isUrl) && FieldOk(d, PosterUrl, isUrl);
      assert FieldOk(d, GenreId, isUrl) && FieldOk(d, DirectorId, isUrl);
    } else {
      var f :| !FieldOk(d, f, isUrl);
      match f
      case Title =>
      case Description =>
      case ReleaseYear =>
      case Duration =>
      case Rating =>
      case PosterUrl =>
      case Synopsis =>
      case GenreId =>
      case DirectorId =>
    }
  }

  /** The properties among `fields` whose constraint fails, in order (the pipe reports them all). */
  function Violations(d: CreateMovieDto, isUrl: string -> bool, fields: seq<Field>): seq<Field> {
    if fields == [] then []
    else (if FieldOk(d, fields[0], isUrl) then [] else [fields[0]]) + Violations(d, isUrl, fields[1..])
  }

  lemma {:induction false} ViolationsExact(d: CreateMovieDto, isUrl: string -> bool, fields: seq<Field>)
    ensures forall f :: f in Violations(d, isUrl, fields) <==> f in fields && !FieldOk(d, f, isUrl)
  {
    if fields != [] {
      ViolationsExact(d, isUrl, fields[1..]);
      assert forall f :: f in fields <==> f == fields[0] || f in fields[1..];
    }
  }

  lemma EveryFieldListed()
    ensures forall f: Field :: f in Fields
  {
    forall f: Field ensures f in Fields {
      match f
      case Title => assert Fields[0] == f;
      case Description => assert Fields[1] == f;
      case ReleaseYear => assert Fields[2] == f;
      case Duration => assert Fields[3] == f;
      case Rating => assert Fields[4] == f;
      case PosterUrl => assert Fields[5] == f;
      case Synopsis => assert Fields[6] == f;
      case GenreId => assert Fields[7] == f;
      case DirectorId => assert Fields[8] == f;
    }
  }

  /** The pipe rejects the body iff some property fails, and then names exactly the failing ones. */
  function Validate(d: CreateMovieDto, isUrl: string -> bool): (r: Result<CreateMovieDto, seq<Field>>)
    ensures r.Ok? <==> Valid(d, isUrl)
    ensures r.Ok? ==> r.value == d
    ensures r.Err? ==> r.error != [] && forall f :: f in r.error <==> !FieldOk(d, f, isUrl)
  {
    var failed := Violations(d, isUrl, Fields);
    ViolationsExact(d, isUrl, Fields);
    EveryFieldListed();
    if failed == [] then Ok(d)
    else
      assert failed[0] in failed;
      Err(failed)
  }

  /** The example body the API documents is accepted. */
  lemma DocumentedExampleIsValid(isUrl: string -> bool)
    requires isUrl("https://example.com/inception-poster.jpg")
    ensures Validate(CreateMovieDto("Inception", Some("A thief who steals corporate secrets through dream-sharing technology."),
                                    2010, Some(148), Some(88), Some("https://example.com/inception-poster.jpg"),
                                    None, 1, 1), isUrl).Ok?
  {
  }

  /** The year bounds are inclusive, and so are the rating bounds. */
  lemma BoundaryCases(isUrl: string -> bool)
    ensures Valid(CreateMovieDto("A", None, 1888, None, Some(0), None, None, 1, 1), isUrl)
    ensures Valid(CreateMovieDto("A", None, 2030, None, Some(100), None, None, 1, 1), isUrl)
    ensures !Valid(CreateMovieDto("A", None, 1887, None, None, None, None, 1, 1), isUrl)
    ensures !Valid(CreateMovieDto("A", None, 2031, None, None, None, None, 1, 1), isUrl)
  {
    ValidSpelledOut(CreateMovieDto("A", None, 1888, None, Some(0), None, None, 1, 1), isUrl);
    ValidSpelledOut(CreateMovieDto("A", None, 2030, None, Some(100), None, None, 1, 1), isUrl);
    assert !FieldOk(CreateMovieDto("A", None, 1887, None, None, None, None, 1, 1), ReleaseYear, isUrl);
    assert !FieldOk(CreateMovieDto("A", None, 2031, None, None, None, None, 1, 1), ReleaseYear, isUrl);
  }

  /** Every failing property is reported, not only the first. */
  lemma AllFailuresReported(isUrl: string -> bool)
    ensures Validate(CreateMovieDto("A", None, 2000, Some(0), None, None, None, 0, 1), isUrl) == Err([Duration, GenreId])
  {
    var d := CreateMovieDto("A", None, 2000, Some(0), None, None, None, 0, 1);
    LaterFailures(isUrl);
    assert Fields[1..] == [Description, ReleaseYear, Duration] + Fields[4..];
    assert Violations(d, isUrl, Fields[3..]) == [Duration, GenreId];
    assert Violations(d, isUrl, Fields[2..]) == [Duration, GenreId];
    assert Violations(d, isUrl, Fields[1..]) == [Duration, GenreId];
  }

  lemma LaterFailures(isUrl: string -> bool)
    ensures Violations(CreateMovieDto("A", None, 2000, Some(0), None, None, None, 0, 1), isUrl, Fields[4..]) == [GenreId]
  {
    var d := CreateMovieDto("A", None, 2000, Some(0), None, None, None, 0, 1);
    assert Fields[4..] == [Rating, PosterUrl, Synopsis, GenreId, DirectorId];
    assert Violations(d, isUrl, [GenreId, DirectorId]) == [GenreId];
    assert Violations(d, isUrl, [Synopsis, GenreId, DirectorId]) == [GenreId];
    assert Violations(d, isUrl, [PosterUrl, Synopsis, GenreId, DirectorId]) == [GenreId];
  }
}
