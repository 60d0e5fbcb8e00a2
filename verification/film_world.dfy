/** The FilmWorld provider client, as a classifier of one HTTP response: given the status
    code and the decoded payload, it yields the `Result` the client returns. The transport,
    the JSON decoding and the logging are outside the model. An answer of `None` means that
    mapping the payload threw (an identifier shorter than its two-character prefix). */
module FilmWorld {

  import opened Wrappers
  import opened Core
  import opened Movies
  import opened InfrastructureMapping

  /** `HttpResponseMessage.IsSuccessStatusCode`: the 2xx class of section 15.3 of RFC 9110. */
  predicate IsSuccessStatusCode(status: int)
    ensures IsSuccessStatusCode(status) <==> status / 100 == 2
    ensures IsSuccessStatusCode(status) ==> status != StatusNotFound
  {
    200 <= status <= 299
  }

  /** 404 Not Found, section 15.5.5 of RFC 9110. */
  const StatusNotFound: int := 404

  /** The relative path of the listing request. */
  const ListPath: string := "movies"

  /** The detail path template: the client re-adds its own prefix to the stripped id. */
  const DetailPathPrefix: string := "movie/fw"

  /** The relative path of the detail request for `id`. */
  function DetailPath(id: string): (path: string)
    ensures |path| == |DetailPathPrefix| + |id|
    ensures path[..|DetailPathPrefix|] == DetailPathPrefix
    ensures path[|DetailPathPrefix|..] == id
  {
    DetailPathPrefix + id
  }

  /** `GetAll`: a 2xx answer is the mapped listing, anything else is `Unexpected`. */
  function GetAll(status: int, payload: seq<MovieBaseServiceDto>): (r: Option<Result<seq<Movie>>>)
    ensures !IsSuccessStatusCode(status) ==> r == Some(Failure(Unexpected))
    ensures IsSuccessStatusCode(status) ==> (r.Some? <==> MapMovies(payload).Some?)
    ensures IsSuccessStatusCode(status) && r.Some? ==> r.value == Success(MapMovies(payload).value)
  {
    if IsSuccessStatusCode(status) then
      match MapMovies(payload)
      case None => Option.None
      case Some(movies) => Some(Success(movies))
    else
      Some(Failure(Unexpected))
  }

  /** The error kind chosen for a non-2xx detail answer. */
  function DetailErrorType(status: int): (e: ErrorType)
    ensures e == NotFound <==> status == StatusNotFound
    ensures e == NotFound || e == Unexpected
  {
    if status == StatusNotFound then NotFound else Unexpected
  }

  /** `GetById`: a 2xx answer is the mapped detail, 404 is `NotFound`, anything else is
      `Unexpected`. The request itself goes to `DetailPath(id)`. */
  function GetById(status: int, payload: MovieDetailServiceDto): (r: Option<Result<MovieDetail>>)
    ensures !IsSuccessStatusCode(status) ==> r == Some(Failure(DetailErrorType(status)))
    ensures IsSuccessStatusCode(status) ==> (r.Some? <==> MapDetail(payload).Some?)
    ensures IsSuccessStatusCode(status) && r.Some? ==> r.value == Success(MapDetail(payload).value)
  {
    if IsSuccessStatusCode(status) then
      match MapDetail(payload)
      case None => Option.None
      case Some(detail) => Some(Success(detail))
    else
      Some(Failure(DetailErrorType(status)))
  }

  /** The three-way classification of a detail answer, each case an if-and-only-if. */
  lemma GetByIdClassification(status: int, payload: MovieDetailServiceDto)
    requires MapDetail(payload).Some?
    ensures GetById(status, payload).Some?
    ensures GetById(status, payload).value.IsSuccess() <==> IsSuccessStatusCode(status)
    ensures GetById(status, payload).value == Failure(NotFound) <==> status == StatusNotFound
    ensures GetById(status, payload).value == Failure(Unexpected)
            <==> !IsSuccessStatusCode(status) && status != StatusNotFound
  {
  }

  /** A listing answer fails exactly when its status is not 2xx, and then always with
      `Unexpected`, whatever the code. */
  lemma GetAllClassification(status: int, payload: seq<MovieBaseServiceDto>)
    requires MapMovies(payload).Some?
    ensures GetAll(status, payload).Some?
    ensures GetAll(status, payload).value.IsSuccess() <==> IsSuccessStatusCode(status)
    ensures GetAll(status, payload).value == Failure(Unexpected) <==> !IsSuccessStatusCode(status)
  {
  }

  /** The client never reports `Validation` or `None`. */
  lemma NeverValidationOrNone(status: int, list: seq<MovieBaseServiceDto>, detail: MovieDetailServiceDto)
    ensures GetAll(status, list).Some? && !GetAll(status, list).value.IsSuccess()
            ==> GetAll(status, list).value.Error() == Unexpected
    ensures GetById(status, detail).Some? && !GetById(status, detail).value.IsSuccess()
            ==> GetById(status, detail).value.Error() in {NotFound, Unexpected}
  {
  }

  /** A FilmWorld raw id `fw` + x is stripped to x, and the detail request for x goes to
      `movie/` followed by the raw id again. */
  lemma FilmWorldIdRoundTrip(x: string)
    ensures StripPrefix("fw" + x) == Some(x)
    ensures DetailPath(x) == "movie/" + ("fw" + x)
  {
    StripUndoesAnyPrefix("fw", x);
  }

  /** For any raw id, requesting the detail of its stripped form reaches `movie/` + raw id
      exactly when the raw id carried FilmWorld's own prefix. */
  lemma DetailPathRestoresRawId(raw: string)
    requires |raw| >= PrefixLength
    ensures DetailPath(StripPrefix(raw).value) == "movie/" + raw <==> raw[..PrefixLength] == "fw"
  {
    var path := DetailPath(StripPrefix(raw).value);
    if raw[..PrefixLength] == "fw" {
      assert raw == "fw" + raw[PrefixLength..];
      FilmWorldIdRoundTrip(raw[PrefixLength..]);
    }
    if path == "movie/" + raw {
      // the two characters after "movie/" are the raw prefix on one side, "fw" on the other
      assert ("movie/" + raw)[6..8] == raw[..PrefixLength];
      assert path[6..8] == DetailPathPrefix[6..8];
    }
  }
}
