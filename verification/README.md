# Movie aggregation gateway — a Dafny model

This project models the decision logic of the movie-app service and one piece of its UI. The service asks two movie providers, "cinema" and "film", for a listing or for one movie's details. It merges the listings with deduplication by identifier, picks the cheapest detail record, and turns failures into HTTP answers. The model is written in Dafny 4.11 as immutable datatypes and pure functions.

What is modelled:

- **`Result<T>` and `ErrorType`** (module `Core`). The result type is a two-constructor datatype. `Error` reads `None` on a success, because the success constructor never sets it.
- **Exceptions** (module `Exceptions`). An exception is its runtime class name, the set of its base-class names, and its message. `Outcome<T>` is either a returned value or a raised exception.
- **Identifier normalisation** (module `InfrastructureMapping`). `Id.Remove(0, 2)` is modelled for listing entries and for detail records. An id shorter than two characters makes `Remove` throw, and the model answers `None` there.
- **The FilmWorld client** (module `FilmWorld`). It is a pure function of the response status and the decoded payload. The function gives the `Result` the client returns and the detail path `movie/fw{id}` it requests.
- **`DistinctBy(m => m.MovieId)`** (module `Distinct`). It has a recursive definition, and a one-pass algorithm that uses a set of seen keys. Both are proved equal.
- **The aggregator** (module `MovieAggregator`). `GetAll` and `GetById` are pure functions of the provider results, taken in the order cinema then film. The LINQ queries are stated over a sequence of results, and the two-provider operations instantiate it.
- **The global exception middleware** (module `ExceptionMiddleware`). The first-match `switch` runs over the exception's type, and the non-leaking problem-details body is written from it.
- **How the aggregator's failures are answered over HTTP** (module `Pipeline`).
- **The UI's TTL cache** (module `CacheService`). It is a map from keys to `(data, timestamp)`, with the clock given as an explicit `now` parameter.

Two behaviours of the code are easy to misread:

- A null or empty id raises `ArgumentNullException`. That is neither a `ValidationException` nor a `NotFoundException`, so the middleware answers 500, not 400. See `Pipeline.GetByIdFailureStatus` and `ExceptionMiddleware.AggregatorExceptionStatuses`.
- When only one provider answers a listing, the result is that listing with repeated identifiers dropped. It is not the listing unchanged. `DistinctBy` runs over the successful lists whatever their number, so the two agree only when the listing's identifiers are already distinct. See `MovieAggregator.GetAllSingleProvider`.

## Model

| member | source | states |
|---|---|---|
| Core.SuccessAccessors | movie-app-service/src/MovieApp.Core/Result.cs:8-13 | `Success(v)` has `IsSuccess`, `Value == v` and `Error == None`, the enum's default, since the success constructor never sets it |
| Core.FailureAccessors | movie-app-service/src/MovieApp.Core/Result.cs:9-11 | `Failure(e)` has `IsSuccess == false` and `Error == e` |
| Core.ResultIsSuccessXorFailure | movie-app-service/src/MovieApp.Core/Result.cs:8-11 | every result is a success (some `Success(v)`) or else a failure, and a failure equals `Failure(Error)` |
| Core.FailureNoneIsStillAFailure | movie-app-service/src/MovieApp.Core/Result.cs:9-13 | `Failure(None)` is allowed; it is a failure whose `Error` equals a success's, so only `IsSuccess` separates them |
| InfrastructureMapping.StripPrefix | movie-app-service/src/MovieApp.Infrastructure/InfrastructureMappingProfile.cs:14 | `Remove(0, 2)` succeeds iff the id has at least 2 characters; the result is 2 shorter and the id is its first two characters followed by the result |
| InfrastructureMapping.StripUndoesAnyPrefix | movie-app-service/src/MovieApp.Infrastructure/InfrastructureMappingProfile.cs:14 | stripping `p + x` gives `x` for any two-character `p`, so no particular prefix is checked |
| InfrastructureMapping.StripIgnoresPrefix | movie-app-service/src/MovieApp.Infrastructure/InfrastructureMappingProfile.cs:14 | two raw ids map to the same `MovieId` iff they agree after their first two characters |
| InfrastructureMapping.MapMovie | movie-app-service/src/MovieApp.Infrastructure/InfrastructureMappingProfile.cs:13-14 | a listing entry maps iff its id is long enough; `MovieId` is the stripped id and the other fields are copied by name |
| InfrastructureMapping.MapDetail | movie-app-service/src/MovieApp.Infrastructure/InfrastructureMappingProfile.cs:16-17 | a detail record maps iff its id is long enough; `MovieId` is the stripped id; price and the other fields are copied |
| InfrastructureMapping.SameRuleForListAndDetail | movie-app-service/src/MovieApp.Infrastructure/InfrastructureMappingProfile.cs:13-17 | a detail record and its listing fields succeed or fail together and get the same `MovieId` |
| InfrastructureMapping.MapMovies | movie-app-service/src/MovieApp.Infrastructure/HttpClientServices/FilmWorldHttpClientService.cs:20 | a whole listing maps iff every id is long enough; the result has the same length and is the element-wise mapping in order |
| FilmWorld.DetailPath | movie-app-service/src/MovieApp.Infrastructure/HttpClientServices/FilmWorldHttpClientService.cs:29 | the detail request path is `movie/fw` followed by exactly the given id |
| FilmWorld.GetAll | movie-app-service/src/MovieApp.Infrastructure/HttpClientServices/FilmWorldHttpClientService.cs:14-25 | a non-2xx listing answer is `Failure(Unexpected)` whatever the code; a 2xx answer is `Success` of the mapped listing, and it throws exactly when the mapping does |
| FilmWorld.DetailErrorType | movie-app-service/src/MovieApp.Infrastructure/HttpClientServices/FilmWorldHttpClientService.cs:36-40 | the error kind is `NotFound` iff the status is 404, and `Unexpected` otherwise |
| FilmWorld.GetById | movie-app-service/src/MovieApp.Infrastructure/HttpClientServices/FilmWorldHttpClientService.cs:27-43 | a non-2xx detail answer fails with the switch's error kind; a 2xx answer is `Success` of the mapped detail |
| FilmWorld.GetByIdClassification | movie-app-service/src/MovieApp.Infrastructure/HttpClientServices/FilmWorldHttpClientService.cs:30-42 | for a mappable payload: success iff 2xx, `Failure(NotFound)` iff 404, `Failure(Unexpected)` iff neither |
| FilmWorld.GetAllClassification | movie-app-service/src/MovieApp.Infrastructure/HttpClientServices/FilmWorldHttpClientService.cs:17-24 | for a mappable payload: success iff 2xx, and `Failure(Unexpected)` iff not 2xx |
| FilmWorld.NeverValidationOrNone | movie-app-service/src/MovieApp.Infrastructure/HttpClientServices/FilmWorldHttpClientService.cs:24-42 | the client's failures are only `Unexpected` (listing) or `NotFound`/`Unexpected` (detail), never `Validation` or `None` |
| FilmWorld.FilmWorldIdRoundTrip | movie-app-service/src/MovieApp.Infrastructure/HttpClientServices/FilmWorldHttpClientService.cs:29 | the raw id `fw + x` strips to `x`, and the detail request for `x` goes to `movie/` + the raw id |
| FilmWorld.DetailPathRestoresRawId | movie-app-service/src/MovieApp.Infrastructure/InfrastructureMappingProfile.cs:14 | for any raw id, the detail path of its stripped form is `movie/` + the raw id iff the raw id starts with `fw` |
| Distinct.DistinctFrom | movie-app-service/src/MovieApp.Application/Services/MovieAggregatorService.cs:26 | the kept entries have pairwise distinct ids; their ids are exactly the input's ids minus those already seen |
| Distinct.DistinctById | movie-app-service/src/MovieApp.Application/Services/MovieAggregatorService.cs:26 | `DistinctBy(MovieId)` keeps exactly the input's set of ids, each id once |
| Distinct.DistinctFromAppend | movie-app-service/src/MovieApp.Application/Services/MovieAggregatorService.cs:25-26 | deduplicating `a + b` is deduplicating `a`, then `b` against everything `a` contained |
| Distinct.DistinctByIdSnoc | movie-app-service/src/MovieApp.Application/Services/MovieAggregatorService.cs:26 | one more entry is kept iff its id is new to the prefix |
| Distinct.DistinctByStreaming | movie-app-service/src/MovieApp.Application/Services/MovieAggregatorService.cs:26 | the one-pass seen-set algorithm returns exactly the recursively defined deduplication |
| Distinct.DistinctFromIsSubsequence | movie-app-service/src/MovieApp.Application/Services/MovieAggregatorService.cs:26 | deduplication preserves the relative order of the kept entries |
| Distinct.DistinctFromKeepsFirstOccurrences | movie-app-service/src/MovieApp.Application/Services/MovieAggregatorService.cs:26 | an entry is kept iff it is the first occurrence of an id not already seen |
| Distinct.DistinctFromOfDistinct | movie-app-service/src/MovieApp.Application/Services/MovieAggregatorService.cs:26 | a listing whose ids are already distinct, none of them seen, is returned unchanged |
| Distinct.DistinctCount | movie-app-service/src/MovieApp.Application/Services/MovieAggregatorService.cs:26 | with distinct ids, the number of entries equals the number of ids |
| MovieAggregator.Successes | movie-app-service/src/MovieApp.Application/Services/MovieAggregatorService.cs:25-26 | `Where(IsSuccess)` is empty iff all results failed; every success's value is kept and every kept value comes from a success |
| MovieAggregator.AllFailed | movie-app-service/src/MovieApp.Application/Services/MovieAggregatorService.cs:22 | `All(r => !r.IsSuccess)` holds iff every result is a failure `Failure(Error)`, and holds of no results at all |
| MovieAggregator.AllNotFound | movie-app-service/src/MovieApp.Application/Services/MovieAggregatorService.cs:44 | `All(r => !r.IsSuccess && r.Error == NotFound)` holds iff every result is exactly `Failure(NotFound)`, and then all failed |
| MovieAggregator.Concat | movie-app-service/src/MovieApp.Application/Services/MovieAggregatorService.cs:25-26 | `SelectMany` holds every listing's ids and no id that no listing carries |
| MovieAggregator.GetAll | movie-app-service/src/MovieApp.Application/Services/MovieAggregatorService.cs:11-28 | raises providers-down iff both providers failed; otherwise the answered ids are distinct and are the union of the successful listings' ids |
| MovieAggregator.SelectDetail | movie-app-service/src/MovieApp.Application/Services/MovieAggregatorService.cs:41-52 | not-found iff both results are `Failure(NotFound)`; an answer iff one succeeded, and the answer is one of the successful details |
| Exceptions.ProvidersDown | movie-app-service/src/MovieApp.Application/Services/MovieAggregatorService.cs:47-48 | an `ApplicationException` with message "All the providers are down", neither a not-found nor a validation exception |
| Exceptions.MovieNotFound | movie-app-service/src/MovieApp.Application/Services/MovieAggregatorService.cs:44-45 | a `NotFoundException` whose message is the fixed prefix followed by exactly the id |
| Exceptions.ArgumentNull | movie-app-service/src/MovieApp.Application/Services/MovieAggregatorService.cs:32-33 | an `ArgumentNullException`, hence an `ArgumentException`, and none of `NotFoundException`, `ValidationException`, `ApplicationException` |
| FilmWorld.IsSuccessStatusCode | movie-app-service/src/MovieApp.Infrastructure/HttpClientServices/FilmWorldHttpClientService.cs:17 | a status is a success iff it is in the 2xx class (its hundreds digit is 2), so 404 never is |
| CacheService.IsCacheValid | movie-app-ui/src/services/CacheService.ts:15-17 | an entry stored at `timestamp` is valid iff `now < timestamp + ttl`; with a non-positive TTL nothing stored in the past is valid |
| CacheService.EffectiveTtl | movie-app-ui/src/services/CacheService.ts:12-23 | an omitted TTL is 300000 ms; a given one is used as is |
| MovieAggregator.GetAllOf | movie-app-service/src/MovieApp.Application/Services/MovieAggregatorService.cs:19-27 | raises iff all providers failed, and then raises providers-down; otherwise the ids are distinct and equal the ids of the concatenated successes |
| MovieAggregator.GetAllRaisesIffBothFail | movie-app-service/src/MovieApp.Application/Services/MovieAggregatorService.cs:22-23 | `GetAll` raises iff both providers failed, and then raises "All the providers are down" instead of returning any list |
| MovieAggregator.GetAllMerges | movie-app-service/src/MovieApp.Application/Services/MovieAggregatorService.cs:13-26 | with a success, the answer is the deduplicated cinema list, then the film entries with unseen ids; ids are distinct, their set is the union, and the count equals the union's size |
| MovieAggregator.GetAllKeepsFirstSeen | movie-app-service/src/MovieApp.Application/Services/MovieAggregatorService.cs:25-26 | the answer is in cinema-then-film order, and an entry is returned iff it is the first entry carrying its id (the exact list is stated by `GetAllMerges`) |
| MovieAggregator.GetAllSingleProvider | movie-app-service/src/MovieApp.Tests/Application/MovieAggregatorServiceTests.cs:69-95 | with one provider down, the answer is the other's listing with repeats dropped, and the listing itself when its ids are distinct |
| MovieAggregator.GetAllOverlapExample | movie-app-service/src/MovieApp.Tests/Application/MovieAggregatorServiceTests.cs:31-65 | listings {1,2} and {1,3} merge into three movies with ids {1,2,3} |
| MovieAggregator.CheapestIndex | movie-app-service/src/MovieApp.Application/Services/MovieAggregatorService.cs:52 | `OrderBy(Price).First()` picks an entry whose price is at most every price, and one strictly cheaper than every earlier entry, as a stable sort does |
| MovieAggregator.SelectDetailOf | movie-app-service/src/MovieApp.Application/Services/MovieAggregatorService.cs:41-52 | not-found iff all results are `NotFound` failures; providers-down iff all failed otherwise; else a successful detail no dearer than any success |
| MovieAggregator.GetById | movie-app-service/src/MovieApp.Application/Services/MovieAggregatorService.cs:30-33 | the argument error is raised iff the id is null or empty |
| MovieAggregator.GetByIdRejectsBeforeConsulting | movie-app-service/src/MovieApp.Application/Services/MovieAggregatorService.cs:32-39 | for a null or empty id the answer does not depend on the providers: neither is consulted |
| MovieAggregator.SelectDetailNotFound | movie-app-service/src/MovieApp.Application/Services/MovieAggregatorService.cs:44-45 | not-found iff both providers returned `Failure(NotFound)` |
| MovieAggregator.SelectDetailProvidersDown | movie-app-service/src/MovieApp.Tests/Application/MovieAggregatorServiceTests.cs:187-200 | providers-down iff both failed and not both with `NotFound`; `NotFound` beside `Unexpected` is providers-down |
| MovieAggregator.SelectDetailCheapest | movie-app-service/src/MovieApp.Application/Services/MovieAggregatorService.cs:50-52 | a lone success is returned whatever its price; with two, the cheaper is returned and cinema wins a tie |
| MovieAggregator.SelectDetailPriceExample | movie-app-service/src/MovieApp.Tests/Application/MovieAggregatorServiceTests.cs:112-150 | cinema at 15.50 and film at 12.99 return the film detail |
| ExceptionMiddleware.FirstMatch | movie-app-service/src/MovieApp.Api/GlobalExceptionHandlingMiddleware.cs:25-31 | the switch stops at the first arm whose type pattern matches; no earlier arm matches |
| ExceptionMiddleware.StatusFor | movie-app-service/src/MovieApp.Api/GlobalExceptionHandlingMiddleware.cs:25-31 | 404 iff the exception is a `NotFoundException`; 400 iff it is a `ValidationException` and not that; 500 for everything else |
| ExceptionMiddleware.Problem | movie-app-service/src/MovieApp.Api/GlobalExceptionHandlingMiddleware.cs:32-37 | the body's type is the exception's class name, its title is the constant, and its detail is the fixed prefix followed by exactly the trace id |
| ExceptionMiddleware.Invoke | movie-app-service/src/MovieApp.Api/GlobalExceptionHandlingMiddleware.cs:16-39 | a non-throwing pipeline's response is passed through untouched; a thrown exception yields its status and problem body |
| ExceptionMiddleware.ResponseIgnoresMessage | movie-app-service/src/MovieApp.Api/GlobalExceptionHandlingMiddleware.cs:32-37 | two exceptions of the same type with different messages get identical responses: the message never leaks |
| ExceptionMiddleware.NotFoundWinsWhateverItsBases | movie-app-service/src/MovieApp.Api/GlobalExceptionHandlingMiddleware.cs:27-29 | a `NotFoundException` gets 404 whatever it derives from, since its arm comes first |
| ExceptionMiddleware.AggregatorExceptionStatuses | movie-app-service/src/MovieApp.Api/GlobalExceptionHandlingMiddleware.cs:27-30 | not-found gets 404; providers-down gets 500; the empty-id `ArgumentNullException` gets 500 |
| Pipeline.GetByIdFailureStatus | movie-app-service/src/MovieApp.Application/Services/MovieAggregatorService.cs:32-48 | a failing lookup is answered 404 iff the id is usable and both providers said `NotFound`, and 500 otherwise, never 400 |
| Pipeline.GetAllFailureStatus | movie-app-service/src/MovieApp.Application/Services/MovieAggregatorService.cs:22-23 | a failing listing is answered 500 |
| CacheService.Get | movie-app-ui/src/services/CacheService.ts:23-36 | absent key: null and no change; valid entry: its data and no change; expired entry: null, and only that key is deleted |
| CacheService.Set | movie-app-ui/src/services/CacheService.ts:38-43 | the key maps to `(data, now)`, overwriting; every other key and entry is unchanged |
| CacheService.GetAgreesWithLive | movie-app-ui/src/services/CacheService.ts:15-36 | `get` answers the data of the key's valid entry, if any; eviction leaves the set of valid entries unchanged |
| CacheService.SetUpdatesLive | movie-app-ui/src/services/CacheService.ts:38-43 | with a positive TTL, `set` makes the key valid with the new data and changes no other valid entry |
| CacheService.SetThenGet | movie-app-ui/src/services/CacheService.ts:15-17 | after `set` at `t`, `get` at `t'` answers the data iff `t' - t < ttl`; an entry exactly `ttl` old has expired |
| CacheService.SetThenGetDefault | movie-app-ui/src/services/CacheService.ts:12-28 | with the default TTL of 300000 ms, `get` right after `set` answers the stored data |
| CacheService.GetIsIdempotent | movie-app-ui/src/services/CacheService.ts:23-36 | `get` never adds keys; repeating it at the same instant gives the same answer and the same cache |

## Left out

- InfrastructureMapping.StripPrefix: lengths are counted in Unicode characters, not in UTF-16 code units as C# `Length` and `Remove(0, 2)` count them. The model therefore matches C# only for ids without characters outside the Basic Multilingual Plane; provider ids are ASCII. The same holds for `MapMovie`, `MapDetail`, `MapMovies` and the FilmWorld functions built on it.
- The concurrent fan-out (`Task.WhenAll`) is not modelled. It is a barrier, so the aggregator takes the two completed results as an ordered pair (cinema, film).
- An exception thrown inside a provider client is not modelled in the aggregator, for example when mapping a short id throws. Such an exception propagates through `Task.WhenAll` and reaches the middleware as an unclassified exception (500). The aggregator functions take `Result` values only.
- The retry policy (`Policies.cs`) is left out. Its semantics live in the Polly library, and it uses floating-point `Math.Pow` and wall-clock delays.
- HTTP transport, JSON decoding, a null payload, and null strings are left out. The FilmWorld functions take the status code and the already-decoded payload.
- Logging is left out, including the FilmWorld log lines that name CinemaWorld. It has no effect on behaviour.
- The exception thrown when mapping a short id is not named. AutoMapper may wrap the `ArgumentOutOfRangeException` in its own exception type. The model only answers `None` for "the mapping throws".
- The CinemaWorld client is not part of this model. The cinema provider is an arbitrary source of `Result` values (or of a function from id to `Result`).
- The custom exception classes of MovieApp.Core.Exceptions are not part of this model. `NotFoundException` is given `Exception` as its only base. The 404 answer is proved for any set of bases (`ExceptionMiddleware.NotFoundWinsWhateverItsBases`).
- The following are thin pass-throughs and are left out:
  - the application DTO mapping (`ApplicationMappingProfile.cs`, an order-preserving rename of `MovieId` to `Id`);
  - `MoviesController.cs`, whose null check is unreachable because the aggregator throws instead;
  - dependency-injection wiring, CORS and Swagger.
- The detail record's fields beyond the listing's (plot, director, actors, runtime, released, rating, language, country, awards) are assumed. The detail model and DTO classes are not part of this model.
- Reading `Value` of a failure is not modelled. In C# that gives `default(T)`; in the model, `Value` requires a success. The core never reads it on a failure.
- A middleware failure after the response has started is not modelled.
- The React components and `ApiService.ts` (fetch, timeout, cache-first wrapper) are left out.
- JavaScript numbers are modelled as unbounded integers of milliseconds. `Date.now()` is an integer far below 2^53, so the subtraction in `isCacheValid` is exact.
