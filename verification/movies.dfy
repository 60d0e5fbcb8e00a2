/** The movie records that flow through the service: the provider payloads as received
    (identifiers still prefixed) and the application models (identifiers stripped). */
module Movies {

  /** A listing entry of a provider payload. `Type` is renamed `kind`. */
  datatype MovieBaseServiceDto = MovieBaseServiceDto(
    id: string, title: string, kind: string, year: int, poster: string)

  /** The descriptive fields a detail record adds beyond the listing entry. */
  datatype DetailInfo = DetailInfo(
    plot: string, director: string, actors: string, runtime: string, released: string,
    rating: string, language: string, country: string, awards: string)

  /** A detail record of a provider payload; `price` is a C# `decimal`, exact base-10. */
  datatype MovieDetailServiceDto = MovieDetailServiceDto(
    id: string, title: string, kind: string, year: int, poster: string,
    price: real, info: DetailInfo)

  /** `MovieModel`: a listing entry keyed by the provider-independent `MovieId`. */
  datatype Movie = Movie(
    movieId: string, title: string, kind: string, year: int, poster: string)

  /** `MovieDetailModel`: a detail record keyed by `MovieId`, with the provider's price. */
  datatype MovieDetail = MovieDetail(
    movieId: string, title: string, kind: string, year: int, poster: string,
    price: real, info: DetailInfo)
}
