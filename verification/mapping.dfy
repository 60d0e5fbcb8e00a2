/** The infrastructure mapping profile: provider payloads become application models by
    copying every field by name, except that `MovieId` is the raw `Id` with its first two
    characters removed (`Id.Remove(0, 2)`). `Remove` throws for an id shorter than two
    characters; the model answers `None` there. */
module InfrastructureMapping {

  import opened Wrappers
  import opened Movies

  /** The length of the provider prefix (`cw`, `fw`, ...). */
  const PrefixLength: nat := 2

  /** `id.Remove(0, 2)`: which two characters are present is never checked. */
  function StripPrefix(id: string): (r: Option<string>)
    ensures r.Some? <==> |id| >= PrefixLength
    ensures r.Some? ==> |r.value| == |id| - PrefixLength
    ensures r.Some? ==> id[..PrefixLength] + r.value == id
  {
    if |id| < PrefixLength then None else Some(id[PrefixLength..])
  }

  /** Stripping undoes prefixing with any two characters, `cw` and `fw` alike. */
  lemma StripUndoesAnyPrefix(prefix: string, x: string)
    requires |prefix| == PrefixLength
    ensures StripPrefix(prefix + x) == Some(x)
  {
    assert (prefix + x)[PrefixLength..] == x;
  }

  /** Two raw ids with the same tail map to the same `MovieId`, whatever their prefixes. */
  lemma StripIgnoresPrefix(raw1: string, raw2: string)
    requires |raw1| >= PrefixLength && |raw2| >= PrefixLength
    ensures StripPrefix(raw1) == StripPrefix(raw2) <==> raw1[PrefixLength..] == raw2[PrefixLength..]
  {
  }

  /** The listing-entry map. */
  function MapMovie(dto: MovieBaseServiceDto): (r: Option<Movie>)
    ensures r.Some? <==> |dto.id| >= PrefixLength
    ensures r.Some? ==> Some(r.value.movieId) == StripPrefix(dto.id)
    ensures r.Some? ==> r.value.title == dto.title && r.value.kind == dto.kind
                        && r.value.year == dto.year && r.value.poster == dto.poster
  {
    match StripPrefix(dto.id)
    case None => None
    case Some(movieId) => Some(Movie(movieId, dto.title, dto.kind, dto.year, dto.poster))
  }

  /** The detail-record map. */
  function MapDetail(dto: MovieDetailServiceDto): (r: Option<MovieDetail>)
    ensures r.Some? <==> |dto.id| >= PrefixLength
    ensures r.Some? ==> Some(r.value.movieId) == StripPrefix(dto.id)
    ensures r.Some? ==> r.value.title == dto.title && r.value.kind == dto.kind
                        && r.value.year == dto.year && r.value.poster == dto.poster
                        && r.value.price == dto.price && r.value.info == dto.info
  {
    match StripPrefix(dto.id)
    case None => None
    case Some(movieId) =>
      Some(MovieDetail(movieId, dto.title, dto.kind, dto.year, dto.poster, dto.price, dto.info))
  }

  /** The listing fields of a detail record. */
  function ListingOf(dto: MovieDetailServiceDto): MovieBaseServiceDto {
    MovieBaseServiceDto(dto.id, dto.title, dto.kind, dto.year, dto.poster)
  }

  /** Listing entries and detail records share one identifier rule. */
  lemma SameRuleForListAndDetail(dto: MovieDetailServiceDto)
    ensures MapDetail(dto).Some? <==> MapMovie(ListingOf(dto)).Some?
    ensures MapDetail(dto).Some? ==> MapDetail(dto).value.movieId == MapMovie(ListingOf(dto)).value.movieId
  {
  }

  /** A whole listing, mapped element by element in order; it throws as soon as one
      element's mapping throws. */
  function MapMovies(dtos: seq<MovieBaseServiceDto>): (r: Option<seq<Movie>>)
    ensures r.Some? <==> forall i :: 0 <= i < |dtos| ==> |dtos[i].id| >= PrefixLength
    ensures r.Some? ==> |r.value| == |dtos|
    ensures r.Some? ==> forall i :: 0 <= i < |dtos| ==> MapMovie(dtos[i]) == Some(r.value[i])
  {
    if |dtos| == 0 then Some([])
    else
      match (MapMovie(dtos[0]), MapMovies(dtos[1..]))
      case (Some(m), Some(ms)) => Some([m] + ms)
      case _ => None
  }
}
