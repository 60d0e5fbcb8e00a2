/** The aggregator's failures as the API answers them once the exception middleware has
    classified them. */
module Pipeline {

  import opened Wrappers
  import opened Core
  import opened Exceptions
  import opened Movies
  import opened MovieAggregator
  import opened ExceptionMiddleware

  /** A detail lookup that throws is answered 404 exactly when the id is usable and both
      providers reported `NotFound`; every other failure, including a null or empty id, is
      answered 500. No outcome of the lookup is answered 400. */
  lemma GetByIdFailureStatus(id: Option<string>, cinema: string -> Result<MovieDetail>, film: string -> Result<MovieDetail>)
    ensures var o := GetById(id, cinema, film);
            o.Raised? ==> StatusFor(o.ex) == 404 || StatusFor(o.ex) == 500
    ensures var o := GetById(id, cinema, film);
            o.Raised? ==> (StatusFor(o.ex) == 404
                           <==> id.Some? && id.value != ""
                                && cinema(id.value) == Failure(NotFound) && film(id.value) == Failure(NotFound))
  {
    AggregatorExceptionStatuses(if id.Some? then id.value else "");
    if id.Some? && id.value != "" {
      var c, f := cinema(id.value), film(id.value);
      SelectDetailNotFound(id.value, c, f);
      SelectDetailProvidersDown(id.value, c, f);
      if !c.IsSuccess() && !f.IsSuccess() {
        AggregatorExceptionStatuses(id.value);
      } else {
        SelectDetailCheapest(id.value, c, f);
      }
    }
  }

  /** A listing that throws (both providers down) is answered 500. */
  lemma GetAllFailureStatus(cinema: Result<seq<Movie>>, film: Result<seq<Movie>>)
    ensures GetAll(cinema, film).Raised? ==> StatusFor(GetAll(cinema, film).ex) == 500
  {
    GetAllRaisesIffBothFail(cinema, film);
    AggregatorExceptionStatuses("");
  }
}
