/** The outcome type every provider call returns (MovieApp.Core). A result is built by
    exactly one of two private constructors, and all its properties are get-only, so a
    value of this immutable datatype is a faithful picture of it. */
module Core {

  /** Error kinds. `None` is the first member, hence the default value of an unset field. */
  datatype ErrorType = None | NotFound | Validation | Unexpected

  /** `Success(v)` sets `IsSuccess` and `Value`; `Failure(e)` sets only `Error`. Nothing
      forbids `Failure(ErrorType.None)`. */
  datatype Result<T> = Success(val: T) | Failure(err: ErrorType) {

    predicate IsSuccess() {
      Success?
    }

    function Value(): T
      requires Success?
    {
      val
    }

    /** The `Error` property: the success constructor never assigns it, so it keeps the
        enum's default. */
    function Error(): ErrorType {
      if Success? then ErrorType.None else err
    }
  }

  lemma SuccessAccessors<T>(v: T)
    ensures Success(v).IsSuccess()
    ensures Success(v).Value() == v
    ensures Success(v).Error() == ErrorType.None
  {
  }

  lemma FailureAccessors<T>(e: ErrorType)
    ensures !Result<T>.Failure(e).IsSuccess()
    ensures Result<T>.Failure(e).Error() == e
  {
  }

  /** Every result is a success or a failure, never both, and a failure is determined by
      its error alone. */
  lemma ResultIsSuccessXorFailure<T>(r: Result<T>)
    ensures r.IsSuccess() <==> exists v :: r == Success(v)
    ensures !r.IsSuccess() <==> r == Failure(r.Error())
  {
    if r.Success? {
      assert r == Success(r.val);
    }
  }

  /** `Failure(None)` is a legal failure whose `Error` coincides with a success's: only
      `IsSuccess` tells them apart. */
  lemma FailureNoneIsStillAFailure<T>(v: T)
    ensures !Result<T>.Failure(ErrorType.None).IsSuccess()
    ensures Result<T>.Failure(ErrorType.None).Error() == Success(v).Error()
  {
  }
}
