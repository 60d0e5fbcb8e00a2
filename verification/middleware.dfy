/** The global exception-handling middleware: it runs the rest of the request pipeline and,
    if that throws, answers with a status chosen by the exception's type and a problem
    description that names the type and the request's trace id but never the exception's
    message. Logging is outside the model. */
module ExceptionMiddleware {

  import opened Wrappers
  import opened Exceptions

  /** The problem-details body written on failure. */
  datatype ProblemDetails = ProblemDetails(typeName: string, title: string, detail: string)

  /** The parts of the HTTP response the middleware can set. */
  datatype Response = Response(statusCode: int, body: Option<ProblemDetails>)

  /** One arm of the `ex switch`: a type pattern and the status code it selects. */
  datatype Arm = Arm(className: string, statusCode: int)

  /** The arms in source order; the discard arm is `DefaultStatus`. */
  const Arms: seq<Arm> := [
    Arm("NotFoundException", 404),
    Arm("ValidationException", 400),
    Arm("ApplicationException", 500)
  ]
  const DefaultStatus: int := 500

  const ProblemTitle: string := "Something weng wrong. Please contact support"
  const ProblemDetailPrefix: string := "Unable to process request or request id :"

  /** The position of the first arm whose type pattern `ex` matches, `|arms|` if none does. */
  function FirstMatch(arms: seq<Arm>, ex: Exception): (k: nat)
    ensures k <= |arms|
    ensures k < |arms| ==> ex.IsA(arms[k].className)
    ensures forall j :: 0 <= j < k ==> !ex.IsA(arms[j].className)
  {
    if |arms| == 0 then 0
    else if ex.IsA(arms[0].className) then 0
    else 1 + FirstMatch(arms[1..], ex)
  }

  /** The status code the switch expression selects. */
  function StatusFor(ex: Exception): (code: int)
    ensures code == 404 <==> ex.IsA("NotFoundException")
    ensures code == 400 <==> !ex.IsA("NotFoundException") && ex.IsA("ValidationException")
    ensures code == 500 <==> !ex.IsA("NotFoundException") && !ex.IsA("ValidationException")
  {
    var k := FirstMatch(Arms, ex);
    assert k > 0 ==> !ex.IsA(Arms[0].className);
    assert k > 1 ==> !ex.IsA(Arms[1].className);
    if k < |Arms| then Arms[k].statusCode else DefaultStatus
  }

  /** The body written for `ex` on the request with trace id `traceId`. */
  function Problem(ex: Exception, traceId: string): (p: ProblemDetails)
    ensures p.typeName == ex.typeName
    ensures p.title == ProblemTitle
    ensures |p.detail| == |ProblemDetailPrefix| + |traceId|
    ensures p.detail[..|ProblemDetailPrefix|] == ProblemDetailPrefix
    ensures p.detail[|ProblemDetailPrefix|..] == traceId
  {
    ProblemDetails(ex.typeName, ProblemTitle, ProblemDetailPrefix + traceId)
  }

  /** `InvokeAsync`: `downstream` is what the rest of the pipeline did, either the response
      it produced or the exception it threw. */
  function Invoke(downstream: Outcome<Response>, traceId: string): (r: Response)
    ensures downstream.Returned? ==> r == downstream.value
    ensures downstream.Raised? ==> r.statusCode == StatusFor(downstream.ex)
    ensures downstream.Raised? ==> r.body == Some(Problem(downstream.ex, traceId))
  {
    match downstream
    case Returned(response) => response
    case Raised(ex) => Response(StatusFor(ex), Some(Problem(ex, traceId)))
  }

  /** The answer to a failure depends on the exception's type alone: two exceptions of the
      same type that differ in their messages give the same response. */
  lemma ResponseIgnoresMessage(ex1: Exception, ex2: Exception, traceId: string)
    requires ex1.typeName == ex2.typeName && ex1.baseTypes == ex2.baseTypes
    ensures Invoke(Raised(ex1), traceId) == Invoke(Raised(ex2), traceId)
  {
  }

  /** The first arm wins: a `NotFoundException` is answered 404 even if its class derives
      from `ApplicationException` or `ValidationException`. */
  lemma NotFoundWinsWhateverItsBases(bases: set<string>, message: string)
    ensures StatusFor(Exception("NotFoundException", bases, message)) == 404
  {
  }

  /** The exceptions the aggregator raises: not-found is 404, providers-down is 500, and
      the argument error for a null or empty id is 500, not 400, since it is neither a
      `NotFoundException` nor a `ValidationException`. */
  lemma AggregatorExceptionStatuses(id: string)
    ensures StatusFor(MovieNotFound(id)) == 404
    ensures StatusFor(ProvidersDown()) == 500
    ensures StatusFor(ArgumentNull("id")) == 500
  {
  }
}
