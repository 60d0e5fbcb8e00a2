/** The exceptions the core raises and the API middleware classifies. A .NET exception is
    modelled by its runtime class name, the names of all its base classes, and its message.
    The custom exception classes live in MovieApp.Core.Exceptions, which is not part of this
    model; `NotFoundException` is given `Exception` as its only base here, and the
    classification lemmas that matter are proved for any set of bases. */
module Exceptions {

  datatype Exception = Exception(typeName: string, baseTypes: set<string>, message: string) {

    /** The C# type pattern `ex is C`. */
    predicate IsA(className: string) {
      typeName == className || className in baseTypes
    }
  }

  /** A call either returns a value or lets an exception propagate to its caller. */
  datatype Outcome<T> = Returned(value: T) | Raised(ex: Exception)

  const ProvidersDownMessage: string := "All the providers are down"

  const NotFoundMessagePrefix: string := "Cannot find the movie with id "

  /** `new ApplicationException("All the providers are down")`: an application exception
      that is neither a not-found nor a validation exception. */
  function ProvidersDown(): (ex: Exception)
    ensures ex.IsA("ApplicationException") && ex.IsA("Exception")
    ensures !ex.IsA("NotFoundException") && !ex.IsA("ValidationException")
    ensures ex.message == "All the providers are down"
  {
    Exception("ApplicationException", {"Exception"}, ProvidersDownMessage)
  }

  /** `new NotFoundException($"Cannot find the movie with id {id}")`: its message ends with
      exactly the id looked up. */
  function MovieNotFound(id: string): (ex: Exception)
    ensures ex.IsA("NotFoundException")
    ensures |ex.message| == |NotFoundMessagePrefix| + |id|
    ensures ex.message[..|NotFoundMessagePrefix|] == NotFoundMessagePrefix
    ensures ex.message[|NotFoundMessagePrefix|..] == id
  {
    Exception("NotFoundException", {"Exception"}, NotFoundMessagePrefix + id)
  }

  /** `new ArgumentNullException(paramName)` with the runtime's standard message: an
      argument exception, and none of the classes the middleware's arms name. */
  function ArgumentNull(paramName: string): (ex: Exception)
    ensures ex.IsA("ArgumentNullException") && ex.IsA("ArgumentException")
    ensures !ex.IsA("NotFoundException") && !ex.IsA("ValidationException") && !ex.IsA("ApplicationException")
  {
    Exception("ArgumentNullException", {"ArgumentException", "SystemException", "Exception"},
              "Value cannot be null. (Parameter '" + paramName + "')")
  }
}
