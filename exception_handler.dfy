// The global exception handler: what each kind of exception that leaves a
// controller becomes. The framework picks the handler declared for the most
// specific exception type, so the catch-all `Exception` handler sees only
// the `Other` kind. The current time in milliseconds is a parameter.
module ExceptionHandler {
  import opened Wrappers
  import opened Errors
  import Strings
  import Service

  const NotFoundStatus: int := 404
  const BadRequestStatus: int := 400
  const InternalServerErrorStatus: int := 500
  const ApplicationJson: string := "application/json"

  const AccessDeniedView: string := "nasa/access-denied"
  const LoginView: string := "nasa/custom-login-2"

  /** The JSON error body: a status code, the exception's message (possibly null) and a timestamp. */
  datatype NasaErrorResponse = NasaErrorResponse(status: int, message: Option<string>, timeStamp: int)

  /** What a handler hands back to the framework. */
  datatype Response =
    | JsonError(httpStatus: int, body: NasaErrorResponse)  // ResponseEntity<NasaErrorResponse>
    | View(name: string)                                 // a Thymeleaf view name
    | EmptyBody(httpStatus: int, contentType: string)   // ResponseEntity<Void> with headers

  /** `getMessage()` of the exception, where the handler reads it. */
  function MessageOf(e: Exception): Option<string>
  {
    match e
    case NasaNotFound(m) => Some(m)
    case Other(detail) => detail
    case _ => None
  }

  /** The HTTP status the client sees, where the handler sets one. */
  function StatusOf(e: Exception): Option<int>
  {
    match e
    case NasaNotFound(_) => Some(NotFoundStatus)
    case Other(_) => Some(BadRequestStatus)
    case HttpMessageNotWritable => Some(InternalServerErrorStatus)
    case _ => None
  }

  function Handle(e: Exception, nowMillis: int): (r: Response)
    ensures r.JsonError? <==> e.NasaNotFound? || e.Other?
    ensures r.JsonError? ==> r.body.status == r.httpStatus
    ensures r.JsonError? ==> r.body.message == MessageOf(e) && r.body.timeStamp == nowMillis
    ensures r.JsonError? || r.EmptyBody? ==> StatusOf(e) == Some(r.httpStatus)
    ensures r.View? <==> StatusOf(e).None?
    ensures r.EmptyBody? ==> r.contentType == ApplicationJson
    ensures e.AccessDenied? ==> r == View(AccessDeniedView)
    ensures e.NoResourceFound? ==> r == View(LoginView)
  {
    match e
    case NasaNotFound(message) =>
      JsonError(NotFoundStatus, NasaErrorResponse(NotFoundStatus, Some(message), nowMillis))
    case Other(detail) =>
      JsonError(BadRequestStatus, NasaErrorResponse(BadRequestStatus, detail, nowMillis))
    case AccessDenied => View(AccessDeniedView)
    case NoResourceFound => View(LoginView)
    case HttpMessageNotWritable => EmptyBody(InternalServerErrorStatus, ApplicationJson)
  }

  /** One exception kind per response: the handler's answer tells which kind was raised, up to its message. */
  lemma HandleSeparatesKinds(e1: Exception, e2: Exception, now1: int, now2: int)
    requires Handle(e1, now1) == Handle(e2, now2)
    ensures StatusOf(e1) == StatusOf(e2) && MessageOf(e1) == MessageOf(e2)
    ensures e1.NasaNotFound? <==> e2.NasaNotFound?
    ensures e1.Other? <==> e2.Other?
  {
  }

  /** A JSON error body agrees with the response status, whichever kind produced it. */
  lemma JsonBodyStatusAgrees(e: Exception, nowMillis: int)
    requires Handle(e, nowMillis).JsonError?
    ensures Handle(e, nowMillis).body.status == Handle(e, nowMillis).httpStatus
    ensures Handle(e, nowMillis).httpStatus in {NotFoundStatus, BadRequestStatus}
  {
  }

  /**
   * Looking up a missing id ends in a 404 whose body names that id, and two
   * different missing ids give different bodies.
   */
  lemma MissingApodIsNotFound(service: Service.NasaApiServiceImpl, id: int, other: int, nowMillis: int)
    requires service.repository.Valid()
    requires id !in service.repository.rows
    ensures service.FindNasaApodById(id).Failure?
    ensures Handle(service.FindNasaApodById(id).error, nowMillis) ==
      JsonError(404, NasaErrorResponse(404, Some("No Apod Found With Id: " + Strings.IntToString(id)), nowMillis))
    ensures other != id ==>
      Handle(NasaNotFound(NoApodWithIdMessage(other)), nowMillis) != Handle(service.FindNasaApodById(id).error, nowMillis)
  {
    NoApodWithIdMessageInjective(id, other);
  }

  /** An empty store makes the strict list operation answer 404 with the fixed message. */
  lemma EmptyStoreIsNotFound(service: Service.NasaApiServiceImpl, nowMillis: int)
    requires service.repository.Valid() && service.repository.rows == map[]
    ensures service.FetchAllApods().Failure?
    ensures Handle(service.FetchAllApods().error, nowMillis) ==
      JsonError(404, NasaErrorResponse(404, Some("No Apods Found. Try Adding Apod To The Database"), nowMillis))
  {
  }
}
