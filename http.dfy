/** Responses and the project-wide exception handler (bug_tracking/exception_handler.py). */
module Http {
  import opened Common

  /** The JSON body of a response; `D` is the serialized resource of a successful call. */
  datatype Body<D> =
    | Resource(value: D)
    | NoContent
    | Detail(detail: string)                      // {"detail": ...}, the framework's body of a raised error
    | ErrorMessage(error: string)                 // {"error": ...}, built by a view itself
    | ValidationErrors(errors: seq<FieldError>)   // a serializer's {field: [message]} dictionary
    | Envelope(error: string, message: string)    // {"error": ..., "message": ...}
    | ServerError                                 // Django's own page for an exception nobody handled

  datatype Response<D> = Response(statusCode: nat, body: Body<D>)

  const HTTP_200_OK: nat := 200
  const HTTP_201_CREATED: nat := 201
  const HTTP_204_NO_CONTENT: nat := 204
  const HTTP_400_BAD_REQUEST: nat := 400
  const HTTP_401_UNAUTHORIZED: nat := 401
  const HTTP_403_FORBIDDEN: nat := 403
  const HTTP_404_NOT_FOUND: nat := 404
  const HTTP_500_INTERNAL_SERVER_ERROR: nat := 500

  /** The normalised body for the three status codes the handler rewrites, and None for every other. */
  function EnvelopeFor<D>(code: nat): (b: Option<Body<D>>)
    ensures b.Some? <==> code in {401, 403, 404}
    ensures b.Some? ==> b.value.Envelope?
  {
    if code == HTTP_401_UNAUTHORIZED then
      Some(Envelope("Unauthorized", "Authentication credentials were not provided or are invalid."))
    else if code == HTTP_403_FORBIDDEN then
      Some(Envelope("Forbidden", "You do not have permission to perform this action."))
    else if code == HTTP_404_NOT_FOUND then
      Some(Envelope("Not Found", "The requested resource was not found."))
    else None
  }

  /**
   * custom_exception_handler, applied to the response the framework's default handler built
   * (None when the framework does not handle the exception).
   */
  function HandleException<D>(response: Option<Response<D>>): (h: Option<Response<D>>)
    ensures h.Some? <==> response.Some?
    ensures h.Some? ==> h.value.statusCode == response.value.statusCode
    ensures h.Some? && response.value.statusCode !in {401, 403, 404} ==> h == response
    ensures h.Some? && response.value.statusCode in {401, 403, 404} ==> h.value.body.Envelope?
  {
    match response
    case None => None
    case Some(r) =>
      match EnvelopeFor<D>(r.statusCode)
      case Some(envelope) => Some(r.(body := envelope))
      case None => Some(r)
  }

  /** The response a view produces by raising an API error with this status and detail. */
  function Raise<D>(code: nat, detail: string): (r: Response<D>)
    ensures r.statusCode == code
  {
    HandleException(Some(Response(code, Detail(detail)))).value
  }

  lemma HandleExceptionIdempotent<D>(response: Option<Response<D>>)
    ensures HandleException(HandleException(response)) == HandleException(response)
  {
  }

  /** The envelope depends on the status code alone: whatever the original body, 401/403/404 agree. */
  lemma EnvelopeIgnoresBody<D>(code: nat, a: Body<D>, b: Body<D>)
    requires code in {401, 403, 404}
    ensures HandleException(Some(Response(code, a))) == HandleException(Some(Response(code, b)))
  {
  }

  lemma UnauthorizedEnvelope<D>(body: Body<D>)
    ensures HandleException(Some(Response(401, body))) ==
      Some(Response(401, Envelope("Unauthorized", "Authentication credentials were not provided or are invalid.")))
  {
  }

  lemma ForbiddenEnvelope<D>(body: Body<D>)
    ensures HandleException(Some(Response(403, body))) ==
      Some(Response(403, Envelope("Forbidden", "You do not have permission to perform this action.")))
  {
  }

  lemma NotFoundEnvelope<D>(body: Body<D>)
    ensures HandleException(Some(Response(404, body))) ==
      Some(Response(404, Envelope("Not Found", "The requested resource was not found.")))
  {
  }

  /** A 400 from a failed validation keeps the serializer's error dictionary. */
  lemma ValidationErrorsPassThrough<D>(errors: seq<FieldError>)
    ensures HandleException(Some(Response(400, Body<D>.ValidationErrors(errors)))) ==
      Some(Response(400, ValidationErrors(errors)))
  {
  }
}
