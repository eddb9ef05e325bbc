/** GlobalExceptionHandler: every exception that escapes a controller becomes an
    HTTP status and an ErrorResponseDTO body; and ErrorResponseDTO.addError. */
module ErrorHandling {
  import opened Outcomes
  import opened Errors

  /** The ErrorResponseDTO body as serialised; `errors` is the nullable map.
      The timestamp is not modelled. */
  datatype ErrorBody = ErrorBody(status: int, message: string, errorCode: string, errors: Option<map<string, string>>)

  /** ResponseEntity.status(status).body(body). */
  datatype Response = Response(httpStatus: HttpStatus, body: ErrorBody)

  /** buildErrorResponse: the body's status is the value of the HTTP status. */
  function BuildErrorResponse(message: string, errorCode: string, status: HttpStatus,
                              errors: Option<map<string, string>>): (r: Response)
    ensures r.body.status == r.httpStatus.Value()
  {
    Response(status, ErrorBody(status.Value(), message, errorCode, errors))
  }

  /** The map that the forEach of handleValidationExceptions builds: a put per
      field error, in order, so a later message for a field replaces an earlier one. */
  function FieldErrorMap(fieldErrors: seq<FieldError>): map<string, string>
    decreases |fieldErrors|
  {
    if fieldErrors == [] then map[]
    else
      var last := fieldErrors[|fieldErrors| - 1];
      FieldErrorMap(fieldErrors[..|fieldErrors| - 1])[last.field := last.defaultMessage]
  }

  /** `fieldErrors[i]` is the last error reported for its field. */
  predicate IsLastFor(fieldErrors: seq<FieldError>, i: int)
    requires 0 <= i < |fieldErrors|
  {
    forall j :: i < j < |fieldErrors| ==> fieldErrors[j].field != fieldErrors[i].field
  }

  /** One entry per field that has an error, holding the message of its last error. */
  lemma {:induction false} FieldErrorMapLastWins(fieldErrors: seq<FieldError>)
    ensures forall f :: f in FieldErrorMap(fieldErrors) <==> exists i :: 0 <= i < |fieldErrors| && fieldErrors[i].field == f
    ensures forall i :: 0 <= i < |fieldErrors| && IsLastFor(fieldErrors, i) ==>
      FieldErrorMap(fieldErrors)[fieldErrors[i].field] == fieldErrors[i].defaultMessage
    decreases |fieldErrors|
  {
    if fieldErrors != [] {
      var n := |fieldErrors|;
      var prefix := fieldErrors[..n - 1];
      FieldErrorMapLastWins(prefix);
      forall f
        ensures f in FieldErrorMap(fieldErrors) <==> exists i :: 0 <= i < n && fieldErrors[i].field == f
      {
        if f in FieldErrorMap(fieldErrors) && f != fieldErrors[n - 1].field {
          var i :| 0 <= i < n - 1 && prefix[i].field == f;
          assert fieldErrors[i].field == f;
        }
        if exists i :: 0 <= i < n && fieldErrors[i].field == f {
          var i :| 0 <= i < n && fieldErrors[i].field == f;
          if i < n - 1 {
            assert prefix[i].field == f;
          }
        }
      }
      forall i | 0 <= i < n && IsLastFor(fieldErrors, i)
        ensures FieldErrorMap(fieldErrors)[fieldErrors[i].field] == fieldErrors[i].defaultMessage
      {
        if i < n - 1 {
          assert IsLastFor(prefix, i);
        }
      }
    }
  }

  /** handleValidationExceptions: the loop that fills the field-error map. */
  method HandleValidationExceptions(fieldErrors: seq<FieldError>) returns (r: Response)
    ensures r.httpStatus == BadRequest
    ensures r.body == ErrorBody(400, "Validation failed", "VALIDATION_ERROR", Some(FieldErrorMap(fieldErrors)))
  {
    var errors: map<string, string> := map[];
    for k := 0 to |fieldErrors|
      invariant errors == FieldErrorMap(fieldErrors[..k])
    {
      assert fieldErrors[..k + 1][..k] == fieldErrors[..k];
      errors := errors[fieldErrors[k].field := fieldErrors[k].defaultMessage];
    }
    assert fieldErrors[..|fieldErrors|] == fieldErrors;
    r := BuildErrorResponse("Validation failed", "VALIDATION_ERROR", BadRequest, Some(errors));
  }

  /** The handler Spring selects for each exception (the most specific one),
      and the response it builds. */
  function Handle(e: Exception): (r: Response)
    ensures r.body.status == r.httpStatus.Value()
    ensures e.Business? ==> r.httpStatus == e.business.statusCode
    ensures e.Business? ==> r.body.errorCode == e.business.errorCode && r.body.message == e.business.errorMessage
    ensures r.body.errors.Some? <==> e.MethodArgumentNotValid?
  {
    match e
    case MethodArgumentNotValid(fieldErrors) =>
      BuildErrorResponse("Validation failed", "VALIDATION_ERROR", BadRequest, Some(FieldErrorMap(fieldErrors)))
    case Business(x) =>
      BuildErrorResponse(x.errorMessage, x.errorCode, x.statusCode, None)
    case EntityNotFound(_) =>
      BuildErrorResponse("Resource not found", "NOT_FOUND", NotFound, None)
    case MethodArgumentTypeMismatch(_) =>
      BuildErrorResponse("Invalid argument type", "ARGUMENT_TYPE_MISMATCH", BadRequest, None)
    case HttpMessageNotReadable(_) =>
      BuildErrorResponse("Malformed JSON request", "MESSAGE_NOT_READABLE", BadRequest, None)
    case IllegalArgument(_) =>
      BuildErrorResponse("An unexpected error occurred", "INTERNAL_SERVER_ERROR", InternalServerError, None)
    case Unexpected(_) =>
      BuildErrorResponse("An unexpected error occurred", "INTERNAL_SERVER_ERROR", InternalServerError, None)
  }

  /** The fixed responses of the handlers that do not look at their exception. */
  lemma FixedResponses(detail: string)
    ensures Handle(EntityNotFound(detail)).body == ErrorBody(404, "Resource not found", "NOT_FOUND", None)
    ensures Handle(MethodArgumentTypeMismatch(detail)).body == ErrorBody(400, "Invalid argument type", "ARGUMENT_TYPE_MISMATCH", None)
    ensures Handle(HttpMessageNotReadable(detail)).body == ErrorBody(400, "Malformed JSON request", "MESSAGE_NOT_READABLE", None)
    ensures Handle(Unexpected(detail)).body == ErrorBody(500, "An unexpected error occurred", "INTERNAL_SERVER_ERROR", None)
  {
  }

  /** Nothing of an unexpected exception reaches the client: two such
      exceptions, whatever their messages, produce the same response. */
  lemma GenericHandlerLeaksNothing(e1: Exception, e2: Exception)
    requires e1.Unexpected? || e1.IllegalArgument?
    requires e2.Unexpected? || e2.IllegalArgument?
    ensures Handle(e1) == Handle(e2)
    ensures Handle(e1).httpStatus == InternalServerError
  {
  }

  /** A UserException reaches the client with its sentence as errorCode and its
      upper-snake code as message, because of the constructor's argument order. */
  lemma UserErrorResponse(e: UserError)
    ensures Handle(Business(UserException(e))).body
         == ErrorBody(Status(e).Value(), Code(e), Message(e), None)
  {
  }

  /** ErrorResponseDTO, whose addError changes its `errors` field in place. */
  class ErrorResponse {
    var status: int
    var message: string
    var errorCode: string
    var errors: Option<map<string, string>>

    constructor (status: int, message: string, errorCode: string, errors: Option<map<string, string>>)
      ensures this.status == status && this.message == message
      ensures this.errorCode == errorCode && this.errors == errors
    {
      this.status := status;
      this.message := message;
      this.errorCode := errorCode;
      this.errors := errors;
    }

    /** Allocates the map when it is null, then puts the entry. */
    method AddError(field: string, errorMessage: string)
      modifies this
      ensures errors.Some? && field in errors.value && errors.value[field] == errorMessage
      ensures old(errors).None? ==> errors == Some(map[field := errorMessage])
      ensures old(errors).Some? ==> errors == Some(old(errors).value[field := errorMessage])
      ensures status == old(status) && message == old(message) && errorCode == old(errorCode)
    {
      if errors.None? {
        errors := Some(map[]);
      }
      errors := Some(errors.value[field := errorMessage]);
    }
  }

  /** Two addError calls on one field keep the second message only, and every
      other entry as it was. */
  method AddErrorTwice(r: ErrorResponse, field: string, first: string, second: string)
    modifies r
    ensures r.errors.Some? && field in r.errors.value && r.errors.value[field] == second
    ensures forall f :: f != field && old(r.errors).Some? && f in old(r.errors).value ==>
      f in r.errors.value && r.errors.value[f] == old(r.errors).value[f]
  {
    r.AddError(field, first);
    r.AddError(field, second);
  }
}
