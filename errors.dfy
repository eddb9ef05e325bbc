/** The exceptions of the backend: BusinessException, the UserException factories
    built on it, and the other exception kinds the global handler maps. */
module Errors {
  import opened Outcomes
  import opened Text

  datatype HttpStatus = BadRequest | Unauthorized | NotFound | Conflict | InternalServerError {
    /** HttpStatus.value(). */
    function Value(): (code: int)
      ensures 400 <= code < 600
      ensures code < 500 <==> !InternalServerError?
    {
      match this
      case BadRequest => 400
      case Unauthorized => 401
      case NotFound => 404
      case Conflict => 409
      case InternalServerError => 500
    }
  }

  /** BusinessException, with the field order of its all-arguments constructor. */
  datatype BusinessException = BusinessException(errorCode: string, errorMessage: string, statusCode: HttpStatus)

  /** The ten UserException factories. */
  datatype UserError =
    | UserNotFound(email: string)
    | UserNotFoundById(userId: int)
    | InvalidOldPassword
    | PasswordsDoNotMatch
    | UserAlreadyActive
    | UserNotVerified
    | EmailAlreadyTaken
    | InvalidCredentials
    | ExpiredToken
    | InvalidToken

  /** The upper-snake code each factory passes. */
  function Code(e: UserError): string {
    match e
    case UserNotFound(_) => "USER_NOT_FOUND"
    case UserNotFoundById(_) => "USER_NOT_FOUND"
    case InvalidOldPassword => "INVALID_OLD_PASSWORD"
    case PasswordsDoNotMatch => "PASSWORDS_DO_NOT_MATCH"
    case UserAlreadyActive => "USER_ALREADY_ACTIVE"
    case UserNotVerified => "USER_NOT_VERIFIED"
    case EmailAlreadyTaken => "EMAIL_ALREADY_TAKEN"
    case InvalidCredentials => "INVALID_CREDENTIALS"
    case ExpiredToken => "EXPIRED_TOKEN"
    case InvalidToken => "INVALID_TOKEN"
  }

  /** The human sentence each factory passes. */
  function Message(e: UserError): string {
    match e
    case UserNotFound(email) => "User with email " + email + " not found"
    case UserNotFoundById(id) => "User with id " + LongToString(id) + " not found"
    case InvalidOldPassword => "Old password is incorrect"
    case PasswordsDoNotMatch => "New password and confirm password do not match"
    case UserAlreadyActive => "User is already active"
    case UserNotVerified => "User is not verified. Please verify your email."
    case EmailAlreadyTaken => "Email already taken"
    case InvalidCredentials => "Invalid email or password"
    case ExpiredToken => "Token has expired"
    case InvalidToken => "Invalid token"
  }

  function Status(e: UserError): HttpStatus {
    match e
    case UserNotFound(_) => NotFound
    case UserNotFoundById(_) => NotFound
    case InvalidOldPassword => BadRequest
    case PasswordsDoNotMatch => BadRequest
    case UserAlreadyActive => BadRequest
    case UserNotVerified => Unauthorized
    case EmailAlreadyTaken => Conflict
    case InvalidCredentials => Unauthorized
    case ExpiredToken => BadRequest
    case InvalidToken => BadRequest
  }

  /** `new UserException(message, code, status)`: the constructor hands its
      arguments on in that order to BusinessException(errorCode, errorMessage,
      statusCode), so the sentence lands in errorCode and the code in errorMessage. */
  function UserException(e: UserError): BusinessException {
    BusinessException(Message(e), Code(e), Status(e))
  }

  /** Every UserException reports its sentence as getErrorCode() and its
      upper-snake code as getErrorMessage(). */
  lemma UserExceptionSwapsCodeAndMessage(e: UserError)
    ensures UserException(e).errorMessage == Code(e)
    ensures UserException(e).errorCode == Message(e)
    ensures UserException(e).statusCode == Status(e)
  {
  }

  lemma UserNotFoundByEmailContents(email: string)
    ensures UserException(UserNotFound(email))
         == BusinessException("User with email " + email + " not found", "USER_NOT_FOUND", NotFound)
    ensures UserException(UserNotFound(email)).statusCode.Value() == 404
  {
  }

  /** The id can be read back from the sentence of userNotFound(id). */
  lemma UserNotFoundByIdContents(id: int)
    ensures var x := UserException(UserNotFoundById(id));
      && x.errorMessage == "USER_NOT_FOUND"
      && x.statusCode.Value() == 404
      && |x.errorCode| > |"User with id  not found"|
      && x.errorCode[..13] == "User with id "
      && ParseLong(x.errorCode[13..|x.errorCode| - 10]) == Some(id)
  {
    var x := UserException(UserNotFoundById(id));
    var digits := LongToString(id);
    assert x.errorCode == "User with id " + digits + " not found";
    assert |digits| > 0 by {
      if id < 0 { assert |NatToDecimal(-id)| > 0; } else { assert |NatToDecimal(id)| > 0; }
    }
    assert x.errorCode[13..|x.errorCode| - 10] == digits;
    LongRoundTrip(id);
  }

  /** The status of every factory kind: 404 for the not-found kinds, 401 for
      the two authentication failures, 409 for a taken email, 400 otherwise. */
  lemma StatusByKind(e: UserError)
    ensures Status(e).Value() == 404 <==> (e.UserNotFound? || e.UserNotFoundById?)
    ensures Status(e).Value() == 401 <==> (e.UserNotVerified? || e.InvalidCredentials?)
    ensures Status(e).Value() == 409 <==> e.EmailAlreadyTaken?
    ensures Status(e).Value() == 400 <==>
      (e.InvalidOldPassword? || e.PasswordsDoNotMatch? || e.UserAlreadyActive? || e.ExpiredToken? || e.InvalidToken?)
  {
  }

  /** Two kinds share a code only when both are a userNotFound overload. */
  lemma CodesDistinct(e1: UserError, e2: UserError)
    ensures Code(e1) == Code(e2) <==>
      || ((e1.UserNotFound? || e1.UserNotFoundById?) && (e2.UserNotFound? || e2.UserNotFoundById?))
      || (!e1.UserNotFound? && !e1.UserNotFoundById? && e1 == e2)
  {
    var c1, c2 := Code(e1), Code(e2);
    if c1 == c2 && !(e1.UserNotFound? || e1.UserNotFoundById?) {
      // different kinds differ in length or in one of their first five letters
      assert |c1| == |c2| && c1[..5] == c2[..5] && c1[|c1| - 1] == c2[|c2| - 1];
    }
  }

  /** The exceptions GlobalExceptionHandler distinguishes; a thrown
      IllegalArgumentException and anything else fall to the generic handler. */
  datatype Exception =
    | Business(business: BusinessException)
    | MethodArgumentNotValid(fieldErrors: seq<FieldError>)
    | EntityNotFound(message: string)
    | MethodArgumentTypeMismatch(detail: string)
    | HttpMessageNotReadable(detail: string)
    | IllegalArgument(message: string)
    | Unexpected(message: string)

  /** One FieldError of a binding result: the field and its default message. */
  datatype FieldError = FieldError(field: string, defaultMessage: string)
}
