# Secret Stuffs — a Dafny model of the donation platform's core

Secret Stuffs is a web platform where people give away items. A user registers,
confirms the address by an e-mailed link and logs in with a JWT. Users publish
item posts, offer donations for posts and chat with each other. This project
models the parts of the Spring backend and the React frontend where the
platform's rules live, and proves properties of them.

Backend:

- **Accounts.** `Accounts` holds the user store as a value, with one specification
  function per operation:
  - `AuthService`: login, registration, forgot and reset password;
  - `UserService`: activate, update, delete, change password, look up by id or e-mail;
  - `AuthCommandHandler`: registration with its mail, e-mail verification, resending the mail.

  `AccountServices` models the same services as classes over mutable repositories.
  Each method is proved to produce the result and the new store that the
  specification function gives.
- **Tokens.**
  - `Jwt` models `JwtHelper`: token building, parsing with expiry and key check, and the validity predicates.
  - `VerificationTokens` models `VerificationTokenService` and the expiry of stored reset tokens.
  - A token is a value: a signed set of claims, or text that is not a JWS.
  - BCrypt is a hash that matches exactly the password it was made from. Its 72-byte input limit is not modelled; see "## Left out".
- **Errors.**
  - `Errors`: the `UserException` factories. Their code and message arrive exchanged in `BusinessException`.
  - `ErrorHandling`: `GlobalExceptionHandler` and `ErrorResponseDTO.addError`.
- **Enums.** `Enums`:
  - the category, condition and donation-status enums with their case-insensitive `fromString` and `isValid`;
  - the `@EnumValidator` constraint, whose validator keeps its names in an array.
- **Item posts.** `ItemPosts` holds the post table as a value; `ItemPostServices` models `ItemPostService` and its repository as classes.
- **Donations.**
  - `Donations`: saving a donation with its validation and duplicate check, accepting one, and the two list queries.
  - `DonationServices`: the service and repository objects.
- **Validators.** `Requests`: the cross-field validators of the change-password command and request, and of the item-post update command.
- **Chat.** `Chat`: the chat-room participant test and the three queries of `ChatRoomRepository`.

Frontend:

- `ItemDetails`: the status a user sees on an item's page.
- `Timeline`:
  - the search, filter and sort of posts.
  - The home page and the user's own posts page compute the same expression, so it is modelled once.
- `ChatLayout`: the search over chat users.
- `Uploads`:
  - the five-file upload list of the post form;
  - the file checks run before an upload on the post form and the profile form.

Conventions:

- A Java `null` is `None`.
- Clock readings and generated values are parameters: `now` in milliseconds, the BCrypt salt, `UUID.randomUUID()`.
- Mail sending appends to an outbox.

## Model

| member | source | states |
|---|---|---|
| Text.ToLowerAsciiFolds | frontend/src/layout/chat/chat-layout.tsx:84 | after toLowerCase no ASCII capital remains and lowering again changes nothing; two texts lower alike exactly when they differ only in the case of ASCII letters |
| Text.IncludesIffOccurs | frontend/src/layout/home/index.tsx:59 | includes(part) holds exactly when part occurs at some position of the text |
| Text.IncludesEmpty | frontend/src/layout/chat/chat-layout.tsx:84 | every text includes the empty string |
| Text.DecimalRoundTrip | backend/src/main/java/secretstuffs/application/services/ItemPostService.java:36 | the decimal digits of a natural number read back as that number |
| Text.LongRoundTrip | backend/src/main/java/secretstuffs/application/services/ItemPostService.java:36 | the decimal text of an id, sign included, parses back to the id |
| Text.LongToStringInjective | backend/src/main/java/secretstuffs/application/services/ItemPostService.java:40 | two different ids never give the same decimal text, so the not-found message names the id |
| Text.CaseVariantEqualsIgnoreCase | backend/src/main/java/secretstuffs/domain/enums/CategoryEnum.java:42 | a string spelled like a constant name with some letters in lower case is equalsIgnoreCase to it |
| Seqs.Filter | backend/src/main/java/secretstuffs/application/services/ItemPostService.java:52-57 | a filter keeps at most the input's elements, and an element is in the result exactly when it is in the input and passes the test |
| Seqs.FilterIsSubsequence | backend/src/main/java/secretstuffs/application/services/ItemPostService.java:52-57 | a filter keeps the elements in their original order |
| Seqs.FilterCounts | backend/src/main/java/secretstuffs/application/services/ItemPostService.java:66-71 | a filter keeps every occurrence of a passing value and no occurrence of any other |
| Seqs.FilterAll | frontend/src/layout/chat/chat-layout.tsx:84 | filtering with a test every element passes returns the input unchanged |
| Errors.UserExceptionSwapsCodeAndMessage | backend/src/main/java/secretstuffs/domain/dtos/exception/UserException.java:7-9 | every UserException carries the human sentence as errorCode, the upper-snake code as errorMessage, and its own status |
| Errors.UserNotFoundByEmailContents | backend/src/main/java/secretstuffs/domain/dtos/exception/UserException.java:11-14 | userNotFound(email) carries "User with email <email> not found", USER_NOT_FOUND and 404 |
| Errors.UserNotFoundByIdContents | backend/src/main/java/secretstuffs/domain/dtos/exception/UserException.java:16-19 | userNotFound(id) carries "User with id <id> not found" and 404, and the id can be read back from the sentence |
| Errors.StatusByKind | backend/src/main/java/secretstuffs/domain/dtos/exception/UserException.java:21-59 | the not-found kinds give 404, USER_NOT_VERIFIED and INVALID_CREDENTIALS 401, EMAIL_ALREADY_TAKEN 409, the other five 400 |
| Errors.CodesDistinct | backend/src/main/java/secretstuffs/domain/dtos/exception/UserException.java:11-59 | two factory kinds share a code only when both are userNotFound overloads |
| ErrorHandling.BuildErrorResponse | backend/src/main/java/secretstuffs/application/exception/GlobalExceptionHandler.java:122-131 | the body's status field equals the value of the HTTP status of the response, and the other fields are the arguments |
| ErrorHandling.FieldErrorMapLastWins | backend/src/main/java/secretstuffs/application/exception/GlobalExceptionHandler.java:34-37 | the field-error map has one key per field with an error, holding that field's last message |
| ErrorHandling.HandleValidationExceptions | backend/src/main/java/secretstuffs/application/exception/GlobalExceptionHandler.java:27-45 | the loop builds the same map as the forEach: 400, VALIDATION_ERROR, "Validation failed" and the last message per field |
| ErrorHandling.Handle | backend/src/main/java/secretstuffs/application/exception/GlobalExceptionHandler.java:27-120 | each exception kind goes to its handler; the body's status always equals the HTTP status |
| ErrorHandling.FixedResponses | backend/src/main/java/secretstuffs/application/exception/GlobalExceptionHandler.java:62-105 | entity-not-found gives 404 NOT_FOUND "Resource not found", a type mismatch 400 ARGUMENT_TYPE_MISMATCH, an unreadable body 400 MESSAGE_NOT_READABLE "Malformed JSON request", anything else 500 INTERNAL_SERVER_ERROR, none with an errors map |
| ErrorHandling.GenericHandlerLeaksNothing | backend/src/main/java/secretstuffs/application/exception/GlobalExceptionHandler.java:107-120 | an unexpected exception or an IllegalArgumentException gives 500 INTERNAL_SERVER_ERROR, the same response whatever its message |
| ErrorHandling.UserErrorResponse | backend/src/main/java/secretstuffs/application/exception/GlobalExceptionHandler.java:47-60 | a UserException reaches the client with its own status, its sentence as errorCode, its code as message and no errors map |
| ErrorHandling.ErrorResponse.AddError | backend/src/main/java/secretstuffs/domain/models/responses/ErrorResponseDTO.java:24-29 | afterwards errors is allocated and maps the field to the message; a null map becomes exactly that one entry; other entries stay |
| ErrorHandling.AddErrorTwice | backend/src/main/java/secretstuffs/domain/models/responses/ErrorResponseDTO.java:28 | two addError calls on one field keep only the second message and leave every other entry as it was |
| Jwt.NumericDate | backend/src/main/java/secretstuffs/application/helpers/JwtHelper.java:142-143 | a date in milliseconds is stored in whole seconds and read back to within one second below |
| Jwt.JwtHelper.BuildToken | backend/src/main/java/secretstuffs/application/helpers/JwtHelper.java:138-147 | the token carries the additional claims except sub, iat and exp, the given subject as is (a blank one included), the issue and expiry instants in whole seconds, and the helper's key |
| Jwt.JwtHelper.GenerateTokenWithClaims | backend/src/main/java/secretstuffs/application/helpers/JwtHelper.java:125-127 | signed with the helper's key, expiring TOKEN_VALIDITY_MILLISECONDS (ten hours) after issue, counted in whole seconds |
| Jwt.JwtHelper.GenerateToken | backend/src/main/java/secretstuffs/application/helpers/JwtHelper.java:114-116 | a token without additional claims, expiring ten hours after issue |
| Jwt.JwtHelper.ExtractAllClaims | backend/src/main/java/secretstuffs/application/helpers/JwtHelper.java:66-76 | parsing fails with IllegalArgumentException unless the token was signed with the helper's key, has not expired, and carries no "nbf" claim that is unreadable or still in the future |
| Jwt.JwtHelper.ExtractClaim | backend/src/main/java/secretstuffs/application/helpers/JwtHelper.java:55-58 | the resolver is applied to the parsed claims, and a parse failure is the only failure |
| Jwt.JwtHelper.ExtractSubject | backend/src/main/java/secretstuffs/application/helpers/JwtHelper.java:33-35 | the subject of a token that parses, null when its claims have no sub; failure exactly when parsing fails |
| Jwt.JwtHelper.ExtractExpiration | backend/src/main/java/secretstuffs/application/helpers/JwtHelper.java:43-45 | the expiration, in milliseconds, of a token that parses; failure exactly when parsing fails |
| Jwt.JwtHelper.GetValidSubject | backend/src/main/java/secretstuffs/application/helpers/JwtHelper.java:187-189 | null for a token isTokenValid refuses; for a valid token, exactly the subject it carries |
| Jwt.IsTokenExpiredIff | backend/src/main/java/secretstuffs/application/helpers/JwtHelper.java:84-90 | a token is expired exactly when it is not signed with this key, its "nbf" claim is unreadable or in the future, or its expiration is strictly before now |
| Jwt.ValidateTokenIffValidSubject | backend/src/main/java/secretstuffs/application/helpers/JwtHelper.java:99-106 | validateToken holds exactly when the token is valid and its subject equals the user name, never throwing |
| Jwt.GeneratedTokenRoundTrip | backend/src/main/java/secretstuffs/application/helpers/JwtHelper.java:114-147 | from issue to expiry, and from any "nbf" second it carries, a generated token yields its subject and additional claims, is valid, and validates for its subject and no other user name |
| Jwt.PrematureTokenMatures | backend/src/main/java/secretstuffs/application/helpers/JwtHelper.java:66-76 | a generated token whose "nbf" names a later second is refused as invalid until that second, and yields its subject from then on |
| Jwt.UnreadableNotBeforeRefused | backend/src/main/java/secretstuffs/application/helpers/JwtHelper.java:66-76 | a generated token whose "nbf" is not a number of seconds never parses, yields no subject and never validates |
| Jwt.GeneratedTokenExpires | backend/src/main/java/secretstuffs/application/helpers/JwtHelper.java:163-165 | after ten hours the token is expired, yields no subject and no longer validates |
| Jwt.ForeignTokenRejected | backend/src/main/java/secretstuffs/application/helpers/JwtHelper.java:84-90 | a token signed with another key, or not a JWS, is expired, invalid and without subject, fail-closed |
| Jwt.ExpiryIsMonotone | backend/src/main/java/secretstuffs/application/helpers/JwtHelper.java:84-90 | a token expired at one moment, other than one refused only as premature, stays expired at every later one |
| VerificationTokens.ExpiryBoundary | backend/src/main/java/secretstuffs/domain/entities/VerificationToken.java:34-36 | isExpired holds exactly when now is strictly after the expiry date: not at it, from the next millisecond, and ever after |
| VerificationTokens.VerificationTokenService.CreateToken | backend/src/main/java/secretstuffs/application/services/VerificationTokenService.java:19-21 | a token signed with the helper's key, without additional claims, whose subject is the address |
| VerificationTokens.VerificationTokenService.ExtractEmailFromToken | backend/src/main/java/secretstuffs/application/services/VerificationTokenService.java:39-41 | an address only from a token that verifies, and from such a token exactly the address it carries |
| VerificationTokens.VerificationRoundTrip | backend/src/main/java/secretstuffs/application/services/VerificationTokenService.java:19-41 | within ten hours of creation the token verifies and yields its address; afterwards it yields nothing |
| VerificationTokens.ExtractEmailIff | backend/src/main/java/secretstuffs/application/services/VerificationTokenService.java:29-41 | an address is extracted exactly from a token that verifies and carries that address |
| Accounts.EncryptPassword | backend/src/main/java/secretstuffs/application/helpers/AuthHelper.java:15-21 | the hash matches the raw password it was made from and no other |
| Accounts.FindUserByEmail | backend/src/main/java/secretstuffs/application/services/UserService.java:29-32 | the stored user with exactly that e-mail, or USER_NOT_FOUND for that e-mail |
| Accounts.IsUserActive | backend/src/main/java/secretstuffs/application/services/UserService.java:49-56 | succeeds exactly for a registered e-mail |
| Accounts.GetUserById | backend/src/main/java/secretstuffs/application/services/UserService.java:122-128 | a stored user with that id, or USER_NOT_FOUND for the id when no user has it |
| Accounts.SendVerificationEmail | backend/src/main/java/secretstuffs/application/useCases/auth/AuthCommandHandler.java:50-57 | one mail appended, to the address; users and reset tokens untouched |
| Accounts.LoginCheckOrder | backend/src/main/java/secretstuffs/application/services/AuthService.java:46-51 | existence first, then activation, then the password: an inactive user gets USER_NOT_VERIFIED whatever the password; success exactly for an active user with the right password |
| Accounts.LoginResponseContents | backend/src/main/java/secretstuffs/application/services/AuthService.java:95-104 | the response holds the user's id and e-mail and expiresAt = now + 1 h; its token names the e-mail and is still valid after expiresAt |
| Accounts.RegisterDuplicateChangesNothing | backend/src/main/java/secretstuffs/application/services/AuthService.java:89-93 | a taken e-mail fails with EMAIL_ALREADY_TAKEN and leaves the store unchanged |
| Accounts.RegisterAddsOneInactiveUser | backend/src/main/java/secretstuffs/application/services/AuthService.java:53-70 | exactly one user is added, inactive, with the next id and a hash matching only the raw password; the response reports active false |
| Accounts.ForgotPasswordAlwaysIssues | backend/src/main/java/secretstuffs/application/services/AuthService.java:122-133 | a token for the address expiring in 1 h is stored whether or not a user has it, one reset mail is sent, and the reply is "Password reset email sent!" |
| Accounts.ResetPasswordRejects | backend/src/main/java/secretstuffs/application/services/AuthService.java:135-141 | an unknown token gives INVALID_TOKEN, an expired one EXPIRED_TOKEN, a missing user USER_NOT_FOUND, each with nothing changed |
| Accounts.ResetPasswordSingleUse | backend/src/main/java/secretstuffs/application/services/AuthService.java:141-145 | success changes only that user's password, to a hash of the new one, and deletes the token, so a second reset gets INVALID_TOKEN |
| Accounts.ResetExpiryAgreesWithIsExpired | backend/src/main/java/secretstuffs/application/services/AuthService.java:138-140 | resetPassword refuses a token as expired exactly when VerificationToken.isExpired holds |
| Accounts.ActivateOnce | backend/src/main/java/secretstuffs/application/services/UserService.java:34-43 | activation sets only the active flag of an inactive user; a second activation fails with USER_ALREADY_ACTIVE |
| Accounts.UnknownEmailChangesNothing | backend/src/main/java/secretstuffs/application/services/UserService.java:29-32 | activate, update, delete and change password on an unknown e-mail fail with USER_NOT_FOUND and change nothing |
| Accounts.RegisteredAndActive | backend/src/main/java/secretstuffs/application/services/UserService.java:45-56 | isUserRegistered is membership; isUserActive is the stored flag of a registered user |
| Accounts.UpdateChangesOnlyProfile | backend/src/main/java/secretstuffs/application/services/UserService.java:58-65 | only the names and image URL change; e-mail, password, id and active stay; the response echoes the record |
| Accounts.ChangePasswordOrder | backend/src/main/java/secretstuffs/application/services/UserService.java:84-98 | INVALID_OLD_PASSWORD is checked before PASSWORDS_DO_NOT_MATCH, failures keep the hash, success replaces only that user's hash |
| Accounts.DeleteRemovesExactly | backend/src/main/java/secretstuffs/application/services/UserService.java:71-75 | exactly that user is removed |
| Accounts.GetUserByIdFinds | backend/src/main/java/secretstuffs/application/services/UserService.java:122-128 | a stored user is found by its id, and an id nobody has gives USER_NOT_FOUND for the id |
| Accounts.RegisterMailsOnSuccess | backend/src/main/java/secretstuffs/application/useCases/auth/AuthCommandHandler.java:27-31 | register sends one verification mail to the address only when registration succeeds; a duplicate sends nothing |
| Accounts.VerifyRejectsInvalidToken | backend/src/main/java/secretstuffs/application/useCases/auth/AuthCommandHandler.java:33-40 | an invalid or expired token returns false and activates no one |
| Accounts.VerifyActivatesSubject | backend/src/main/java/secretstuffs/application/useCases/auth/AuthCommandHandler.java:34-38 | a valid token activates its subject and returns true; for an active user USER_ALREADY_ACTIVE propagates |
| Accounts.SessionTokenActivates | backend/src/main/java/secretstuffs/application/useCases/auth/AuthCommandHandler.java:33-38 | the session token returned by registration also activates the account |
| Accounts.ResendIff | backend/src/main/java/secretstuffs/application/useCases/auth/AuthCommandHandler.java:42-48 | true and one mail exactly for a registered inactive user; otherwise false, no mail, and no USER_NOT_FOUND for an unknown address |
| Accounts.ResendTwiceSendsTwo | backend/src/main/java/secretstuffs/application/useCases/auth/AuthCommandHandler.java:50-57 | each resend mails its own link; nothing is de-duplicated |
| Accounts.RegisterKeepsValid | backend/src/main/java/secretstuffs/application/services/AuthService.java:60-70 | registration keeps e-mails unique and ids distinct and below the generator |
| Accounts.ResetTokensKeepValid | backend/src/main/java/secretstuffs/domain/entities/VerificationToken.java:21-23 | forgot and reset password keep every reset token under its own unique string |
| Accounts.UserServiceKeepsValid | backend/src/main/java/secretstuffs/application/services/UserService.java:34-98 | activate, update, delete and change password keep the store's constraints |
| Accounts.HandlerKeepsValid | backend/src/main/java/secretstuffs/application/useCases/auth/AuthCommandHandler.java:33-48 | verifyEmailToken and resendVerificationEmail keep the store's constraints |
| Accounts.RegisterVerifyLogin | backend/src/main/java/secretstuffs/application/useCases/auth/AuthCommandHandler.java:23-40 | register, then the mailed token, then login with the same password succeeds |
| AccountServices.UserRepository.FindByEmail | backend/src/main/java/secretstuffs/infrastructure/repositories/UserRepository.java:14 | the stored user with exactly that e-mail, if any |
| AccountServices.VerificationTokenRepository.FindByToken | backend/src/main/java/secretstuffs/infrastructure/repositories/VerificationTokenRepository.java:8 | the stored record with exactly that token, if any |
| AccountServices.EmailService.SendVerificationEmail | backend/src/main/java/secretstuffs/application/services/EmailService.java:21-31 | the outbox grows by this one verification mail |
| AccountServices.EmailService.SendForgotPasswordEmail | backend/src/main/java/secretstuffs/application/services/EmailService.java:33-44 | the outbox grows by this one reset mail |
| AccountServices.UserService.FindUserByEmail | backend/src/main/java/secretstuffs/application/services/UserService.java:29-32 | the result is Accounts.FindUserByEmail of the repository |
| AccountServices.UserService.ActivateUser | backend/src/main/java/secretstuffs/application/services/UserService.java:34-43 | result and new table are those of Accounts.ActivateUser on the old table |
| AccountServices.UserService.IsUserRegistered | backend/src/main/java/secretstuffs/application/services/UserService.java:45-47 | the result is Accounts.IsUserRegistered of the repository |
| AccountServices.UserService.IsUserActive | backend/src/main/java/secretstuffs/application/services/UserService.java:49-56 | the result is Accounts.IsUserActive of the repository |
| AccountServices.UserService.UpdateUserByEmail | backend/src/main/java/secretstuffs/application/services/UserService.java:58-65 | result and new table are those of Accounts.UpdateUserByEmail |
| AccountServices.UserService.DeleteUserByEmail | backend/src/main/java/secretstuffs/application/services/UserService.java:71-75 | result and new table are those of Accounts.DeleteUserByEmail |
| AccountServices.UserService.ChangePassword | backend/src/main/java/secretstuffs/application/services/UserService.java:83-98 | result and new table are those of Accounts.ChangePassword |
| AccountServices.UserService.GetUserById | backend/src/main/java/secretstuffs/application/services/UserService.java:122-128 | the result is Accounts.GetUserById of the repository |
| AccountServices.AuthService.AuthenticateUser | backend/src/main/java/secretstuffs/application/services/AuthService.java:46-51 | the result is Accounts.AuthenticateUser of the stores, which change not |
| AccountServices.AuthService.RegisterUser | backend/src/main/java/secretstuffs/application/services/AuthService.java:53-70 | result and new stores are those of Accounts.RegisterUser |
| AccountServices.AuthService.ForgotPassword | backend/src/main/java/secretstuffs/application/services/AuthService.java:122-133 | result and new stores are those of Accounts.ForgotPassword |
| AccountServices.AuthService.ResetPassword | backend/src/main/java/secretstuffs/application/services/AuthService.java:135-146 | result and new stores are those of Accounts.ResetPassword |
| AccountServices.AuthCommandHandler.Login | backend/src/main/java/secretstuffs/application/useCases/auth/AuthCommandHandler.java:23-25 | the result is Accounts.AuthenticateUser of the stores |
| AccountServices.AuthCommandHandler.Register | backend/src/main/java/secretstuffs/application/useCases/auth/AuthCommandHandler.java:27-31 | result and new stores are those of Accounts.Register |
| AccountServices.AuthCommandHandler.VerifyEmailToken | backend/src/main/java/secretstuffs/application/useCases/auth/AuthCommandHandler.java:33-40 | result and new stores are those of Accounts.VerifyEmailToken |
| AccountServices.AuthCommandHandler.ResendVerificationEmail | backend/src/main/java/secretstuffs/application/useCases/auth/AuthCommandHandler.java:42-48 | result and new stores are those of Accounts.ResendVerificationEmail |
| AccountServices.AuthCommandHandler.SendVerificationEmail | backend/src/main/java/secretstuffs/application/useCases/auth/AuthCommandHandler.java:50-57 | the new stores are Accounts.SendVerificationEmail of the old |
| Enums.FirstIgnoringCase | backend/src/main/java/secretstuffs/domain/enums/CategoryEnum.java:41-43 | the index of the first name equal to the value ignoring case; none when no name is |
| Enums.ConstantNameMatch | backend/src/main/java/secretstuffs/domain/enums/CategoryEnum.java:42 | a case variant of a constant name equals, ignoring case, that name and no other |
| Enums.FindsCaseVariant | backend/src/main/java/secretstuffs/domain/enums/CategoryEnum.java:41-43 | among distinct constant names, any case variant of the i-th is found at i |
| Enums.SpaceNeverMatches | backend/src/main/java/secretstuffs/domain/enums/CategoryEnum.java:42 | no constant name matches a value containing a space |
| Enums.EmptyNeverMatches | backend/src/main/java/secretstuffs/domain/validation/EnumValidatorImpl.java:23-29 | no non-empty name matches the empty string |
| Enums.CategoryNamesWellFormed | backend/src/main/java/secretstuffs/domain/enums/CategoryEnum.java:9-25 | the 17 category names are distinct, non-empty constant names |
| Enums.CategoryFromString | backend/src/main/java/secretstuffs/domain/enums/CategoryEnum.java:40-45 | the constant whose name equals the value ignoring case, or IllegalArgumentException("Invalid category: " + value) |
| Enums.CategoryFromStringIgnoresCase | backend/src/main/java/secretstuffs/domain/enums/CategoryEnum.java:40-45 | every constant is found by its name in any mix of cases |
| Enums.CategoryRoundTrip | backend/src/main/java/secretstuffs/domain/enums/CategoryEnum.java:40-45 | fromString(c.name()) is c for all 17 constants |
| Enums.CategoryLabelWithSpaceRejected | backend/src/main/java/secretstuffs/domain/enums/CategoryEnum.java:9-25 | a label with a space, such as "Sports Equipment", is refused |
| Enums.CategoryRefusals | backend/src/main/java/secretstuffs/domain/enums/CategoryEnum.java:25 | "Miscellaneous", the label of MISC, is refused, and null gives "Invalid category: null" |
| Enums.CategoryRefusesEmpty | backend/src/main/java/secretstuffs/domain/enums/CategoryEnum.java:44 | the empty string is refused with "Invalid category: " |
| Enums.CategoryOneWordLabel | backend/src/main/java/secretstuffs/domain/enums/CategoryEnum.java:40-45 | "Furniture" is FURNITURE |
| Enums.ConditionNamesWellFormed | backend/src/main/java/secretstuffs/domain/enums/ConditionEnum.java:9-14 | the six condition names are distinct, non-empty constant names |
| Enums.ConditionIsValidIff | backend/src/main/java/secretstuffs/domain/enums/ConditionEnum.java:28-31 | isValid holds exactly for a non-null value equal to some name ignoring case; null is invalid |
| Enums.ConditionExamples | backend/src/main/java/secretstuffs/domain/enums/ConditionEnum.java:9-31 | every name in any case is valid; null, the empty string and "Brand New" are not |
| Enums.DonationStatusNamesWellFormed | backend/src/main/java/secretstuffs/domain/enums/DonationEnum.java:9-11 | the three status names are distinct, non-empty constant names |
| Enums.DonationStatusFromString | backend/src/main/java/secretstuffs/domain/enums/DonationEnum.java:26-31 | the status whose name equals the value ignoring case, or IllegalArgumentException("Invalid donation status: " + value) |
| Enums.DonationStatusFromStringIgnoresCase | backend/src/main/java/secretstuffs/domain/enums/DonationEnum.java:9-31 | each status is found by its name in any case; descriptions such as "Pending Approval", null and the empty string are refused |
| Enums.EnumClass.ConstantNames | backend/src/main/java/secretstuffs/domain/validation/EnumValidatorImpl.java:13-15 | the names of an enum class's constants are distinct, non-empty constant names |
| Enums.EnumValidator.Initialize | backend/src/main/java/secretstuffs/domain/validation/EnumValidatorImpl.java:12-16 | enumValues becomes exactly the constant names, in declaration order |
| Enums.EnumValidator.IsValid | backend/src/main/java/secretstuffs/domain/validation/EnumValidatorImpl.java:19-29 | null is valid; otherwise valid exactly when some stored name equals the value ignoring case |
| Enums.ValidatorAfterInitialize | backend/src/main/java/secretstuffs/domain/validation/EnumValidatorImpl.java:12-29 | after initialize the validator holds the constant names and accepts null and every case variant of a name, and refuses the empty string |
| ItemPosts.IndexOf | backend/src/main/java/secretstuffs/infrastructure/repositories/ItemPostRepository.java:14 | the position of the first row with that id, or none when no row has it |
| ItemPosts.FindByIdUnique | backend/src/main/java/secretstuffs/application/services/ItemPostService.java:38-41 | in a valid table the row with an id is the one findById returns |
| ItemPosts.GetItemByIdOutcomes | backend/src/main/java/secretstuffs/application/services/ItemPostService.java:34-43 | ERR_400 exactly for a negative id, before any lookup; ERR_404 for an absent non-negative id; otherwise the row; id 0 passes the sign check |
| ItemPosts.UserNotFoundTwoWays | backend/src/main/java/secretstuffs/application/services/ItemPostService.java:78-86 | createItem's USER_NOT_FOUND has code and message in their own slots, unlike UserException's |
| ItemPosts.CreateItemUnknownUser | backend/src/main/java/secretstuffs/application/services/ItemPostService.java:45-47 | an author with no user fails with USER_NOT_FOUND / 404 and stores nothing |
| ItemPosts.CreateItemStoresActivePost | backend/src/main/java/secretstuffs/application/services/ItemPostService.java:94-116 | one ACTIVE post with a fresh id and the command's fields is appended, and the response echoes them |
| ItemPosts.FetchedPostsLinkBack | backend/src/main/java/secretstuffs/application/services/ItemPostService.java:118-129 | one response per post, and each response's id finds back, in a valid table, exactly the post it was built from |
| ItemPosts.PostsByEmailExact | backend/src/main/java/secretstuffs/application/services/ItemPostService.java:52-57 | exactly the posts with that e-mail, each once, in table order |
| ItemPosts.RowsOccurOnce | backend/src/main/java/secretstuffs/infrastructure/repositories/ItemPostRepository.java:12 | in a valid table every row occurs once |
| ItemPosts.ActivePostsExact | backend/src/main/java/secretstuffs/application/services/ItemPostService.java:66-71 | exactly the responses of the ACTIVE posts, in table order |
| ItemPosts.DeleteRemovesExactly | backend/src/main/java/secretstuffs/application/services/ItemPostService.java:73-76 | an absent id throws and deletes nothing; otherwise the row with the id goes and all others stay in order |
| ItemPosts.FilterKeepsValid | backend/src/main/java/secretstuffs/application/services/ItemPostService.java:75 | removing rows keeps ids unique and below the generator |
| ItemPosts.UpdateChangesOnlyThatPost | backend/src/main/java/secretstuffs/application/services/ItemPostService.java:131-145 | an absent id throws with no change; otherwise only title, description, address, condition and category of that row change |
| ItemPosts.OperationsKeepValid | backend/src/main/java/secretstuffs/application/services/ItemPostService.java:45-145 | create, delete and update keep ids unique and below the generator |
| ItemPostServices.ItemPostRepository.FindById | backend/src/main/java/secretstuffs/application/services/ItemPostService.java:38 | the result is ItemPosts.FindById of the table |
| ItemPostServices.ItemPostRepository.ExistsById | backend/src/main/java/secretstuffs/infrastructure/repositories/ItemPostRepository.java:14 | the result is ItemPosts.ExistsById of the table |
| ItemPostServices.ItemPostRepository.FindAllByEmail | backend/src/main/java/secretstuffs/infrastructure/repositories/ItemPostRepository.java:12 | exactly the stored rows with that e-mail, as the proved filter keeps them |
| ItemPostServices.ItemPostRepository.FindAllByStatus | backend/src/main/java/secretstuffs/infrastructure/repositories/ItemPostRepository.java:13 | exactly the stored rows with that status, as the proved filter keeps them |
| ItemPostServices.ItemPostService.GetItemById | backend/src/main/java/secretstuffs/application/services/ItemPostService.java:34-43 | the result is ItemPosts.GetItemById of the table, and a found post is a stored row with that id |
| ItemPostServices.ItemPostService.CreateItem | backend/src/main/java/secretstuffs/application/services/ItemPostService.java:45-50 | result and new table are those of ItemPosts.CreateItem |
| ItemPostServices.ItemPostService.GetAllPostsByEmail | backend/src/main/java/secretstuffs/application/services/ItemPostService.java:52-57 | the result is ItemPosts.GetAllPostsByEmail of the table |
| ItemPostServices.ItemPostService.GetAllActivePosts | backend/src/main/java/secretstuffs/application/services/ItemPostService.java:66-71 | the result is ItemPosts.GetAllActivePosts of the table |
| ItemPostServices.ItemPostService.DeleteItemPost | backend/src/main/java/secretstuffs/application/services/ItemPostService.java:73-76 | result and new table are those of ItemPosts.DeleteItemPost |
| ItemPostServices.ItemPostService.UpdateItemPost | backend/src/main/java/secretstuffs/application/services/ItemPostService.java:131-145 | the new table and outcome are those of ItemPosts.UpdateItemPost, and success returns the command itself |
| Requests.ChangePasswordCommandValidIff | backend/src/main/java/secretstuffs/domain/dtos/commands/user/ChangePasswordCommand.java:16-29 | valid exactly when e-mail, old and new passwords are non-empty and the confirmation equals the new one; a null field gives false |
| Requests.ChangePasswordRequestValidIff | backend/src/main/java/secretstuffs/domain/models/requests/user/ChangePasswordRequestDTO.java:28-40 | valid exactly when both passwords are non-empty and the confirmation equals the new one; a valid request makes a valid command |
| Requests.UpdateFieldsValidity | backend/src/main/java/secretstuffs/domain/dtos/commands/itemPost/UpdateItemPostCommand.java:20-34 | valid exactly when the id is positive, title and address are non-empty and both enums are present; id 0 is invalid; the description is not checked |
| Requests.UpdateItemPostCommand.SetPostId | backend/src/main/java/secretstuffs/domain/dtos/commands/itemPost/UpdateItemPostCommand.java:36-38 | only the id changes |
| Donations.NewDonationSavedAndFound | backend/src/main/java/secretstuffs/domain/entities/Donation.java:34-36 | a new donation for a pair not yet offered is saved PENDING under the next id, carries the pair, and the pair's lookup then returns it |
| Donations.IndexOfPair | backend/src/main/java/secretstuffs/infrastructure/repositories/DonationRepository.java:14 | the position of the first donation of the pair, or none |
| Donations.FindDonationById | backend/src/main/java/secretstuffs/infrastructure/repositories/DonationRepository.java:15 | a stored donation with that id, or none when no donation has it |
| Donations.SaveValidationOrder | backend/src/main/java/secretstuffs/application/services/DonationService.java:46-56 | save(null) fails with "Donation cannot be null"; the user is checked before the item post; nothing is stored |
| Donations.SaveRefusesDuplicate | backend/src/main/java/secretstuffs/application/services/DonationService.java:58-65 | a donation for a stored pair is refused with the duplicate message and the table is unchanged |
| Donations.SaveAddsExactlyOne | backend/src/main/java/secretstuffs/application/services/DonationService.java:23-27 | a valid donation for a new pair is appended with a generated id and keeps its status, PENDING for a new one |
| Donations.SaveKeepsValid | backend/src/main/java/secretstuffs/application/services/DonationService.java:23-27 | every save keeps ids unique and at most one donation per pair |
| Donations.DonateAcceptsOnlyThatPair | backend/src/main/java/secretstuffs/application/services/DonationService.java:29-36 | no donation for the pair fails with "Donation not found"; otherwise only that donation becomes ACCEPTED and nothing becomes REJECTED |
| Donations.DonateIdempotent | backend/src/main/java/secretstuffs/application/services/DonationService.java:34-35 | donate keeps the table valid and a second donate changes nothing more |
| Donations.PairIndexUnique | backend/src/main/java/secretstuffs/application/services/DonationService.java:58-65 | in a valid table a donation of the pair is the one the lookup finds |
| Donations.GettersExact | backend/src/main/java/secretstuffs/application/services/DonationService.java:38-44 | exactly the donations with the matching user or item post id, in table order, each as often as stored |
| DonationServices.DonationRepository.FindById | backend/src/main/java/secretstuffs/infrastructure/repositories/DonationRepository.java:15 | the result is Donations.FindDonationById of the rows |
| DonationServices.DonationRepository.FindByUserIdAndItemPostId | backend/src/main/java/secretstuffs/infrastructure/repositories/DonationRepository.java:14 | the result is Donations.FindByPair of the table |
| DonationServices.DonationRepository.FindByUserId | backend/src/main/java/secretstuffs/infrastructure/repositories/DonationRepository.java:12 | exactly the stored donations of that user, as Donations.DonationsByUserId gives them |
| DonationServices.DonationRepository.FindByItemPostId | backend/src/main/java/secretstuffs/infrastructure/repositories/DonationRepository.java:13 | exactly the stored donations for that item post, as Donations.DonationsByItemPostId gives them |
| DonationServices.DonationService.GetDonationById | backend/src/main/java/secretstuffs/application/services/DonationService.java:19-21 | the stored donation with that id, if any |
| DonationServices.DonationService.Save | backend/src/main/java/secretstuffs/application/services/DonationService.java:23-27 | result and new table are those of Donations.Save |
| DonationServices.DonationService.Donate | backend/src/main/java/secretstuffs/application/services/DonationService.java:29-36 | result and new table are those of Donations.Donate |
| DonationServices.DonationService.GetDonationsByUserId | backend/src/main/java/secretstuffs/application/services/DonationService.java:38-40 | the result is Donations.DonationsByUserId of the table |
| DonationServices.DonationService.GetDonationsByItemPostId | backend/src/main/java/secretstuffs/application/services/DonationService.java:42-44 | the result is Donations.DonationsByItemPostId of the table |
| Chat.ChatRoom.IsParticipant | backend/src/main/java/secretstuffs/domain/entities/ChatRoom.java:35-37 | the sender and the recipient take part, and nobody else does |
| Chat.ParticipantsAreTheTwoEnds | backend/src/main/java/secretstuffs/domain/entities/ChatRoom.java:35-37 | sender and recipient take part, nobody else does, and swapping them or changing the chat id changes nothing |
| Chat.FindBySenderIdAndRecipientId | backend/src/main/java/secretstuffs/infrastructure/repositories/ChatRoomRepository.java:15 | a stored row with exactly that sender and recipient, or none when no row has them |
| Chat.Distinct | backend/src/main/java/secretstuffs/infrastructure/repositories/ChatRoomRepository.java:18 | DISTINCT keeps every value, once |
| Chat.FindUniqueRecipientsBySenderId | backend/src/main/java/secretstuffs/infrastructure/repositories/ChatRoomRepository.java:18-19 | no more recipients than rows, and every recipient named has a chat room with the sender |
| Chat.ExistsBySenderAndRecipient | backend/src/main/java/secretstuffs/infrastructure/repositories/ChatRoomRepository.java:22-26 | for two different users, exists holds exactly when some chat room has both of them as participants |
| Chat.UniqueRecipientsExact | backend/src/main/java/secretstuffs/infrastructure/repositories/ChatRoomRepository.java:18-19 | the recipients of the sender's rows, each once, and nothing else |
| Chat.ExistsIsSymmetric | backend/src/main/java/secretstuffs/infrastructure/repositories/ChatRoomRepository.java:22-26 | exists holds exactly when a row is (a, b) or (b, a), and is symmetric in its arguments |
| Chat.LookupIsDirectional | backend/src/main/java/secretstuffs/infrastructure/repositories/ChatRoomRepository.java:15 | a lone row (b, a) makes the pair exist but does not answer the lookup (a, b) |
| ItemDetails.DetermineUserItemStatus | frontend/src/components/item-details.tsx:34-51 | the answer is never empty; once a donation is ACCEPTED it is ACCEPTED or REJECTED; otherwise it is REJECTED, AVAILABLE or the status of one of the user's own donations |
| ItemDetails.FindByUser | frontend/src/components/item-details.tsx:47 | the first donation of the current user, or none when they have none |
| ItemDetails.MarkingKeepsFind | frontend/src/components/item-details.tsx:40-47 | relabelling the statuses does not move the current user's first donation |
| ItemDetails.StatusWithoutOwnDonation | frontend/src/components/item-details.tsx:50 | with no donation of the current user: REJECTED once one is ACCEPTED, AVAILABLE otherwise |
| ItemDetails.StatusOnceAccepted | frontend/src/components/item-details.tsx:36-47 | once some donation is ACCEPTED the user's first donation decides: ACCEPTED if it is accepted, REJECTED otherwise |
| ItemDetails.StatusBeforeAcceptance | frontend/src/components/item-details.tsx:47-50 | while nothing is ACCEPTED the user's first donation shows its non-empty status, e.g. PENDING, and AVAILABLE when null or empty |
| ItemDetails.NullStatusFallsBack | frontend/src/components/item-details.tsx:50 | a null status on the user's donation gives the default |
| Timeline.Insert | frontend/src/layout/home/index.tsx:64-68 | insertion adds exactly the one post to the multiset |
| Timeline.SortByCreatedAt | frontend/src/layout/item/user-specific-post.tsx:116-120 | sorting is a permutation of its input |
| Timeline.InsertKeepsSorted | frontend/src/layout/home/index.tsx:64-68 | inserting into a sorted list keeps it sorted |
| Timeline.SortIsSorted | frontend/src/layout/item/user-specific-post.tsx:116-120 | the sorted list is ordered by the comparator |
| Timeline.FilteredPosts | frontend/src/layout/home/index.tsx:57-68 | at most as many posts as the input, each of them an input post passing search, category and condition |
| Timeline.FilteredPostsExact | frontend/src/layout/home/index.tsx:57-63 | exactly the posts passing search, category and condition, each as often as in the input |
| Timeline.FilteredPostsOrdered | frontend/src/layout/home/index.tsx:64-68 | "newest" gives non-increasing creation times, any other value non-decreasing, a missing time counting as 0 |
| Timeline.SearchRule | frontend/src/layout/item/user-specific-post.tsx:105-107 | the search ignores case on both sides, excludes untitled posts and, when empty, passes every titled post |
| Timeline.UnsetFiltersAcceptAll | frontend/src/layout/item/user-specific-post.tsx:108-113 | a null or empty filter accepts every post on its dimension; a set one only an equal value |
| ChatLayout.FilteredUsers | frontend/src/layout/chat/chat-layout.tsx:83-86 | at most as many users as the input, each an input user whose lowercased name includes the lowercased term |
| ChatLayout.FilteredUsersExact | frontend/src/layout/chat/chat-layout.tsx:83-86 | the users whose lowercased name includes the lowercased term, in their order, each occurrence kept |
| ChatLayout.EmptyTermKeepsAll | frontend/src/layout/chat/chat-layout.tsx:84 | an empty search term keeps every user |
| Uploads.TrimFileList | frontend/src/components/forms/create-post.tsx:84 | the list has min(5, n) entries |
| Uploads.TrimFileListKeepsLastFive | frontend/src/components/forms/create-post.tsx:84-87 | the entries are the last five in order, only their status changed to done; trimming again changes nothing |
| Uploads.CreatePostBeforeUpload | frontend/src/components/forms/create-post.tsx:91-101 | accepts exactly a file whose type starts with "image/" and whose size is below 2 MiB |
| Uploads.ProfileBeforeUpload | frontend/src/components/forms/profile.tsx:41-55 | accepts exactly a JPEG or PNG file below 2 MiB |
| Uploads.ProfileUploadIsStricter | frontend/src/components/forms/profile.tsx:41-55 | the profile form accepts exactly JPEG or PNG below 2 MiB, and all it accepts the create-post form accepts |
| Uploads.UploadChecksDiffer | frontend/src/components/forms/create-post.tsx:91-101 | a GIF below 2 MiB passes the create-post check and never the profile one; exactly 2 MiB passes neither |

## Left out

- Jwt: the clock is one `now` per call; `isTokenExpired` reads it twice in the source, a difference of microseconds that is not modelled.
- Jwt: additional claim values, a `Map<String, Object>` in the source, are modelled as strings.
- Jwt.UnreadableNotBefore: of the "nbf" texts jjwt can read as a date, only a decimal number of seconds is modelled; an ISO-8601 date text counts as unreadable.
- Jwt.ExpiryIsMonotone: does not cover a token refused only because its "nbf" instant has not come, since that token becomes valid later (Jwt.PrematureTokenMatures).
- Jwt: the compact text encoding, signature bytes and jjwt's key-strength checks are abstracted to a token value carrying its key.
- Accounts.EncryptPassword: BCrypt reads only the first 72 bytes of a password's UTF-8 encoding (recent Spring Security versions refuse to encode longer ones), while the model's hash matches exactly the password it was made from. So Accounts.LoginCheckOrder, Accounts.RegisterAddsOneInactiveUser, Accounts.ChangePasswordOrder and Accounts.ResetPasswordSingleUse describe the source only for passwords of at most 72 bytes.
- Accounts.GetUserById: requires user ids to be distinct. The primary key guarantees this in the database.
- Accounts.ForgotPassword: requires the generated UUID to be new to the token table. `UUID.randomUUID()` is assumed not to collide.
- Mail templates, SMTP delivery and its failures are not modelled. A sent mail is its recipient and its link.
- Controllers and request binding are not part of this model, nor are bean validation annotations such as `@NotBlank` and `@Email`.
- JPA sessions, transactions and concurrent requests are not modelled, and neither are the entity timestamps: User's `@PrePersist` callback and Donation's Hibernate `@CreationTimestamp`/`@UpdateTimestamp` fields.
- `UserService.getUserProfileByEmail`, `UserService.getAllUsers` and `ItemPostService.getAllPosts` are not modelled. They are plain projections of a table with no rule of their own.
- The source of `ItemPostStatusEnum` is not part of this model. Its constants are taken to be ACTIVE, INACTIVE and DONATED.
- ItemPostServices.ItemPostService.UpdateItemPost: requires the command's id to be set. The controller always sets it from the path before calling.
- Donations.Save: models only saving a donation that has no id yet. A merge of an existing entity through `save` is not modelled.
- Query results of Spring Data repositories are given in insertion order. SQL without ORDER BY promises no order.
- Chat.FindBySenderIdAndRecipientId: with several rows for one direction the first is returned, where Spring Data would fail on a non-unique result.
- Chat.FindUniqueRecipientsBySenderId: the `Optional` around the list is always present and is left out.
- The sources of `ChatRoomService` and `ChatMessageService` are not part of this model. Only the repository queries and the entity are.
- Timeline: `new Date(...)` parsing is reduced to an optional millisecond value, and a missing or unparsable date counts as 0. NaN ordering is not modelled.
- Text.ToLowerAscii: `toLowerCase` is modelled on ASCII letters only.
- Timeline.SortByCreatedAt: sortedness and permutation are proved. Stability, which `Array.prototype.sort` guarantees, is not.
- React state updates, `message.error` notifications and the preview rendering of the forms are not modelled. Upload checks are modelled as the value `beforeUpload` returns.
