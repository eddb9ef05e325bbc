/** The account and credential workflow of AuthService, UserService and
    AuthCommandHandler, as a state machine over the stores they share: users keyed
    by their (unique) e-mail, password-reset tokens keyed by their (unique) token
    string, and the mail handed to EmailService. Each operation is a function from
    the store before to a result (a value or a UserException kind) and the store after. */
module Accounts {
  import opened Outcomes
  import opened Errors
  import opened Jwt
  import opened VerificationTokens

  /** AuthService.TOKEN_EXPIRATION_TIME_MS: the expiresAt reported at login and registration. */
  const LoginExpiryMs: int := 3600 * 1000

  /** forgotPassword: a reset token expires LocalDateTime.now().plusHours(1). */
  const ResetTokenLifetimeMs: int := 60 * 60 * 1000

  /** The path and query parameter of sendVerificationEmail's link. */
  const VerifyEmailPath: string := "/api/auth/verify-email"
  const TokenQueryParam: string := "token"

  /** The path forgotPassword puts in front of the reset token. */
  const ResetPasswordPath: string := "/reset-password/"

  // ---------------------------------------------------------------------------
  // AuthHelper: BCrypt
  // ---------------------------------------------------------------------------

  /** A BCrypt hash. The encoder draws a random salt for every encoding, which
      `salt` stands for; the raw password is kept only so that `Matches` can be
      stated, and no operation reads it otherwise. */
  datatype Hash = BCrypt(salt: nat, raw: string)

  /** AuthHelper.encryptPassword. */
  function EncryptPassword(raw: string, salt: nat): (h: Hash)
    ensures Matches(raw, h)
    ensures forall other :: other != raw ==> !Matches(other, h)
  {
    BCrypt(salt, raw)
  }

  /** AuthHelper.passwordMatches: holds only for the raw password that was encoded
      (BCrypt's 72-byte input limit is not modelled). */
  predicate Matches(raw: string, h: Hash) {
    h.raw == raw
  }

  // ---------------------------------------------------------------------------
  // Entities, commands, responses and mail
  // ---------------------------------------------------------------------------

  /** The User entity; the timestamps are not modelled. */
  datatype User = User(id: int, firstName: string, lastName: string, email: string,
                       password: Hash, profileImageUrl: Option<string>, active: bool)

  datatype RegisterCommand = RegisterCommand(firstName: string, lastName: string, email: string,
                                             password: string, profileImageUrl: Option<string>)

  datatype UpdateUserDetailsCommand = UpdateUserDetailsCommand(email: string, firstName: string, lastName: string,
                                                               profileImageUrl: Option<string>)

  /** ChangePasswordCommand as it reaches the service, after the controller's
      bean validation has rejected null fields. */
  datatype PasswordChange = PasswordChange(email: string, oldPassword: string, newPassword: string, confirmPassword: string)

  datatype LoginResponse = LoginResponse(token: Token, expiresAt: int, email: string, id: int)

  datatype RegisterResponse = RegisterResponse(email: string, profileImageUrl: Option<string>, active: bool,
                                               token: Token, expiresAt: int)

  datatype UpdateUserResponse = UpdateUserResponse(email: string, firstName: string, lastName: string,
                                                   profileImageUrl: Option<string>)

  /** ApiResponseDTO<String>(message, status, data). */
  datatype ApiResponse = ApiResponse(message: string, status: int, data: string)

  /** The verification link: context path, path, and the token as query parameter. */
  datatype VerificationLink = VerificationLink(contextPath: string, path: string, queryParam: string, token: Token)

  /** What EmailService was asked to send. */
  datatype Mail =
    | VerificationMail(recipient: string, link: VerificationLink)
    | ResetMail(recipient: string, resetLink: string)

  /** The deployment: the JWT helper with its secret, and the servlet context path
      that links start with. */
  datatype Config = Config(jwt: JwtHelper, contextPath: string)

  /** The users (keyed by e-mail, the unique column), the next IDENTITY value, the
      reset tokens (keyed by token string, the unique column) and the sent mail. */
  datatype Store = Store(users: map<string, User>, nextId: int,
                         resetTokens: map<string, VerificationToken>, outbox: seq<Mail>)

  /** The result of an operation and the store it leaves behind. */
  datatype Step<T> = Step(result: Result<T, UserError>, store: Store)

  predicate IdsUnique(users: map<string, User>) {
    forall e1, e2 :: e1 in users && e2 in users && users[e1].id == users[e2].id ==> e1 == e2
  }

  /** The database constraints: every key is its record's unique column, and ids
      are distinct and below the next IDENTITY value. */
  predicate Valid(s: Store) {
    && s.nextId >= 1
    && (forall e :: e in s.users ==> s.users[e].email == e && 1 <= s.users[e].id < s.nextId)
    && IdsUnique(s.users)
    && (forall t :: t in s.resetTokens ==> s.resetTokens[t].token == t)
  }

  /** The store of a fresh deployment. */
  const Empty: Store := Store(map[], 1, map[], [])

  // ---------------------------------------------------------------------------
  // UserService
  // ---------------------------------------------------------------------------

  /** findUserByEmail (also AuthService's private copy). */
  function FindUserByEmail(s: Store, email: string): (r: Result<User, UserError>)
    ensures r.Success? <==> email in s.users
    ensures r.Success? ==> r.value == s.users[email]
    ensures r.Failure? ==> r.error == UserNotFound(email)
  {
    if email in s.users then Success(s.users[email]) else Failure(UserNotFound(email))
  }

  /** activateUser: sets `active` on an inactive user; an active one is an error. */
  function ActivateUser(s: Store, email: string): Step<()> {
    match FindUserByEmail(s, email)
    case Failure(e) => Step(Failure(e), s)
    case Success(user) =>
      if !user.active then Step(Success(()), s.(users := s.users[email := user.(active := true)]))
      else Step(Failure(UserAlreadyActive), s)
  }

  /** isUserRegistered. */
  predicate IsUserRegistered(s: Store, email: string) {
    FindUserByEmail(s, email).Success?
  }

  /** isUserActive: the stored flag; an unknown e-mail is an error, not false. */
  function IsUserActive(s: Store, email: string): (r: Result<bool, UserError>)
    ensures r.Success? <==> IsUserRegistered(s, email)
  {
    match FindUserByEmail(s, email)
    case Failure(e) => Failure(e)
    case Success(user) => Success(user.active)
  }

  /** updateUserByEmail: the three profile setters, then save. */
  function UpdateUserByEmail(s: Store, command: UpdateUserDetailsCommand): Step<UpdateUserResponse> {
    match FindUserByEmail(s, command.email)
    case Failure(e) => Step(Failure(e), s)
    case Success(user) =>
      var updated := user.(profileImageUrl := command.profileImageUrl, firstName := command.firstName,
                           lastName := command.lastName);
      Step(Success(UpdateUserResponse(updated.email, updated.firstName, updated.lastName, updated.profileImageUrl)),
           s.(users := s.users[command.email := updated]))
  }

  /** deleteUserByEmail. */
  function DeleteUserByEmail(s: Store, email: string): Step<()> {
    match FindUserByEmail(s, email)
    case Failure(e) => Step(Failure(e), s)
    case Success(_) => Step(Success(()), s.(users := s.users - {email}))
  }

  /** changePassword: the old password is checked before new and confirm are compared. */
  function ChangePassword(s: Store, command: PasswordChange, salt: nat): Step<()> {
    match FindUserByEmail(s, command.email)
    case Failure(e) => Step(Failure(e), s)
    case Success(user) =>
      if !Matches(command.oldPassword, user.password) then Step(Failure(InvalidOldPassword), s)
      else if command.newPassword != command.confirmPassword then Step(Failure(PasswordsDoNotMatch), s)
      else Step(Success(()), s.(users := s.users[command.email := user.(password := EncryptPassword(command.newPassword, salt))]))
  }

  /** The user whose primary key is `id`, if any. */
  function UserWithId(users: map<string, User>, id: int): (r: Option<User>)
    requires IdsUnique(users)
    ensures r.Some? <==> exists e :: e in users && users[e].id == id
    ensures r.Some? ==> r.value in users.Values && r.value.id == id
  {
    if exists e :: e in users && users[e].id == id then
      var e :| e in users && users[e].id == id;
      Some(users[e])
    else
      None
  }

  /** getUserById. */
  function GetUserById(s: Store, id: int): (r: Result<User, UserError>)
    requires IdsUnique(s.users)
    ensures r.Success? ==> r.value in s.users.Values && r.value.id == id
    ensures r.Failure? ==> r.error == UserNotFoundById(id) && forall e :: e in s.users ==> s.users[e].id != id
  {
    match UserWithId(s.users, id)
    case None => Failure(UserNotFoundById(id))
    case Some(user) => Success(user)
  }

  // ---------------------------------------------------------------------------
  // AuthService
  // ---------------------------------------------------------------------------

  /** buildLoginResponse: a session token for the e-mail, and an expiresAt one hour on. */
  function BuildLoginResponse(jwt: JwtHelper, user: User, now: nat): LoginResponse {
    LoginResponse(jwt.GenerateToken(user.email, now), now + LoginExpiryMs, user.email, user.id)
  }

  /** authenticateUser: existence, then activation, then the password. */
  function AuthenticateUser(s: Store, jwt: JwtHelper, email: string, password: string, now: nat): Result<LoginResponse, UserError> {
    var user :- FindUserByEmail(s, email);
    if !user.active then Failure(UserNotVerified)
    else if !Matches(password, user.password) then Failure(InvalidCredentials)
    else Success(BuildLoginResponse(jwt, user, now))
  }

  /** registerUser: ensureEmailIsUnique, then save an inactive user holding the hash. */
  function RegisterUser(s: Store, jwt: JwtHelper, command: RegisterCommand, salt: nat, now: nat): Step<RegisterResponse> {
    if command.email in s.users then Step(Failure(EmailAlreadyTaken), s)
    else
      var user := User(s.nextId, command.firstName, command.lastName, command.email,
                       EncryptPassword(command.password, salt), command.profileImageUrl, false);
      Step(Success(RegisterResponse(user.email, user.profileImageUrl, user.active,
                                    jwt.GenerateToken(user.email, now), now + LoginExpiryMs)),
           s.(users := s.users[user.email := user], nextId := s.nextId + 1))
  }

  /** forgotPassword: stores a reset token for the address, whether or not a user
      has it, and mails the link. `uuid` is UUID.randomUUID(), new to the store. */
  function ForgotPassword(s: Store, config: Config, email: string, uuid: string, now: int): Step<ApiResponse>
    requires uuid !in s.resetTokens
  {
    var token := VerificationToken(uuid, email, now + ResetTokenLifetimeMs);
    Step(Success(ApiResponse("Password reset email sent!", 200, "Success")),
         s.(resetTokens := s.resetTokens[uuid := token],
            outbox := s.outbox + [ResetMail(email, config.contextPath + ResetPasswordPath + uuid)]))
  }

  /** resetPassword: a known token, not expired, of an existing user; the new hash
      is saved and the token deleted. */
  function ResetPassword(s: Store, token: string, newPassword: string, salt: nat, now: int): Step<ApiResponse> {
    if token !in s.resetTokens then Step(Failure(InvalidToken), s)
    else
      var record := s.resetTokens[token];
      if record.expiryDate < now then Step(Failure(ExpiredToken), s)
      else match FindUserByEmail(s, record.userEmail)
        case Failure(e) => Step(Failure(e), s)
        case Success(user) =>
          Step(Success(ApiResponse("Password successfully reset.", 200, "Success")),
               s.(users := s.users[record.userEmail := user.(password := EncryptPassword(newPassword, salt))],
                  resetTokens := s.resetTokens - {token}))
  }

  // ---------------------------------------------------------------------------
  // AuthCommandHandler
  // ---------------------------------------------------------------------------

  /** sendVerificationEmail: mints a token for the address and mails its link. */
  function SendVerificationEmail(s: Store, config: Config, email: string, now: nat): (s': Store)
    ensures s'.users == s.users && s'.resetTokens == s.resetTokens && s'.nextId == s.nextId
    ensures |s'.outbox| == |s.outbox| + 1 && s'.outbox[..|s.outbox|] == s.outbox
    ensures s'.outbox[|s.outbox|].recipient == email
  {
    var token := VerificationTokenService(config.jwt).CreateToken(email, now);
    s.(outbox := s.outbox + [VerificationMail(email, VerificationLink(config.contextPath, VerifyEmailPath, TokenQueryParam, token))])
  }

  /** register: registerUser, then the verification mail. */
  function Register(s: Store, config: Config, command: RegisterCommand, salt: nat, now: nat): Step<RegisterResponse> {
    var step := RegisterUser(s, config.jwt, command, salt, now);
    if step.result.Failure? then step
    else Step(step.result, SendVerificationEmail(step.store, config, command.email, now))
  }

  /** verifyEmailToken: the e-mail is extracted first; a token that verifies
      activates it, and activation errors propagate. A valid token without a
      subject looks up the null e-mail, which no user has. */
  function VerifyEmailToken(s: Store, config: Config, token: Token, now: int): Step<bool> {
    var service := VerificationTokenService(config.jwt);
    var email := service.ExtractEmailFromToken(token, now);
    if service.VerifyToken(token, now) then
      match email
      case None => Step(Failure(UserNotFound("null")), s)
      case Some(address) =>
        var activation := ActivateUser(s, address);
        match activation.result
        case Failure(e) => Step(Failure(e), activation.store)
        case Success(_) => Step(Success(true), activation.store)
    else
      Step(Success(false), s)
  }

  /** resendVerificationEmail: only for a registered user that is not active;
      the `&&` keeps isUserActive from throwing for an unknown address. */
  function ResendVerificationEmail(s: Store, config: Config, email: string, now: nat): Step<bool> {
    if IsUserRegistered(s, email) && !IsUserActive(s, email).value then
      Step(Success(true), SendVerificationEmail(s, config, email, now))
    else
      Step(Success(false), s)
  }

  // ---------------------------------------------------------------------------
  // Properties of AuthService
  // ---------------------------------------------------------------------------

  /** Login checks existence, then activation, then the password: an inactive
      user is told USER_NOT_VERIFIED whatever the password, and login succeeds
      exactly for an active user with the right password. */
  lemma LoginCheckOrder(s: Store, jwt: JwtHelper, email: string, password: string, now: nat)
    ensures email !in s.users ==> AuthenticateUser(s, jwt, email, password, now) == Failure(UserNotFound(email))
    ensures email in s.users && !s.users[email].active ==>
      AuthenticateUser(s, jwt, email, password, now) == Failure(UserNotVerified)
    ensures email in s.users && s.users[email].active && !Matches(password, s.users[email].password) ==>
      AuthenticateUser(s, jwt, email, password, now) == Failure(InvalidCredentials)
    ensures AuthenticateUser(s, jwt, email, password, now).Success? <==>
      email in s.users && s.users[email].active && Matches(password, s.users[email].password)
  {
  }

  /** A successful login reports the stored user's id and e-mail, an expiresAt one
      hour on, and a token whose subject is the e-mail; that token stays valid for
      ten hours, long after the reported expiresAt. */
  lemma LoginResponseContents(s: Store, jwt: JwtHelper, email: string, password: string, now: nat, later: int)
    requires Valid(s)
    requires AuthenticateUser(s, jwt, email, password, now).Success?
    requires now <= later <= now + TokenValidityMs - 999
    ensures var r := AuthenticateUser(s, jwt, email, password, now).value;
      && r.id == s.users[email].id && r.email == email
      && r.expiresAt == now + 3600000
      && jwt.GetValidSubject(r.token, later) == Some(email)
      && jwt.IsTokenValid(r.token, r.expiresAt + 1)
  {
    var r := AuthenticateUser(s, jwt, email, password, now).value;
    GeneratedTokenRoundTrip(jwt, map[], email, now, later);
    GeneratedTokenRoundTrip(jwt, map[], email, now, r.expiresAt + 1);
  }

  /** Registering a taken e-mail fails with EMAIL_ALREADY_TAKEN and changes nothing. */
  lemma RegisterDuplicateChangesNothing(s: Store, jwt: JwtHelper, command: RegisterCommand, salt: nat, now: nat)
    requires command.email in s.users
    ensures RegisterUser(s, jwt, command, salt, now) == Step(Failure(EmailAlreadyTaken), s)
  {
  }

  /** A successful registration adds exactly one user: inactive, with the next id,
      and a password field that matches the raw password and no other. */
  lemma RegisterAddsOneInactiveUser(s: Store, jwt: JwtHelper, command: RegisterCommand, salt: nat, now: nat)
    requires command.email !in s.users
    ensures var step := RegisterUser(s, jwt, command, salt, now);
      && step.result.Success? && !step.result.value.active && step.result.value.email == command.email
      && step.result.value.expiresAt == now + LoginExpiryMs
      && step.store.users.Keys == s.users.Keys + {command.email}
      && (forall e :: e in s.users ==> step.store.users[e] == s.users[e])
      && step.store.resetTokens == s.resetTokens && step.store.outbox == s.outbox
      && var user := step.store.users[command.email];
         && !user.active && user.id == s.nextId && user.email == command.email
         && (forall raw :: Matches(raw, user.password) <==> raw == command.password)
  {
  }

  /** forgotPassword stores a token for any address, registered or not, expiring
      one hour on, and sends exactly one mail whose link ends with the token. */
  lemma ForgotPasswordAlwaysIssues(s: Store, config: Config, email: string, uuid: string, now: int)
    requires uuid !in s.resetTokens
    ensures var step := ForgotPassword(s, config, email, uuid, now);
      && step.result == Success(ApiResponse("Password reset email sent!", 200, "Success"))
      && step.store.users == s.users
      && step.store.resetTokens.Keys == s.resetTokens.Keys + {uuid}
      && step.store.resetTokens[uuid] == VerificationToken(uuid, email, now + 3600000)
      && |step.store.outbox| == |s.outbox| + 1
      && step.store.outbox[|s.outbox|].recipient == email
      && var link := step.store.outbox[|s.outbox|].resetLink;
         |link| >= |uuid| && link[|link| - |uuid|..] == uuid
  {
  }

  /** resetPassword with an unknown token fails with INVALID_TOKEN, and with an
      expired one with EXPIRED_TOKEN; neither changes anything. */
  lemma ResetPasswordRejects(s: Store, token: string, newPassword: string, salt: nat, now: int)
    ensures token !in s.resetTokens ==> ResetPassword(s, token, newPassword, salt, now) == Step(Failure(InvalidToken), s)
    ensures token in s.resetTokens && s.resetTokens[token].expiryDate < now ==>
      ResetPassword(s, token, newPassword, salt, now) == Step(Failure(ExpiredToken), s)
    ensures token in s.resetTokens && s.resetTokens[token].expiryDate >= now && s.resetTokens[token].userEmail !in s.users ==>
      ResetPassword(s, token, newPassword, salt, now) == Step(Failure(UserNotFound(s.resetTokens[token].userEmail)), s)
  {
  }

  /** A successful reset changes only the password of the token's user, to the
      hash of the new password, and deletes the token; so a second reset with
      the same token fails with INVALID_TOKEN. */
  lemma ResetPasswordSingleUse(s: Store, token: string, newPassword: string, salt: nat, salt2: nat, now: int, later: int)
    requires ResetPassword(s, token, newPassword, salt, now).result.Success?
    ensures var step := ResetPassword(s, token, newPassword, salt, now);
      var email := s.resetTokens[token].userEmail;
      && email in s.users
      && step.store.users.Keys == s.users.Keys
      && (forall e :: e in s.users && e != email ==> step.store.users[e] == s.users[e])
      && step.store.users[email] == s.users[email].(password := step.store.users[email].password)
      && (forall raw :: Matches(raw, step.store.users[email].password) <==> raw == newPassword)
      && step.store.resetTokens == s.resetTokens - {token}
      && step.store.outbox == s.outbox
      && ResetPassword(step.store, token, newPassword, salt2, later) == Step(Failure(InvalidToken), step.store)
  {
  }

  /** The reset token is accepted up to and including its expiry instant, the
      instant at which VerificationToken.isExpired starts to hold is the first
      at which resetPassword refuses it. */
  lemma ResetExpiryAgreesWithIsExpired(s: Store, token: string, newPassword: string, salt: nat, now: int)
    requires token in s.resetTokens
    ensures ResetPassword(s, token, newPassword, salt, now).result == Failure(ExpiredToken) <==>
      s.resetTokens[token].IsExpired(now)
  {
  }

  // ---------------------------------------------------------------------------
  // Properties of UserService
  // ---------------------------------------------------------------------------

  /** `active` goes from false to true once: activation sets only that flag, and
      activating again fails with USER_ALREADY_ACTIVE. */
  lemma ActivateOnce(s: Store, email: string)
    requires email in s.users && !s.users[email].active
    ensures var step := ActivateUser(s, email);
      && step.result.Success?
      && step.store == s.(users := s.users[email := s.users[email].(active := true)])
      && ActivateUser(step.store, email) == Step(Failure(UserAlreadyActive), step.store)
  {
  }

  /** Every UserService operation on an unknown e-mail fails with USER_NOT_FOUND
      and leaves the store as it was. */
  lemma UnknownEmailChangesNothing(s: Store, email: string, command: UpdateUserDetailsCommand, change: PasswordChange, salt: nat)
    requires email !in s.users && command.email == email && change.email == email
    ensures ActivateUser(s, email) == Step(Failure(UserNotFound(email)), s)
    ensures UpdateUserByEmail(s, command) == Step(Failure(UserNotFound(email)), s)
    ensures DeleteUserByEmail(s, email) == Step(Failure(UserNotFound(email)), s)
    ensures ChangePassword(s, change, salt) == Step(Failure(UserNotFound(email)), s)
    ensures IsUserActive(s, email) == Failure(UserNotFound(email))
    ensures !IsUserRegistered(s, email)
  {
  }

  /** isUserRegistered is membership; isUserActive is the stored flag of a registered user. */
  lemma RegisteredAndActive(s: Store, email: string)
    ensures IsUserRegistered(s, email) <==> email in s.users
    ensures email in s.users ==> IsUserActive(s, email) == Success(s.users[email].active)
  {
  }

  /** updateUserByEmail overwrites the names and the image URL only, and its
      response echoes the stored record. */
  lemma UpdateChangesOnlyProfile(s: Store, command: UpdateUserDetailsCommand)
    requires command.email in s.users
    ensures var step := UpdateUserByEmail(s, command);
      var before, after := s.users[command.email], step.store.users[command.email];
      && step.result == Success(UpdateUserResponse(before.email, command.firstName, command.lastName, command.profileImageUrl))
      && step.store.users.Keys == s.users.Keys
      && (forall e :: e in s.users && e != command.email ==> step.store.users[e] == s.users[e])
      && after.id == before.id && after.email == before.email && after.password == before.password && after.active == before.active
      && after.firstName == command.firstName && after.lastName == command.lastName
      && after.profileImageUrl == command.profileImageUrl
      && step.store.resetTokens == s.resetTokens && step.store.outbox == s.outbox
  {
  }

  /** changePassword checks the old password before comparing new and confirm;
      either failure keeps the stored hash; success replaces only that user's hash. */
  lemma ChangePasswordOrder(s: Store, change: PasswordChange, salt: nat)
    requires change.email in s.users
    ensures !Matches(change.oldPassword, s.users[change.email].password) ==>
      ChangePassword(s, change, salt) == Step(Failure(InvalidOldPassword), s)
    ensures Matches(change.oldPassword, s.users[change.email].password) && change.newPassword != change.confirmPassword ==>
      ChangePassword(s, change, salt) == Step(Failure(PasswordsDoNotMatch), s)
    ensures ChangePassword(s, change, salt).result.Success? ==>
      && ChangePassword(s, change, salt).store.users
           == s.users[change.email := s.users[change.email].(password := EncryptPassword(change.newPassword, salt))]
      && ChangePassword(s, change, salt).store.resetTokens == s.resetTokens
  {
  }

  /** deleteUserByEmail removes exactly that user. */
  lemma DeleteRemovesExactly(s: Store, email: string)
    requires email in s.users
    ensures var step := DeleteUserByEmail(s, email);
      && step.result.Success?
      && step.store.users.Keys == s.users.Keys - {email}
      && (forall e :: e in step.store.users ==> step.store.users[e] == s.users[e])
  {
  }

  /** getUserById finds a stored user by id, and fails with the id's USER_NOT_FOUND otherwise. */
  lemma GetUserByIdFinds(s: Store, email: string, id: int)
    requires Valid(s)
    ensures email in s.users ==> GetUserById(s, s.users[email].id) == Success(s.users[email])
    ensures (forall e :: e in s.users ==> s.users[e].id != id) ==> GetUserById(s, id) == Failure(UserNotFoundById(id))
  {
    if email in s.users {
      var r := GetUserById(s, s.users[email].id);
      var e :| e in s.users && s.users[e] == r.value;
    }
  }

  // ---------------------------------------------------------------------------
  // Properties of AuthCommandHandler
  // ---------------------------------------------------------------------------

  /** register sends one verification mail, to the registered address, only when
      registration succeeds; a duplicate sends nothing. */
  lemma RegisterMailsOnSuccess(s: Store, config: Config, command: RegisterCommand, salt: nat, now: nat)
    ensures var step := Register(s, config, command, salt, now);
      && (command.email in s.users ==> step == Step(Failure(EmailAlreadyTaken), s))
      && (command.email !in s.users ==>
            && step.result.Success?
            && |step.store.outbox| == |s.outbox| + 1
            && step.store.outbox[..|s.outbox|] == s.outbox
            && step.store.outbox[|s.outbox|] ==
               VerificationMail(command.email, VerificationLink(config.contextPath, "/api/auth/verify-email", "token",
                                                                config.jwt.GenerateToken(command.email, now))))
  {
  }

  /** An invalid or expired token returns false and activates no one. */
  lemma VerifyRejectsInvalidToken(s: Store, config: Config, token: Token, now: int)
    requires !config.jwt.IsTokenValid(token, now)
    ensures VerifyEmailToken(s, config, token, now) == Step(Success(false), s)
  {
  }

  /** A valid token for an inactive user activates exactly that user and returns
      true; for an active user USER_ALREADY_ACTIVE propagates. */
  lemma VerifyActivatesSubject(s: Store, config: Config, token: Token, now: int, email: string)
    requires config.jwt.IsTokenValid(token, now) && token.claims.subject == Some(email)
    requires email in s.users
    ensures !s.users[email].active ==>
      VerifyEmailToken(s, config, token, now) == Step(Success(true), ActivateUser(s, email).store)
    ensures s.users[email].active ==>
      VerifyEmailToken(s, config, token, now) == Step(Failure(UserAlreadyActive), s)
  {
  }

  /** Any unexpired token for the address activates it, including the session
      token that registration itself returns: the mailed link is not needed. */
  lemma {:induction false} SessionTokenActivates(s: Store, config: Config, command: RegisterCommand, salt: nat, now: nat, later: int)
    requires command.email !in s.users
    requires now <= later <= now + TokenValidityMs - 999
    ensures var step := Register(s, config, command, salt, now);
      && step.result.Success?
      && var verified := VerifyEmailToken(step.store, config, step.result.value.token, later);
         && verified.result == Success(true)
         && verified.store.users[command.email].active
  {
    var step := Register(s, config, command, salt, now);
    RegisterAddsOneInactiveUser(s, config.jwt, command, salt, now);
    GeneratedTokenRoundTrip(config.jwt, map[], command.email, now, later);
    var registered := RegisterUser(s, config.jwt, command, salt, now);
    assert step.store.users == registered.store.users;
    VerifyActivatesSubject(step.store, config, step.result.value.token, later, command.email);
  }

  /** resendVerificationEmail returns true and sends one mail exactly for a
      registered, inactive user; otherwise it returns false, sends nothing and,
      for an unknown address, raises no USER_NOT_FOUND. */
  lemma ResendIff(s: Store, config: Config, email: string, now: nat)
    ensures var step := ResendVerificationEmail(s, config, email, now);
      && step.result.Success?
      && (step.result.value <==> email in s.users && !s.users[email].active)
      && (step.result.value ==> step.store == SendVerificationEmail(s, config, email, now))
      && (!step.result.value ==> step.store == s)
  {
  }

  /** Each resend mints its own mail; nothing is de-duplicated. */
  lemma ResendTwiceSendsTwo(s: Store, config: Config, email: string, now: nat, later: nat)
    requires email in s.users && !s.users[email].active
    ensures var first := ResendVerificationEmail(s, config, email, now);
      var second := ResendVerificationEmail(first.store, config, email, later);
      && second.result == Success(true)
      && |second.store.outbox| == |s.outbox| + 2
      && second.store.outbox[|s.outbox|].recipient == email
      && second.store.outbox[|s.outbox| + 1].recipient == email
  {
    var first := ResendVerificationEmail(s, config, email, now);
    assert first.store.outbox[|s.outbox|].recipient == email;
    var second := ResendVerificationEmail(first.store, config, email, later);
    assert second.store.outbox[..|first.store.outbox|] == first.store.outbox;
  }

  // ---------------------------------------------------------------------------
  // The database constraints hold across every operation
  // ---------------------------------------------------------------------------

  /** Registration gives the new user the next id, which no stored user has. */
  lemma {:induction false} RegisterKeepsValid(s: Store, config: Config, command: RegisterCommand, salt: nat, now: nat)
    requires Valid(s)
    ensures Valid(Register(s, config, command, salt, now).store)
  {
    var registered := RegisterUser(s, config.jwt, command, salt, now).store;
    if command.email !in s.users {
      forall e1, e2 | e1 in registered.users && e2 in registered.users && registered.users[e1].id == registered.users[e2].id
        ensures e1 == e2
      {
        if e1 != command.email && e2 != command.email {
          assert s.users[e1].id == s.users[e2].id;
        }
      }
      assert Valid(registered);
    }
  }

  /** The reset-token operations keep every token under its own string. */
  lemma {:induction false} ResetTokensKeepValid(s: Store, config: Config, email: string, uuid: string, token: string,
                                                newPassword: string, salt: nat, now: int)
    requires Valid(s)
    ensures uuid !in s.resetTokens ==> Valid(ForgotPassword(s, config, email, uuid, now).store)
    ensures Valid(ResetPassword(s, token, newPassword, salt, now).store)
  {
    var reset := ResetPassword(s, token, newPassword, salt, now).store;
    if reset != s {
      var address := s.resetTokens[token].userEmail;
      assert reset.users.Keys == s.users.Keys;
      assert forall e :: e in reset.users ==> reset.users[e].id == s.users[e].id && reset.users[e].email == s.users[e].email;
      assert IdsUnique(reset.users) by {
        forall e1, e2 | e1 in reset.users && e2 in reset.users && reset.users[e1].id == reset.users[e2].id
          ensures e1 == e2
        {
          assert s.users[e1].id == s.users[e2].id;
        }
      }
    }
  }

  /** A store whose user records kept their keys, ids and e-mails is still valid. */
  lemma {:induction false} SameIdentitiesKeepValid(s: Store, s': Store)
    requires Valid(s)
    requires s'.nextId == s.nextId && s'.resetTokens == s.resetTokens
    requires s'.users.Keys <= s.users.Keys
    requires forall e :: e in s'.users ==> s'.users[e].id == s.users[e].id && s'.users[e].email == s.users[e].email
    ensures Valid(s')
  {
    forall e1, e2 | e1 in s'.users && e2 in s'.users && s'.users[e1].id == s'.users[e2].id
      ensures e1 == e2
    {
      assert s.users[e1].id == s.users[e2].id;
    }
  }

  /** Replacing one user record by another with the same id and e-mail keeps
      the database constraints. */
  lemma {:induction false} ReplaceUserKeepsValid(s: Store, s': Store, email: string, user: User)
    requires Valid(s) && email in s.users
    requires user.id == s.users[email].id && user.email == s.users[email].email
    requires s' == s.(users := s.users[email := user])
    ensures Valid(s')
  {
    SameIdentitiesKeepValid(s, s');
  }

  /** activateUser, updateUserByEmail, deleteUserByEmail and changePassword keep
      the database constraints. */
  lemma {:induction false} UserServiceKeepsValid(s: Store, email: string, update: UpdateUserDetailsCommand,
                                                 change: PasswordChange, salt: nat)
    requires Valid(s)
    ensures Valid(ActivateUser(s, email).store)
    ensures Valid(UpdateUserByEmail(s, update).store)
    ensures Valid(DeleteUserByEmail(s, email).store)
    ensures Valid(ChangePassword(s, change, salt).store)
  {
    if email in s.users {
      ReplaceUserKeepsValid(s, ActivateUser(s, email).store, email, s.users[email].(active := true));
      SameIdentitiesKeepValid(s, DeleteUserByEmail(s, email).store);
    }
    if update.email in s.users {
      var user := s.users[update.email];
      ReplaceUserKeepsValid(s, UpdateUserByEmail(s, update).store, update.email,
                            user.(profileImageUrl := update.profileImageUrl, firstName := update.firstName, lastName := update.lastName));
    }
    if ChangePassword(s, change, salt).result.Success? {
      var user := s.users[change.email];
      ReplaceUserKeepsValid(s, ChangePassword(s, change, salt).store, change.email,
                            user.(password := EncryptPassword(change.newPassword, salt)));
    }
  }

  /** verifyEmailToken and resendVerificationEmail keep the database constraints. */
  lemma {:induction false} HandlerKeepsValid(s: Store, config: Config, email: string, token: Token, now: nat)
    requires Valid(s)
    ensures Valid(VerifyEmailToken(s, config, token, now).store)
    ensures Valid(ResendVerificationEmail(s, config, email, now).store)
  {
    var verified := VerifyEmailToken(s, config, token, now);
    if verified.store != s {
      var address := VerificationTokenService(config.jwt).ExtractEmailFromToken(token, now).value;
      assert verified.store == ActivateUser(s, address).store;
      SameIdentitiesKeepValid(s, verified.store);
    }
  }

  /** Registration, verification and login, end to end: the mailed token
      activates the account, after which the same password logs in. */
  lemma {:induction false} RegisterVerifyLogin(s: Store, config: Config, command: RegisterCommand, salt: nat, now: nat)
    requires command.email !in s.users
    ensures var registered := Register(s, config, command, salt, now);
      var mail := registered.store.outbox[|s.outbox|];
      var verified := VerifyEmailToken(registered.store, config, mail.link.token, now);
      && verified.result == Success(true)
      && AuthenticateUser(verified.store, config.jwt, command.email, command.password, now).Success?
      && AuthenticateUser(verified.store, config.jwt, command.email, command.password, now).value.id == s.nextId
  {
    var registered := Register(s, config, command, salt, now);
    RegisterMailsOnSuccess(s, config, command, salt, now);
    RegisterAddsOneInactiveUser(s, config.jwt, command, salt, now);
    var mail := registered.store.outbox[|s.outbox|];
    GeneratedTokenRoundTrip(config.jwt, map[], command.email, now, now);
    assert registered.store.users == RegisterUser(s, config.jwt, command, salt, now).store.users;
    VerifyActivatesSubject(registered.store, config, mail.link.token, now, command.email);
  }
}
