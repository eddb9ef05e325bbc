/** The services themselves: the repositories and the mail service as objects whose
    state the services change, and UserService, AuthService and AuthCommandHandler
    as classes whose methods follow the source statement by statement. Every
    method is proved to do what the corresponding function of Accounts says. */
module AccountServices {
  import opened Outcomes
  import opened Errors
  import opened Jwt
  import opened VerificationTokens
  import opened Accounts

  /** UserRepository: the users table, keyed by its unique e-mail column, and
      the IDENTITY generator for ids. */
  class UserRepository {
    var users: map<string, User>
    var nextId: int

    /** The e-mail column is the key of its row, and the ids are distinct and
        below the next IDENTITY value. */
    ghost predicate Valid()
      reads this
    {
      Accounts.Valid(Table())
    }

    constructor ()
      ensures Valid() && users == map[] && nextId == 1
    {
      users := map[];
      nextId := 1;
    }

    /** findByEmail. */
    method FindByEmail(email: string) returns (r: Option<User>)
      ensures r.Some? <==> email in users
      ensures r.Some? ==> r.value == users[email]
    {
      if email in users {
        r := Some(users[email]);
      } else {
        r := None;
      }
    }

    /** save of a new entity: the id is generated. */
    method Insert(user: User) returns (saved: User)
      requires Valid() && user.email !in users
      modifies this
      ensures Valid()
      ensures saved == user.(id := old(nextId))
      ensures users == old(users)[user.email := saved] && nextId == old(nextId) + 1
    {
      saved := user.(id := nextId);
      users := users[user.email := saved];
      nextId := nextId + 1;
    }

    /** save of an entity already stored: its row is overwritten. */
    method Update(user: User)
      requires Valid() && user.email in users && user.id == users[user.email].id
      modifies this
      ensures Valid()
      ensures users == old(users)[user.email := user] && nextId == old(nextId)
    {
      ghost var before := Table();
      users := users[user.email := user];
      ReplaceUserKeepsValid(before, Table(), user.email, user);
    }

    /** delete. */
    method Delete(user: User)
      requires Valid()
      modifies this
      ensures Valid()
      ensures users == old(users) - {user.email} && nextId == old(nextId)
    {
      ghost var before := Table();
      users := users - {user.email};
      SameIdentitiesKeepValid(before, Table());
    }

    /** The users table as a store with nothing else in it. */
    function Table(): Store
      reads this
    {
      Store(users, nextId, map[], [])
    }
  }

  /** VerificationTokenRepository: the reset tokens, keyed by their unique token string. */
  class VerificationTokenRepository {
    var tokens: map<string, VerificationToken>

    /** The token column is the key of its row. */
    ghost predicate Valid()
      reads this
    {
      forall t :: t in tokens ==> tokens[t].token == t
    }

    constructor ()
      ensures Valid() && tokens == map[]
    {
      tokens := map[];
    }

    /** findByToken. */
    method FindByToken(token: string) returns (r: Option<VerificationToken>)
      ensures r.Some? <==> token in tokens
      ensures r.Some? ==> r.value == tokens[token]
    {
      if token in tokens {
        r := Some(tokens[token]);
      } else {
        r := None;
      }
    }

    method Save(record: VerificationToken)
      requires Valid()
      modifies this
      ensures Valid()
      ensures tokens == old(tokens)[record.token := record]
    {
      tokens := tokens[record.token := record];
    }

    method Delete(record: VerificationToken)
      requires Valid()
      modifies this
      ensures Valid()
      ensures tokens == old(tokens) - {record.token}
    {
      tokens := tokens - {record.token};
    }
  }

  /** EmailService, reduced to the mail it was asked to send. */
  class EmailService {
    var outbox: seq<Mail>

    constructor ()
      ensures outbox == []
    {
      outbox := [];
    }

    method SendVerificationEmail(recipient: string, link: VerificationLink)
      modifies this
      ensures outbox == old(outbox) + [VerificationMail(recipient, link)]
    {
      outbox := outbox + [VerificationMail(recipient, link)];
    }

    method SendForgotPasswordEmail(recipient: string, resetLink: string)
      modifies this
      ensures outbox == old(outbox) + [ResetMail(recipient, resetLink)]
    {
      outbox := outbox + [ResetMail(recipient, resetLink)];
    }
  }

  class UserService {
    const userRepository: UserRepository

    constructor (userRepository: UserRepository)
      ensures this.userRepository == userRepository
    {
      this.userRepository := userRepository;
    }

    method FindUserByEmail(email: string) returns (r: Result<User, UserError>)
      ensures r == Accounts.FindUserByEmail(userRepository.Table(), email)
    {
      var found := userRepository.FindByEmail(email);
      if found.None? {
        return Failure(UserNotFound(email));
      }
      r := Success(found.value);
    }

    method ActivateUser(email: string) returns (r: Result<(), UserError>)
      requires userRepository.Valid()
      modifies userRepository
      ensures userRepository.Valid()
      ensures Step(r, userRepository.Table()) == Accounts.ActivateUser(old(userRepository.Table()), email)
    {
      var found := FindUserByEmail(email);
      if found.Failure? {
        return Failure(found.error);
      }
      var user := found.value;
      if !user.active {
        userRepository.Update(user.(active := true));
        r := Success(());
      } else {
        r := Failure(UserAlreadyActive);
      }
    }

    method IsUserRegistered(email: string) returns (registered: bool)
      ensures registered == Accounts.IsUserRegistered(userRepository.Table(), email)
    {
      var found := userRepository.FindByEmail(email);
      registered := found.Some?;
    }

    method IsUserActive(email: string) returns (r: Result<bool, UserError>)
      ensures r == Accounts.IsUserActive(userRepository.Table(), email)
    {
      var found := userRepository.FindByEmail(email);
      if found.Some? {
        r := Success(found.value.active);
      } else {
        r := Failure(UserNotFound(email));
      }
    }

    method UpdateUserByEmail(command: UpdateUserDetailsCommand) returns (r: Result<UpdateUserResponse, UserError>)
      requires userRepository.Valid()
      modifies userRepository
      ensures userRepository.Valid()
      ensures Step(r, userRepository.Table()) == Accounts.UpdateUserByEmail(old(userRepository.Table()), command)
    {
      var found := FindUserByEmail(command.email);
      if found.Failure? {
        return Failure(found.error);
      }
      var user := found.value;
      user := user.(profileImageUrl := command.profileImageUrl);
      user := user.(firstName := command.firstName);
      user := user.(lastName := command.lastName);
      userRepository.Update(user);
      r := Success(UpdateUserResponse(user.email, user.firstName, user.lastName, user.profileImageUrl));
    }

    method DeleteUserByEmail(email: string) returns (r: Result<(), UserError>)
      requires userRepository.Valid()
      modifies userRepository
      ensures userRepository.Valid()
      ensures Step(r, userRepository.Table()) == Accounts.DeleteUserByEmail(old(userRepository.Table()), email)
    {
      var found := FindUserByEmail(email);
      if found.Failure? {
        return Failure(found.error);
      }
      userRepository.Delete(found.value);
      r := Success(());
    }

    method ChangePassword(command: PasswordChange, salt: nat) returns (r: Result<(), UserError>)
      requires userRepository.Valid()
      modifies userRepository
      ensures userRepository.Valid()
      ensures Step(r, userRepository.Table()) == Accounts.ChangePassword(old(userRepository.Table()), command, salt)
    {
      var found := userRepository.FindByEmail(command.email);
      if found.None? {
        return Failure(UserNotFound(command.email));
      }
      var user := found.value;
      if !Matches(command.oldPassword, user.password) {
        return Failure(InvalidOldPassword);
      }
      if command.newPassword != command.confirmPassword {
        return Failure(PasswordsDoNotMatch);
      }
      userRepository.Update(user.(password := EncryptPassword(command.newPassword, salt)));
      r := Success(());
    }

    method GetUserById(userId: int) returns (r: Result<User, UserError>)
      requires userRepository.Valid()
      ensures r == Accounts.GetUserById(userRepository.Table(), userId)
    {
      var found := UserWithId(userRepository.users, userId);
      if found.None? {
        return Failure(UserNotFoundById(userId));
      }
      r := Success(found.value);
    }
  }

  class AuthService {
    const userRepository: UserRepository
    const jwtHelper: JwtHelper
    const emailService: EmailService
    const verificationTokenRepository: VerificationTokenRepository
    /** ServletUriComponentsBuilder.fromCurrentContextPath(). */
    const contextPath: string

    constructor (userRepository: UserRepository, jwtHelper: JwtHelper, emailService: EmailService,
                 verificationTokenRepository: VerificationTokenRepository, contextPath: string)
      ensures this.userRepository == userRepository && this.jwtHelper == jwtHelper
      ensures this.emailService == emailService && this.verificationTokenRepository == verificationTokenRepository
      ensures this.contextPath == contextPath
    {
      this.userRepository := userRepository;
      this.jwtHelper := jwtHelper;
      this.emailService := emailService;
      this.verificationTokenRepository := verificationTokenRepository;
      this.contextPath := contextPath;
    }

    /** The stores this service works on, as one value. */
    function Snapshot(): Store
      reads userRepository, verificationTokenRepository, emailService
    {
      Store(userRepository.users, userRepository.nextId, verificationTokenRepository.tokens, emailService.outbox)
    }

    function Configuration(): Config {
      Config(jwtHelper, contextPath)
    }

    method FindUserByEmail(email: string) returns (r: Result<User, UserError>)
      ensures r == Accounts.FindUserByEmail(Snapshot(), email)
    {
      var found := userRepository.FindByEmail(email);
      if found.None? {
        return Failure(UserNotFound(email));
      }
      r := Success(found.value);
    }

    method AuthenticateUser(email: string, password: string, now: nat) returns (r: Result<LoginResponse, UserError>)
      ensures r == Accounts.AuthenticateUser(Snapshot(), jwtHelper, email, password, now)
    {
      var found := FindUserByEmail(email);
      if found.Failure? {
        return Failure(found.error);
      }
      var user := found.value;
      if !user.active {
        return Failure(UserNotVerified);
      }
      if !Matches(password, user.password) {
        return Failure(InvalidCredentials);
      }
      r := Success(BuildLoginResponse(jwtHelper, user, now));
    }

    method RegisterUser(command: RegisterCommand, salt: nat, now: nat) returns (r: Result<RegisterResponse, UserError>)
      requires userRepository.Valid()
      modifies userRepository
      ensures userRepository.Valid()
      ensures Step(r, Snapshot()) == Accounts.RegisterUser(old(Snapshot()), jwtHelper, command, salt, now)
    {
      var existing := userRepository.FindByEmail(command.email);
      if existing.Some? {
        return Failure(EmailAlreadyTaken);
      }
      var encryptedPassword := EncryptPassword(command.password, salt);
      var user := userRepository.Insert(User(0, command.firstName, command.lastName, command.email,
                                             encryptedPassword, command.profileImageUrl, false));
      var token := jwtHelper.GenerateToken(user.email, now);
      r := Success(RegisterResponse(user.email, user.profileImageUrl, user.active, token, now + LoginExpiryMs));
    }

    method ForgotPassword(email: string, uuid: string, now: int) returns (r: Result<ApiResponse, UserError>)
      requires verificationTokenRepository.Valid() && uuid !in verificationTokenRepository.tokens
      modifies verificationTokenRepository, emailService
      ensures verificationTokenRepository.Valid()
      ensures Step(r, Snapshot()) == Accounts.ForgotPassword(old(Snapshot()), Configuration(), email, uuid, now)
    {
      var token := VerificationToken(uuid, email, now + ResetTokenLifetimeMs);
      verificationTokenRepository.Save(token);
      var link := contextPath + ResetPasswordPath + token.token;
      emailService.SendForgotPasswordEmail(email, link);
      r := Success(ApiResponse("Password reset email sent!", 200, "Success"));
    }

    method ResetPassword(token: string, newPassword: string, salt: nat, now: int) returns (r: Result<ApiResponse, UserError>)
      requires userRepository.Valid() && verificationTokenRepository.Valid()
      modifies userRepository, verificationTokenRepository
      ensures userRepository.Valid() && verificationTokenRepository.Valid()
      ensures Step(r, Snapshot()) == Accounts.ResetPassword(old(Snapshot()), token, newPassword, salt, now)
    {
      var found := verificationTokenRepository.FindByToken(token);
      if found.None? {
        return Failure(InvalidToken);
      }
      var verificationToken := found.value;
      if verificationToken.expiryDate < now {
        return Failure(ExpiredToken);
      }
      var owner := FindUserByEmail(verificationToken.userEmail);
      if owner.Failure? {
        return Failure(owner.error);
      }
      var user := owner.value.(password := EncryptPassword(newPassword, salt));
      userRepository.Update(user);
      verificationTokenRepository.Delete(verificationToken);
      r := Success(ApiResponse("Password successfully reset.", 200, "Success"));
    }
  }

  class AuthCommandHandler {
    const authService: AuthService
    const tokenService: VerificationTokenService
    const emailService: EmailService
    const userService: UserService

    constructor (authService: AuthService, tokenService: VerificationTokenService,
                 emailService: EmailService, userService: UserService)
      ensures this.authService == authService && this.tokenService == tokenService
      ensures this.emailService == emailService && this.userService == userService
    {
      this.authService := authService;
      this.tokenService := tokenService;
      this.emailService := emailService;
      this.userService := userService;
    }

    /** The Spring wiring: one user repository, one mail service and one JWT helper. */
    predicate Wired() {
      && userService.userRepository == authService.userRepository
      && emailService == authService.emailService
      && tokenService.jwtHelper == authService.jwtHelper
    }

    method Login(email: string, password: string, now: nat) returns (r: Result<LoginResponse, UserError>)
      ensures r == Accounts.AuthenticateUser(authService.Snapshot(), authService.jwtHelper, email, password, now)
    {
      r := authService.AuthenticateUser(email, password, now);
    }

    method Register(command: RegisterCommand, salt: nat, now: nat) returns (r: Result<RegisterResponse, UserError>)
      requires Wired() && authService.userRepository.Valid()
      modifies authService.userRepository, emailService
      ensures authService.userRepository.Valid()
      ensures Step(r, authService.Snapshot())
           == Accounts.Register(old(authService.Snapshot()), authService.Configuration(), command, salt, now)
    {
      r := authService.RegisterUser(command, salt, now);
      if r.Failure? {
        return;
      }
      SendVerificationEmail(command.email, now);
    }

    method VerifyEmailToken(token: Token, now: int) returns (r: Result<bool, UserError>)
      requires Wired() && authService.userRepository.Valid()
      modifies authService.userRepository
      ensures authService.userRepository.Valid()
      ensures Step(r, authService.Snapshot())
           == Accounts.VerifyEmailToken(old(authService.Snapshot()), authService.Configuration(), token, now)
    {
      var email := tokenService.ExtractEmailFromToken(token, now);
      if tokenService.VerifyToken(token, now) {
        if email.None? {
          return Failure(UserNotFound("null"));
        }
        var activation := userService.ActivateUser(email.value);
        if activation.Failure? {
          return Failure(activation.error);
        }
        return Success(true);
      }
      r := Success(false);
    }

    method ResendVerificationEmail(email: string, now: nat) returns (r: Result<bool, UserError>)
      requires Wired()
      modifies emailService
      ensures Step(r, authService.Snapshot())
           == Accounts.ResendVerificationEmail(old(authService.Snapshot()), authService.Configuration(), email, now)
    {
      var registered := userService.IsUserRegistered(email);
      if registered {
        var active := userService.IsUserActive(email);
        if !active.value {
          SendVerificationEmail(email, now);
          return Success(true);
        }
      }
      r := Success(false);
    }

    method SendVerificationEmail(email: string, now: nat)
      requires Wired()
      modifies emailService
      ensures authService.Snapshot()
           == Accounts.SendVerificationEmail(old(authService.Snapshot()), authService.Configuration(), email, now)
    {
      var token := tokenService.CreateToken(email, now);
      var verificationLink := VerificationLink(authService.contextPath, VerifyEmailPath, TokenQueryParam, token);
      emailService.SendVerificationEmail(email, verificationLink);
    }
  }
}
