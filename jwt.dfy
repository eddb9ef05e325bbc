/** JwtHelper: HS512-signed JSON Web Tokens carrying a subject, an issue time and
    an expiry ten hours later. A token is modelled by what it carries (its claims
    and the key that signed it) rather than by its compact text; the clock is the
    parameter `now`, in milliseconds since the epoch. The additional claims the
    source passes as a Map<String, Object> are modelled with string values. */
module Jwt {
  import opened Outcomes
  import opened Errors
  import opened Text

  /** TOKEN_VALIDITY_MILLISECONDS: ten hours. */
  const TokenValidityMs: int := 1000 * 60 * 60 * 10

  /** The HMAC secret; Keys.hmacShaKeyFor over the secret's bytes. */
  type Key = string

  /** The registered claims the builder sets itself after setClaims. */
  const ReservedClaims: set<string> := {"sub", "iat", "exp"}

  /** A JWT claims set. `issuedAt` and `expiration` are NumericDates: whole
      seconds since the epoch (section 2 of RFC 7519). `subject` is absent from a
      claims set that has no "sub" claim. */
  datatype Claims = Claims(custom: map<string, string>, subject: Option<string>, issuedAt: int, expiration: int)

  /** A compact JWS as the parser sees it: one produced by a builder (its claims
      and signing key), or any other text, which fails to parse. */
  datatype Token = Jws(claims: Claims, key: Key) | Malformed(text: string)

  /** A java.util.Date in milliseconds becomes a NumericDate in seconds. */
  function NumericDate(ms: nat): (seconds: nat)
    ensures seconds * 1000 <= ms < seconds * 1000 + 1000
  {
    ms / 1000
  }

  /** An additional claim "nbf" (not before) is interpreted by the parser: its
      text is read as a NumericDate, whole seconds since the epoch. */
  const NotBeforeClaim: string := "nbf"

  /** The claims carry an "nbf" claim whose text is not a number of seconds. */
  predicate UnreadableNotBefore(claims: Claims) {
    NotBeforeClaim in claims.custom && ParseLong(claims.custom[NotBeforeClaim]).None?
  }

  /** The claims carry an "nbf" instant that is still in the future at `now`. */
  predicate Premature(claims: Claims, now: int) {
    && NotBeforeClaim in claims.custom
    && ParseLong(claims.custom[NotBeforeClaim]).Some?
    && now < ParseLong(claims.custom[NotBeforeClaim]).value * 1000
  }

  /** The error every parse failure becomes in extractAllClaims. */
  const InvalidJwt: Exception := IllegalArgument("Invalid JWT token")

  datatype JwtHelper = JwtHelper(signingKey: Key) {

    /** buildToken: setClaims, then setSubject, setIssuedAt and setExpiration
        overwrite the registered claims, then signWith the helper's key. Once
        setClaims has created the claims set, setSubject stores any non-null
        subject as given, blank or not. */
    function BuildToken(claims: map<string, string>, subject: string, issuedAtMs: nat, expirationMs: nat): (t: Token)
      ensures t.Jws? && t.key == signingKey
      ensures t.claims.custom.Keys !! ReservedClaims
      ensures forall name :: name in claims && name !in ReservedClaims ==>
        name in t.claims.custom && t.claims.custom[name] == claims[name]
      ensures t.claims.subject == Some(subject)
      ensures t.claims.issuedAt * 1000 <= issuedAtMs < t.claims.issuedAt * 1000 + 1000
      ensures t.claims.expiration * 1000 <= expirationMs < t.claims.expiration * 1000 + 1000
    {
      Jws(Claims(claims - ReservedClaims,
                 Some(subject),
                 NumericDate(issuedAtMs),
                 NumericDate(expirationMs)),
          signingKey)
    }

    /** generateTokenWithClaims: issued now, expiring TOKEN_VALIDITY_MILLISECONDS later. */
    function GenerateTokenWithClaims(claims: map<string, string>, subject: string, now: nat): (t: Token)
      ensures t.Jws? && t.key == signingKey
      ensures t.claims.expiration - t.claims.issuedAt == TokenValidityMs / 1000
      ensures now < t.claims.expiration * 1000 + 1000 - TokenValidityMs
      ensures t.claims.expiration * 1000 <= now + TokenValidityMs
    {
      BuildToken(claims, subject, now, now + TokenValidityMs)
    }

    /** generateToken: no additional claims. */
    function GenerateToken(subject: string, now: nat): (t: Token)
      ensures t.Jws? && t.key == signingKey && t.claims.custom == map[]
      ensures t.claims.expiration - t.claims.issuedAt == TokenValidityMs / 1000
    {
      GenerateTokenWithClaims(map[], subject, now)
    }

    /** parseClaimsJws with the helper's key: the signature must verify, the
        token must not have expired (`now` after the expiration), and an "nbf"
        claim must be readable and not after `now`. */
    function ExtractAllClaims(token: Token, now: int): (r: Result<Claims, Exception>)
      ensures r.Success? <==>
        && token.Jws? && token.key == signingKey
        && now <= token.claims.expiration * 1000
        && !UnreadableNotBefore(token.claims) && !Premature(token.claims, now)
      ensures r.Success? ==> r.value == token.claims
      ensures r.Failure? ==> r.error == InvalidJwt
    {
      match token
      case Malformed(_) => Failure(InvalidJwt)
      case Jws(claims, key) =>
        if key != signingKey then Failure(InvalidJwt)
        else if now > claims.expiration * 1000 then Failure(InvalidJwt)
        else if NotBeforeClaim in claims.custom then
          match ParseLong(claims.custom[NotBeforeClaim])
          case None => Failure(InvalidJwt)
          case Some(seconds) => if now < seconds * 1000 then Failure(InvalidJwt) else Success(claims)
        else Success(claims)
    }

    /** extractClaim: a resolver applied to the parsed claims. */
    function ExtractClaim<T>(token: Token, now: int, resolver: Claims -> T): (r: Result<T, Exception>)
      ensures r.Success? <==> ExtractAllClaims(token, now).Success?
      ensures r.Success? ==> r.value == resolver(token.claims)
    {
      var claims :- ExtractAllClaims(token, now);
      Success(resolver(claims))
    }

    /** extractSubject; a claims set without "sub" reads back as null. */
    function ExtractSubject(token: Token, now: int): (r: Result<Option<string>, Exception>)
      ensures r.Success? <==> ExtractAllClaims(token, now).Success?
      ensures r.Success? ==> r.value == token.claims.subject
    {
      ExtractClaim(token, now, (c: Claims) => c.subject)
    }

    /** extractExpiration, as a Date in milliseconds. */
    function ExtractExpiration(token: Token, now: int): (r: Result<int, Exception>)
      ensures r.Success? <==> ExtractAllClaims(token, now).Success?
      ensures r.Success? ==> r.value == token.claims.expiration * 1000 && now <= r.value
    {
      ExtractClaim(token, now, (c: Claims) => c.expiration * 1000)
    }

    /** isTokenExpired: the expiration is before now, and any parse failure
        counts as expired. */
    predicate IsTokenExpired(token: Token, now: int) {
      var expiration := ExtractExpiration(token, now);
      expiration.Failure? || expiration.value < now
    }

    /** isTokenValid. */
    predicate IsTokenValid(token: Token, now: int) {
      !IsTokenExpired(token, now)
    }

    /** validateToken: the subject equals the user name and the token has not
        expired; a failure, including the null subject's NullPointerException,
        gives false. */
    predicate ValidateToken(token: Token, username: string, now: int) {
      match ExtractSubject(token, now)
      case Failure(_) => false
      case Success(None) => false
      case Success(Some(subject)) => subject == username && !IsTokenExpired(token, now)
    }

    /** getValidSubject: the subject of a valid token, null otherwise. */
    function GetValidSubject(token: Token, now: int): (r: Option<string>)
      ensures r.Some? ==> IsTokenValid(token, now) && token.Jws? && token.claims.subject == r
      ensures IsTokenValid(token, now) ==> token.Jws? && r == token.claims.subject
    {
      if IsTokenValid(token, now) then ExtractSubject(token, now).value else None
    }
  }

  /** A token is expired exactly when it is not one this helper signed, its
      "nbf" claim refuses it, or its expiration (in milliseconds) is strictly
      before now. */
  lemma IsTokenExpiredIff(helper: JwtHelper, token: Token, now: int)
    ensures helper.IsTokenExpired(token, now) <==>
      || !(token.Jws? && token.key == helper.signingKey)
      || UnreadableNotBefore(token.claims) || Premature(token.claims, now)
      || token.claims.expiration * 1000 < now
  {
  }

  /** validateToken holds exactly when getValidSubject yields the user name. */
  lemma ValidateTokenIffValidSubject(helper: JwtHelper, token: Token, username: string, now: int)
    ensures helper.ValidateToken(token, username, now) <==> helper.GetValidSubject(token, now) == Some(username)
  {
  }

  /** A freshly generated token, read back at any moment from its issue until its
      expiration, yields its subject and its additional claims, and is valid,
      provided any "nbf" among the additional claims is a number of seconds that
      has been reached (PrematureTokenMatures and UnreadableNotBeforeRefused
      cover the other cases). */
  lemma GeneratedTokenRoundTrip(helper: JwtHelper, claims: map<string, string>, subject: string, now: nat, later: int)
    requires now <= later <= now + TokenValidityMs - 999
    requires NotBeforeClaim in claims ==>
      ParseLong(claims[NotBeforeClaim]).Some? && ParseLong(claims[NotBeforeClaim]).value * 1000 <= later
    ensures var token := helper.GenerateTokenWithClaims(claims, subject, now);
      && helper.ExtractAllClaims(token, later).Success?
      && helper.ExtractAllClaims(token, later).value.custom == claims - ReservedClaims
      && helper.ExtractSubject(token, later) == Success(Some(subject))
      && helper.IsTokenValid(token, later)
      && helper.GetValidSubject(token, later) == Some(subject)
      && helper.ValidateToken(token, subject, later)
      && (forall other :: other != subject ==> !helper.ValidateToken(token, other, later))
  {
    var token := helper.GenerateTokenWithClaims(claims, subject, now);
    assert token.claims.expiration * 1000 >= now + TokenValidityMs - 999;
  }

  /** Once more than TOKEN_VALIDITY_MILLISECONDS have passed, the token is expired,
      no subject is extracted, and it no longer validates. */
  lemma GeneratedTokenExpires(helper: JwtHelper, claims: map<string, string>, subject: string, now: nat, later: int)
    requires later > now + TokenValidityMs
    ensures var token := helper.GenerateTokenWithClaims(claims, subject, now);
      && helper.IsTokenExpired(token, later)
      && helper.ExtractAllClaims(token, later) == Failure(InvalidJwt)
      && helper.GetValidSubject(token, later) == None
      && !helper.ValidateToken(token, subject, later)
  {
  }

  /** A token signed with another secret, or one that is not a JWS at all, is
      expired, invalid and without subject for this helper, at any time. */
  lemma ForeignTokenRejected(helper: JwtHelper, token: Token, now: int)
    requires token.Malformed? || token.key != helper.signingKey
    ensures helper.ExtractAllClaims(token, now) == Failure(InvalidJwt)
    ensures helper.IsTokenExpired(token, now)
    ensures helper.GetValidSubject(token, now) == None
    ensures forall username :: !helper.ValidateToken(token, username, now)
  {
  }

  /** Expiry is permanent: a token expired at one moment stays expired, unless
      it was refused only for being premature (see PrematureTokenMatures). */
  lemma ExpiryIsMonotone(helper: JwtHelper, token: Token, now: int, later: int)
    requires now <= later
    requires helper.IsTokenExpired(token, now)
    requires token.Jws? ==> !Premature(token.claims, now)
    ensures helper.IsTokenExpired(token, later)
  {
  }

  /** A generated token whose "nbf" claim names a later second is refused until
      that second arrives, and valid from then until it expires. */
  lemma PrematureTokenMatures(helper: JwtHelper, claims: map<string, string>, subject: string, now: nat, seconds: int, later: int)
    requires NotBeforeClaim in claims && ParseLong(claims[NotBeforeClaim]) == Some(seconds)
    requires now < seconds * 1000 <= later <= now + TokenValidityMs - 999
    ensures var token := helper.GenerateTokenWithClaims(claims, subject, now);
      && helper.ExtractAllClaims(token, now) == Failure(InvalidJwt)
      && helper.IsTokenExpired(token, now)
      && helper.GetValidSubject(token, now) == None
      && !helper.IsTokenExpired(token, later)
      && helper.GetValidSubject(token, later) == Some(subject)
  {
    GeneratedTokenRoundTrip(helper, claims, subject, now, later);
  }

  /** A generated token whose "nbf" claim is not a number of seconds never
      parses. */
  lemma UnreadableNotBeforeRefused(helper: JwtHelper, claims: map<string, string>, subject: string, now: nat, later: int)
    requires NotBeforeClaim in claims && ParseLong(claims[NotBeforeClaim]).None?
    ensures var token := helper.GenerateTokenWithClaims(claims, subject, now);
      && helper.ExtractAllClaims(token, later) == Failure(InvalidJwt)
      && helper.GetValidSubject(token, later) == None
      && !helper.ValidateToken(token, subject, later)
  {
  }
}
