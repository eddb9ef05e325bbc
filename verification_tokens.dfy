/** The password-reset token entity and the e-mail verification token service. */
module VerificationTokens {
  import opened Outcomes
  import opened Jwt

  /** VerificationToken: a stored reset token, the address it was issued for and
      its expiry, in milliseconds since the epoch. */
  datatype VerificationToken = VerificationToken(token: string, userEmail: string, expiryDate: int) {
    /** isExpired: now is strictly after the expiry date. */
    predicate IsExpired(now: int) {
      now > expiryDate
    }
  }

  /** A token is live up to and including its expiry instant, expired from the
      next millisecond on, and stays expired. */
  lemma ExpiryBoundary(t: VerificationToken, now: int, later: int)
    requires now <= later
    ensures !t.IsExpired(t.expiryDate)
    ensures t.IsExpired(t.expiryDate + 1)
    ensures t.IsExpired(now) ==> t.IsExpired(later)
  {
  }

  /** VerificationTokenService: e-mail verification tokens are JWTs whose
      subject is the address. */
  datatype VerificationTokenService = VerificationTokenService(jwtHelper: JwtHelper) {
    /** createToken. */
    function CreateToken(email: string, now: nat): (t: Token)
      ensures t.Jws? && t.key == jwtHelper.signingKey
      ensures t.claims.custom == map[]
      ensures t.claims.subject == Some(email)
    {
      jwtHelper.GenerateToken(email, now)
    }

    /** verifyToken. */
    predicate VerifyToken(token: Token, now: int) {
      jwtHelper.IsTokenValid(token, now)
    }

    /** extractEmailFromToken: the address of a valid token, null otherwise. */
    function ExtractEmailFromToken(token: Token, now: int): (r: Option<string>)
      ensures r.Some? ==> VerifyToken(token, now)
      ensures VerifyToken(token, now) ==> token.Jws? && r == token.claims.subject
    {
      jwtHelper.GetValidSubject(token, now)
    }
  }

  /** A verification token yields the address it was created for, and verifies,
      throughout its ten hours; afterwards it yields nothing. */
  lemma {:induction false} VerificationRoundTrip(service: VerificationTokenService, email: string, now: nat, later: int)
    ensures now <= later <= now + TokenValidityMs - 999 ==>
      service.VerifyToken(service.CreateToken(email, now), later)
      && service.ExtractEmailFromToken(service.CreateToken(email, now), later) == Some(email)
    ensures later > now + TokenValidityMs ==>
      !service.VerifyToken(service.CreateToken(email, now), later)
      && service.ExtractEmailFromToken(service.CreateToken(email, now), later) == None
  {
    if now <= later <= now + TokenValidityMs - 999 {
      GeneratedTokenRoundTrip(service.jwtHelper, map[], email, now, later);
    }
    if later > now + TokenValidityMs {
      GeneratedTokenExpires(service.jwtHelper, map[], email, now, later);
    }
  }

  /** An address is extracted exactly from a token that verifies and carries it. */
  lemma ExtractEmailIff(service: VerificationTokenService, token: Token, now: int, email: string)
    ensures service.ExtractEmailFromToken(token, now) == Some(email) <==>
      service.VerifyToken(token, now) && token.Jws? && token.claims.subject == Some(email)
  {
  }
}
