/**
 * The authentication decision: look the employee up by email, verify the
 * password against that employee's stored hash, insist on a configured
 * signing key, and issue a token whose claims name the employee's id, email
 * and role and which expires seven days after issuance. Password
 * verification and token signing are foreign libraries and arrive as
 * function parameters.
 */
module AuthService {
  import opened Wrappers
  import opened Decimal
  import opened Roles
  import opened Entities
  import opened Repository
  import opened EmployeeServices

  /** The Jwt:Key, Jwt:Issuer and Jwt:Audience configuration entries; None when missing. */
  datatype JwtConfig = JwtConfig(key: Option<string>, issuer: Option<string>, audience: Option<string>)

  datatype ClaimType = NameClaim | EmailClaim | RoleClaim

  datatype Claim = Claim(claimType: ClaimType, value: string)

  /** What the token handler signs: the subject's claims, expiry, issuer, audience and key. */
  datatype TokenDescriptor = TokenDescriptor(
    claims: seq<Claim>,
    expires: int,
    issuer: Option<string>,
    audience: Option<string>,
    signingKey: string,
    signingAlgorithm: string)

  /** The configuration error raised when no signing key is configured. */
  datatype AuthError = ConfigurationError(message: string)

  const KeyMissingMessage: string := "JWT Key not configured"
  const HmacSha256Signature: string := "http://www.w3.org/2001/04/xmldsig-more#hmac-sha256"

  /** DateTime ticks (100 ns) in a day, and the token lifetime of seven days. */
  const TicksPerDay: int := 864_000_000_000
  const TokenLifetime: int := 7 * TicksPerDay

  /** The descriptor built for a successfully authenticated employee at time `now` (ticks). */
  function Descriptor(e: Employee, key: string, config: JwtConfig, now: int): (d: TokenDescriptor)
    ensures ClaimValue(d.claims, NameClaim) == Some(IntToString(e.id))
    ensures ClaimValue(d.claims, EmailClaim) == Some(e.email)
    ensures ClaimValue(d.claims, RoleClaim) == Some(RoleName(e.role))
  {
    var claims := [Claim(NameClaim, IntToString(e.id)), Claim(EmailClaim, e.email), Claim(RoleClaim, RoleName(e.role))];
    assert ClaimValue(claims[2..], RoleClaim) == Some(RoleName(e.role));
    assert ClaimValue(claims[1..], RoleClaim) == ClaimValue(claims[2..], RoleClaim);
    assert ClaimValue(claims[1..], EmailClaim) == Some(e.email);
    TokenDescriptor(
      claims, now + TokenLifetime, config.issuer, config.audience, key, HmacSha256Signature)
  }

  /** The value of the first claim of the given type. */
  function ClaimValue(claims: seq<Claim>, t: ClaimType): Option<string>
  {
    if claims == [] then None
    else if claims[0].claimType == t then Some(claims[0].value)
    else ClaimValue(claims[1..], t)
  }

  datatype Identity = Identity(id: int, email: string, role: int)

  /** What a reader of the token learns about its subject: id, email and role. */
  function DecodeIdentity(claims: seq<Claim>): Option<Identity>
  {
    match (ClaimValue(claims, NameClaim), ClaimValue(claims, EmailClaim), ClaimValue(claims, RoleClaim))
    case (Some(name), Some(email), Some(role)) =>
      (match (ParseInt(name), RoleFromName(role))
       case (Some(id), Some(r)) => Some(Identity(id, email, r))
       case _ => None)
    case _ => None
  }

  /**
   * AuthenticateAsync, given what the email lookup returned: Success(None)
   * is the null result of a failed login, Failure the configuration error,
   * Success(Some(token)) an issued token.
   */
  function Authenticate(found: Option<Employee>, password: string, config: JwtConfig, now: int,
                        verify: (string, string) -> bool, sign: TokenDescriptor -> string)
    : (r: Result<Option<string>, AuthError>)
    ensures r == Success(None) <==> found.None? || !verify(password, found.value.passwordHash)
    ensures r.Failure? <==> found.Some? && verify(password, found.value.passwordHash) && config.key.None?
    ensures r.Failure? ==> r.error == ConfigurationError(KeyMissingMessage)
    ensures r.Success? && r.value.Some? ==>
      && found.Some? && verify(password, found.value.passwordHash) && config.key.Some?
      && r.value.value == sign(Descriptor(found.value, config.key.value, config, now))
  {
    if found.None? then Success(None)
    else if !verify(password, found.value.passwordHash) then Success(None)
    else if config.key.None? then Failure(ConfigurationError(KeyMissingMessage))
    else Success(Some(sign(Descriptor(found.value, config.key.value, config, now))))
  }

  /**
   * The token's claims identify the employee it was issued for: reading them
   * back gives that employee's id, email and role, for every role value.
   */
  lemma DescriptorIdentifiesEmployee(e: Employee, key: string, config: JwtConfig, now: int)
    ensures DecodeIdentity(Descriptor(e, key, config, now).claims) == Some(Identity(e.id, e.email, e.role))
  {
    IntToStringRoundTrip(e.id);
    RoleNameRoundTrip(e.role);
  }

  /** The token expires exactly seven days after issuance and carries the configured issuer and audience. */
  lemma DescriptorLifetime(e: Employee, key: string, config: JwtConfig, now: int)
    ensures var d := Descriptor(e, key, config, now);
      d.expires - now == 7 * TicksPerDay && d.issuer == config.issuer && d.audience == config.audience
      && d.signingKey == key
  {
  }

  /**
   * A login that fails does not look at the signing key: with or without a
   * configured key, an unknown email or a wrong password gives the same
   * null result.
   */
  lemma KeyCheckedOnlyAfterVerification(found: Option<Employee>, password: string, config: JwtConfig, now: int,
                                        verify: (string, string) -> bool, sign: TokenDescriptor -> string)
    requires found.None? || !verify(password, found.value.passwordHash)
    ensures Authenticate(found, password, config, now, verify, sign)
         == Authenticate(found, password, config.(key := None), now, verify, sign)
         == Success(None)
  {
  }

  /**
   * The password is checked only against the looked-up employee's stored
   * hash: two records with the same hash, id, email and role give the same
   * outcome.
   */
  lemma OutcomeDependsOnlyOnLookup(a: Employee, b: Employee, password: string, config: JwtConfig, now: int,
                                   verify: (string, string) -> bool, sign: TokenDescriptor -> string)
    requires a.passwordHash == b.passwordHash && a.id == b.id && a.email == b.email && a.role == b.role
    ensures Authenticate(Some(a), password, config, now, verify, sign)
         == Authenticate(Some(b), password, config, now, verify, sign)
  {
  }

  /**
   * An update that supplies no password keeps the credential, so the old
   * password still logs in, and the new token carries the updated email
   * with the unchanged id and role.
   */
  lemma UpdateWithoutPasswordKeepsLogin(e: Employee, dto: UpdateEmployeeDto, newHash: string,
                                        password: string, config: JwtConfig, now: int,
                                        verify: (string, string) -> bool, sign: TokenDescriptor -> string)
    requires !PasswordSupplied(dto)
    requires verify(password, e.passwordHash) && config.key.Some?
    ensures var u := ApplyUpdate(e, dto, newHash);
      && Authenticate(Some(u), password, config, now, verify, sign)
         == Success(Some(sign(Descriptor(u, config.key.value, config, now))))
      && DecodeIdentity(Descriptor(u, config.key.value, config, now).claims)
         == Some(Identity(e.id, dto.email, e.role))
  {
    var u := ApplyUpdate(e, dto, newHash);
    UpdateKeepsFixedFields(e, dto, newHash);
    DescriptorIdentifiesEmployee(u, config.key.value, config, now);
  }

  /**
   * AuthenticateAsync against the store: the decision of Authenticate on the
   * record the email lookup returns. So the token, if any, is issued for a
   * stored employee with that email whose hash the password verifies
   * against, and an email no record has gives the null result.
   */
  method AuthenticateAsync(repository: EmployeeRepository, email: string, password: string,
                           config: JwtConfig, now: int,
                           verify: (string, string) -> bool, sign: TokenDescriptor -> string)
    returns (r: Result<Option<string>, AuthError>)
    requires repository.Valid()
    ensures (forall id :: id in repository.records ==> repository.records[id].email != email) ==> r == Success(None)
    ensures r.Success? && r.value.Some? ==>
      exists id :: id in repository.records && repository.records[id].email == email
        && verify(password, repository.records[id].passwordHash) && config.key.Some?
        && r.value.value == sign(Descriptor(repository.records[id], config.key.value, config, now))
    ensures r.Failure? ==> r.error == ConfigurationError(KeyMissingMessage)
    ensures r == Authenticate(FirstWithEmail(repository.records, email, 1, repository.nextId),
                              password, config, now, verify, sign)
  {
    var found := repository.GetByEmail(email);
    r := Authenticate(found, password, config, now, verify, sign);
  }
}
