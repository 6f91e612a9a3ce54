/** Bearer tokens: the claims the login success handlers put in a token,
    the JSON body they answer with, validation against the clock, and the
    two ways the resource servers turn a token back into authorities. The
    signature is abstract: an encoder from claims to token text and a
    decoder that returns the claims of a genuine token. */
module Tokens {
  import opened Wrappers
  import opened Matrix
  import opened MatrixFacts
  import opened JavaText
  import opened Accounts
  import opened UserDetailsLookup

  /** The claims of a token: subject, the optional "role" claim, and the
      expiry instant in seconds. */
  datatype Claims = Claims(subject: string, role: Option<string>, expiresAt: int)

  type TokenEncoder = Claims -> string
  type TokenDecoder = string -> Option<Claims>

  /** A decoder that recovers exactly what the encoder signed. */
  ghost predicate Consistent(enc: TokenEncoder, dec: TokenDecoder) {
    forall c :: dec(enc(c)) == Some(c)
  }

  /** The lifetime every handler gives a token. */
  const ExpirySeconds: int := 3600
  /** The clock skew the framework's default expiry check tolerates. */
  const ClockSkewSeconds: int := 60

  const BodyPrefix: string := "{\"token_type\":\"Bearer\",\"access_token\":\""
  const BodySuffix: string := "\",\"expires_in\":3600}"

  /** The response body of a successful login. */
  function TokenBody(token: string): (body: string)
    ensures |body| == |BodyPrefix| + |token| + |BodySuffix|
    ensures body[..|BodyPrefix|] == BodyPrefix
    ensures body[|BodyPrefix|..|BodyPrefix| + |token|] == token
    ensures body[|BodyPrefix| + |token|..] == BodySuffix
  {
    BodyPrefix + token + BodySuffix
  }

  /** Reading the token back out of a login response body. */
  function ParseTokenBody(body: string): (r: Option<string>)
    ensures r.Some? ==> |body| >= |BodyPrefix| + |BodySuffix|
  {
    if |body| >= |BodyPrefix| + |BodySuffix|
       && body[..|BodyPrefix|] == BodyPrefix
       && body[|body| - |BodySuffix|..] == BodySuffix
    then Some(body[|BodyPrefix|..|body| - |BodySuffix|])
    else None
  }

  lemma ParseTokenBodyRoundTrip(token: string)
    ensures ParseTokenBody(TokenBody(token)) == Some(token)
  {
    var body := TokenBody(token);
    assert |body| - |BodySuffix| == |BodyPrefix| + |token|;
  }

  /** Every body the parser accepts is the body of the token it returns. */
  lemma ParseTokenBodyExact(body: string)
    requires ParseTokenBody(body).Some?
    ensures TokenBody(ParseTokenBody(body).value) == body
  {
    var t := ParseTokenBody(body).value;
    assert body == body[..|BodyPrefix|] + t + body[|body| - |BodySuffix|..];
  }

  datatype LoginResponse = LoginResponse(claims: Claims, token: string, body: string)

  /** The GymServer success handler: the subject, the first authority as
      the "role" claim, expiry one hour from now; no authority is an
      error. */
  function IssueWithRole(p: Principal, now: int, enc: TokenEncoder): (r: Result<LoginResponse, string>)
    ensures r.Err? <==> |p.authorities| == 0
    ensures r.Err? ==> r.error == "No authority found"
    ensures r.Ok? ==> r.value.claims == Claims(p.name, Some(p.authorities[0]), now + ExpirySeconds)
    ensures r.Ok? ==> r.value.token == enc(r.value.claims) && ParseTokenBody(r.value.body) == Some(r.value.token)
  {
    if |p.authorities| == 0 then Err("No authority found")
    else
      var c := Claims(p.name, Some(p.authorities[0]), now + ExpirySeconds);
      ParseTokenBodyRoundTrip(enc(c));
      Ok(LoginResponse(c, enc(c), TokenBody(enc(c))))
  }

  /** The older gym and the news success handlers: subject and expiry only. */
  function IssueSubjectOnly(p: Principal, now: int, enc: TokenEncoder): (r: LoginResponse)
    ensures r.claims == Claims(p.name, None, now + ExpirySeconds)
    ensures r.token == enc(r.claims) && ParseTokenBody(r.body) == Some(r.token)
  {
    var c := Claims(p.name, None, now + ExpirySeconds);
    ParseTokenBodyRoundTrip(enc(c));
    LoginResponse(c, enc(c), TokenBody(enc(c)))
  }

  /** Decoding a bearer token: a genuine signature, and not expired beyond
      the tolerated skew. */
  function Validate(token: string, now: int, dec: TokenDecoder): (r: Option<Claims>)
    ensures r.Some? <==> dec(token).Some? && now <= dec(token).value.expiresAt + ClockSkewSeconds
    ensures r.Some? ==> r == dec(token)
  {
    match dec(token)
    case None => None
    case Some(c) => if now > c.expiresAt + ClockSkewSeconds then None else Some(c)
  }

  /** A freshly issued token validates, with its own claims, up to one hour
      and the skew after issue, and not a second later. */
  lemma ValidityWindow(c: Claims, issuedAt: int, now: int, enc: TokenEncoder, dec: TokenDecoder)
    requires Consistent(enc, dec)
    requires c.expiresAt == issuedAt + ExpirySeconds
    ensures Validate(enc(c), now, dec) == Some(c) <==> now <= issuedAt + ExpirySeconds + ClockSkewSeconds
    ensures Validate(enc(c), now, dec).None? <==> now > issuedAt + ExpirySeconds + ClockSkewSeconds
  {
    assert dec(enc(c)) == Some(c);
  }

  datatype ConvertError =
    | RoleMissing                 // the GymServer converter's IllegalArgumentException
    | Lookup(error: LookupError)  // the store-backed converter's lookup failure

  /** The GymServer converter: trust the role claim verbatim, refusing a
      missing or blank one. */
  function ConvertRoleClaim(c: Claims): (r: Result<Principal, ConvertError>)
    ensures r.Err? <==> c.role.None? || IsBlank(c.role.value)
    ensures r.Err? ==> r.error == RoleMissing
    ensures r.Ok? ==> r.value == Principal(c.subject, [c.role.value])
  {
    if c.role.None? || IsBlank(c.role.value) then Err(RoleMissing)
    else Ok(Principal(c.subject, [c.role.value]))
  }

  /** The older gym and news converters: reload the authorities of the
      token's subject from the store on every request. */
  function ConvertByLookup(c: Claims, load: string -> Result<UserDetails, LookupError>): (r: Result<Principal, ConvertError>)
    ensures r.Err? <==> load(c.subject).Err?
    ensures r.Err? ==> r.error == Lookup(load(c.subject).error)
    ensures r.Ok? ==> r.value == Principal(c.subject, load(c.subject).value.authorities)
  {
    match load(c.subject)
    case Err(e) => Err(Lookup(e))
    case Ok(d) => Ok(Principal(c.subject, d.authorities))
  }

  /** Form login: the user record is loaded and the submitted password
      checked against the stored hash. */
  function PasswordLogin(details: Result<UserDetails, LookupError>, raw: string,
                         matches: (string, string) -> bool): (r: Option<Principal>)
    ensures r.Some? <==> details.Ok? && matches(raw, details.value.password)
    ensures r.Some? ==> r.value == Principal(details.value.username, details.value.authorities)
  {
    match details
    case Ok(d) => if matches(raw, d.password) then Some(Principal(d.username, d.authorities)) else None
    case Err(_) => None
  }

  // ---------------------------------------------------------------------
  // The role chain of the GymServer

  /** A role claim written by the handler passes the converter unchanged,
      as long as the authority it came from has text. */
  lemma ClaimRoundTrip(p: Principal, now: int, enc: TokenEncoder, dec: TokenDecoder, later: int)
    requires Consistent(enc, dec)
    requires |p.authorities| > 0 && !IsBlank(p.authorities[0])
    requires later <= now + ExpirySeconds + ClockSkewSeconds
    ensures IssueWithRole(p, now, enc).Ok?
    ensures var c := IssueWithRole(p, now, enc).value.claims;
      && Validate(IssueWithRole(p, now, enc).value.token, later, dec) == Some(c)
      && ConvertRoleClaim(c) == Ok(Principal(p.name, [p.authorities[0]]))
  {
    var c := IssueWithRole(p, now, enc).value.claims;
    ValidityWindow(c, now, later, enc, dec);
  }

  /** Stored role R, loaded as ROLE_R, written into the token as the claim
      ROLE_R and read back as the authority ROLE_R, passes hasAnyRole(S)
      exactly when R is in S. */
  lemma StoredRoleReachesAuthorization(d: UserDetails, role: string, raw: string,
                                       matches: (string, string) -> bool,
                                       now: int, later: int, enc: TokenEncoder, dec: TokenDecoder,
                                       roles: set<string>)
    requires Consistent(enc, dec)
    requires d.authorities == [RoleAuthority(role)] && matches(raw, d.password)
    requires later <= now + ExpirySeconds + ClockSkewSeconds
    ensures PasswordLogin(Ok(d), raw, matches).Some?
    ensures var p := PasswordLogin(Ok(d), raw, matches).value;
      && IssueWithRole(p, now, enc).Ok?
      && var resp := IssueWithRole(p, now, enc).value;
      && Validate(ParseTokenBody(resp.body).value, later, dec) == Some(resp.claims)
      && resp.claims.role == Some(RoleAuthority(role))
      && ConvertRoleClaim(resp.claims).Ok?
      && (HasAnyRoleIn(ConvertRoleClaim(resp.claims).value.authorities, roles) <==> role in roles)
  {
    var p := PasswordLogin(Ok(d), raw, matches).value;
    assert RoleAuthority(role)[0] == 'R';
    assert !IsBlank(p.authorities[0]);
    ClaimRoundTrip(p, now, enc, dec, later);
    SingleRoleAuthority(role, roles);
  }
  /** The chain above started from the store: the row that answers a gym
      lookup, with stored role R, logs in with its password, and the token
      it gets passes hasAnyRole(S) exactly when R is in S. */
  lemma StoredAccountReachesAuthorization(store: GymStore, u: string, a: Account, raw: string,
                                          matches: (string, string) -> bool,
                                          now: int, later: int, enc: TokenEncoder, dec: TokenDecoder,
                                          roles: set<string>)
    requires Consistent(enc, dec)
    requires a in AnsweringPartition(store, u) && a.username == u && a.password.Some?
    requires LoadGymUser(store, u).Ok?
    requires matches(raw, a.password.value)
    requires later <= now + ExpirySeconds + ClockSkewSeconds
    ensures LoadGymUser(store, u).value == UserDetails(u, a.password.value, [RoleAuthority(a.role)])
    ensures PasswordLogin(LoadGymUser(store, u), raw, matches).Some?
    ensures var p := PasswordLogin(LoadGymUser(store, u), raw, matches).value;
      && p.name == u
      && IssueWithRole(p, now, enc).Ok?
      && var resp := IssueWithRole(p, now, enc).value;
      && Validate(ParseTokenBody(resp.body).value, later, dec) == Some(resp.claims)
      && resp.claims.role == Some(RoleAuthority(a.role))
      && ConvertRoleClaim(resp.claims).Ok?
      && (HasAnyRoleIn(ConvertRoleClaim(resp.claims).value.authorities, roles) <==> a.role in roles)
  {
    AnsweringRowDecides(store, u, a);
    StoredRoleReachesAuthorization(LoadGymUser(store, u).value, a.role, raw, matches, now, later, enc, dec, roles);
  }

}
