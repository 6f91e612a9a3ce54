/** The whole security boundary of each configuration, in the order the
    filter chain applies it: the CSRF check, then the endpoints the
    framework's own filters answer (logout, login processing, the
    generated pages, the OAuth 2.0 login), then bearer-token
    authentication (for the configurations that are resource servers),
    then the first-match authorization rules. */
module Gateway {
  import opened Wrappers
  import opened Matrix
  import opened MatrixFacts
  import opened Policies
  import opened JavaText
  import opened Accounts
  import opened UserDetailsLookup
  import opened Tokens
  import GS = GymServerPolicy
  import LG = LegacyGymPolicy
  import NP = NewsPolicy
  import GP = GooglePolicy

  /** A request as the filter chain sees it: method, path, the bearer
      token of the Authorization header if there is one, and whether it
      carries a CSRF token matching the CSRF cookie. */
  datatype Request = Request(verb: Method, path: Path, bearer: Option<string>, csrfToken: bool)

  /** `Handled` is a request a framework filter answered itself;
      `ServerError` is an exception that escapes the filter chain. */
  datatype Outcome = Answered(decision: Decision) | Handled(endpoint: Endpoint) | ServerError

  /** The status code of an outcome; a handled request has none fixed here
      (a redirect, a generated page, or the login handlers' answer). */
  function OutcomeStatus(o: Outcome): (code: Option<nat>)
    ensures o.ServerError? <==> code == Some(500)
    ensures o.Answered? ==> code == Some(StatusCode(o.decision))
    ensures o.Handled? <==> code.None?
  {
    match o
    case Answered(d) => Some(StatusCode(d))
    case Handled(_) => None
    case ServerError => Some(500)
  }

  /** The methods the CSRF filter never checks. */
  predicate SafeMethod(m: Method) {
    m == GET || m == HEAD || m == TRACE || m == OPTIONS
  }

  /** The CSRF filter refuses the request: the check is on, the method is
      state-changing, no exemption applies and no matching token came
      along. */
  predicate CsrfRejects(c: CsrfPolicy, r: Request) {
    match c
    case CsrfDisabled => false
    case CsrfEnabled(ignoring, bearerIgnored) =>
      && !SafeMethod(r.verb)
      && !AnyPatternMatches(ignoring, r.path)
      && !(bearerIgnored && r.bearer.Some?)
      && !r.csrfToken
  }

  /** The request gets past the CSRF check and is no framework endpoint:
      it reaches bearer authentication and the rules. */
  predicate ReachesRules(policy: SecurityPolicy, r: Request) {
    !CsrfRejects(policy.csrf, r) && FilterEndpoint(policy, r.verb, r.path).None?
  }

  /** Turns the claims of a valid token into the authenticated caller. */
  type Converter = Claims -> Result<Principal, ConvertError>

  /** Bearer-token authentication: validate, then convert. An unknown
      subject is an authentication failure; any other converter failure
      is an exception the chain does not handle. */
  function Authenticate(token: string, now: int, dec: TokenDecoder, convert: Converter): (r: Result<Principal, Outcome>)
    ensures r.Ok? <==> Validate(token, now, dec).Some? && convert(Validate(token, now, dec).value).Ok?
    ensures r.Ok? ==> r.value == convert(dec(token).value).value
    ensures r.Err? && r.error.ServerError? <==>
      && Validate(token, now, dec).Some?
      && convert(dec(token).value).Err?
      && !(convert(dec(token).value).error.Lookup? && convert(dec(token).value).error.error.UsernameNotFound?)
    ensures r.Err? ==> r.error == ServerError || r.error == Answered(Unauthenticated)
  {
    match Validate(token, now, dec)
    case None => Err(Answered(Unauthenticated))
    case Some(c) =>
      match convert(c)
      case Ok(p) => Ok(p)
      case Err(Lookup(UsernameNotFound(_))) => Err(Answered(Unauthenticated))
      case Err(_) => Err(ServerError)
  }

  /** A configuration that is both a CSRF-protected application and a
      bearer-token resource server. `ambient` is the caller already in the
      security context when no bearer token comes along: Anonymous for a
      stateless client. */
  function ResourceServerGate(policy: SecurityPolicy, r: Request, ambient: Identity, now: int, dec: TokenDecoder,
                              convert: Converter): (o: Outcome)
    ensures CsrfRejects(policy.csrf, r) ==> o == Answered(Forbidden)
    ensures !CsrfRejects(policy.csrf, r) && FilterEndpoint(policy, r.verb, r.path).Some? ==>
      o == Handled(FilterEndpoint(policy, r.verb, r.path).value)
    ensures ReachesRules(policy, r) && r.bearer.None? ==>
      o == Answered(Decide(policy.rules, r.verb, r.path, ambient))
    ensures o.ServerError? ==> r.bearer.Some? && ReachesRules(policy, r)
    ensures r.bearer.Some? && Validate(r.bearer.value, now, dec).None? && ReachesRules(policy, r) ==>
      o == Answered(Unauthenticated)
  {
    if CsrfRejects(policy.csrf, r) then Answered(Forbidden)
    else if FilterEndpoint(policy, r.verb, r.path).Some? then Handled(FilterEndpoint(policy, r.verb, r.path).value)
    else match r.bearer
      case None => Answered(Decide(policy.rules, r.verb, r.path, ambient))
      case Some(t) =>
        match Authenticate(t, now, dec, convert)
        case Err(o) => o
        case Ok(p) => Answered(Decide(policy.rules, r.verb, r.path, Known(p)))
  }

  /** The GymServer: CSRF off, the role claim taken from the token. */
  function GymServerGate(r: Request, ambient: Identity, now: int, dec: TokenDecoder): (o: Outcome)
    ensures FilterEndpoint(GymServerPolicy, r.verb, r.path).Some? ==>
      o == Handled(FilterEndpoint(GymServerPolicy, r.verb, r.path).value)
    ensures r.bearer.None? && FilterEndpoint(GymServerPolicy, r.verb, r.path).None? ==>
      o == Answered(GS.Table(r.verb, r.path, ambient))
  {
    GS.DecisionTable(r.verb, r.path, ambient);
    ResourceServerGate(GymServerPolicy, r, ambient, now, dec, ConvertRoleClaim)
  }

  /** The older gym application: CSRF on, the token's subject re-read from
      the store on every request. */
  function LegacyGate(store: GymStore, r: Request, ambient: Identity, now: int, dec: TokenDecoder): (o: Outcome)
    ensures r.bearer.None? && ReachesRules(LegacyGymPolicy, r) ==>
      o == Answered(LG.LegacyTable(r.verb, r.path, ambient))
  {
    LG.LegacyDecisionTable(r.verb, r.path, ambient);
    ResourceServerGate(LegacyGymPolicy, r, ambient, now, dec, c => ConvertByLookup(c, u => LoadLegacyGymUser(store, u)))
  }

  /** The news API: CSRF on, the subject re-read from the user store. */
  function NewsApiGate(users: Table, r: Request, ambient: Identity, now: int, dec: TokenDecoder): (o: Outcome)
    ensures r.bearer.None? && ReachesRules(NewsApiPolicy, r) ==>
      o == Answered(NP.NewsApiTable(r.verb, r.path, ambient))
  {
    NP.NewsApiDecisionTable(r.verb, r.path, ambient);
    ResourceServerGate(NewsApiPolicy, r, ambient, now, dec, c => ConvertByLookup(c, u => LoadNewsUser(users, u)))
  }

  /** The `Authorization: Basic` header of a request to the news web front
      end: absent, or a username and a raw password. */
  datatype BasicHeader = NoBasic | Basic(username: string, password: string)

  /** HTTP Basic authentication against the news users: the news lookup
      and the password check. A lookup that throws, for an unknown name or
      a name stored twice, is an authentication failure like a wrong
      password. */
  function BasicLogin(users: Table, username: string, password: string, matches: (string, string) -> bool)
    : (r: Option<Principal>)
    ensures r.Some? ==> NameTaken(users.rows, username) && !NameRepeated(users.rows, username)
    ensures r.Some? <==> LoadNewsUser(users, username).Ok? && matches(password, LoadNewsUser(users, username).value.password)
    ensures r.Some? ==> r.value.name == username && r.value.authorities == LoadNewsUser(users, username).value.authorities
  {
    PasswordLogin(LoadNewsUser(users, username), password, matches)
  }

  /** Whether the Basic filter re-authenticates: not when the session
      already holds a caller of the header's username. */
  predicate BasicRequired(session: Identity, username: string) {
    !(session.Known? && session.principal.name == username)
  }

  /** The news web configuration: CSRF on without exemptions; then the
      login and logout endpoints; then HTTP Basic, whose failure answers
      401 whatever the path; the caller is otherwise the one in `session`. */
  function NewsWebGate(users: Table, r: Request, session: Identity, basic: BasicHeader,
                       matches: (string, string) -> bool): (o: Outcome)
    ensures !SafeMethod(r.verb) && !r.csrfToken ==> o == Answered(Forbidden)
    ensures (SafeMethod(r.verb) || r.csrfToken) && FilterEndpoint(NewsWebPolicy, r.verb, r.path).Some? ==>
      o == Handled(FilterEndpoint(NewsWebPolicy, r.verb, r.path).value)
    ensures ReachesRules(NewsWebPolicy, r) && (basic.NoBasic? || !BasicRequired(session, basic.username)) ==>
      o == Answered(NP.NewsWebTable(r.path, session))
    ensures ReachesRules(NewsWebPolicy, r) && basic.Basic? && BasicRequired(session, basic.username) ==>
      o == match BasicLogin(users, basic.username, basic.password, matches)
           case Some(p) => Answered(NP.NewsWebTable(r.path, Known(p)))
           case None => Answered(Unauthenticated)
  {
    if CsrfRejects(NewsWebPolicy.csrf, r) then Answered(Forbidden)
    else if FilterEndpoint(NewsWebPolicy, r.verb, r.path).Some? then
      Handled(FilterEndpoint(NewsWebPolicy, r.verb, r.path).value)
    else
      var caller :=
        if basic.NoBasic? || !BasicRequired(session, basic.username) then Some(session)
        else match BasicLogin(users, basic.username, basic.password, matches)
          case Some(p) => Some(Known(p))
          case None => None;
      match caller
      case None => Answered(Unauthenticated)
      case Some(id) =>
        NP.NewsWebDecisionTable(r.verb, r.path, id);
        Answered(Decide(NewsWebPolicy.rules, r.verb, r.path, id))
  }

  /** The OAuth demo: CSRF off; the caller is the session's login. */
  function GoogleGate(r: Request, s: GP.Session): (o: Outcome)
    ensures FilterEndpoint(GooglePolicy, r.verb, r.path).Some? ==>
      o == Handled(FilterEndpoint(GooglePolicy, r.verb, r.path).value)
    ensures FilterEndpoint(GooglePolicy, r.verb, r.path).None? ==>
      o == Answered(GP.GoogleTable(r.path, GP.SessionIdentity(s)))
  {
    GP.GoogleDecisionTable(r.verb, r.path, GP.SessionIdentity(s));
    if CsrfRejects(GooglePolicy.csrf, r) then Answered(Forbidden)
    else if FilterEndpoint(GooglePolicy, r.verb, r.path).Some? then
      Handled(FilterEndpoint(GooglePolicy, r.verb, r.path).value)
    else Answered(Decide(GooglePolicy.rules, r.verb, r.path, GP.SessionIdentity(s)))
  }

  // ---------------------------------------------------------------------
  // CSRF

  /** Only state-changing methods are ever refused for CSRF, and a request
      with a matching token never is. */
  lemma CsrfOnlyGuardsWrites(c: CsrfPolicy, r: Request)
    ensures CsrfRejects(c, r) ==> !SafeMethod(r.verb) && !r.csrfToken
    ensures c.CsrfEnabled? && !c.bearerIgnored && !AnyPatternMatches(c.ignoring, r.path) ==>
      (CsrfRejects(c, r) <==> !SafeMethod(r.verb) && !r.csrfToken)
  {
  }

  /** In the older gym application a write without a bearer token outside
      the exempt paths is refused for CSRF (403) whoever the caller is, an
      admin included, and before a missing login could be reported (401);
      with a CSRF token it reaches the rules, which demand ROLE_ADMIN. */
  lemma LegacyCsrfBeforeAuthentication(store: GymStore, ambient: Identity, m: Method, path: Path, now: int, dec: TokenDecoder)
    requires !SafeMethod(m) && |path| > 0 && (path[0] == "members" || path[0] == "trainers")
    ensures LegacyGate(store, Request(m, path, None, false), ambient, now, dec) == Answered(Forbidden)
    ensures LegacyGate(store, Request(m, path, None, true), ambient, now, dec) == Answered(RequireRole({Admin}, ambient))
  {
    LG.NotLegacyPublic(path);
    var ignoring := [Exact(["login"]), Under(["h2-console"])];
    assert LegacyGymPolicy.csrf == CsrfEnabled(ignoring, true);
    AnyPatternMatchesIff(ignoring, path);
    ExactMatches(["login"], path);
    UnderMatches(["h2-console"], path);
    if StartsWith(path, ["h2-console"]) {
      StartsWithHead(path, ["h2-console"]);
    }
    assert !AnyPatternMatches(ignoring, path);
  }

  /** A bearer token switches the CSRF check off in the resource servers,
      whether or not the token is any good. */
  lemma BearerSkipsCsrf(policy: SecurityPolicy, r: Request)
    requires policy == LegacyGymPolicy || policy == NewsApiPolicy
    requires r.bearer.Some?
    ensures !CsrfRejects(policy.csrf, r)
  {
  }

  /** In the news web configuration even the open registration endpoint
      refuses a POST without a CSRF token, whatever credentials come along;
      with one, and without Basic credentials, it is open. */
  lemma NewsRegisterNeedsCsrfToken(users: Table, id: Identity, bearer: Option<string>, basic: BasicHeader,
                                   matches: (string, string) -> bool)
    ensures NewsWebGate(users, Request(POST, ["auth", "register"], bearer, false), id, basic, matches) == Answered(Forbidden)
    ensures NewsWebGate(users, Request(POST, ["auth", "register"], bearer, true), id, NoBasic, matches) == Answered(Permit)
  {
    assert StartsWith(["auth", "register"], ["auth"]);
  }

  /** Basic credentials that fail to authenticate, a name stored twice
      included, give 401 on every path that reaches the rules, the open
      ones included, where the same request without them is decided by the
      web table: the registration page, open to an anonymous caller, is
      refused. */
  lemma BadBasicBeatsPermitAll(users: Table, r: Request, session: Identity, basic: BasicHeader,
                               matches: (string, string) -> bool)
    requires ReachesRules(NewsWebPolicy, r)
    requires basic.Basic? && BasicRequired(session, basic.username)
    requires BasicLogin(users, basic.username, basic.password, matches).None?
    ensures NewsWebGate(users, r, session, basic, matches) == Answered(Unauthenticated)
    ensures NewsWebGate(users, r, session, NoBasic, matches) == Answered(NP.NewsWebTable(r.path, session))
    ensures NameRepeated(users.rows, basic.username) ==>
      NewsWebGate(users, Request(GET, ["auth", "register"], r.bearer, r.csrfToken), session, basic, matches)
        == Answered(Unauthenticated)
    ensures NewsWebGate(users, Request(GET, ["auth", "register"], r.bearer, r.csrfToken), Anonymous, NoBasic, matches)
      == Answered(Permit)
  {
    assert StartsWith(["auth", "register"], ["auth"]);
  }

  /** The OAuth demo never asks for a CSRF token. */
  lemma GoogleNeedsNoCsrfToken(m: Method, path: Path, s: GP.Session, bearer: Option<string>)
    ensures GoogleGate(Request(m, path, bearer, false), s) == GoogleGate(Request(m, path, bearer, true), s)
  {
  }

  // ---------------------------------------------------------------------
  // Framework endpoints

  /** Every configuration serves the generated login page, whatever token
      comes along. The GymServer, with CSRF off, logs out on GET, POST,
      PUT or DELETE "/logout". The older application, with CSRF on, refuses
      a logout POST without a CSRF token, performs one with it, and answers
      GET "/logout" with the confirmation page. */
  lemma FrameworkEndpointsAnswerFirst(store: GymStore, users: Table, s: GP.Session, ambient: Identity, now: int,
                                      dec: TokenDecoder, bearer: Option<string>, csrf: bool, basic: BasicHeader,
                                      matches: (string, string) -> bool)
    ensures GymServerGate(Request(GET, ["login"], bearer, csrf), ambient, now, dec) == Handled(LoginPage)
    ensures LegacyGate(store, Request(GET, ["login"], bearer, csrf), ambient, now, dec) == Handled(LoginPage)
    ensures NewsApiGate(users, Request(GET, ["login"], bearer, csrf), ambient, now, dec) == Handled(LoginPage)
    ensures NewsWebGate(users, Request(GET, ["login"], bearer, csrf), ambient, basic, matches) == Handled(LoginPage)
    ensures GoogleGate(Request(GET, ["login"], bearer, csrf), s) == Handled(LoginPage)
    ensures GymServerGate(Request(DELETE, ["logout"], bearer, csrf), ambient, now, dec) == Handled(LogoutAction)
    ensures LegacyGate(store, Request(POST, ["logout"], None, false), ambient, now, dec) == Answered(Forbidden)
    ensures LegacyGate(store, Request(POST, ["logout"], None, true), ambient, now, dec) == Handled(LogoutAction)
    ensures LegacyGate(store, Request(GET, ["logout"], bearer, csrf), ambient, now, dec) == Handled(LogoutPage)
  {
    assert !AnyPatternMatches(LegacyGymPolicy.csrf.ignoring, ["logout"]) by {
      AnyPatternMatchesIff(LegacyGymPolicy.csrf.ignoring, ["logout"]);
      ExactMatches(["login"], ["logout"]);
      UnderMatches(["h2-console"], ["logout"]);
      assert !StartsWith(["logout"], ["h2-console"]);
    }
  }

  // ---------------------------------------------------------------------
  // Bearer tokens at the boundary

  /** A token that fails validation is refused with 401 even on a path
      anyone may use without one: authentication runs before
      authorization. Only the framework's own endpoints answer first. */
  lemma BadTokenBeatsPermitAll(policy: SecurityPolicy, r: Request, ambient: Identity, now: int, dec: TokenDecoder, convert: Converter)
    requires !CsrfRejects(policy.csrf, r)
    requires r.bearer.Some? && Validate(r.bearer.value, now, dec).None?
    ensures FilterEndpoint(policy, r.verb, r.path).None? ==>
      ResourceServerGate(policy, r, ambient, now, dec, convert) == Answered(Unauthenticated)
    ensures FilterEndpoint(policy, r.verb, r.path).Some? ==>
      ResourceServerGate(policy, r, ambient, now, dec, convert) == Handled(FilterEndpoint(policy, r.verb, r.path).value)
    ensures ReachesRules(policy, r.(bearer := None)) ==>
      ResourceServerGate(policy, r.(bearer := None), ambient, now, dec, convert) ==
      Answered(Decide(policy.rules, r.verb, r.path, ambient))
  {
  }

  /** An expired token makes even the public news listing answer 401. */
  lemma ExpiredTokenOnNewsListing(users: Table, ambient: Identity, token: string, now: int, dec: TokenDecoder)
    requires dec(token).Some? && now > dec(token).value.expiresAt + ClockSkewSeconds
    ensures NewsApiGate(users, Request(GET, ["api", "v1", "news"], Some(token), false), ambient, now, dec) ==
      Answered(Unauthenticated)
    ensures NewsApiGate(users, Request(GET, ["api", "v1", "news"], None, false), Anonymous, now, dec) == Answered(Permit)
  {
    assert StartsWith(["api", "v1", "news"], ["api", "v1", "news"]);
  }

  /** Full login-to-request chain in the GymServer: a caller whose record
      loads with ROLE_R logs in, receives a token, and within the token's
      lifetime every request bearing it that reaches the rules is decided
      by the access table for ROLE_R; after that every such request is
      refused as unauthenticated. The framework's own endpoints answer
      without reading the token. */
  lemma GymServerTokenDecides(d: UserDetails, role: string, raw: string, matches: (string, string) -> bool,
                              issuedAt: int, enc: TokenEncoder, dec: TokenDecoder,
                              m: Method, path: Path, csrf: bool, ambient: Identity, now: int)
    requires Consistent(enc, dec)
    requires d.authorities == [RoleAuthority(role)] && matches(raw, d.password)
    ensures PasswordLogin(Ok(d), raw, matches).Some?
    ensures IssueWithRole(PasswordLogin(Ok(d), raw, matches).value, issuedAt, enc).Ok?
    ensures var t := IssueWithRole(PasswordLogin(Ok(d), raw, matches).value, issuedAt, enc).value.token;
      && (FilterEndpoint(GymServerPolicy, m, path).None? && now <= issuedAt + ExpirySeconds + ClockSkewSeconds ==>
            GymServerGate(Request(m, path, Some(t), csrf), ambient, now, dec) ==
            Answered(GS.Table(m, path, Known(Principal(d.username, [RoleAuthority(role)])))))
      && (FilterEndpoint(GymServerPolicy, m, path).None? && now > issuedAt + ExpirySeconds + ClockSkewSeconds ==>
            GymServerGate(Request(m, path, Some(t), csrf), ambient, now, dec) == Answered(Unauthenticated))
      && (FilterEndpoint(GymServerPolicy, m, path).Some? ==>
            GymServerGate(Request(m, path, Some(t), csrf), ambient, now, dec) ==
            Handled(FilterEndpoint(GymServerPolicy, m, path).value))
  {
    var p := PasswordLogin(Ok(d), raw, matches).value;
    assert RoleAuthority(role)[0] == 'R';
    assert !IsBlank(p.authorities[0]);
    var resp := IssueWithRole(p, issuedAt, enc).value;
    ValidityWindow(resp.claims, issuedAt, now, enc, dec);
    GS.DecisionTable(m, path, Known(Principal(d.username, [RoleAuthority(role)])));
  }

  /** The GymServer never re-reads the store: a token issued to an admin
      permits every request that reaches the rules until it expires,
      whatever has happened to the account since. */
  lemma GymServerAdminTokenOutlivesAccount(name: string, ambient: Identity, issuedAt: int, enc: TokenEncoder, dec: TokenDecoder,
                                           m: Method, path: Path, now: int)
    requires Consistent(enc, dec)
    requires now <= issuedAt + ExpirySeconds + ClockSkewSeconds
    ensures var t := IssueWithRole(Principal(name, [RoleAuthority(Admin)]), issuedAt, enc).value.token;
      FilterEndpoint(GymServerPolicy, m, path).None? ==>
      GymServerGate(Request(m, path, Some(t), false), ambient, now, dec) == Answered(Permit)
  {
    var p := Principal(name, [RoleAuthority(Admin)]);
    var resp := IssueWithRole(p, issuedAt, enc).value;
    assert !IsBlank(p.authorities[0]) by {
      assert p.authorities[0][0] == 'R';
    }
    ValidityWindow(resp.claims, issuedAt, now, enc, dec);
    GS.AdminNeverDenied(p, m, path);
  }

  /** A token without a role claim, such as the older application's, makes
      the GymServer converter throw: every request that reaches the rules
      fails with a server error instead of a 401. */
  lemma RolelessTokenCrashesGymServer(p: Principal, ambient: Identity, issuedAt: int, enc: TokenEncoder, dec: TokenDecoder,
                                      m: Method, path: Path, now: int)
    requires Consistent(enc, dec)
    requires now <= issuedAt + ExpirySeconds + ClockSkewSeconds
    ensures FilterEndpoint(GymServerPolicy, m, path).None? ==>
      GymServerGate(Request(m, path, Some(IssueSubjectOnly(p, issuedAt, enc).token), false), ambient, now, dec) == ServerError
  {
    var resp := IssueSubjectOnly(p, issuedAt, enc);
    ValidityWindow(resp.claims, issuedAt, now, enc, dec);
  }

  /** In the older application a valid token is worth what the store says
      about its subject at the time of the request, on every request that
      reaches the rules. */
  lemma LegacyRereadsStore(store: GymStore, ambient: Identity, token: string, now: int, dec: TokenDecoder, m: Method, path: Path, csrf: bool)
    requires Validate(token, now, dec).Some?
    requires LoadLegacyGymUser(store, dec(token).value.subject).Ok?
    ensures FilterEndpoint(LegacyGymPolicy, m, path).None? ==>
      LegacyGate(store, Request(m, path, Some(token), csrf), ambient, now, dec) ==
      Answered(LG.LegacyTable(m, path, Known(Principal(dec(token).value.subject,
        LoadLegacyGymUser(store, dec(token).value.subject).value.authorities))))
  {
    var u := dec(token).value.subject;
    LG.LegacyDecisionTable(m, path, Known(Principal(u, LoadLegacyGymUser(store, u).value.authorities)));
  }

  /** Demoting an admin in the older application takes effect on the next
      request with the same token. */
  lemma LegacyDemotionTakesEffect(before: GymStore, after: GymStore, ambient: Identity, token: string, now: int, dec: TokenDecoder)
    requires Validate(token, now, dec).Some?
    requires LoadLegacyGymUser(before, dec(token).value.subject).Ok?
    requires LoadLegacyGymUser(before, dec(token).value.subject).value.authorities == [RoleAuthority(Admin)]
    requires LoadLegacyGymUser(after, dec(token).value.subject).Ok?
    requires LoadLegacyGymUser(after, dec(token).value.subject).value.authorities == [RoleAuthority(Trainer)]
    ensures LegacyGate(before, Request(DELETE, ["trainers", "7"], Some(token), false), ambient, now, dec) == Answered(Permit)
    ensures LegacyGate(after, Request(DELETE, ["trainers", "7"], Some(token), false), ambient, now, dec) == Answered(Forbidden)
  {
    var path := ["trainers", "7"];
    LegacyRereadsStore(before, ambient, token, now, dec, DELETE, path, false);
    LegacyRereadsStore(after, ambient, token, now, dec, DELETE, path, false);
    LG.NotLegacyPublic(path);
    assert HasAnyRoleIn([RoleAuthority(Admin)], {Admin}) by {
      assert RoleAuthority(Admin) in [RoleAuthority(Admin)];
    }
    assert !HasAnyRoleIn([RoleAuthority(Trainer)], {Admin}) by {
      assert RoleAuthority(Trainer) != RoleAuthority(Admin) by {
        assert RoleAuthority(Trainer)[5] != RoleAuthority(Admin)[5];
      }
    }
  }

  /** A valid token whose subject is no longer stored is refused with 401,
      on every route that reaches the rules, the public ones included. */
  lemma LegacyUnknownSubject(store: GymStore, ambient: Identity, token: string, now: int, dec: TokenDecoder, m: Method, path: Path, csrf: bool)
    requires Validate(token, now, dec).Some?
    requires LoadLegacyGymUser(store, dec(token).value.subject).Err?
    requires LoadLegacyGymUser(store, dec(token).value.subject).error.UsernameNotFound?
    ensures FilterEndpoint(LegacyGymPolicy, m, path).None? ==>
      LegacyGate(store, Request(m, path, Some(token), csrf), ambient, now, dec) == Answered(Unauthenticated)
  {
  }

  /** In the news API a valid token of a user stored once opens every
      route that reaches the rules, whatever that user's role; one of an
      unknown user opens none, and one whose name is stored twice makes
      every such request fail with a server error. */
  lemma NewsApiTokenOpensEverything(users: Table, ambient: Identity, token: string, now: int, dec: TokenDecoder, m: Method, path: Path, csrf: bool)
    requires Validate(token, now, dec).Some?
    ensures FilterEndpoint(NewsApiPolicy, m, path).None? && LoadNewsUser(users, dec(token).value.subject).Ok? ==>
      NewsApiGate(users, Request(m, path, Some(token), csrf), ambient, now, dec) == Answered(Permit)
    ensures FilterEndpoint(NewsApiPolicy, m, path).None? && !NameTaken(users.rows, dec(token).value.subject) ==>
      NewsApiGate(users, Request(m, path, Some(token), csrf), ambient, now, dec) == Answered(Unauthenticated)
    ensures FilterEndpoint(NewsApiPolicy, m, path).None? && NameRepeated(users.rows, dec(token).value.subject) ==>
      NewsApiGate(users, Request(m, path, Some(token), csrf), ambient, now, dec) == ServerError
  {
    var u := dec(token).value.subject;
    if LoadNewsUser(users, u).Ok? {
      NP.NewsApiIgnoresRoles(m, path, Principal(u, LoadNewsUser(users, u).value.authorities),
                             Principal(u, LoadNewsUser(users, u).value.authorities));
    }
  }

  /** After logout from the OAuth demo, any request off "/" that reaches
      the rules must log in again, while the page the logout lands on stays
      reachable; the login page, the logout and the provider login are
      answered by the framework. */
  lemma LoggedOutMustReauthenticate(s: GP.Session, m: Method, path: Path, bearer: Option<string>, csrf: bool)
    requires path != []
    ensures FilterEndpoint(GooglePolicy, m, path).None? ==>
      GoogleGate(Request(m, path, bearer, csrf), GP.Logout(s).0) == Answered(Unauthenticated)
    ensures FilterEndpoint(GooglePolicy, m, path).Some? ==>
      GoogleGate(Request(m, path, bearer, csrf), GP.Logout(s).0) == Handled(FilterEndpoint(GooglePolicy, m, path).value)
    ensures GoogleGate(Request(GET, GP.Logout(s).1, bearer, csrf), GP.Logout(s).0) == Answered(Permit)
  {
  }
}
