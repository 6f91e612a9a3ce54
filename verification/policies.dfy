// The five security configurations of the repository, each as its ordered
// rule list (one rule per `requestMatchers(...)` line, in source order) and
// its CSRF setting. Patterns are written with the helpers below:
// Exact(["members", "me"]) is "/members/me", Under(["swagger-ui"]) is
// "/swagger-ui/**", Under([]) is "/**".
module Policies {
  import opened Wrappers
  import opened Matrix

  function Lits(xs: seq<string>): (ss: seq<Segment>)
    ensures |ss| == |xs|
    ensures forall i :: 0 <= i < |xs| ==> ss[i] == Lit(xs[i])
  {
    if |xs| == 0 then [] else [Lit(xs[0])] + Lits(xs[1..])
  }

  function Exact(xs: seq<string>): Pattern {
    Pattern(Lits(xs), false)
  }

  function Under(xs: seq<string>): Pattern {
    Pattern(Lits(xs), true)
  }

  /** `path` begins with the segments `xs`. */
  predicate StartsWith(path: Path, xs: seq<string>) {
    |xs| <= |path| && path[..|xs|] == xs
  }

  lemma StartsWithHead(path: Path, xs: seq<string>)
    requires |xs| > 0 && StartsWith(path, xs)
    ensures |path| > 0 && path[0] == xs[0]
  {
    assert path[..|xs|][0] == path[0];
  }

  lemma {:induction false} LitsMatch(xs: seq<string>, ys: Path)
    requires |xs| == |ys|
    ensures SegmentsMatch(Lits(xs), ys) <==> xs == ys
    decreases |xs|
  {
    if |xs| > 0 {
      LitsMatch(xs[1..], ys[1..]);
      assert Lits(xs)[1..] == Lits(xs[1..]);
      if xs[0] == ys[0] && xs[1..] == ys[1..] {
        assert xs == [xs[0]] + xs[1..] && ys == [ys[0]] + ys[1..];
      }
    }
  }

  /** A pattern without wildcards matches exactly its own path. */
  lemma ExactMatches(xs: seq<string>, path: Path)
    ensures PatternMatches(Exact(xs), path) <==> path == xs
  {
    if |xs| == |path| {
      LitsMatch(xs, path);
    }
  }

  /** A pattern ending in a multi-segment wildcard matches its own path and
      every path below it. */
  lemma UnderMatches(xs: seq<string>, path: Path)
    ensures PatternMatches(Under(xs), path) <==> StartsWith(path, xs)
  {
    if |xs| <= |path| {
      LitsMatch(xs, path[..|xs|]);
    }
  }

  lemma {:induction false} AnyPatternMatchesIff(ps: seq<Pattern>, path: Path)
    ensures AnyPatternMatches(ps, path) <==> exists p :: p in ps && PatternMatches(p, path)
    decreases |ps|
  {
    if |ps| > 0 {
      AnyPatternMatchesIff(ps[1..], path);
      assert forall p :: p in ps <==> p == ps[0] || p in ps[1..];
    }
  }

  /** "/trainers/{id}" matches "trainers" followed by one non-empty segment. */
  lemma TrainerIdMatches(path: Path)
    ensures PatternMatches(Pattern([Lit("trainers"), Var], false), path) <==>
      |path| == 2 && path[0] == "trainers" && path[1] != ""
  {
    var ps := [Lit("trainers"), Var];
    if |path| == 2 {
      assert ps[1..] == [Var] && ps[1..][1..] == [];
      assert path[1..][0] == path[1];
      assert SegmentsMatch(ps[1..], path[1..]) <==> SegmentMatches(Var, path[1]);
    }
  }

  function AnyMethod(ps: seq<Pattern>, a: Access): Rule {
    Rule(None, ps, a)
  }

  function On(m: Method, ps: seq<Pattern>, a: Access): Rule {
    Rule(Some(m), ps, a)
  }

  /** `anyRequest()`: every method, every path. */
  function AnyRequest(a: Access): Rule {
    Rule(None, [Under([])], a)
  }

  /** How a configuration treats CSRF tokens. `ignoring` lists the
      `ignoringRequestMatchers` patterns; `bearerIgnored` holds in the
      configurations that also act as a bearer-token resource server, where
      the framework exempts requests carrying a bearer token. */
  datatype CsrfPolicy =
    | CsrfDisabled
    | CsrfEnabled(ignoring: seq<Pattern>, bearerIgnored: bool)

  /** A configuration: its rules, its CSRF setting, and whether it also
      signs users in through an OAuth 2.0 provider. Every configuration
      enables form login without a login page of its own, and keeps the
      default logout. */
  datatype SecurityPolicy = SecurityPolicy(rules: seq<Rule>, csrf: CsrfPolicy, oauthLogin: bool)

  /** The requests a framework filter answers itself, after the CSRF check
      and before bearer-token authentication and the rules. */
  datatype Endpoint =
    | LogoutAction       // the logout filter: ends the login and redirects
    | ProviderLogin      // the OAuth 2.0 login filters: redirect to the provider, or its callback
    | LoginProcessing    // the form login filter: checks the submitted credentials
    | LoginPage          // the generated login page
    | LogoutPage         // the generated page that asks to confirm a logout

  /** The framework endpoint a request hits, if any, in filter order. The
      logout filter takes only POST "/logout" while CSRF protection is on,
      and GET, POST, PUT or DELETE "/logout" while it is off. */
  function FilterEndpoint(policy: SecurityPolicy, m: Method, path: Path): (e: Option<Endpoint>)
    ensures e.Some? ==> path == ["login"] || path == ["logout"] || (policy.oauthLogin && |path| > 2)
    ensures path == ["login"] ==> (e.Some? <==> m == GET || m == POST)
    ensures path == ["logout"] && m == POST ==> e == Some(LogoutAction)
    ensures path == ["logout"] && policy.csrf.CsrfEnabled? ==> (e.Some? <==> m == GET || m == POST)
    ensures path == ["logout"] && policy.csrf.CsrfDisabled? ==>
      (e.Some? <==> m == GET || m == POST || m == PUT || m == DELETE) && (e.Some? ==> e == Some(LogoutAction))
    ensures !policy.oauthLogin && path != ["login"] && path != ["logout"] ==> e.None?
  {
    if path == ["logout"] && (if policy.csrf.CsrfEnabled? then m == POST else m in {GET, POST, PUT, DELETE}) then
      Some(LogoutAction)
    else if policy.oauthLogin && |path| == 3 && path[0] == "oauth2" && path[1] == "authorization" && path[2] != "" then
      Some(ProviderLogin)
    else if policy.oauthLogin && |path| == 4 && path[..3] == ["login", "oauth2", "code"] && path[3] != "" then
      Some(ProviderLogin)
    else if path == ["login"] && m == POST then Some(LoginProcessing)
    else if path == ["login"] && m == GET then Some(LoginPage)
    else if path == ["logout"] && m == GET then Some(LogoutPage)
    else None
  }

  const Admin: string := "ADMIN"
  const Trainer: string := "TRAINER"
  const Member: string := "MEMBER"

  // ---------------------------------------------------------------------
  // GymServer configuration

  const GymPublicAny: Rule :=
    AnyMethod([Exact(["error"]), Under(["swagger-ui"]), Under(["v3", "api-docs"]),
               Exact(["login"]), Under(["actuator"])], PermitAll)
  const GymH2Console: Rule := AnyMethod([Under(["h2-console"])], PermitAll)
  const GymPreflight: Rule := On(OPTIONS, [Under([])], PermitAll)
  const GymNewsRead: Rule := On(GET, [Under(["api", "v1", "news"])], PermitAll)
  const GymTrainerList: Rule := On(GET, [Exact(["trainers"])], HasAnyRole({Member, Trainer, Admin}))
  const GymOwnProfile: Rule := On(GET, [Exact(["members", "me"])], HasAnyRole({Member, Admin}))
  const GymTrainerById: Rule :=
    On(GET, [Pattern([Lit("trainers"), Var], false)], HasAnyRole({Trainer, Admin}))
  const GymMemberList: Rule := On(GET, [Exact(["members"])], HasAnyRole({Trainer, Admin}))
  const GymMembersByTrainer: Rule := On(GET, [Under(["members", "by-trainer"])], HasAnyRole({Trainer, Admin}))
  const GymAdminFallback: Rule := AnyMethod([Under([])], HasAnyRole({Admin}))
  const GymAnyRequest: Rule := AnyRequest(Authenticated)

  const GymServerRules: seq<Rule> := [
    GymPublicAny, GymH2Console, GymPreflight, GymNewsRead,
    GymTrainerList, GymOwnProfile, GymTrainerById,
    GymMemberList, GymMembersByTrainer,
    GymAdminFallback,
    GymAnyRequest
  ]

  const GymServerPolicy: SecurityPolicy := SecurityPolicy(GymServerRules, CsrfDisabled, false)

  // ---------------------------------------------------------------------
  // Older gym configuration

  const LegacyPublicAny: Rule :=
    AnyMethod([Exact(["error"]), Under(["swagger-ui"]), Under(["v3", "api-docs"]), Exact(["login"])], PermitAll)
  const LegacyAdminAll: Rule := AnyMethod([Under([])], HasAnyRole({Admin}))
  const LegacyTrainerReads: Rule :=
    On(GET, [Exact(["trainers"]), Pattern([Lit("trainers"), Var], false)], HasAnyRole({Trainer}))
  const LegacyMemberList: Rule := On(GET, [Exact(["members"])], HasAnyRole({Trainer}))
  const LegacyMembersByTrainer: Rule := On(GET, [Under(["members", "by-trainer"])], HasAnyRole({Trainer}))
  const LegacyOwnProfile: Rule := On(GET, [Exact(["members", "me"])], HasAnyRole({Member}))
  const LegacyTrainerList: Rule := On(GET, [Exact(["trainers"])], HasAnyRole({Member}))

  const LegacyGymRules: seq<Rule> := [
    LegacyPublicAny, GymH2Console, GymNewsRead,
    LegacyAdminAll,
    LegacyTrainerReads, LegacyMemberList, LegacyMembersByTrainer,
    LegacyOwnProfile, LegacyTrainerList,
    GymAnyRequest
  ]

  const LegacyGymPolicy: SecurityPolicy :=
    SecurityPolicy(LegacyGymRules, CsrfEnabled([Exact(["login"]), Under(["h2-console"])], true), false)

  // ---------------------------------------------------------------------
  // News API configuration

  const NewsDocs: Rule :=
    AnyMethod([Exact(["error"]), Under(["swagger-ui"]), Under(["v3", "api-docs"])], PermitAll)
  const NewsListRead: Rule := On(GET, [Exact(["api", "v1", "news"])], PermitAll)
  const NewsItemRead: Rule := On(GET, [Under(["api", "v1", "news"])], PermitAll)

  const NewsApiRules: seq<Rule> := [NewsDocs, NewsListRead, NewsItemRead, AnyRequest(Authenticated)]

  const NewsApiPolicy: SecurityPolicy :=
    SecurityPolicy(NewsApiRules, CsrfEnabled([Exact(["login"])], true), false)

  // ---------------------------------------------------------------------
  // News web configuration (HTTP Basic and form login)

  /** `formLogin().permitAll()` puts a permit rule for the login page first. */
  const NewsLoginPage: Rule := AnyMethod([Exact(["login"])], PermitAll)
  const NewsAuth: Rule := AnyMethod([Under(["auth"])], PermitAll)
  const NewsAdmin: Rule := AnyMethod([Under(["admin"])], HasAnyRole({Admin}))
  const NewsH2Console: Rule := AnyMethod([Under(["h2-console"])], PermitAll)
  const NewsLogin: Rule := AnyMethod([Under(["login"])], PermitAll)

  /** The four rules written on consecutive lines of the configuration. */
  const NewsWebBlock: seq<Rule> := [NewsAuth, NewsAdmin, NewsH2Console, NewsLogin]

  const NewsWebRules: seq<Rule> := [NewsLoginPage] + NewsWebBlock + [AnyRequest(Authenticated)]

  const NewsWebPolicy: SecurityPolicy := SecurityPolicy(NewsWebRules, CsrfEnabled([], false), false)

  // ---------------------------------------------------------------------
  // OAuth demo configuration

  const GoogleRules: seq<Rule> := [AnyMethod([Exact([])], PermitAll), AnyRequest(Authenticated)]

  const GooglePolicy: SecurityPolicy := SecurityPolicy(GoogleRules, CsrfDisabled, true)
}
