// Facts about the two news rule lists: the token-based API configuration
// and the HTTP Basic / form-login web configuration.
module NewsPolicy {
  import opened Wrappers
  import opened Matrix
  import opened MatrixFacts
  import opened Policies

  // ---------------------------------------------------------------------
  // News API

  /** The API requests anyone may make without a token. */
  predicate NewsApiPublic(m: Method, path: Path) {
    || path == ["error"] || StartsWith(path, ["swagger-ui"]) || StartsWith(path, ["v3", "api-docs"])
    || (m == GET && StartsWith(path, ["api", "v1", "news"]))
  }

  /** The API grants: public requests to anyone, everything else to any
      authenticated caller, whatever its authorities. */
  function NewsApiTable(m: Method, path: Path, id: Identity): Decision {
    if NewsApiPublic(m, path) then Permit else RequireLogin(id)
  }

  lemma NewsApiShapes(m: Method, path: Path)
    ensures RuleMatches(NewsDocs, m, path) <==>
      path == ["error"] || StartsWith(path, ["swagger-ui"]) || StartsWith(path, ["v3", "api-docs"])
    ensures RuleMatches(NewsListRead, m, path) <==> m == GET && path == ["api", "v1", "news"]
    ensures RuleMatches(NewsItemRead, m, path) <==> m == GET && StartsWith(path, ["api", "v1", "news"])
  {
    AnyPatternMatchesIff(NewsDocs.patterns, path);
    ExactMatches(["error"], path);
    UnderMatches(["swagger-ui"], path);
    UnderMatches(["v3", "api-docs"], path);
    AnyPatternMatchesIff(NewsListRead.patterns, path);
    ExactMatches(["api", "v1", "news"], path);
    AnyPatternMatchesIff(NewsItemRead.patterns, path);
    UnderMatches(["api", "v1", "news"], path);
  }

  /** First-match evaluation of the API rules is exactly NewsApiTable. */
  lemma NewsApiDecisionTable(m: Method, path: Path, id: Identity)
    ensures Decide(NewsApiRules, m, path, id) == NewsApiTable(m, path, id)
  {
    NewsApiShapes(m, path);
    var R := NewsApiRules;
    if RuleMatches(NewsDocs, m, path) {
      FirstMatchIs(R, 0, m, path);
    } else if RuleMatches(NewsListRead, m, path) {
      FirstMatchIs(R, 1, m, path);
    } else if RuleMatches(NewsItemRead, m, path) {
      FirstMatchIs(R, 2, m, path);
    } else {
      CatchAllMatches(R[3], m, path);
      FirstMatchIs(R, 3, m, path);
    }
  }

  /** No API route checks a role: two authenticated callers always get the
      same decision. */
  lemma NewsApiIgnoresRoles(m: Method, path: Path, p: Principal, q: Principal)
    ensures Decide(NewsApiRules, m, path, Known(p)) == Permit
    ensures Decide(NewsApiRules, m, path, Known(p)) == Decide(NewsApiRules, m, path, Known(q))
  {
    NewsApiDecisionTable(m, path, Known(p));
    NewsApiDecisionTable(m, path, Known(q));
  }

  /** Writes to the news collection need a token; reads of it do not. */
  lemma NewsWritesNeedToken(m: Method, rest: seq<string>)
    requires m in {POST, PUT, DELETE}
    ensures Decide(NewsApiRules, m, ["api", "v1", "news"] + rest, Anonymous) == Unauthenticated
    ensures Decide(NewsApiRules, GET, ["api", "v1", "news"] + rest, Anonymous) == Permit
  {
    var path := ["api", "v1", "news"] + rest;
    assert path[..3] == ["api", "v1", "news"];
    if NewsApiPublic(m, path) {
      if StartsWith(path, ["swagger-ui"]) {
        StartsWithHead(path, ["swagger-ui"]);
      } else if StartsWith(path, ["v3", "api-docs"]) {
        StartsWithHead(path, ["v3", "api-docs"]);
      }
    }
    NewsApiDecisionTable(m, path, Anonymous);
    NewsApiDecisionTable(GET, path, Anonymous);
  }

  // The GET "/api/v1/news" rule is redundant: the "/api/v1/news/**" rule
  // after it covers the same request with the same access.
  lemma NewsListRuleRedundant(m: Method, path: Path, id: Identity)
    ensures Decide(NewsApiRules, m, path, id) == Decide([NewsDocs, NewsItemRead, AnyRequest(Authenticated)], m, path, id)
  {
    NewsApiShapes(m, path);
    var R := NewsApiRules;
    assert R[..1] + R[2..] == [NewsDocs, NewsItemRead, AnyRequest(Authenticated)];
    DropSubsumedRule(R, 1, m, path, id);
  }

  // ---------------------------------------------------------------------
  // News web

  /** The web paths open to anyone, whatever the method. */
  predicate NewsWebPublic(path: Path) {
    StartsWith(path, ["auth"]) || StartsWith(path, ["h2-console"]) || StartsWith(path, ["login"])
  }

  // The web configuration grants: public paths to anyone, "/admin/**" to
  // ROLE_ADMIN, everything else to any authenticated caller.
  function NewsWebTable(path: Path, id: Identity): Decision {
    if NewsWebPublic(path) then Permit
    else if StartsWith(path, ["admin"]) then RequireRole({Admin}, id)
    else RequireLogin(id)
  }

  /** A rule for one first segment and everything below it, any method. */
  predicate PrefixRule(r: Rule, a: string) {
    r.verb.None? && r.patterns == [Under([a])]
  }

  lemma PrefixRuleMatches(r: Rule, a: string, m: Method, path: Path)
    requires PrefixRule(r, a)
    ensures RuleMatches(r, m, path) <==> StartsWith(path, [a])
  {
    AnyPatternMatchesIff(r.patterns, path);
    UnderMatches([a], path);
  }

  /** Rules for two different first segments never match the same request. */
  lemma PrefixRulesExclusive(r1: Rule, a: string, r2: Rule, b: string)
    requires PrefixRule(r1, a) && PrefixRule(r2, b) && a != b
    ensures Exclusive(r1, r2)
  {
    forall m, path
      ensures !(RuleMatches(r1, m, path) && RuleMatches(r2, m, path))
    {
      PrefixRuleMatches(r1, a, m, path);
      PrefixRuleMatches(r2, b, m, path);
      if StartsWith(path, [a]) {
        StartsWithHead(path, [a]);
        if StartsWith(path, [b]) {
          StartsWithHead(path, [b]);
        }
      }
    }
  }

  /** The first segment each rule of the four-line block guards. */
  function BlockPrefix(r: Rule): string {
    if r == NewsAuth then "auth"
    else if r == NewsAdmin then "admin"
    else if r == NewsH2Console then "h2-console"
    else "login"
  }

  /** The four consecutive rules guard four different first segments. */
  lemma NewsWebBlockExclusive()
    ensures PairwiseExclusive(NewsWebBlock)
  {
    forall r1, r2 | r1 in NewsWebBlock && r2 in NewsWebBlock && r1 != r2
      ensures Exclusive(r1, r2)
    {
      assert PrefixRule(r1, BlockPrefix(r1));
      assert PrefixRule(r2, BlockPrefix(r2));
      PrefixRulesExclusive(r1, BlockPrefix(r1), r2, BlockPrefix(r2));
    }
  }

  /** Writing the four lines in any order gives the same decisions. */
  lemma NewsWebBlockOrderIrrelevant(block: seq<Rule>, m: Method, path: Path, id: Identity)
    requires multiset(block) == multiset(NewsWebBlock)
    ensures Decide(NewsWebRules, m, path, id) ==
      Decide([NewsLoginPage] + block + [AnyRequest(Authenticated)], m, path, id)
  {
    NewsWebBlockExclusive();
    PermuteExclusiveBlock([NewsLoginPage], NewsWebBlock, block, [AnyRequest(Authenticated)], m, path, id);
  }

  lemma NewsWebShapes(m: Method, path: Path)
    ensures RuleMatches(NewsLoginPage, m, path) <==> path == ["login"]
    ensures RuleMatches(NewsAuth, m, path) <==> StartsWith(path, ["auth"])
    ensures RuleMatches(NewsAdmin, m, path) <==> StartsWith(path, ["admin"])
    ensures RuleMatches(NewsH2Console, m, path) <==> StartsWith(path, ["h2-console"])
    ensures RuleMatches(NewsLogin, m, path) <==> StartsWith(path, ["login"])
  {
    AnyPatternMatchesIff(NewsLoginPage.patterns, path);
    ExactMatches(["login"], path);
    PrefixRuleMatches(NewsAuth, "auth", m, path);
    PrefixRuleMatches(NewsAdmin, "admin", m, path);
    PrefixRuleMatches(NewsH2Console, "h2-console", m, path);
    PrefixRuleMatches(NewsLogin, "login", m, path);
  }

  lemma NewsWebRulesListed()
    ensures NewsWebRules == [NewsLoginPage, NewsAuth, NewsAdmin, NewsH2Console, NewsLogin, AnyRequest(Authenticated)]
  {
  }

  /** A path starts with the single segment `a` exactly when its first
      segment is `a`. */
  lemma StartsWithSegment(path: Path, a: string)
    ensures StartsWith(path, [a]) <==> |path| > 0 && path[0] == a
  {
    if |path| > 0 && path[0] == a {
      assert path[..1] == [a];
    }
    if StartsWith(path, [a]) {
      StartsWithHead(path, [a]);
    }
  }

  /** The web rule that decides a request: the login page, then the rule
      for the path's first segment, then the catch-all. */
  function WebIndex(path: Path): (k: nat)
    ensures k < |NewsWebRules|
  {
    if path == ["login"] then 0
    else if |path| > 0 && path[0] == "auth" then 1
    else if |path| > 0 && path[0] == "admin" then 2
    else if |path| > 0 && path[0] == "h2-console" then 3
    else if |path| > 0 && path[0] == "login" then 4
    else 5
  }

  lemma WebFirstMatch(m: Method, path: Path)
    ensures FirstMatch(NewsWebRules, m, path) == Some(WebIndex(path))
  {
    NewsWebShapes(m, path);
    NewsWebRulesListed();
    StartsWithSegment(path, "auth");
    StartsWithSegment(path, "admin");
    StartsWithSegment(path, "h2-console");
    StartsWithSegment(path, "login");
    var R := NewsWebRules;
    if WebIndex(path) == 5 {
      CatchAllMatches(R[5], m, path);
    }
    FirstMatchIs(R, WebIndex(path), m, path);
  }

  /** First-match evaluation of the web rules is exactly NewsWebTable. */
  lemma NewsWebDecisionTable(m: Method, path: Path, id: Identity)
    ensures Decide(NewsWebRules, m, path, id) == NewsWebTable(path, id)
  {
    WebFirstMatch(m, path);
    NewsWebRulesListed();
    StartsWithSegment(path, "auth");
    StartsWithSegment(path, "admin");
    StartsWithSegment(path, "h2-console");
    StartsWithSegment(path, "login");
  }

  // The web rules take the authority verbatim, so a caller whose one
  // authority is the stored role passes "/admin/**" exactly when that role
  // was stored already prefixed as "ROLE_ADMIN"; a role stored as "ADMIN"
  // is refused.
  lemma NewsAdminNeedsPrefixedRole(u: string, role: string, m: Method, rest: seq<string>)
    ensures Decide(NewsWebRules, m, ["admin"] + rest, Known(Principal(u, [role]))) == Permit
      <==> role == "ROLE_ADMIN"
    ensures Decide(NewsWebRules, m, ["admin"] + rest, Known(Principal(u, ["ADMIN"]))) == Forbidden
  {
    var path := ["admin"] + rest;
    assert path[..1] == ["admin"];
    NewsWebDecisionTable(m, path, Known(Principal(u, [role])));
    NewsWebDecisionTable(m, path, Known(Principal(u, ["ADMIN"])));
    assert RoleAuthority(Admin) == "ROLE_ADMIN";
  }
}
