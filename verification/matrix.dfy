/** The route-authorization matrix shared by every security configuration:
    an ordered list of (method?, path patterns) -> access rules, evaluated
    first-match-wins for each request. */
module Matrix {
  import opened Wrappers

  datatype Method = GET | HEAD | POST | PUT | PATCH | DELETE | OPTIONS | TRACE

  /** A request path, already split at '/' into its segments:
      "/" is [], "/members/me" is ["members", "me"]. */
  type Path = seq<string>

  /** One segment of a path pattern: a literal, or a `{name}` variable that
      matches exactly one non-empty segment. */
  datatype Segment = Lit(text: string) | Var

  // A path pattern: its segments, and whether it ends in `/**`, which
  // matches zero or more further segments.
  datatype Pattern = Pattern(segments: seq<Segment>, anyTail: bool)

  /** What a rule demands of the caller once it is the first rule to match. */
  datatype Access =
    | PermitAll
    | Authenticated
    | HasAnyRole(roles: set<string>)

  /** One `requestMatchers(...)` line: an optional HTTP method (None matches
      every method) and one or more patterns (any of them may match). */
  datatype Rule = Rule(verb: Option<Method>, patterns: seq<Pattern>, access: Access)

  /** A successfully authenticated caller: its name and granted authorities. */
  datatype Principal = Principal(name: string, authorities: seq<string>)

  /** The caller as the authorization step sees it. */
  datatype Identity = Anonymous | Known(principal: Principal)

  /** Outcome of a request at the security boundary:
      `Unauthenticated` is an authentication failure (HTTP 401, or the login
      redirect), `Forbidden` an authorization failure (HTTP 403). */
  datatype Decision = Permit | Unauthenticated | Forbidden

  function StatusCode(d: Decision): (code: nat)
    ensures d == Permit <==> code == 200
    ensures d == Unauthenticated <==> code == 401
    ensures d == Forbidden <==> code == 403
  {
    match d
    case Permit => 200
    case Unauthenticated => 401
    case Forbidden => 403
  }

  const RolePrefix: string := "ROLE_"

  /** The authority string that `hasRole(r)` looks for. */
  function RoleAuthority(role: string): (a: string)
    ensures |a| == |RolePrefix| + |role|
    ensures a[..|RolePrefix|] == RolePrefix && a[|RolePrefix|..] == role
  {
    RolePrefix + role
  }

  /** `hasAnyRole(roles)`: some granted authority is "ROLE_" + r for an r in roles. */
  predicate HasAnyRoleIn(authorities: seq<string>, roles: set<string>) {
    exists r :: r in roles && RoleAuthority(r) in authorities
  }

  // ---------------------------------------------------------------------
  // Path matching

  predicate SegmentMatches(s: Segment, x: string) {
    match s
    case Lit(t) => t == x
    case Var => x != ""
  }

  /** Segment-wise match of equally long pattern segments and path segments. */
  predicate SegmentsMatch(ps: seq<Segment>, xs: Path)
    requires |ps| == |xs|
  {
    |ps| == 0 || (SegmentMatches(ps[0], xs[0]) && SegmentsMatch(ps[1..], xs[1..]))
  }

  predicate PatternMatches(p: Pattern, path: Path) {
    if p.anyTail then
      |p.segments| <= |path| && SegmentsMatch(p.segments, path[..|p.segments|])
    else
      |p.segments| == |path| && SegmentsMatch(p.segments, path)
  }

  predicate AnyPatternMatches(ps: seq<Pattern>, path: Path) {
    |ps| > 0 && (PatternMatches(ps[0], path) || AnyPatternMatches(ps[1..], path))
  }

  predicate MethodMatches(want: Option<Method>, m: Method) {
    want.None? || want.value == m
  }

  predicate RuleMatches(r: Rule, m: Method, path: Path) {
    MethodMatches(r.verb, m) && AnyPatternMatches(r.patterns, path)
  }

  // ---------------------------------------------------------------------
  // First-match evaluation

  /** Index of the first rule at or after `k` that matches the request. */
  function FirstMatchFrom(rules: seq<Rule>, m: Method, path: Path, k: nat): (r: Option<nat>)
    requires k <= |rules|
    ensures r.Some? ==> k <= r.value < |rules| && RuleMatches(rules[r.value], m, path)
    ensures r.Some? ==> forall j :: k <= j < r.value ==> !RuleMatches(rules[j], m, path)
    ensures r.None? ==> forall j :: k <= j < |rules| ==> !RuleMatches(rules[j], m, path)
    decreases |rules| - k
  {
    if k == |rules| then None
    else if RuleMatches(rules[k], m, path) then Some(k)
    else FirstMatchFrom(rules, m, path, k + 1)
  }

  function FirstMatch(rules: seq<Rule>, m: Method, path: Path): Option<nat> {
    FirstMatchFrom(rules, m, path, 0)
  }

  /** The decision a single access rule gives for an identity. */
  function Apply(a: Access, id: Identity): (d: Decision)
    ensures a.PermitAll? ==> d == Permit
    ensures id.Anonymous? && !a.PermitAll? ==> d == Unauthenticated
    ensures a.Authenticated? && id.Known? ==> d == Permit
    ensures a.HasAnyRole? && id.Known? ==>
      (d == Permit <==> HasAnyRoleIn(id.principal.authorities, a.roles))
    ensures d != Permit ==> (d == Unauthenticated <==> id.Anonymous?)
  {
    match a
    case PermitAll => Permit
    case Authenticated => if id.Anonymous? then Unauthenticated else Permit
    case HasAnyRole(roles) =>
      if id.Anonymous? then Unauthenticated
      else if HasAnyRoleIn(id.principal.authorities, roles) then Permit
      else Forbidden
  }

  /** The denial of a request no rule matched: fail closed. */
  function Deny(id: Identity): Decision {
    if id.Anonymous? then Unauthenticated else Forbidden
  }

  /** The decision of an ordered rule list: the first matching rule decides. */
  function Decide(rules: seq<Rule>, m: Method, path: Path, id: Identity): Decision {
    match FirstMatch(rules, m, path)
    case Some(i) => Apply(rules[i].access, id)
    case None => Deny(id)
  }
}
