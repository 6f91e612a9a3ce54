/** General facts about first-match evaluation: which rule decides, what a
    catch-all does to the rules after it, how a rule list splits, and when
    reordering rules is harmless. */
module MatrixFacts {
  import opened Wrappers
  import opened Matrix

  /** Shorthand for the decision a `hasAnyRole(roles)` rule gives, used by
      the decision tables. */
  function RequireRole(roles: set<string>, id: Identity): Decision {
    Apply(HasAnyRole(roles), id)
  }

  // A rule that matches every method and every path, such as
  // `requestMatchers("/**")` or `anyRequest()`.
  predicate MatchesEverything(r: Rule) {
    r.verb.None? && Pattern([], true) in r.patterns
  }

  lemma {:induction false} AnyPatternMatchesMember(ps: seq<Pattern>, p: Pattern, path: Path)
    requires p in ps && PatternMatches(p, path)
    ensures AnyPatternMatches(ps, path)
    decreases |ps|
  {
    if ps[0] != p {
      assert p in ps[1..];
      AnyPatternMatchesMember(ps[1..], p, path);
    }
  }

  lemma CatchAllMatches(r: Rule, m: Method, path: Path)
    requires MatchesEverything(r)
    ensures RuleMatches(r, m, path)
  {
    assert PatternMatches(Pattern([], true), path);
    AnyPatternMatchesMember(r.patterns, Pattern([], true), path);
  }

  /** The first match is the earliest matching index: the two views agree. */
  lemma FirstMatchIs(rules: seq<Rule>, i: nat, m: Method, path: Path)
    requires i < |rules| && RuleMatches(rules[i], m, path)
    requires forall j :: 0 <= j < i ==> !RuleMatches(rules[j], m, path)
    ensures FirstMatch(rules, m, path) == Some(i)
  {
  }

  /** Decide, stated without FirstMatch: the access of the earliest matching
      rule decides, and a request no rule matches is denied. */
  lemma DecideByEarliestRule(rules: seq<Rule>, i: nat, m: Method, path: Path, id: Identity)
    requires i < |rules| && RuleMatches(rules[i], m, path)
    requires forall j :: 0 <= j < i ==> !RuleMatches(rules[j], m, path)
    ensures Decide(rules, m, path, id) == Apply(rules[i].access, id)
  {
    FirstMatchIs(rules, i, m, path);
  }

  /** When the first k rules all permit everyone, a request one of them
      matches is permitted, whichever of them matches first. */
  lemma PermitBlockDecides(rules: seq<Rule>, k: nat, i: nat, m: Method, path: Path, id: Identity)
    requires i < k <= |rules|
    requires forall j :: 0 <= j < k ==> rules[j].access == PermitAll
    requires RuleMatches(rules[i], m, path)
    ensures Decide(rules, m, path, id) == Permit
  {
    var f := FirstMatch(rules, m, path);
    assert f.Some? && f.value <= i;
  }

  lemma DecideWithoutMatch(rules: seq<Rule>, m: Method, path: Path, id: Identity)
    requires forall j :: 0 <= j < |rules| ==> !RuleMatches(rules[j], m, path)
    ensures Decide(rules, m, path, id) == (if id.Anonymous? then Unauthenticated else Forbidden)
  {
  }

  /** A catch-all at index k decides every request no earlier rule took:
      no rule after it is ever the first match. */
  lemma CatchAllShadows(rules: seq<Rule>, k: nat, m: Method, path: Path)
    requires k < |rules| && MatchesEverything(rules[k])
    ensures FirstMatch(rules, m, path).Some?
    ensures FirstMatch(rules, m, path).value <= k
  {
    CatchAllMatches(rules[k], m, path);
  }

  /** Rules after a catch-all are dead: dropping them changes no decision. */
  lemma RulesAfterCatchAllAreDead(rules: seq<Rule>, k: nat, m: Method, path: Path, id: Identity)
    requires k < |rules| && MatchesEverything(rules[k])
    ensures Decide(rules, m, path, id) == Decide(rules[..k + 1], m, path, id)
  {
    CatchAllShadows(rules, k, m, path);
    var i := FirstMatch(rules, m, path).value;
    DecideByEarliestRule(rules[..k + 1], i, m, path, id);
  }

  /** Splitting a rule list: the head part decides whenever one of its rules
      matches, and the tail part decides otherwise. */
  lemma DecideAppend(a: seq<Rule>, b: seq<Rule>, m: Method, path: Path, id: Identity)
    ensures Decide(a + b, m, path, id) ==
      if FirstMatch(a, m, path).Some? then Decide(a, m, path, id) else Decide(b, m, path, id)
  {
    var ab := a + b;
    match FirstMatch(a, m, path)
    case Some(i) =>
      DecideByEarliestRule(ab, i, m, path, id);
    case None =>
      match FirstMatch(b, m, path)
      case Some(i) =>
        assert forall j :: 0 <= j < |a| ==> ab[j] == a[j];
        assert ab[|a| + i] == b[i];
        forall j | 0 <= j < |a| + i
          ensures !RuleMatches(ab[j], m, path)
        {
          if j >= |a| {
            assert ab[j] == b[j - |a|];
          }
        }
        DecideByEarliestRule(ab, |a| + i, m, path, id);
      case None =>
        forall j | 0 <= j < |ab|
          ensures !RuleMatches(ab[j], m, path)
        {
          if j >= |a| {
            assert ab[j] == b[j - |a|];
          }
        }
    }

  /** The decision `authenticated()` gives, written out independently. */
  function RequireLogin(id: Identity): Decision {
    if id.Anonymous? then Unauthenticated else Permit
  }

  /** A rule whose every match is also a match of the next rule, with the
      same access, is redundant: dropping it changes no decision. */
  lemma DropSubsumedRule(rules: seq<Rule>, i: nat, m: Method, path: Path, id: Identity)
    requires i + 1 < |rules| && rules[i].access == rules[i + 1].access
    requires RuleMatches(rules[i], m, path) ==> RuleMatches(rules[i + 1], m, path)
    ensures Decide(rules, m, path, id) == Decide(rules[..i] + rules[i + 1..], m, path, id)
  {
    var rest := rules[..i] + rules[i + 1..];
    match FirstMatch(rules, m, path)
    case Some(f) =>
      if f < i {
        assert rest[f] == rules[f];
        forall j | 0 <= j < f
          ensures !RuleMatches(rest[j], m, path)
        {
          assert rest[j] == rules[j];
        }
        DecideByEarliestRule(rest, f, m, path, id);
      } else if f == i {
        assert rest[i] == rules[i + 1];
        forall j | 0 <= j < i
          ensures !RuleMatches(rest[j], m, path)
        {
          assert rest[j] == rules[j];
        }
        DecideByEarliestRule(rest, i, m, path, id);
      } else {
        assert rest[f - 1] == rules[f];
        forall j | 0 <= j < f - 1
          ensures !RuleMatches(rest[j], m, path)
        {
          if j < i {
            assert rest[j] == rules[j];
          } else {
            assert rest[j] == rules[j + 1];
          }
        }
        DecideByEarliestRule(rest, f - 1, m, path, id);
      }
    case None =>
      forall j | 0 <= j < |rest|
        ensures !RuleMatches(rest[j], m, path)
      {
        if j < i {
          assert rest[j] == rules[j];
        } else {
          assert rest[j] == rules[j + 1];
        }
      }
      DecideWithoutMatch(rest, m, path, id);
  }

  /** Two rules that no request matches both. */
  ghost predicate Exclusive(r1: Rule, r2: Rule) {
    forall m, path :: !(RuleMatches(r1, m, path) && RuleMatches(r2, m, path))
  }

  /** Distinct rules of a block never match the same request. */
  ghost predicate PairwiseExclusive(block: seq<Rule>) {
    forall r1, r2 :: r1 in block && r2 in block && r1 != r2 ==> Exclusive(r1, r2)
  }

  /** In a pairwise exclusive block, every matching rule is the first match. */
  lemma MatchInExclusiveBlock(block: seq<Rule>, r: Rule, m: Method, path: Path)
    requires PairwiseExclusive(block)
    requires r in block && RuleMatches(r, m, path)
    ensures FirstMatch(block, m, path).Some?
    ensures block[FirstMatch(block, m, path).value] == r
  {
    var i :| 0 <= i < |block| && block[i] == r;
    assert RuleMatches(block[i], m, path);
    var f := FirstMatch(block, m, path).value;
    assert block[f] in block;
  }

  /** Two blocks with the same rules (in any order and multiplicity) agree on
      whether some rule matches and on which rule matches first. */
  lemma SameFirstRule(b1: seq<Rule>, b2: seq<Rule>, m: Method, path: Path)
    requires PairwiseExclusive(b1)
    requires forall r :: r in b1 <==> r in b2
    ensures FirstMatch(b1, m, path).Some? <==> FirstMatch(b2, m, path).Some?
    ensures FirstMatch(b1, m, path).Some? ==>
      b1[FirstMatch(b1, m, path).value] == b2[FirstMatch(b2, m, path).value]
  {
    assert PairwiseExclusive(b2);
    if FirstMatch(b1, m, path).Some? {
      var i := FirstMatch(b1, m, path).value;
      MatchInExclusiveBlock(b2, b1[i], m, path);
    }
    if FirstMatch(b2, m, path).Some? {
      var i := FirstMatch(b2, m, path).value;
      assert b2[i] in b1;
      MatchInExclusiveBlock(b1, b2[i], m, path);
    }
  }

  /** Reordering a block of pairwise exclusive rules, wherever it sits in the
      list, never changes a decision. */
  lemma {:induction false} PermuteExclusiveBlock(pre: seq<Rule>, block: seq<Rule>, block': seq<Rule>, post: seq<Rule>,
                                                m: Method, path: Path, id: Identity)
    requires PairwiseExclusive(block)
    requires multiset(block) == multiset(block')
    ensures Decide(pre + block + post, m, path, id) == Decide(pre + block' + post, m, path, id)
  {
    assert forall r :: r in block <==> r in multiset(block);
    assert forall r :: r in block' <==> r in multiset(block');
    assert pre + block + post == pre + (block + post);
    assert pre + block' + post == pre + (block' + post);
    DecideAppend(pre, block + post, m, path, id);
    DecideAppend(pre, block' + post, m, path, id);
    DecideAppend(block, post, m, path, id);
    DecideAppend(block', post, m, path, id);
    SameFirstRule(block, block', m, path);
  }

  /** Distinct roles have distinct authorities. */
  lemma RoleAuthorityInjective(r1: string, r2: string)
    ensures RoleAuthority(r1) == RoleAuthority(r2) <==> r1 == r2
  {
    if RoleAuthority(r1) == RoleAuthority(r2) {
      assert RoleAuthority(r1)[|RolePrefix|..] == RoleAuthority(r2)[|RolePrefix|..];
    }
  }

  /** A caller whose one authority is ROLE_<r> passes hasAnyRole(roles)
      exactly when r is among the roles. */
  lemma SingleRoleAuthority(r: string, roles: set<string>)
    ensures HasAnyRoleIn([RoleAuthority(r)], roles) <==> r in roles
  {
    if HasAnyRoleIn([RoleAuthority(r)], roles) {
      var q :| q in roles && RoleAuthority(q) in [RoleAuthority(r)];
      RoleAuthorityInjective(q, r);
    }
  }

  /** An access rule that lets a holder of ROLE_<role> through. */
  predicate Admits(a: Access, role: string) {
    a.PermitAll? || a.Authenticated? || (a.HasAnyRole? && role in a.roles)
  }

  /** A list where every rule admits `role` and some rule catches everything
      never denies a caller holding ROLE_<role>. */
  lemma RoleNeverDenied(rules: seq<Rule>, role: string, k: nat, p: Principal, m: Method, path: Path)
    requires forall r :: r in rules ==> Admits(r.access, role)
    requires k < |rules| && MatchesEverything(rules[k])
    requires RoleAuthority(role) in p.authorities
    ensures Decide(rules, m, path, Known(p)) == Permit
  {
    CatchAllShadows(rules, k, m, path);
    var i := FirstMatch(rules, m, path).value;
    assert rules[i] in rules;
  }
}
