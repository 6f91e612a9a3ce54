// Facts about the GymServer rule list: a closed-form decision table proved
// equal to first-match evaluation, and the access properties read off it.
module GymServerPolicy {
  import opened Wrappers
  import opened Matrix
  import opened MatrixFacts
  import opened Policies

  predicate PublicAnyMethod(path: Path) {
    || path == ["error"] || StartsWith(path, ["swagger-ui"]) || StartsWith(path, ["v3", "api-docs"])
    || path == ["login"] || StartsWith(path, ["actuator"]) || StartsWith(path, ["h2-console"])
  }

  /** The requests anyone may make without a token. */
  predicate Public(m: Method, path: Path) {
    || PublicAnyMethod(path)
    || m == OPTIONS
    || (m == GET && StartsWith(path, ["api", "v1", "news"]))
  }

  /** "/trainers/{id}": exactly one non-empty segment after "trainers". */
  predicate TrainerByIdPath(path: Path) {
    |path| == 2 && path[0] == "trainers" && path[1] != ""
  }

  predicate MemberListPath(path: Path) {
    path == ["members"] || StartsWith(path, ["members", "by-trainer"])
  }

  /** The intended access table, one line per protected route. */
  function Table(m: Method, path: Path, id: Identity): Decision {
    if Public(m, path) then Permit
    else if m != GET then RequireRole({Admin}, id)
    else if path == ["trainers"] then RequireRole({Member, Trainer, Admin}, id)
    else if path == ["members", "me"] then RequireRole({Member, Admin}, id)
    else if TrainerByIdPath(path) then RequireRole({Trainer, Admin}, id)
    else if MemberListPath(path) then RequireRole({Trainer, Admin}, id)
    else RequireRole({Admin}, id)
  }

  /** Every public request other than a preflight starts with one of a few
      first segments. */
  lemma PublicHead(m: Method, path: Path)
    requires Public(m, path) && m != OPTIONS
    ensures |path| > 0
    ensures path[0] in {"error", "swagger-ui", "v3", "login", "actuator", "h2-console", "api"}
  {
    if StartsWith(path, ["swagger-ui"]) {
      StartsWithHead(path, ["swagger-ui"]);
    } else if StartsWith(path, ["v3", "api-docs"]) {
      StartsWithHead(path, ["v3", "api-docs"]);
    } else if StartsWith(path, ["actuator"]) {
      StartsWithHead(path, ["actuator"]);
    } else if StartsWith(path, ["h2-console"]) {
      StartsWithHead(path, ["h2-console"]);
    } else if m == GET && StartsWith(path, ["api", "v1", "news"]) {
      StartsWithHead(path, ["api", "v1", "news"]);
    }
  }

  lemma PublicRuleShapes(m: Method, path: Path)
    ensures RuleMatches(GymPublicAny, m, path) <==>
      path == ["error"] || StartsWith(path, ["swagger-ui"]) || StartsWith(path, ["v3", "api-docs"])
      || path == ["login"] || StartsWith(path, ["actuator"])
    ensures RuleMatches(GymH2Console, m, path) <==> StartsWith(path, ["h2-console"])
    ensures RuleMatches(GymPreflight, m, path) <==> m == OPTIONS
    ensures RuleMatches(GymNewsRead, m, path) <==> m == GET && StartsWith(path, ["api", "v1", "news"])
  {
    AnyPatternMatchesIff(GymPublicAny.patterns, path);
    ExactMatches(["error"], path);
    UnderMatches(["swagger-ui"], path);
    UnderMatches(["v3", "api-docs"], path);
    ExactMatches(["login"], path);
    UnderMatches(["actuator"], path);
    AnyPatternMatchesIff(GymH2Console.patterns, path);
    UnderMatches(["h2-console"], path);
    AnyPatternMatchesIff(GymPreflight.patterns, path);
    UnderMatches([], path);
    AnyPatternMatchesIff(GymNewsRead.patterns, path);
    UnderMatches(["api", "v1", "news"], path);
  }

  lemma TrainerListShape(m: Method, path: Path)
    ensures RuleMatches(GymTrainerList, m, path) <==> m == GET && path == ["trainers"]
  {
    AnyPatternMatchesIff(GymTrainerList.patterns, path);
    ExactMatches(["trainers"], path);
  }

  lemma OwnProfileShape(m: Method, path: Path)
    ensures RuleMatches(GymOwnProfile, m, path) <==> m == GET && path == ["members", "me"]
  {
    AnyPatternMatchesIff(GymOwnProfile.patterns, path);
    ExactMatches(["members", "me"], path);
  }

  lemma TrainerByIdShape(m: Method, path: Path)
    ensures RuleMatches(GymTrainerById, m, path) <==> m == GET && TrainerByIdPath(path)
  {
    AnyPatternMatchesIff(GymTrainerById.patterns, path);
    TrainerIdMatches(path);
  }

  lemma MemberListShape(m: Method, path: Path)
    ensures RuleMatches(GymMemberList, m, path) <==> m == GET && path == ["members"]
  {
    AnyPatternMatchesIff(GymMemberList.patterns, path);
    ExactMatches(["members"], path);
  }

  lemma MembersByTrainerShape(m: Method, path: Path)
    ensures RuleMatches(GymMembersByTrainer, m, path) <==> m == GET && StartsWith(path, ["members", "by-trainer"])
  {
    AnyPatternMatchesIff(GymMembersByTrainer.patterns, path);
    UnderMatches(["members", "by-trainer"], path);
  }

  lemma RoleRuleShapes(m: Method, path: Path)
    ensures RuleMatches(GymTrainerList, m, path) <==> m == GET && path == ["trainers"]
    ensures RuleMatches(GymOwnProfile, m, path) <==> m == GET && path == ["members", "me"]
    ensures RuleMatches(GymTrainerById, m, path) <==> m == GET && TrainerByIdPath(path)
    ensures RuleMatches(GymMemberList, m, path) <==> m == GET && path == ["members"]
    ensures RuleMatches(GymMembersByTrainer, m, path) <==> m == GET && StartsWith(path, ["members", "by-trainer"])
  {
    TrainerListShape(m, path);
    OwnProfileShape(m, path);
    TrainerByIdShape(m, path);
    MemberListShape(m, path);
    MembersByTrainerShape(m, path);
  }

  lemma PublicRuleMatches(m: Method, path: Path)
    requires Public(m, path)
    ensures RuleMatches(GymPublicAny, m, path) || RuleMatches(GymH2Console, m, path)
         || RuleMatches(GymPreflight, m, path) || RuleMatches(GymNewsRead, m, path)
  {
    PublicRuleShapes(m, path);
  }

  lemma PermitRulesDecide(m: Method, path: Path, id: Identity)
    requires RuleMatches(GymPublicAny, m, path) || RuleMatches(GymH2Console, m, path)
          || RuleMatches(GymPreflight, m, path) || RuleMatches(GymNewsRead, m, path)
    ensures Decide(GymServerRules, m, path, id) == Permit
  {
    var R := GymServerRules;
    assert R[0] == GymPublicAny && R[1] == GymH2Console && R[2] == GymPreflight && R[3] == GymNewsRead;
    var i := if RuleMatches(GymPublicAny, m, path) then 0
             else if RuleMatches(GymH2Console, m, path) then 1
             else if RuleMatches(GymPreflight, m, path) then 2
             else 3;
    PermitBlockDecides(R, 4, i, m, path, id);
  }

  /** A public request is taken by one of the four permit-all rules. */
  lemma PublicDecided(m: Method, path: Path, id: Identity)
    requires Public(m, path)
    ensures Decide(GymServerRules, m, path, id) == Permit
  {
    PublicRuleMatches(m, path);
    PermitRulesDecide(m, path, id);
  }

  /** A non-public request is decided by the rule at index k when that rule
      matches and none of the role rules before it does. */
  lemma ProtectedDecidedAt(k: nat, m: Method, path: Path, id: Identity)
    requires 4 <= k <= 9
    requires !Public(m, path)
    requires RuleMatches(GymServerRules[k], m, path)
    requires forall j :: 4 <= j < k ==> !RuleMatches(GymServerRules[j], m, path)
    ensures Decide(GymServerRules, m, path, id) == Apply(GymServerRules[k].access, id)
  {
    PublicRuleShapes(m, path);
    DecideByEarliestRule(GymServerRules, k, m, path, id);
  }

  lemma TrainerListTable(path: Path, id: Identity)
    requires !Public(GET, path) && path == ["trainers"]
    ensures Decide(GymServerRules, GET, path, id) == Table(GET, path, id)
  {
    TrainerListShape(GET, path);
    ProtectedDecidedAt(4, GET, path, id);
  }

  lemma OwnProfileTable(path: Path, id: Identity)
    requires !Public(GET, path) && path == ["members", "me"]
    ensures Decide(GymServerRules, GET, path, id) == Table(GET, path, id)
  {
    TrainerListShape(GET, path);
    OwnProfileShape(GET, path);
    ProtectedDecidedAt(5, GET, path, id);
  }

  lemma TrainerByIdTable(path: Path, id: Identity)
    requires !Public(GET, path) && path != ["members", "me"] && TrainerByIdPath(path)
    ensures Decide(GymServerRules, GET, path, id) == Table(GET, path, id)
  {
    TrainerListShape(GET, path);
    OwnProfileShape(GET, path);
    TrainerByIdShape(GET, path);
    ProtectedDecidedAt(6, GET, path, id);
  }

  lemma MemberListTable(path: Path, id: Identity)
    requires !Public(GET, path) && !TrainerByIdPath(path) && path == ["members"]
    ensures Decide(GymServerRules, GET, path, id) == Table(GET, path, id)
  {
    TrainerListShape(GET, path);
    OwnProfileShape(GET, path);
    TrainerByIdShape(GET, path);
    MemberListShape(GET, path);
    ProtectedDecidedAt(7, GET, path, id);
  }

  lemma MembersByTrainerTable(path: Path, id: Identity)
    requires !Public(GET, path) && !TrainerByIdPath(path) && path != ["members", "me"]
    requires path != ["members"] && StartsWith(path, ["members", "by-trainer"])
    ensures Decide(GymServerRules, GET, path, id) == Table(GET, path, id)
  {
    TrainerListShape(GET, path);
    OwnProfileShape(GET, path);
    TrainerByIdShape(GET, path);
    MemberListShape(GET, path);
    MembersByTrainerShape(GET, path);
    ProtectedDecidedAt(8, GET, path, id);
  }

  lemma OtherGetTable(path: Path, id: Identity)
    requires !Public(GET, path) && path != ["trainers"] && path != ["members", "me"]
    requires !TrainerByIdPath(path) && !MemberListPath(path)
    ensures Decide(GymServerRules, GET, path, id) == Table(GET, path, id)
  {
    RoleRuleShapes(GET, path);
    CatchAllMatches(GymAdminFallback, GET, path);
    ProtectedDecidedAt(9, GET, path, id);
  }

  /** A protected GET is decided by the first role rule whose route it hits,
      and by the ADMIN fallback when it hits none. */
  lemma ProtectedGetTable(path: Path, id: Identity)
    requires !Public(GET, path)
    ensures Decide(GymServerRules, GET, path, id) == Table(GET, path, id)
  {
    if path == ["trainers"] {
      TrainerListTable(path, id);
    } else if path == ["members", "me"] {
      OwnProfileTable(path, id);
    } else if TrainerByIdPath(path) {
      TrainerByIdTable(path, id);
    } else if path == ["members"] {
      MemberListTable(path, id);
    } else if StartsWith(path, ["members", "by-trainer"]) {
      MembersByTrainerTable(path, id);
    } else {
      OtherGetTable(path, id);
    }
  }

  /** A protected request with any other method is ADMIN-only. */
  lemma ProtectedOtherTable(m: Method, path: Path, id: Identity)
    requires m != GET && !Public(m, path)
    ensures Decide(GymServerRules, m, path, id) == Table(m, path, id)
  {
    RoleRuleShapes(m, path);
    CatchAllMatches(GymAdminFallback, m, path);
    ProtectedDecidedAt(9, m, path, id);
  }

  /** First-match evaluation of the GymServer rules is exactly the table. */
  lemma DecisionTable(m: Method, path: Path, id: Identity)
    ensures Decide(GymServerRules, m, path, id) == Table(m, path, id)
  {
    if Public(m, path) {
      PublicDecided(m, path, id);
    } else if m == GET {
      ProtectedGetTable(path, id);
    } else {
      ProtectedOtherTable(m, path, id);
    }
  }

  // ---------------------------------------------------------------------
  // Access properties of the GymServer configuration

  /** GET /trainers: open to MEMBER, TRAINER and ADMIN, forbidden to any
      other authenticated caller. */
  lemma TrainerListAccess(p: Principal)
    ensures Decide(GymServerRules, GET, ["trainers"], Known(p)) ==
      if HasAnyRoleIn(p.authorities, {Member, Trainer, Admin}) then Permit else Forbidden
  {
    DecisionTable(GET, ["trainers"], Known(p));
  }

  /** GET /members/me: open to MEMBER and ADMIN; a TRAINER is forbidden. */
  lemma OwnProfileAccess(p: Principal)
    ensures Decide(GymServerRules, GET, ["members", "me"], Known(p)) ==
      if HasAnyRoleIn(p.authorities, {Member, Admin}) then Permit else Forbidden
    ensures p.authorities == [RoleAuthority(Trainer)] ==>
      Decide(GymServerRules, GET, ["members", "me"], Known(p)) == Forbidden
  {
    DecisionTable(GET, ["members", "me"], Known(p));
    SingleRoleAuthority(Trainer, {Member, Admin});
  }

  /** GET /trainers/{id} (one non-empty segment): open to TRAINER and ADMIN;
      a MEMBER is forbidden. */
  lemma TrainerByIdAccess(x: string, p: Principal)
    requires x != ""
    ensures Decide(GymServerRules, GET, ["trainers", x], Known(p)) ==
      if HasAnyRoleIn(p.authorities, {Trainer, Admin}) then Permit else Forbidden
    ensures p.authorities == [RoleAuthority(Member)] ==>
      Decide(GymServerRules, GET, ["trainers", x], Known(p)) == Forbidden
  {
    DecisionTable(GET, ["trainers", x], Known(p));
    SingleRoleAuthority(Member, {Trainer, Admin});
  }

  // GET /members and GET /members/by-trainer/** (the prefix itself
  // included): open to TRAINER and ADMIN; a MEMBER is forbidden.
  lemma MemberListAccess(suffix: seq<string>, p: Principal)
    ensures Decide(GymServerRules, GET, ["members"], Known(p)) ==
      if HasAnyRoleIn(p.authorities, {Trainer, Admin}) then Permit else Forbidden
    ensures Decide(GymServerRules, GET, ["members", "by-trainer"] + suffix, Known(p)) ==
      if HasAnyRoleIn(p.authorities, {Trainer, Admin}) then Permit else Forbidden
    ensures p.authorities == [RoleAuthority(Member)] ==>
      Decide(GymServerRules, GET, ["members"], Known(p)) == Forbidden &&
      Decide(GymServerRules, GET, ["members", "by-trainer"] + suffix, Known(p)) == Forbidden
  {
    MemberListDecision(["members"], p);
    var path := ["members", "by-trainer"] + suffix;
    assert path[..2] == ["members", "by-trainer"];
    assert path[0] == "members" && path[1] == "by-trainer";
    MemberListDecision(path, p);
    SingleRoleAuthority(Member, {Trainer, Admin});
  }

  lemma MemberListDecision(path: Path, p: Principal)
    requires MemberListPath(path) && |path| > 0 && path[0] == "members"
    requires |path| > 1 ==> path[1] == "by-trainer"
    ensures Decide(GymServerRules, GET, path, Known(p)) ==
      if HasAnyRoleIn(p.authorities, {Trainer, Admin}) then Permit else Forbidden
  {
    if Public(GET, path) {
      PublicHead(GET, path);
    }
    DecisionTable(GET, path, Known(p));
  }

  // Every request that is neither public nor a GET is ADMIN-only: the
  // `/**` fallback catches it, so the policy fails closed.
  lemma NonGetIsAdminOnly(m: Method, path: Path, id: Identity)
    requires m != GET && m != OPTIONS && !PublicAnyMethod(path)
    ensures Decide(GymServerRules, m, path, id) == RequireRole({Admin}, id)
  {
    DecisionTable(m, path, id);
  }

  /** Two self-service writes a member might expect to make are ADMIN-only. */
  lemma SelfServiceWritesAreAdminOnly(id: Identity)
    ensures Decide(GymServerRules, PUT, ["members", "me"], id) == RequireRole({Admin}, id)
    ensures Decide(GymServerRules, POST, ["members", "complete-profile"], id) == RequireRole({Admin}, id)
  {
    if PublicAnyMethod(["members", "me"]) {
      PublicHead(PUT, ["members", "me"]);
    }
    NonGetIsAdminOnly(PUT, ["members", "me"], id);
    if PublicAnyMethod(["members", "complete-profile"]) {
      PublicHead(POST, ["members", "complete-profile"]);
    }
    NonGetIsAdminOnly(POST, ["members", "complete-profile"], id);
  }

  // `anyRequest().authenticated()` never decides: the `/**` rule before it
  // matches every request.
  lemma AnyRequestNeverDecides(m: Method, path: Path)
    ensures FirstMatch(GymServerRules, m, path).Some?
    ensures FirstMatch(GymServerRules, m, path).value < |GymServerRules| - 1
  {
    CatchAllShadows(GymServerRules, 9, m, path);
  }

  /** A caller holding ROLE_ADMIN is never denied anything. */
  lemma AdminNeverDenied(p: Principal, m: Method, path: Path)
    requires RoleAuthority(Admin) in p.authorities
    ensures Decide(GymServerRules, m, path, Known(p)) == Permit
  {
    assert forall r :: r in GymServerRules ==> Admits(r.access, Admin);
    RoleNeverDenied(GymServerRules, Admin, 9, p, m, path);
  }

  /** Without a token a request is permitted exactly when it is public, and
      otherwise fails authentication (never authorization). */
  lemma AnonymousAccess(m: Method, path: Path)
    ensures Decide(GymServerRules, m, path, Anonymous) == Permit <==> Public(m, path)
    ensures Decide(GymServerRules, m, path, Anonymous) != Forbidden
  {
    DecisionTable(m, path, Anonymous);
  }
}
