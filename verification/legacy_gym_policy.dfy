// Facts about the older gym rule list. Its `/**` ADMIN rule sits before
// every role rule, so the list collapses to "public, else ADMIN".
module LegacyGymPolicy {
  import opened Wrappers
  import opened Matrix
  import opened MatrixFacts
  import opened Policies
  import GymServerPolicy

  /** The requests the older configuration lets through without a token. */
  predicate LegacyPublic(m: Method, path: Path) {
    || path == ["error"] || StartsWith(path, ["swagger-ui"]) || StartsWith(path, ["v3", "api-docs"])
    || path == ["login"] || StartsWith(path, ["h2-console"])
    || (m == GET && StartsWith(path, ["api", "v1", "news"]))
  }

  /** What the older configuration actually grants. */
  function LegacyTable(m: Method, path: Path, id: Identity): Decision {
    if LegacyPublic(m, path) then Permit else RequireRole({Admin}, id)
  }

  lemma LegacyPublicShapes(m: Method, path: Path)
    ensures RuleMatches(LegacyPublicAny, m, path) <==>
      path == ["error"] || StartsWith(path, ["swagger-ui"]) || StartsWith(path, ["v3", "api-docs"])
      || path == ["login"]
    ensures RuleMatches(GymH2Console, m, path) <==> StartsWith(path, ["h2-console"])
    ensures RuleMatches(GymNewsRead, m, path) <==> m == GET && StartsWith(path, ["api", "v1", "news"])
  {
    AnyPatternMatchesIff(LegacyPublicAny.patterns, path);
    ExactMatches(["error"], path);
    UnderMatches(["swagger-ui"], path);
    UnderMatches(["v3", "api-docs"], path);
    ExactMatches(["login"], path);
    AnyPatternMatchesIff(GymH2Console.patterns, path);
    UnderMatches(["h2-console"], path);
    AnyPatternMatchesIff(GymNewsRead.patterns, path);
    UnderMatches(["api", "v1", "news"], path);
  }

  lemma LegacyPublicDecided(m: Method, path: Path, id: Identity)
    requires LegacyPublic(m, path)
    ensures Decide(LegacyGymRules, m, path, id) == Permit
  {
    LegacyPublicShapes(m, path);
    var R := LegacyGymRules;
    if RuleMatches(LegacyPublicAny, m, path) {
      FirstMatchIs(R, 0, m, path);
    } else if RuleMatches(GymH2Console, m, path) {
      FirstMatchIs(R, 1, m, path);
    } else {
      FirstMatchIs(R, 2, m, path);
    }
  }

  /** First-match evaluation of the older rules is exactly LegacyTable. */
  lemma LegacyDecisionTable(m: Method, path: Path, id: Identity)
    ensures Decide(LegacyGymRules, m, path, id) == LegacyTable(m, path, id)
  {
    if LegacyPublic(m, path) {
      LegacyPublicDecided(m, path, id);
    } else {
      LegacyPublicShapes(m, path);
      CatchAllMatches(LegacyAdminAll, m, path);
      DecideByEarliestRule(LegacyGymRules, 3, m, path, id);
    }
  }

  // The six rules after `/**` never decide anything: cutting them off
  // changes no decision.
  lemma LegacyRoleRulesAreDead(m: Method, path: Path, id: Identity)
    ensures Decide(LegacyGymRules, m, path, id) == Decide(LegacyGymRules[..4], m, path, id)
  {
    RulesAfterCatchAllAreDead(LegacyGymRules, 3, m, path, id);
  }

  /** Off the public routes, a caller without ROLE_ADMIN is refused, even on
      the routes the role rules were written for. */
  lemma LegacyNonAdminForbidden(m: Method, path: Path, p: Principal)
    requires !LegacyPublic(m, path)
    ensures Decide(LegacyGymRules, m, path, Known(p)) == Permit <==> RoleAuthority(Admin) in p.authorities
  {
    LegacyDecisionTable(m, path, Known(p));
    if RoleAuthority(Admin) in p.authorities {
      assert HasAnyRoleIn(p.authorities, {Admin});
    }
  }

  // As written, a TRAINER cannot list members or trainers and a MEMBER
  // cannot read their own profile, although the rules on lines 77-83 name
  // those routes for those roles.
  lemma LegacyRoleRoutesLocked(u: string)
    ensures Decide(LegacyGymRules, GET, ["members"], Known(Principal(u, [RoleAuthority(Trainer)]))) == Forbidden
    ensures Decide(LegacyGymRules, GET, ["trainers"], Known(Principal(u, [RoleAuthority(Trainer)]))) == Forbidden
    ensures Decide(LegacyGymRules, GET, ["members", "me"], Known(Principal(u, [RoleAuthority(Member)]))) == Forbidden
  {
    var t := Principal(u, [RoleAuthority(Trainer)]);
    var mb := Principal(u, [RoleAuthority(Member)]);
    RoleAuthorityInjective(Trainer, Admin);
    RoleAuthorityInjective(Member, Admin);
    NotLegacyPublic(["members"]);
    NotLegacyPublic(["trainers"]);
    NotLegacyPublic(["members", "me"]);
    LegacyNonAdminForbidden(GET, ["members"], t);
    LegacyNonAdminForbidden(GET, ["trainers"], t);
    LegacyNonAdminForbidden(GET, ["members", "me"], mb);
  }

  /** A path whose first segment is "members" or "trainers" is not public. */
  lemma NotLegacyPublic(path: Path)
    requires |path| > 0 && (path[0] == "members" || path[0] == "trainers")
    ensures forall m :: !LegacyPublic(m, path)
  {
    forall m | LegacyPublic(m, path)
      ensures false
    {
      if StartsWith(path, ["swagger-ui"]) {
        StartsWithHead(path, ["swagger-ui"]);
      } else if StartsWith(path, ["v3", "api-docs"]) {
        StartsWithHead(path, ["v3", "api-docs"]);
      } else if StartsWith(path, ["h2-console"]) {
        StartsWithHead(path, ["h2-console"]);
      } else if StartsWith(path, ["api", "v1", "news"]) {
        StartsWithHead(path, ["api", "v1", "news"]);
      }
    }
  }

  /** Unlike the later GymServer rules, preflight requests need a token. */
  lemma LegacyPreflightNeedsToken(path: Path)
    requires !LegacyPublic(OPTIONS, path)
    ensures Decide(LegacyGymRules, OPTIONS, path, Anonymous) == Unauthenticated
  {
    LegacyDecisionTable(OPTIONS, path, Anonymous);
  }

  // ---------------------------------------------------------------------
  // The same rules with the `/**` ADMIN line moved down to just before
  // `anyRequest()`, the order the comments on lines 73-82 describe.

  const ReorderedLegacyRules: seq<Rule> := [
    LegacyPublicAny, GymH2Console, GymNewsRead,
    LegacyTrainerReads, LegacyMemberList, LegacyMembersByTrainer,
    LegacyOwnProfile, LegacyTrainerList,
    LegacyAdminAll,
    GymAnyRequest
  ]

  lemma ReorderedRulesListed()
    ensures |ReorderedLegacyRules| == 10
    ensures ReorderedLegacyRules[0] == LegacyPublicAny && ReorderedLegacyRules[1] == GymH2Console
    ensures ReorderedLegacyRules[2] == GymNewsRead && ReorderedLegacyRules[3] == LegacyTrainerReads
    ensures ReorderedLegacyRules[4] == LegacyMemberList && ReorderedLegacyRules[5] == LegacyMembersByTrainer
    ensures ReorderedLegacyRules[6] == LegacyOwnProfile
  {
  }

  lemma LegacyRoleShapes(m: Method, path: Path)
    ensures RuleMatches(LegacyTrainerReads, m, path) <==>
      m == GET && (path == ["trainers"] || (|path| == 2 && path[0] == "trainers" && path[1] != ""))
    ensures RuleMatches(LegacyMemberList, m, path) <==> m == GET && path == ["members"]
    ensures RuleMatches(LegacyMembersByTrainer, m, path) <==> m == GET && StartsWith(path, ["members", "by-trainer"])
    ensures RuleMatches(LegacyOwnProfile, m, path) <==> m == GET && path == ["members", "me"]
  {
    AnyPatternMatchesIff(LegacyTrainerReads.patterns, path);
    ExactMatches(["trainers"], path);
    TrainerIdMatches(path);
    AnyPatternMatchesIff(LegacyMemberList.patterns, path);
    ExactMatches(["members"], path);
    AnyPatternMatchesIff(LegacyMembersByTrainer.patterns, path);
    UnderMatches(["members", "by-trainer"], path);
    AnyPatternMatchesIff(LegacyOwnProfile.patterns, path);
    ExactMatches(["members", "me"], path);
  }

  /** After the move, a TRAINER reaches the trainer and member lists and a
      MEMBER reaches their own profile. */
  lemma ReorderedRoleRoutesOpen(u: string)
    ensures Decide(ReorderedLegacyRules, GET, ["trainers"], Known(Principal(u, [RoleAuthority(Trainer)]))) == Permit
    ensures Decide(ReorderedLegacyRules, GET, ["members"], Known(Principal(u, [RoleAuthority(Trainer)]))) == Permit
    ensures Decide(ReorderedLegacyRules, GET, ["members", "me"], Known(Principal(u, [RoleAuthority(Member)]))) == Permit
  {
    SingleRoleAuthority(Trainer, {Trainer});
    SingleRoleAuthority(Member, {Member});
    ReorderedTrainerList(Known(Principal(u, [RoleAuthority(Trainer)])));
    ReorderedMemberList(Known(Principal(u, [RoleAuthority(Trainer)])));
    ReorderedOwnProfile(Known(Principal(u, [RoleAuthority(Member)])));
  }

  lemma ReorderedTrainerList(id: Identity)
    ensures Decide(ReorderedLegacyRules, GET, ["trainers"], id) == Apply(HasAnyRole({Trainer}), id)
  {
    ReorderedRulesListed();
    NotLegacyPublic(["trainers"]);
    LegacyPublicShapes(GET, ["trainers"]);
    LegacyRoleShapes(GET, ["trainers"]);
    DecideByEarliestRule(ReorderedLegacyRules, 3, GET, ["trainers"], id);
  }

  lemma ReorderedMemberList(id: Identity)
    ensures Decide(ReorderedLegacyRules, GET, ["members"], id) == Apply(HasAnyRole({Trainer}), id)
  {
    ReorderedRulesListed();
    NotLegacyPublic(["members"]);
    LegacyPublicShapes(GET, ["members"]);
    LegacyRoleShapes(GET, ["members"]);
    DecideByEarliestRule(ReorderedLegacyRules, 4, GET, ["members"], id);
  }

  lemma ReorderedOwnProfile(id: Identity)
    ensures Decide(ReorderedLegacyRules, GET, ["members", "me"], id) == Apply(HasAnyRole({Member}), id)
  {
    var path := ["members", "me"];
    var R := ReorderedLegacyRules;
    ReorderedRulesListed();
    forall j | 0 <= j < 6
      ensures !RuleMatches(R[j], GET, path)
    {
      if j < 3 {
        NotLegacyPublic(path);
        LegacyPublicShapes(GET, path);
      } else {
        LegacyRoleShapes(GET, path);
        assert path[..2] == path;
      }
    }
    LegacyRoleShapes(GET, path);
    DecideByEarliestRule(R, 6, GET, path, id);
  }

  /** Moving the catch-all changes an outcome: the same TRAINER request is
      refused in the order written and granted after the move. */
  lemma MovingCatchAllChangesOutcome(u: string)
    ensures Decide(LegacyGymRules, GET, ["members"], Known(Principal(u, [RoleAuthority(Trainer)]))) !=
            Decide(ReorderedLegacyRules, GET, ["members"], Known(Principal(u, [RoleAuthority(Trainer)])))
  {
    LegacyRoleRoutesLocked(u);
    ReorderedRoleRoutesOpen(u);
  }

  // Even after the move, the MEMBER line for GET "/trainers" (line 83) never
  // decides: the TRAINER line for the same path (line 77) comes first.
  lemma MemberTrainerListStillShadowed(u: string)
    ensures Decide(ReorderedLegacyRules, GET, ["trainers"], Known(Principal(u, [RoleAuthority(Member)]))) == Forbidden
  {
    SingleRoleAuthority(Member, {Trainer});
    ReorderedTrainerList(Known(Principal(u, [RoleAuthority(Member)])));
  }

  // ---------------------------------------------------------------------
  // Where the older and the later gym configuration disagree

  /** A MEMBER listing trainers is refused here and granted by the later
      GymServer rules. */
  lemma ConfigsDisagreeOnTrainerList(u: string)
    ensures Decide(LegacyGymRules, GET, ["trainers"], Known(Principal(u, [RoleAuthority(Member)]))) == Forbidden
    ensures Decide(GymServerRules, GET, ["trainers"], Known(Principal(u, [RoleAuthority(Member)]))) == Permit
  {
    var p := Principal(u, [RoleAuthority(Member)]);
    RoleAuthorityInjective(Member, Admin);
    NotLegacyPublic(["trainers"]);
    LegacyNonAdminForbidden(GET, ["trainers"], p);
    GymServerPolicy.TrainerListAccess(p);
    SingleRoleAuthority(Member, {Member, Trainer, Admin});
  }

  /** A preflight request without a token is refused here and granted by
      the later GymServer rules. */
  lemma ConfigsDisagreeOnPreflight(path: Path)
    requires !LegacyPublic(OPTIONS, path)
    ensures Decide(LegacyGymRules, OPTIONS, path, Anonymous) == Unauthenticated
    ensures Decide(GymServerRules, OPTIONS, path, Anonymous) == Permit
  {
    LegacyPreflightNeedsToken(path);
    GymServerPolicy.DecisionTable(OPTIONS, path, Anonymous);
  }
}
