// Facts about the OAuth demo configuration: one public page, everything
// else behind login, and a logout that forgets the session.
module GooglePolicy {
  import opened Wrappers
  import opened Matrix
  import opened MatrixFacts
  import opened Policies

  /** Only "/" is open; everything else needs a login and no role. */
  function GoogleTable(path: Path, id: Identity): Decision {
    if path == [] then Permit else RequireLogin(id)
  }

  /** First-match evaluation of the demo rules is exactly GoogleTable. */
  lemma GoogleDecisionTable(m: Method, path: Path, id: Identity)
    ensures Decide(GoogleRules, m, path, id) == GoogleTable(path, id)
  {
    AnyPatternMatchesIff(GoogleRules[0].patterns, path);
    ExactMatches([], path);
    if path == [] {
      FirstMatchIs(GoogleRules, 0, m, path);
    } else {
      CatchAllMatches(GoogleRules[1], m, path);
      FirstMatchIs(GoogleRules, 1, m, path);
    }
  }

  /** The server-side login state of one browser. */
  datatype Session = NoSession | LoggedIn(principal: Principal)

  function SessionIdentity(s: Session): (id: Identity)
    ensures id.Anonymous? <==> s.NoSession?
  {
    match s
    case NoSession => Anonymous
    case LoggedIn(p) => Known(p)
  }

  /** Logging out: the session is invalidated, the authentication cleared,
      and the browser sent to "/". Returns the new session and the redirect
      target. */
  function Logout(s: Session): (r: (Session, Path))
    ensures SessionIdentity(r.0) == Anonymous
    ensures Decide(GoogleRules, GET, r.1, SessionIdentity(r.0)) == Permit
  {
    GoogleDecisionTable(GET, [], Anonymous);
    (NoSession, [])
  }

  /** No request ever fails for lack of a role. */
  lemma GoogleNeverForbids(m: Method, path: Path, id: Identity)
    ensures Decide(GoogleRules, m, path, id) != Forbidden
    ensures id.Known? ==> Decide(GoogleRules, m, path, id) == Permit
  {
    GoogleDecisionTable(m, path, id);
  }
}
