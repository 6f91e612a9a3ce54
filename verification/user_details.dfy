/** Loading the user record behind a username: the gym's three-partition
    lookup (and its older duplicate) and the news application's
    single-store lookup. */
module UserDetailsLookup {
  import opened Wrappers
  import opened Matrix
  import opened JavaText
  import opened Accounts

  /** What a lookup hands to authentication: name, stored hash and
      granted authorities. */
  datatype UserDetails = UserDetails(username: string, password: string, authorities: seq<string>)

  datatype LookupError =
    | UsernameNotFound(message: string)
    | InvalidUserRecord   // the framework refuses an empty name, a null hash or a blank authority
    | NonUniqueResult     // the repository's exception for a name stored twice in one table

  /** Building the framework's user record from a stored account with one
      authority. The framework constructors refuse an empty username, a
      null password and an authority without text. */
  function MakeUser(a: Account, authority: string): (r: Result<UserDetails, LookupError>)
    ensures r.Ok? <==> a.username != "" && a.password.Some? && !IsBlank(authority)
    ensures r.Ok? ==> r.value == UserDetails(a.username, a.password.value, [authority])
    ensures r.Err? ==> r.error == InvalidUserRecord
  {
    if a.username == "" || a.password.None? || IsBlank(authority) then Err(InvalidUserRecord)
    else Ok(UserDetails(a.username, a.password.value, [authority]))
  }

  /** `createUserDetails`: one authority, "ROLE_" followed by the stored role. */
  function GymDetails(a: Account): (r: Result<UserDetails, LookupError>)
    ensures r.Ok? <==> a.username != "" && a.password.Some?
    ensures r.Ok? ==> r.value == UserDetails(a.username, a.password.value, [RoleAuthority(a.role)])
    ensures r.Err? ==> r.error == InvalidUserRecord
  {
    assert RoleAuthority(a.role)[0] == 'R';
    MakeUser(a, RoleAuthority(a.role))
  }

  function GymNotFoundMessage(u: string): string {
    "User not found with username: " + u
  }

  /** The partition that answers a gym lookup: the admins when they hold the
      name, else the trainers when they do, else the members. */
  function AnsweringPartition(store: GymStore, u: string): (rows: seq<Account>)
    ensures rows == store.admins.rows || rows == store.trainers.rows || rows == store.members.rows
    ensures NameTaken(rows, u) <==>
      NameTaken(store.admins.rows, u) || NameTaken(store.trainers.rows, u) || NameTaken(store.members.rows, u)
  {
    if NameTaken(store.admins.rows, u) then store.admins.rows
    else if NameTaken(store.trainers.rows, u) then store.trainers.rows
    else store.members.rows
  }

  /** `loadUserByUsername`: the admin partition first, then trainers, then
      members; a miss everywhere fails, and each repository query throws
      for a name its table holds twice. */
  function LoadGymUser(store: GymStore, u: string): (r: Result<UserDetails, LookupError>)
    ensures r == Err(UsernameNotFound(GymNotFoundMessage(u))) <==>
      !NameTaken(store.admins.rows, u) && !NameTaken(store.trainers.rows, u) && !NameTaken(store.members.rows, u)
    ensures r == Err(NonUniqueResult) <==> NameRepeated(AnsweringPartition(store, u), u)
    ensures r.Ok? ==> r.value.username == u && |r.value.authorities| == 1
  {
    match FindByUsername(store.admins.rows, u)
    case OneRow(a) => GymDetails(a)
    case ManyRows => Err(NonUniqueResult)
    case NoRow =>
      match FindByUsername(store.trainers.rows, u)
      case OneRow(t) => GymDetails(t)
      case ManyRows => Err(NonUniqueResult)
      case NoRow =>
        match FindByUsername(store.members.rows, u)
        case OneRow(m) => GymDetails(m)
        case ManyRows => Err(NonUniqueResult)
        case NoRow => Err(UsernameNotFound(GymNotFoundMessage(u)))
  }

  /** The older duplicate, written as its three early returns. */
  function LoadLegacyGymUser(store: GymStore, u: string): (r: Result<UserDetails, LookupError>)
    ensures r.Ok? ==> r.value.username == u
  {
    var adminOpt := FindByUsername(store.admins.rows, u);
    if adminOpt.ManyRows? then Err(NonUniqueResult)
    else if adminOpt.OneRow? then
      MakeUser(adminOpt.account, RolePrefix + adminOpt.account.role)
    else
      var trainerOpt := FindByUsername(store.trainers.rows, u);
      if trainerOpt.ManyRows? then Err(NonUniqueResult)
      else if trainerOpt.OneRow? then
        MakeUser(trainerOpt.account, RolePrefix + trainerOpt.account.role)
      else
        var memberOpt := FindByUsername(store.members.rows, u);
        if memberOpt.ManyRows? then Err(NonUniqueResult)
        else if memberOpt.OneRow? then
          MakeUser(memberOpt.account, RolePrefix + memberOpt.account.role)
        else
          Err(UsernameNotFound("User not found with username: " + u))
  }

  /** The news lookup: a single store, one authority equal to the stored
      role with no prefix. */
  function LoadNewsUser(users: Table, u: string): (r: Result<UserDetails, LookupError>)
    ensures r == Err(UsernameNotFound("User not found")) <==> !NameTaken(users.rows, u)
    ensures r == Err(NonUniqueResult) <==> NameRepeated(users.rows, u)
    ensures r.Ok? ==> forall a :: a in users.rows && a.username == u ==>
      a.password.Some? && r.value == UserDetails(u, a.password.value, [a.role])
    ensures r.Ok? ==> NameTaken(users.rows, u)
  {
    match FindByUsername(users.rows, u)
    case NoRow => Err(UsernameNotFound("User not found"))
    case ManyRows => Err(NonUniqueResult)
    case OneRow(a) => MakeUser(a, a.role)
  }

  // ---------------------------------------------------------------------
  // Precedence

  /** Looking a name up in a concatenation finds the first hit in the first
      part when there is one. */
  lemma {:induction false} FindInConcat(xs: seq<Account>, ys: seq<Account>, u: string)
    ensures FirstNamed(xs + ys, u) ==
      if FirstNamed(xs, u).Some? then FirstNamed(xs, u) else FirstNamed(ys, u)
    decreases |xs|
  {
    if |xs| > 0 {
      assert (xs + ys)[0] == xs[0];
      assert (xs + ys)[1..] == xs[1..] + ys;
      FindInConcat(xs[1..], ys, u);
    } else {
      assert xs + ys == ys;
    }
  }

  /** Where no partition holds the name twice, the three-step lookup is a
      single first-hit lookup over the admins, then the trainers, then the
      members; where the answering partition holds it twice, the lookup
      fails with the repository's error whatever the other partitions
      hold. */
  lemma GymLookupIsFirstHit(store: GymStore, u: string)
    ensures !NameRepeated(store.admins.rows, u) && !NameRepeated(store.trainers.rows, u)
            && !NameRepeated(store.members.rows, u) ==>
      LoadGymUser(store, u) ==
        match FirstNamed(store.admins.rows + store.trainers.rows + store.members.rows, u)
        case Some(a) => GymDetails(a)
        case None => Err(UsernameNotFound(GymNotFoundMessage(u)))
    ensures NameRepeated(AnsweringPartition(store, u), u) ==> LoadGymUser(store, u) == Err(NonUniqueResult)
  {
    var A, T, M := store.admins.rows, store.trainers.rows, store.members.rows;
    FindInConcat(A + T, M, u);
    FindInConcat(A, T, u);
    FindByUsernameIsFirstNamed(A, u);
    FindByUsernameIsFirstNamed(T, u);
    FindByUsernameIsFirstNamed(M, u);
  }

  /** An admin hit decides the lookup: the other partitions are not read. */
  lemma AdminHitDecides(store: GymStore, u: string, trainers: Table, members: Table)
    requires NameTaken(store.admins.rows, u)
    ensures LoadGymUser(store, u) ==
      if NameRepeated(store.admins.rows, u) then Err(NonUniqueResult)
      else GymDetails(FirstNamed(store.admins.rows, u).value)
    ensures LoadGymUser(store.(trainers := trainers, members := members), u) == LoadGymUser(store, u)
  {
    FindByUsernameIsFirstNamed(store.admins.rows, u);
  }

  /** The trainer partition is used only after an admin miss, and then the
      member partition is not read. */
  lemma TrainerHitAfterAdminMiss(store: GymStore, u: string, members: Table)
    requires !NameTaken(store.admins.rows, u)
    requires NameTaken(store.trainers.rows, u)
    ensures LoadGymUser(store, u) ==
      if NameRepeated(store.trainers.rows, u) then Err(NonUniqueResult)
      else GymDetails(FirstNamed(store.trainers.rows, u).value)
    ensures LoadGymUser(store.(members := members), u) == LoadGymUser(store, u)
  {
    FindByUsernameIsFirstNamed(store.trainers.rows, u);
  }

  /** The member partition is used only when both others miss. */
  lemma MemberHitAfterBothMiss(store: GymStore, u: string)
    requires !NameTaken(store.admins.rows, u)
    requires !NameTaken(store.trainers.rows, u)
    requires NameTaken(store.members.rows, u)
    ensures LoadGymUser(store, u) ==
      if NameRepeated(store.members.rows, u) then Err(NonUniqueResult)
      else GymDetails(FirstNamed(store.members.rows, u).value)
  {
    FindByUsernameIsFirstNamed(store.members.rows, u);
  }

  /** A found record yields exactly the stored name, the stored hash and
      ROLE_ followed by the stored role of the one row with that name in
      the answering partition. */
  lemma GymDetailsCopyRecord(store: GymStore, u: string)
    requires LoadGymUser(store, u).Ok?
    ensures exists a :: ((a in store.admins.rows || a in store.trainers.rows || a in store.members.rows)
                         && a.username == u && a.password.Some?
                         && LoadGymUser(store, u).value == UserDetails(u, a.password.value, [RoleAuthority(a.role)]))
  {
    var hit := if FindByUsername(store.admins.rows, u).OneRow? then FindByUsername(store.admins.rows, u)
               else if FindByUsername(store.trainers.rows, u).OneRow? then FindByUsername(store.trainers.rows, u)
               else FindByUsername(store.members.rows, u);
    assert hit.OneRow?;
    var a := hit.account;
    assert LoadGymUser(store, u) == GymDetails(a);
  }

  /** A row of the answering partition that holds the name once decides
      the lookup: its record is what the lookup returns. */
  lemma AnsweringRowDecides(store: GymStore, u: string, a: Account)
    requires a in AnsweringPartition(store, u) && a.username == u
    requires !NameRepeated(AnsweringPartition(store, u), u)
    ensures LoadGymUser(store, u) == GymDetails(a)
  {
    var P := AnsweringPartition(store, u);
    assert NameTaken(P, u) by {
      var k :| 0 <= k < |P| && P[k] == a;
    }
    assert FindByUsername(P, u) == OneRow(a);
  }

  /** The older duplicate returns the same result for every store. */
  lemma LegacyLookupAgrees(store: GymStore, u: string)
    ensures LoadLegacyGymUser(store, u) == LoadGymUser(store, u)
  {
  }
}
