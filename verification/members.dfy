/** The member endpoints of the GymServer: lookups by identity, by login
    name and by trainer, deletion, and the self-service profile
    completion. */
module Members {
  import opened Wrappers
  import opened Accounts
  import opened AccountServices

  /** A controller response: 200 with a body, 204, 404, 400, or 500. */
  datatype Response<+T> =
    | Found(body: T)
    | NoContent
    | Missing(reason: string)
    | BadRequest(reason: string)
    | InternalError

  function StatusOf<T>(r: Response<T>): (code: nat)
    ensures r.Found? <==> code == 200
    ensures r.NoContent? <==> code == 204
    ensures r.Missing? <==> code == 404
    ensures r.BadRequest? <==> code == 400
    ensures r.InternalError? <==> code == 500
  {
    match r
    case Found(_) => 200
    case NoContent => 204
    case Missing(_) => 404
    case BadRequest(_) => 400
    case InternalError => 500
  }

  /** The trainer a stored member is assigned to, if any. */
  function TrainerOf(a: Account): Option<int> {
    match a.profile
    case MemberProfile(_, _, t) => t
    case _ => None
  }

  // ---------------------------------------------------------------------
  // Lookups

  /** `findByTrainerid`, as a reference definition: the members assigned to
      the trainer, in table order. */
  function MembersOf(rows: seq<Account>, tid: int): (r: seq<Account>)
    ensures |r| <= |rows|
    ensures forall a :: a in r <==> a in rows && TrainerOf(a) == Some(tid)
  {
    if |rows| == 0 then []
    else
      var init := rows[..|rows| - 1];
      var last := rows[|rows| - 1];
      assert rows == init + [last];
      MembersOf(init, tid) + (if TrainerOf(last) == Some(tid) then [last] else [])
  }

  /** `getMembersByTrainerId`: one scan of the member table. */
  method GetMembersByTrainerId(members: Table, tid: int) returns (r: seq<Account>)
    ensures r == MembersOf(members.rows, tid)
    ensures forall a :: a in r <==> a in members.rows && TrainerOf(a) == Some(tid)
  {
    r := [];
    var i := 0;
    while i < |members.rows|
      invariant 0 <= i <= |members.rows|
      invariant r == MembersOf(members.rows[..i], tid)
    {
      assert members.rows[..i + 1][..i] == members.rows[..i];
      if TrainerOf(members.rows[i]) == Some(tid) {
        r := r + [members.rows[i]];
      }
      i := i + 1;
    }
    assert members.rows[..i] == members.rows;
  }

  /** Some stored member is assigned to the trainer. */
  predicate TrainerAssigned(rows: seq<Account>, tid: int) {
    exists a :: a in rows && TrainerOf(a) == Some(tid)
  }

  /** `trainerExists`, which asks `existsByTrainerid` of the member
      table: one scan, stopping at the first assigned member. */
  method TrainerExists(members: Table, tid: int) returns (b: bool)
    ensures b <==> TrainerAssigned(members.rows, tid)
    ensures b <==> MembersOf(members.rows, tid) != []
  {
    b := false;
    var i := 0;
    while i < |members.rows| && !b
      invariant 0 <= i <= |members.rows|
      invariant b <==> exists j :: 0 <= j < i && TrainerOf(members.rows[j]) == Some(tid)
    {
      b := TrainerOf(members.rows[i]) == Some(tid);
      i := i + 1;
    }
    if b {
      var j :| 0 <= j < i && TrainerOf(members.rows[j]) == Some(tid);
      assert members.rows[j] in MembersOf(members.rows, tid);
    } else {
      forall a | a in members.rows
        ensures TrainerOf(a) != Some(tid)
      {
        var j :| 0 <= j < |members.rows| && members.rows[j] == a;
      }
      NoneAssignedNoMembers(members.rows, tid);
    }
  }

  lemma {:induction false} NoneAssignedNoMembers(rows: seq<Account>, tid: int)
    requires forall j :: 0 <= j < |rows| ==> TrainerOf(rows[j]) != Some(tid)
    ensures MembersOf(rows, tid) == []
    decreases |rows|
  {
    if |rows| > 0 {
      var init := rows[..|rows| - 1];
      assert forall j :: 0 <= j < |init| ==> init[j] == rows[j];
      NoneAssignedNoMembers(init, tid);
    }
  }

  /** `getMemberById`: 200 with the stored member, or 404. */
  function GetMemberById(members: Table, id: int): (r: Response<Account>)
    ensures r.Found? <==> exists a :: a in members.rows && a.id == Some(id)
    ensures r.Found? ==> r.body in members.rows && r.body.id == Some(id)
    ensures !r.Found? ==> r.Missing?
  {
    match FindById(members, id)
    case Some(a) => Found(a)
    case None => Missing("")
  }

  /** `getMyProfile`: the member whose login name is the caller's, 404
      when there is none, and 500 when the repository query throws because
      the name is stored twice. */
  function GetMyProfile(members: Table, name: string): (r: Response<Account>)
    ensures r.Found? <==> NameTaken(members.rows, name) && !NameRepeated(members.rows, name)
    ensures r.Found? ==> r.body in members.rows && r.body.username == name
    ensures r.Found? ==> forall a :: a in members.rows && a.username == name ==> a == r.body
    ensures r.Missing? <==> !NameTaken(members.rows, name)
    ensures r.InternalError? <==> NameRepeated(members.rows, name)
  {
    match FindByUsername(members.rows, name)
    case OneRow(a) => Found(a)
    case NoRow => Missing("")
    case ManyRows => InternalError
  }

  /** `deleteMember`: always 204, whether or not the member existed. */
  function DeleteMemberEndpoint(members: Table, id: int): (r: (Table, Response<()>))
    ensures r.1 == NoContent
    ensures forall a :: a in r.0.rows <==> a in members.rows && a.id != Some(id)
  {
    (DeleteMember(members, id), NoContent)
  }

  /** After a deletion the member is gone, and deleting again changes
      nothing. */
  lemma DeleteThenGet(members: Table, id: int)
    ensures GetMemberById(DeleteMemberEndpoint(members, id).0, id).Missing?
    ensures DeleteMemberEndpoint(DeleteMemberEndpoint(members, id).0, id) == DeleteMemberEndpoint(members, id)
  {
    RemoveIdIdempotent(members.rows, id);
  }

  lemma {:induction false} RemoveIdIdempotent(rows: seq<Account>, id: int)
    ensures RemoveId(RemoveId(rows, id), id) == RemoveId(rows, id)
    decreases |rows|
  {
    if |rows| > 0 {
      RemoveIdIdempotent(rows[1..], id);
      if rows[0].id != Some(id) {
        var r := [rows[0]] + RemoveId(rows[1..], id);
        assert r[0] == rows[0] && r[1..] == RemoveId(rows[1..], id);
      }
    }
  }

  // ---------------------------------------------------------------------
  // Profile completion

  /** The body of `complete-profile`. */
  datatype ProfileData = ProfileData(phoneNumber: Option<string>, trainerId: Option<int>, gender: Option<string>)

  /** The member record with the three profile columns overwritten. */
  function WithProfile(m: Account, data: ProfileData): (r: Account)
    ensures r.id == m.id && r.username == m.username && r.password == m.password && r.role == m.role
    ensures TrainerOf(r) == data.trainerId
  {
    m.(profile := MemberProfile(data.phoneNumber, data.gender, data.trainerId))
  }

  /** `completeProfile` as written: 404 without a member record for the
      token's subject, 500 when the subject is stored twice, 400 when a
      trainer is named that no member is assigned to, otherwise the member
      with the new profile is passed to `updateMember` with its stored hash
      in the password field. */
  function CompleteProfile(members: Table, subject: string, data: ProfileData, encode: Encoder)
    : (r: Response<(Table, Account)>)
    requires WellFormed(members)
    ensures r.Missing? <==> !NameTaken(members.rows, subject)
    ensures r.InternalError? <==> NameRepeated(members.rows, subject)
    ensures r.BadRequest? <==> (FindByUsername(members.rows, subject).OneRow?
      && data.trainerId.Some? && !TrainerAssigned(members.rows, data.trainerId.value))
    ensures !r.NoContent?
    ensures r.Found? ==> var m := FindByUsername(members.rows, subject).account;
      && r.body.1.id == m.id && r.body.1.username == subject
      && r.body.1.profile == MemberProfile(data.phoneNumber, data.gender, data.trainerId)
      && FindById(r.body.0, m.id.value) == Some(r.body.1)
  {
    match FindByUsername(members.rows, subject)
    case NoRow => Missing("User not found")
    case ManyRows => InternalError
    case OneRow(m) =>
      if data.trainerId.Some? && !TrainerAssigned(members.rows, data.trainerId.value) then
        BadRequest("Invalid trainer ID")
      else
        StoredHasId(members, m);
        var id := m.id.value;
        FindByIdUnique(members, id, m);
        UpdateStoredThenFind(members, id, WithProfile(m, data), MemberRole, "Member not found", encode, id);
        Found(UpdateMember(members, id, WithProfile(m, data), encode).value)
  }

  lemma StoredHasId(t: Table, a: Account)
    requires WellFormed(t) && a in t.rows
    ensures a.id.Some?
  {
    var k :| 0 <= k < |t.rows| && t.rows[k] == a;
  }

  /** As written, completing the profile stores the hash of the stored hash
      whenever the stored hash is not empty. */
  lemma CompleteProfileRehashes(members: Table, subject: string, data: ProfileData, encode: Encoder)
    requires WellFormed(members)
    requires CompleteProfile(members, subject, data, encode).Found?
    requires FindByUsername(members.rows, subject).account.password.Some?
    requires FindByUsername(members.rows, subject).account.password.value != ""
    ensures CompleteProfile(members, subject, data, encode).body.1.password ==
      Some(encode(FindByUsername(members.rows, subject).account.password.value))
  {
  }

  /** A sample hash function and its match test: the hash of s is "#" + s. */
  function SampleEncode(s: string): string {
    "#" + s
  }

  predicate SampleMatches(raw: string, hash: string) {
    hash == SampleEncode(raw)
  }

  const Ann: Account := Account(Some(1), "ann", Some(SampleEncode("pw")), MemberRole, MemberProfile(None, None, None))
  const AnnTable: Table := Table([Ann], 2)

  /** The profile of member "ann", whose password "pw" is stored as "#pw",
      is completed without naming a trainer; afterwards the stored hash is
      "##pw" and "pw" no longer matches it. */
  lemma CompleteProfileLocksOut()
    ensures WellFormed(AnnTable)
    ensures SampleMatches("pw", Ann.password.value)
    ensures CompleteProfile(AnnTable, "ann", ProfileData(Some("555"), None, Some("F")), SampleEncode).Found?
    ensures var b := CompleteProfile(AnnTable, "ann", ProfileData(Some("555"), None, Some("F")), SampleEncode).body.1;
      b.password == Some("##pw") && !SampleMatches("pw", b.password.value)
  {
    var data := ProfileData(Some("555"), None, Some("F"));
    assert FindByUsername(AnnTable.rows, "ann") == OneRow(Ann);
    CompleteProfileRehashes(AnnTable, "ann", data, SampleEncode);
    assert SampleEncode(SampleEncode("pw")) == "##pw";
    assert SampleEncode("pw") != "##pw";
  }

  /** As written, the trainer check reads the member table: a trainer who
      is stored but has no members yet is refused with 400. */
  lemma TrainerCheckReadsMembers(store: GymStore, subject: string, data: ProfileData, encode: Encoder)
    requires WellFormed(store.members)
    requires FindByUsername(store.members.rows, subject).OneRow?
    requires data.trainerId.Some? && FindById(store.trainers, data.trainerId.value).Some?
    requires MembersOf(store.members.rows, data.trainerId.value) == []
    ensures CompleteProfile(store.members, subject, data, encode).BadRequest?
  {
  }

  /** Profile completion as evidently intended: the trainer is looked up
      among the trainers, and the stored hash is kept by passing no new
      password to `updateMember`. */
  function CompleteProfileFixed(store: GymStore, subject: string, data: ProfileData, encode: Encoder)
    : (r: Response<(GymStore, Account)>)
    requires WellFormed(store.members)
    ensures r.Missing? <==> !NameTaken(store.members.rows, subject)
    ensures r.InternalError? <==> NameRepeated(store.members.rows, subject)
    ensures r.BadRequest? <==> (FindByUsername(store.members.rows, subject).OneRow?
      && data.trainerId.Some? && FindById(store.trainers, data.trainerId.value).None?)
    ensures !r.NoContent?
    ensures r.Found? ==> var m := FindByUsername(store.members.rows, subject).account;
      && r.body.1.id == m.id && r.body.1.username == subject
      && r.body.1.password == m.password
      && r.body.1.profile == MemberProfile(data.phoneNumber, data.gender, data.trainerId)
      && FindById(r.body.0.members, m.id.value) == Some(r.body.1)
      && r.body.0.admins == store.admins && r.body.0.trainers == store.trainers
  {
    match FindByUsername(store.members.rows, subject)
    case NoRow => Missing("User not found")
    case ManyRows => InternalError
    case OneRow(m) =>
      if data.trainerId.Some? && FindById(store.trainers, data.trainerId.value).None? then
        BadRequest("Invalid trainer ID")
      else
        StoredHasId(store.members, m);
        var id := m.id.value;
        FindByIdUnique(store.members, id, m);
        var edited := WithProfile(m, data).(password := None);
        UpdateStoredThenFind(store.members, id, edited, MemberRole, "Member not found", encode, id);
        var (t', b) := UpdateMember(store.members, id, edited, encode).value;
        Found((store.(members := t'), b))
  }

  /** The corrected completion keeps the member able to log in: the stored
      hash is unchanged, whatever hash function is in use. */
  lemma FixedKeepsPassword(store: GymStore, subject: string, data: ProfileData, encode: Encoder, raw: string,
                           matches: (string, string) -> bool)
    requires WellFormed(store.members)
    requires CompleteProfileFixed(store, subject, data, encode).Found?
    requires FindByUsername(store.members.rows, subject).account.password.Some?
    requires matches(raw, FindByUsername(store.members.rows, subject).account.password.value)
    ensures matches(raw, CompleteProfileFixed(store, subject, data, encode).body.1.password.value)
  {
  }

  /** The corrected check accepts a stored trainer with no members yet. */
  lemma FixedAcceptsNewTrainer(store: GymStore, subject: string, data: ProfileData, encode: Encoder)
    requires WellFormed(store.members)
    requires FindByUsername(store.members.rows, subject).OneRow?
    requires data.trainerId.Some? && FindById(store.trainers, data.trainerId.value).Some?
    ensures CompleteProfileFixed(store, subject, data, encode).Found?
  {
  }
}
