/** The credential-writing rules of the admin, trainer and member services:
    create forces the partition's role and hashes the password; update
    forces the identity and role, hashes a new non-empty password and
    otherwise keeps the stored hash; delete removes one identity. The
    password hash function is a parameter. */
module AccountServices {
  import opened Wrappers
  import opened Accounts

  /** The one-way password hash (`PasswordEncoder.encode`). */
  type Encoder = string -> string

  datatype ServiceError =
    | NullPassword            // the hash function refuses a null password
    | NotFound(message: string)
    | UsernameTaken           // a registration refused because the name is already stored

  /** The body carries a password to set: not null and not empty. */
  predicate HasNewPassword(a: Account) {
    a.password.Some? && a.password.value != ""
  }

  /** Shared `create*`: force the role, hash the password, save. */
  function Create(t: Table, a: Account, role: string, encode: Encoder): (r: Result<(Table, Account), ServiceError>)
    ensures r.Err? <==> a.password.None?
    ensures r.Err? ==> r.error == NullPassword
    ensures r.Ok? ==> r.value.1.role == role && r.value.1.password == Some(encode(a.password.value))
    ensures r.Ok? ==> r.value.1.username == a.username && r.value.1.profile == a.profile
    ensures r.Ok? ==> r.value.1 in r.value.0.rows
  {
    match a.password
    case None => Err(NullPassword)
    case Some(raw) => Ok(Save(t, a.(role := role, password := Some(encode(raw)))))
  }

  /** Shared `update*`: force the identity and role; hash a new password,
      otherwise copy the stored hash, failing when there is no stored
      account. */
  function Update(t: Table, id: int, a: Account, role: string, notFound: string, encode: Encoder)
    : (r: Result<(Table, Account), ServiceError>)
    ensures r.Err? <==> !HasNewPassword(a) && FindById(t, id).None?
    ensures r.Err? ==> r.error == NotFound(notFound)
    ensures r.Ok? ==> r.value.1.role == role && r.value.1.username == a.username && r.value.1.profile == a.profile
    ensures r.Ok? && HasNewPassword(a) ==> r.value.1.password == Some(encode(a.password.value))
    ensures r.Ok? && !HasNewPassword(a) ==> r.value.1.password == FindById(t, id).value.password
    ensures r.Ok? && FindById(t, id).Some? ==> r.value.1.id == Some(id)
    ensures r.Ok? ==> r.value.1 in r.value.0.rows
  {
    var forced := a.(id := Some(id), role := role);
    if HasNewPassword(a) then
      Ok(Save(t, forced.(password := Some(encode(a.password.value)))))
    else
      match FindById(t, id)
      case None => Err(NotFound(notFound))
      case Some(existing) => Ok(Save(t, forced.(password := existing.password)))
  }

  // ---------------------------------------------------------------------
  // The three services

  const AdminRole: string := "ADMIN"
  const TrainerRole: string := "TRAINER"
  const MemberRole: string := "MEMBER"

  function CreateAdmin(t: Table, a: Account, encode: Encoder): (r: Result<(Table, Account), ServiceError>)
    ensures r.Ok? ==> r.value.1.role == "ADMIN"
    ensures r.Ok? <==> a.password.Some?
  {
    Create(t, a, AdminRole, encode)
  }

  function UpdateAdmin(t: Table, id: int, a: Account, encode: Encoder): (r: Result<(Table, Account), ServiceError>)
    ensures r.Ok? ==> r.value.1.role == "ADMIN"
    ensures r.Err? ==> r.error == NotFound("Admin not found")
  {
    Update(t, id, a, AdminRole, "Admin not found", encode)
  }

  function DeleteAdmin(t: Table, id: int): (r: Table)
    ensures FindById(r, id).None?
  {
    DeleteById(t, id)
  }

  function CreateTrainer(t: Table, a: Account, encode: Encoder): (r: Result<(Table, Account), ServiceError>)
    ensures r.Ok? ==> r.value.1.role == "TRAINER"
    ensures r.Ok? <==> a.password.Some?
  {
    Create(t, a, TrainerRole, encode)
  }

  function UpdateTrainer(t: Table, id: int, a: Account, encode: Encoder): (r: Result<(Table, Account), ServiceError>)
    ensures r.Ok? ==> r.value.1.role == "TRAINER"
    ensures r.Err? ==> r.error == NotFound("Trainer not found")
  {
    Update(t, id, a, TrainerRole, "Trainer not found", encode)
  }

  function DeleteTrainer(t: Table, id: int): (r: Table)
    ensures FindById(r, id).None?
  {
    DeleteById(t, id)
  }

  function CreateMember(t: Table, a: Account, encode: Encoder): (r: Result<(Table, Account), ServiceError>)
    ensures r.Ok? ==> r.value.1.role == "MEMBER"
    ensures r.Ok? <==> a.password.Some?
  {
    Create(t, a, MemberRole, encode)
  }

  function UpdateMember(t: Table, id: int, a: Account, encode: Encoder): (r: Result<(Table, Account), ServiceError>)
    ensures r.Ok? ==> r.value.1.role == "MEMBER"
    ensures r.Err? ==> r.error == NotFound("Member not found")
  {
    Update(t, id, a, MemberRole, "Member not found", encode)
  }

  function DeleteMember(t: Table, id: int): (r: Table)
    ensures FindById(r, id).None?
  {
    DeleteById(t, id)
  }

  // ---------------------------------------------------------------------
  // Properties of the shared rules

  /** The role and identity in the request body are ignored by update, and
      the role by create. */
  lemma BodyRoleAndIdIgnored(t: Table, id: int, a: Account, otherId: Option<int>, otherRole: string,
                             role: string, notFound: string, encode: Encoder)
    ensures Update(t, id, a.(id := otherId, role := otherRole), role, notFound, encode) ==
            Update(t, id, a, role, notFound, encode)
    ensures Create(t, a.(role := otherRole), role, encode) == Create(t, a, role, encode)
  {
    assert a.(id := otherId, role := otherRole).(id := Some(id), role := role) == a.(id := Some(id), role := role);
  }

  /** Without a new password the hash function is never consulted: any two
      hash functions give the same outcome. */
  lemma NoNewPasswordNoHashing(t: Table, id: int, a: Account, role: string, notFound: string,
                               e1: Encoder, e2: Encoder)
    requires !HasNewPassword(a)
    ensures Update(t, id, a, role, notFound, e1) == Update(t, id, a, role, notFound, e2)
  {
  }

  /** With a new password update does not look for a stored account, so it
      cannot fail. */
  lemma NewPasswordNeverNotFound(t: Table, id: int, a: Account, role: string, notFound: string, encode: Encoder)
    requires HasNewPassword(a)
    ensures Update(t, id, a, role, notFound, encode).Ok?
  {
  }

  /** Updating a stored account replaces exactly that identity: afterwards
      it is found with the forced role and the right hash, and every other
      identity reads as before. */
  lemma UpdateStoredThenFind(t: Table, id: int, a: Account, role: string, notFound: string,
                             encode: Encoder, other: int)
    requires WellFormed(t) && FindById(t, id).Some?
    ensures Update(t, id, a, role, notFound, encode).Ok?
    ensures var (t', b) := Update(t, id, a, role, notFound, encode).value;
      && WellFormed(t')
      && FindById(t', id) == Some(b)
      && b.role == role
      && b.password == (if HasNewPassword(a) then Some(encode(a.password.value)) else FindById(t, id).value.password)
      && (other != id ==> FindById(t', other) == FindById(t, other))
  {
    var forced := a.(id := Some(id), role := role);
    var saved := if HasNewPassword(a) then forced.(password := Some(encode(a.password.value)))
                 else forced.(password := FindById(t, id).value.password);
    assert Update(t, id, a, role, notFound, encode) == Ok(Save(t, saved));
    SavePreservesWellFormed(t, saved);
    SaveThenFind(t, saved);
    if other != id {
      SaveKeepsOthers(t, saved, other);
    }
  }

  /** A created account can be found under the identity it was given, and
      nothing else changes. */
  lemma CreateThenFind(t: Table, a: Account, role: string, encode: Encoder, other: int)
    requires WellFormed(t) && a.password.Some?
    ensures var (t', b) := Create(t, a, role, encode).value;
      && WellFormed(t')
      && FindById(t', b.id.value) == Some(b)
      && (other != b.id.value ==> FindById(t', other) == FindById(t, other))
  {
    var saved := a.(role := role, password := Some(encode(a.password.value)));
    SavePreservesWellFormed(t, saved);
    SaveThenFind(t, saved);
    if other != Save(t, saved).1.id.value {
      SaveKeepsOthers(t, saved, other);
    }
  }

  /** Delete removes exactly one identity. */
  lemma DeleteRemovesOnlyId(t: Table, id: int, other: int)
    requires WellFormed(t) && other != id
    ensures FindById(DeleteById(t, id), id).None?
    ensures FindById(DeleteById(t, id), other) == FindById(t, other)
  {
    DeleteKeepsOthers(t, id, other);
  }
}
