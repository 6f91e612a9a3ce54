/** The news application's open registration endpoint and what a
    registration means for a later login. */
module NewsAuth {
  import opened Wrappers
  import opened Matrix
  import opened JavaText
  import opened Accounts
  import opened AccountServices
  import opened UserDetailsLookup

  const UserRole: string := "USER"
  const Registered: string := "User registered successfully!"

  /** `register` as written: hash the password, force the role "USER",
      save the body as it came (its identity included), answer with a
      fixed message. A null password makes the hash function throw. */
  function Register(users: Table, body: Account, encode: Encoder): (r: Result<(Table, string), ServiceError>)
    ensures r.Err? <==> body.password.None?
    ensures r.Ok? ==> r.value.1 == Registered
    ensures r.Ok? ==> var stored := Save(users, body.(role := UserRole, password := Some(encode(body.password.value)))).1;
      && stored in r.value.0.rows
      && stored.role == UserRole
      && stored.username == body.username
      && stored.password == Some(encode(body.password.value))
  {
    match body.password
    case None => Err(NullPassword)
    case Some(raw) =>
      var (t, _) := Save(users, body.(role := UserRole, password := Some(encode(raw))));
      Ok((t, Registered))
  }

  /** A registration under a new name can log in: the lookup finds the
      stored hash and the single raw authority "USER". */
  lemma RegisterThenLoad(users: Table, body: Account, encode: Encoder)
    requires body.id.None? && body.password.Some? && body.username != ""
    requires !NameTaken(users.rows, body.username)
    ensures LoadNewsUser(Register(users, body, encode).value.0, body.username) ==
      Ok(UserDetails(body.username, encode(body.password.value), [UserRole]))
  {
    var b := Save(users, body.(role := UserRole, password := Some(encode(body.password.value)))).1;
    FindAfterAppend(users.rows, b, body.username);
    assert !IsJavaWhitespace(UserRole[0]);
  }

  /** As written, nothing stops a second registration of a taken name: a
      row is added, the name is then stored twice, and every later lookup
      of it fails with the repository's error, so the earlier account can
      no longer log in. */
  lemma RegisterTakenNameLocksOut(users: Table, body: Account, encode: Encoder)
    requires body.id.None? && body.password.Some?
    requires NameTaken(users.rows, body.username)
    ensures Register(users, body, encode).Ok?
    ensures |Register(users, body, encode).value.0.rows| == |users.rows| + 1
    ensures NameRepeated(Register(users, body, encode).value.0.rows, body.username)
    ensures LoadNewsUser(Register(users, body, encode).value.0, body.username) == Err(NonUniqueResult)
  {
    var b := Save(users, body.(role := UserRole, password := Some(encode(body.password.value)))).1;
    FindAfterAppend(users.rows, b, body.username);
  }

  /** As written, a body that names the identity of a stored user replaces
      that user: an administrator registered again through the open
      endpoint comes back as a "USER" with the attacker's password. */
  lemma RegisterOverwritesStoredUser(users: Table, body: Account, encode: Encoder, victim: Account)
    requires WellFormed(users)
    requires victim in users.rows && body.id == victim.id
    requires body.password.Some?
    ensures FindById(Register(users, body, encode).value.0, victim.id.value) ==
      Some(body.(role := UserRole, password := Some(encode(body.password.value))))
    ensures victim.role != UserRole ==> victim !in Register(users, body, encode).value.0.rows
  {
    var a := body.(role := UserRole, password := Some(encode(body.password.value)));
    FindByIdUnique(users, victim.id.value, victim);
    SaveThenFind(users, a);
    SavePreservesWellFormed(users, a);
    var t' := Save(users, a).0;
    if victim in t'.rows {
      FindByIdUnique(t', victim.id.value, victim);
    }
  }

  /** Registration as evidently intended: a name already stored is
      refused, and the identity in the body is ignored, so every accepted
      registration inserts a new row. */
  function RegisterFixed(users: Table, body: Account, encode: Encoder): (r: Result<(Table, string), ServiceError>)
    ensures r.Err? <==> body.password.None? || NameTaken(users.rows, body.username)
    ensures NameTaken(users.rows, body.username) ==> r == Err(UsernameTaken)
    ensures r.Ok? ==> r.value.1 == Registered
  {
    if NameTaken(users.rows, body.username) then Err(UsernameTaken)
    else Register(users, body.(id := None), encode)
  }

  /** An accepted corrected registration keeps every stored row and adds
      exactly one, with role "USER" and the hashed password. */
  lemma RegisterFixedKeepsUsers(users: Table, body: Account, encode: Encoder)
    ensures RegisterFixed(users, body, encode).Ok? ==>
      var t := RegisterFixed(users, body, encode).value.0;
      && |t.rows| == |users.rows| + 1
      && t.rows[..|users.rows|] == users.rows
      && t.rows[|users.rows|].role == UserRole
      && t.rows[|users.rows|].username == body.username
      && t.rows[|users.rows|].password == Some(encode(body.password.value))
  {
    if RegisterFixed(users, body, encode).Ok? {
      var t := RegisterFixed(users, body, encode).value.0;
      assert t.rows[..|users.rows|] == users.rows;
    }
  }

  /** The corrected registration never stores a name twice, leaves every
      other login as it was, and makes the new name log in. */
  lemma RegisterFixedKeepsLogins(users: Table, body: Account, encode: Encoder, u: string)
    requires !NameRepeated(users.rows, u)
    ensures RegisterFixed(users, body, encode).Ok? ==>
      !NameRepeated(RegisterFixed(users, body, encode).value.0.rows, u)
    ensures RegisterFixed(users, body, encode).Ok? && u != body.username ==>
      LoadNewsUser(RegisterFixed(users, body, encode).value.0, u) == LoadNewsUser(users, u)
    ensures RegisterFixed(users, body, encode).Ok? && u == body.username && u != "" ==>
      LoadNewsUser(RegisterFixed(users, body, encode).value.0, u) ==
      Ok(UserDetails(u, encode(body.password.value), [UserRole]))
  {
    if RegisterFixed(users, body, encode).Ok? {
      var b := Save(users, body.(id := None, role := UserRole, password := Some(encode(body.password.value)))).1;
      FindAfterAppend(users.rows, b, u);
      assert !IsJavaWhitespace(UserRole[0]);
    }
  }
}
