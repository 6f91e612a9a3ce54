/** The credential store: one table of accounts per partition (admins,
    trainers, members), with the repository operations the services use.
    A table is its rows in insertion order plus the next identity value,
    standing in for an auto-increment primary key. */
module Accounts {
  import opened Wrappers

  /** The partition-specific columns. Only the member columns the services
      read or write are kept. */
  datatype Profile =
    | AdminProfile
    | TrainerProfile
    | MemberProfile(phoneNumber: Option<string>, gender: Option<string>, trainerId: Option<int>)

  /** One stored account. `id` is absent before the first save; `password`
      is absent for a null password and otherwise holds a hash once
      stored. */
  datatype Account = Account(id: Option<int>, username: string, password: Option<string>,
                             role: string, profile: Profile)

  datatype Table = Table(rows: seq<Account>, nextId: int)

  /** The three partitions of the gym's credential store. */
  datatype GymStore = GymStore(admins: Table, trainers: Table, members: Table)

  /** Identities pairwise distinct, as WellFormed demands. */
  ghost predicate DistinctIds(rows: seq<Account>) {
    forall i, j :: 0 <= i < j < |rows| ==> rows[i].id != rows[j].id
  }

  /** Every stored row has an identity below `nextId`, and identities are
      unique. */
  ghost predicate WellFormed(t: Table) {
    && (forall i :: 0 <= i < |t.rows| ==> t.rows[i].id.Some? && t.rows[i].id.value < t.nextId)
    && DistinctIds(t.rows)
  }

  /** The position of the first row with identity `id`. */
  function IndexOfId(rows: seq<Account>, id: int): (r: Option<nat>)
    ensures r.Some? ==> r.value < |rows| && rows[r.value].id == Some(id)
    ensures r.Some? ==> forall j :: 0 <= j < r.value ==> rows[j].id != Some(id)
    ensures r.None? ==> forall j :: 0 <= j < |rows| ==> rows[j].id != Some(id)
  {
    if |rows| == 0 then None
    else if rows[0].id == Some(id) then Some(0)
    else match IndexOfId(rows[1..], id)
      case Some(k) => Some(k + 1)
      case None => None
  }

  /** `findById`. */
  function FindById(t: Table, id: int): (r: Option<Account>)
    ensures r.Some? <==> exists a :: a in t.rows && a.id == Some(id)
    ensures r.Some? ==> r.value in t.rows && r.value.id == Some(id)
  {
    match IndexOfId(t.rows, id)
    case Some(i) => Some(t.rows[i])
    case None => None
  }

  /** Some row carries the username. */
  predicate NameTaken(rows: seq<Account>, u: string) {
    exists i :: 0 <= i < |rows| && rows[i].username == u
  }

  /** Two different rows carry the username. */
  predicate NameRepeated(rows: seq<Account>, u: string) {
    exists i, j :: 0 <= i < j < |rows| && rows[i].username == u && rows[j].username == u
  }

  /** What a derived `Optional<...> findByUsername(username)` query yields:
      no row, the one row with that name, or, for a name stored more than
      once, the exception the repository throws for a result that is not
      unique. */
  datatype NameHit = NoRow | OneRow(account: Account) | ManyRows

  /** Splitting off the first row: how the two predicates above depend on
      it. */
  lemma NameAfterHead(rows: seq<Account>, u: string)
    requires |rows| > 0
    ensures NameTaken(rows, u) <==> rows[0].username == u || NameTaken(rows[1..], u)
    ensures NameRepeated(rows, u) <==>
      (rows[0].username == u && NameTaken(rows[1..], u)) || NameRepeated(rows[1..], u)
  {
    var tail := rows[1..];
    if NameTaken(rows, u) && rows[0].username != u {
      var i :| 0 <= i < |rows| && rows[i].username == u;
      assert tail[i - 1] == rows[i];
    }
    if NameTaken(tail, u) {
      var i :| 0 <= i < |tail| && tail[i].username == u;
      assert rows[i + 1] == tail[i];
    }
    if NameRepeated(rows, u) {
      var i, j :| 0 <= i < j < |rows| && rows[i].username == u && rows[j].username == u;
      assert tail[j - 1] == rows[j];
      if i > 0 {
        assert tail[i - 1] == rows[i];
      }
    }
    if NameRepeated(tail, u) {
      var i, j :| 0 <= i < j < |tail| && tail[i].username == u && tail[j].username == u;
      assert rows[i + 1] == tail[i] && rows[j + 1] == tail[j];
    }
    if rows[0].username == u && NameTaken(tail, u) {
      var j :| 0 <= j < |tail| && tail[j].username == u;
      assert rows[j + 1] == tail[j];
    }
  }

  /** `findByUsername`. */
  function FindByUsername(rows: seq<Account>, u: string): (r: NameHit)
    ensures r.NoRow? <==> !NameTaken(rows, u)
    ensures r.ManyRows? <==> NameRepeated(rows, u)
    ensures r.OneRow? ==> r.account in rows && r.account.username == u
    ensures r.OneRow? ==> forall i :: 0 <= i < |rows| && rows[i].username == u ==> rows[i] == r.account
  {
    if |rows| == 0 then NoRow
    else
      var rest := FindByUsername(rows[1..], u);
      NameAfterHead(rows, u);
      if rows[0].username != u then
        assert forall i :: 1 <= i < |rows| ==> rows[i] == rows[1..][i - 1];
        rest
      else if rest.NoRow? then
        assert forall i :: 1 <= i < |rows| ==> rows[i] == rows[1..][i - 1];
        OneRow(rows[0])
      else ManyRows
  }

  /** The first row carrying the username, as a reference for lookups. */
  function FirstNamed(rows: seq<Account>, u: string): (r: Option<Account>)
    ensures r.Some? <==> NameTaken(rows, u)
    ensures r.Some? ==> r.value in rows && r.value.username == u
  {
    if |rows| == 0 then None
    else
      NameAfterHead(rows, u);
      if rows[0].username == u then Some(rows[0]) else FirstNamed(rows[1..], u)
  }

  /** A name stored once is found as that row, which is also the first row
      with the name; a name stored twice is never returned as a row. */
  lemma FindByUsernameIsFirstNamed(rows: seq<Account>, u: string)
    ensures FindByUsername(rows, u).NoRow? <==> FirstNamed(rows, u).None?
    ensures FindByUsername(rows, u).OneRow? <==> NameTaken(rows, u) && !NameRepeated(rows, u)
    ensures FindByUsername(rows, u).OneRow? ==> FirstNamed(rows, u) == Some(FindByUsername(rows, u).account)
  {
    if FindByUsername(rows, u).OneRow? {
      var a := FirstNamed(rows, u).value;
      var i :| 0 <= i < |rows| && rows[i] == a;
    }
  }

  /** Inserting a row: a lookup of another name is unaffected, and a
      lookup of the inserted name finds the new row when the name was
      free and a repeated name when it was taken. */
  lemma FindAfterAppend(rows: seq<Account>, b: Account, u: string)
    ensures b.username != u ==> FindByUsername(rows + [b], u) == FindByUsername(rows, u)
    ensures b.username == u ==>
      FindByUsername(rows + [b], u) == if NameTaken(rows, u) then ManyRows else OneRow(b)
  {
    var rows' := rows + [b];
    assert forall i :: 0 <= i < |rows| ==> rows'[i] == rows[i];
    assert rows'[|rows|] == b;
    if NameTaken(rows', u) && b.username != u {
      var i :| 0 <= i < |rows'| && rows'[i].username == u;
      assert i < |rows|;
    }
    if NameRepeated(rows', u) && b.username != u {
      var i, j :| 0 <= i < j < |rows'| && rows'[i].username == u && rows'[j].username == u;
      assert j < |rows|;
    }
    if b.username == u && NameTaken(rows, u) {
      var i :| 0 <= i < |rows| && rows[i].username == u;
      assert rows'[i].username == u;
    }
    if FindByUsername(rows, u).OneRow? && b.username != u {
      var a := FindByUsername(rows, u).account;
      var k :| 0 <= k < |rows| && rows[k] == a;
      assert rows'[k] == a;
    }
  }

  /** `save`: an account whose identity is already stored replaces that
      row; any other account is inserted under the next identity value.
      Returns the new table and the account as stored. */
  function Save(t: Table, a: Account): (r: (Table, Account))
    ensures r.1 == a.(id := r.1.id) && r.1.id.Some?
    ensures r.1 in r.0.rows
    ensures a.id.Some? && FindById(t, a.id.value).Some? ==>
      r.1.id == a.id && |r.0.rows| == |t.rows| && r.0.nextId == t.nextId
    ensures !(a.id.Some? && FindById(t, a.id.value).Some?) ==>
      r.1.id == Some(t.nextId) && r.0.rows == t.rows + [r.1] && r.0.nextId == t.nextId + 1
  {
    if a.id.Some? && IndexOfId(t.rows, a.id.value).Some? then
      var i := IndexOfId(t.rows, a.id.value).value;
      assert t.rows[i := a][i] == a;
      (t.(rows := t.rows[i := a]), a)
    else
      var b := a.(id := Some(t.nextId));
      (Table(t.rows + [b], t.nextId + 1), b)
  }

  /** The rows whose identity is not `id`, in their original order. */
  function RemoveId(rows: seq<Account>, id: int): (r: seq<Account>)
    ensures forall a :: a in r <==> a in rows && a.id != Some(id)
    ensures |r| <= |rows|
  {
    if |rows| == 0 then []
    else if rows[0].id == Some(id) then RemoveId(rows[1..], id)
    else [rows[0]] + RemoveId(rows[1..], id)
  }

  /** `deleteById`; deleting an identity that is not stored does nothing. */
  function DeleteById(t: Table, id: int): (r: Table)
    ensures FindById(r, id).None?
    ensures forall a :: a in r.rows <==> a in t.rows && a.id != Some(id)
    ensures r.nextId == t.nextId
  {
    var rows := RemoveId(t.rows, id);
    assert forall a :: a in rows ==> a.id != Some(id);
    t.(rows := rows)
  }

  // ---------------------------------------------------------------------
  // Lookups after writes

  lemma {:induction false} RemoveIdKeepsDistinct(rows: seq<Account>, id: int)
    requires DistinctIds(rows)
    ensures DistinctIds(RemoveId(rows, id))
    decreases |rows|
  {
    if |rows| > 0 {
      var tail := RemoveId(rows[1..], id);
      assert DistinctIds(rows[1..]) by {
        forall i, j | 0 <= i < j < |rows[1..]|
          ensures rows[1..][i].id != rows[1..][j].id
        {
          assert rows[1..][i] == rows[i + 1] && rows[1..][j] == rows[j + 1];
        }
      }
      RemoveIdKeepsDistinct(rows[1..], id);
      if rows[0].id != Some(id) {
        var r := RemoveId(rows, id);
        assert r == [rows[0]] + tail;
        forall i, j | 0 <= i < j < |r|
          ensures r[i].id != r[j].id
        {
          assert r[j] == tail[j - 1];
          if i == 0 {
            assert tail[j - 1] in rows[1..];
            var k :| 0 <= k < |rows[1..]| && rows[1..][k] == tail[j - 1];
            assert rows[k + 1] == r[j];
          } else {
            assert r[i] == tail[i - 1];
          }
        }
      }
    }
  }

  /** In a well-formed table the row found by identity is the only row with
      that identity. */
  lemma FindByIdUnique(t: Table, id: int, a: Account)
    requires WellFormed(t) && a in t.rows && a.id == Some(id)
    ensures FindById(t, id) == Some(a)
  {
    var i := IndexOfId(t.rows, id).value;
    var k :| 0 <= k < |t.rows| && t.rows[k] == a;
    assert t.rows[i].id == t.rows[k].id;
  }

  /** Saving keeps a table well formed. */
  lemma SavePreservesWellFormed(t: Table, a: Account)
    requires WellFormed(t)
    ensures WellFormed(Save(t, a).0)
  {
    var (t', b) := Save(t, a);
    if a.id.Some? && IndexOfId(t.rows, a.id.value).Some? {
      var i := IndexOfId(t.rows, a.id.value).value;
      assert t'.rows == t.rows[i := a];
      forall j, k | 0 <= j < k < |t'.rows|
        ensures t'.rows[j].id != t'.rows[k].id
      {
        if j != i && k != i {
          assert t'.rows[j] == t.rows[j] && t'.rows[k] == t.rows[k];
        } else if j == i {
          assert t.rows[j].id == a.id && t'.rows[k] == t.rows[k];
        } else {
          assert t.rows[k].id == a.id && t'.rows[j] == t.rows[j];
        }
      }
    } else {
      assert t'.rows == t.rows + [b];
      forall j, k | 0 <= j < k < |t'.rows|
        ensures t'.rows[j].id != t'.rows[k].id
      {
        assert t'.rows[j] == t.rows[j];
        if k == |t.rows| {
          assert t.rows[j].id.value < t.nextId;
        } else {
          assert t'.rows[k] == t.rows[k];
        }
      }
    }
  }

  /** After a save, looking up the stored identity finds exactly the
      account as stored. */
  lemma SaveThenFind(t: Table, a: Account)
    requires WellFormed(t)
    ensures FindById(Save(t, a).0, Save(t, a).1.id.value) == Some(Save(t, a).1)
  {
    SavePreservesWellFormed(t, a);
    FindByIdUnique(Save(t, a).0, Save(t, a).1.id.value, Save(t, a).1);
  }

  /** A save touches no other identity. */
  lemma SaveKeepsOthers(t: Table, a: Account, other: int)
    requires WellFormed(t)
    requires other != Save(t, a).1.id.value
    ensures FindById(Save(t, a).0, other) == FindById(t, other)
  {
    var (t', b) := Save(t, a);
    SavePreservesWellFormed(t, a);
    match FindById(t, other)
    case Some(x) =>
      if a.id.Some? && IndexOfId(t.rows, a.id.value).Some? {
        var i := IndexOfId(t.rows, a.id.value).value;
        var k :| 0 <= k < |t.rows| && t.rows[k] == x;
        assert k != i;
        assert t'.rows[k] == x;
      } else {
        assert t'.rows[|t'.rows| - 1] == b;
        assert x in t'.rows;
      }
      FindByIdUnique(t', other, x);
    case None =>
      forall k | 0 <= k < |t'.rows|
        ensures t'.rows[k].id != Some(other)
      {
        if a.id.Some? && IndexOfId(t.rows, a.id.value).Some? {
          var i := IndexOfId(t.rows, a.id.value).value;
          if k != i {
            assert t'.rows[k] == t.rows[k];
          }
        } else if k < |t.rows| {
          assert t'.rows[k] == t.rows[k];
        }
      }
  }

  /** Deleting keeps a table well formed and touches no other identity. */
  lemma DeleteKeepsOthers(t: Table, id: int, other: int)
    requires WellFormed(t) && other != id
    ensures WellFormed(DeleteById(t, id))
    ensures FindById(DeleteById(t, id), other) == FindById(t, other)
  {
    var t' := DeleteById(t, id);
    RemoveIdKeepsDistinct(t.rows, id);
    forall i | 0 <= i < |t'.rows|
      ensures t'.rows[i].id.Some? && t'.rows[i].id.value < t'.nextId
    {
      assert t'.rows[i] in t.rows;
    }
    match FindById(t, other)
    case Some(x) =>
      FindByIdUnique(t', other, x);
    case None =>
  }
}
