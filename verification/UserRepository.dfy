/**
 * The `users` table and `UserRepository`.  Each SQL statement is one atomic
 * step; `fails` says that the database reports an unrelated error, which
 * changes nothing.
 */
module Users {
  import opened Wrappers

  datatype User = User(id: int, email: string, passwordHash: string)

  /** `id INTEGER PRIMARY KEY AUTOINCREMENT`: the next id is one above `lastId`. */
  datatype Table = Table(rows: seq<User>, lastId: int)

  /** `SELECT ... WHERE email = ?`, the first row of the answer. */
  function Find(rows: seq<User>, email: string): (r: Option<User>)
    ensures r.Some? ==> r.value in rows && r.value.email == email
    ensures r.None? ==> forall u | u in rows :: u.email != email
  {
    if rows == [] then None
    else if rows[0].email == email then Some(rows[0])
    else Find(rows[1..], email)
  }

  /** `INSERT`, refused by the UNIQUE constraint when the email is taken. */
  function Insert(t: Table, email: string, hash: string): Option<Table> {
    if Find(t.rows, email).Some? then None
    else Some(Table(t.rows + [User(t.lastId + 1, email, hash)], t.lastId + 1))
  }

  /** `UPDATE users SET password_hash = ? WHERE id = ?`. */
  function SetHash(rows: seq<User>, id: int, hash: string): (r: seq<User>)
    ensures |r| == |rows|
    ensures forall i | 0 <= i < |rows| ::
              r[i] == if rows[i].id == id then rows[i].(passwordHash := hash) else rows[i]
  {
    if rows == [] then []
    else
      var u := rows[0];
      [if u.id == id then u.(passwordHash := hash) else u] + SetHash(rows[1..], id, hash)
  }

  /** What the constraints of the table guarantee. */
  ghost predicate Valid(t: Table) {
    && (forall i | 0 <= i < |t.rows| :: t.rows[i].id <= t.lastId)
    && (forall i, j | 0 <= i < j < |t.rows| :: t.rows[i].id != t.rows[j].id && t.rows[i].email != t.rows[j].email)
  }

  /** The row with this id belongs to this email. */
  ghost predicate Names(rows: seq<User>, id: int, email: string) {
    exists i | 0 <= i < |rows| :: rows[i].id == id && rows[i].email == email
  }

  // ---------- the table as a map from email to password hash ----------

  function Accounts(rows: seq<User>): map<string, string> {
    map e | e in (set u | u in rows :: u.email) && Find(rows, e).Some? :: Find(rows, e).value.passwordHash
  }

  lemma AccountsFind(rows: seq<User>, email: string)
    ensures email in Accounts(rows) <==> Find(rows, email).Some?
    ensures email in Accounts(rows) ==> Accounts(rows)[email] == Find(rows, email).value.passwordHash
  {}

  lemma {:induction false} FindAppended(rows: seq<User>, u: User, email: string)
    ensures Find(rows + [u], email)
         == if Find(rows, email).Some? then Find(rows, email) else if u.email == email then Some(u) else None
  {
    if rows != [] {
      FindAppended(rows[1..], u, email);
      assert (rows + [u])[1..] == rows[1..] + [u];
    }
  }

  lemma {:induction false} FindUpdated(rows: seq<User>, id: int, hash: string, email: string)
    ensures Find(SetHash(rows, id, hash), email)
         == match Find(rows, email)
            case None => None
            case Some(u) => Some(if u.id == id then u.(passwordHash := hash) else u)
  {
    if rows != [] {
      FindUpdated(rows[1..], id, hash, email);
      assert SetHash(rows, id, hash)[1..] == SetHash(rows[1..], id, hash);
    }
  }

  /** In a valid table the row with the id is found by its email, and by no other. */
  lemma NamesFind(t: Table, id: int, email: string)
    requires Valid(t) && Names(t.rows, id, email)
    ensures Find(t.rows, email).Some?
    ensures forall e | Find(t.rows, e).Some? :: Find(t.rows, e).value.id == id <==> e == email
  {
    var k :| 0 <= k < |t.rows| && t.rows[k].id == id && t.rows[k].email == email;
    assert t.rows[k] in t.rows;
    forall e | Find(t.rows, e).Some? ensures Find(t.rows, e).value.id == id <==> e == email {
      var i :| 0 <= i < |t.rows| && t.rows[i] == Find(t.rows, e).value;
    }
  }

  /** Two tables with the same emails and hashes are the same accounts. */
  lemma SameAccounts(rows: seq<User>, m: map<string, string>)
    requires forall e :: e in m <==> Find(rows, e).Some?
    requires forall e | e in m :: m[e] == Find(rows, e).value.passwordHash
    ensures Accounts(rows) == m
  {
    forall e ensures e in Accounts(rows) <==> e in m {
      AccountsFind(rows, e);
    }
  }

  lemma InsertValid(t: Table, email: string, hash: string)
    requires Valid(t) && Insert(t, email, hash).Some?
    ensures Valid(Insert(t, email, hash).value)
  {
    assert forall i | 0 <= i < |t.rows| :: t.rows[i] in t.rows;
  }

  lemma InsertAccounts(t: Table, email: string, hash: string)
    requires Valid(t) && Insert(t, email, hash).Some?
    ensures var u := Insert(t, email, hash).value;
            Valid(u) && Accounts(u.rows) == Accounts(t.rows)[email := hash]
  {
    var u := Insert(t, email, hash).value;
    InsertValid(t, email, hash);
    hide Accounts, Valid, Find;
    forall e ensures Find(u.rows, e) == if e == email then Some(u.rows[|t.rows|]) else Find(t.rows, e) {
      FindAppended(t.rows, u.rows[|t.rows|], e);
      AccountsFind(t.rows, e);
    }
    SameAccounts(u.rows, Accounts(t.rows)[email := hash]);
  }

  lemma SetHashValid(t: Table, id: int, hash: string)
    requires Valid(t)
    ensures Valid(Table(SetHash(t.rows, id, hash), t.lastId))
  {}

  lemma SetHashAccounts(t: Table, id: int, email: string, hash: string)
    requires Valid(t) && Names(t.rows, id, email)
    ensures var u := Table(SetHash(t.rows, id, hash), t.lastId);
            Valid(u) && Accounts(u.rows) == Accounts(t.rows)[email := hash]
  {
    SetHashValid(t, id, hash);
    NamesFind(t, id, email);
    var rows := SetHash(t.rows, id, hash);
    hide Valid, Names, Find, SetHash, Accounts;
    forall e ensures (e in Accounts(t.rows)[email := hash]) <==> Find(rows, e).Some?
      ensures Find(rows, e).Some? ==> Accounts(t.rows)[email := hash][e] == Find(rows, e).value.passwordHash
    {
      FindUpdated(t.rows, id, hash, e);
      AccountsFind(t.rows, e);
    }
    SameAccounts(rows, Accounts(t.rows)[email := hash]);
  }

  /** Ids keep naming the same email: nothing deletes a row or changes its id or email. */
  lemma NamesStays(t: Table, id: int, email: string, other: int, newEmail: string, hash: string)
    requires Names(t.rows, id, email)
    ensures Names(SetHash(t.rows, other, hash), id, email)
    ensures Insert(t, newEmail, hash).Some? ==> Names(Insert(t, newEmail, hash).value.rows, id, email)
  {
    var i :| 0 <= i < |t.rows| && t.rows[i].id == id && t.rows[i].email == email;
    var set1 := SetHash(t.rows, other, hash);
    assert set1[i].id == id && set1[i].email == email;
    if Insert(t, newEmail, hash).Some? {
      var more := Insert(t, newEmail, hash).value.rows;
      assert more[i].id == id && more[i].email == email;
    }
  }

  class UserRepository {
    var table: Table

    constructor (table: Table)
      ensures this.table == table
    {
      this.table := table;
    }

    method CreateUser(email: string, passwordHash: string, fails: bool) returns (ok: bool)
      modifies this
      ensures var r := Insert(old(table), email, passwordHash);
              ok == (!fails && r.Some?) && table == if ok then r.value else old(table)
      ensures ok <==> !fails && forall u | u in old(table).rows :: u.email != email
      ensures ok && Valid(old(table)) ==>
                Valid(table) && Accounts(table.rows) == Accounts(old(table).rows)[email := passwordHash]
    {
      hide Valid, Accounts;
      var r := Insert(table, email, passwordHash);
      if fails || r.None? {
        return false;
      }
      if Valid(table) { InsertAccounts(table, email, passwordHash); }
      table := r.value;
      return true;
    }

    method GetUserByEmail(email: string, fails: bool) returns (user: Option<User>)
      ensures user == if fails then None else Find(table.rows, email)
      ensures user.Some? ==> user.value in table.rows && user.value.email == email
      ensures user.None? && !fails ==> forall u | u in table.rows :: u.email != email
    {
      if fails {
        return None;
      }
      user := Find(table.rows, email);
    }

    /** Succeeds even when no row has the id. */
    method UpdateUserPassword(id: int, newPasswordHash: string, fails: bool) returns (ok: bool)
      modifies this
      ensures ok == !fails
      ensures table == if ok then old(table).(rows := SetHash(old(table).rows, id, newPasswordHash)) else old(table)
      ensures ok && Valid(old(table)) ==>
                forall email | Names(old(table).rows, id, email) ::
                  Accounts(table.rows) == Accounts(old(table).rows)[email := newPasswordHash]
    {
      hide Valid, Accounts, Names, SetHash;
      if fails {
        return false;
      }
      if Valid(table) {
        forall email | Names(table.rows, id, email)
          ensures Accounts(SetHash(table.rows, id, newPasswordHash)) == Accounts(table.rows)[email := newPasswordHash]
        {
          SetHashAccounts(table, id, email, newPasswordHash);
        }
      }
      table := table.(rows := SetHash(table.rows, id, newPasswordHash));
      return true;
    }
  }
}
