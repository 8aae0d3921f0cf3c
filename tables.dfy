/**
 * The database tables the account routes read and write, and the queries
 * they run on them, as functions over the rows in table order.
 */
module Tables {
  import opened Wrappers
  import opened Arrays

  /** A row of `users`. `createdAt` is in seconds since the epoch. */
  datatype User = User(
    id: nat,
    username: string,
    email: string,
    passwordHash: string,
    firstName: string,
    lastName: string,
    displayName: string,
    dateOfBirth: string,
    gender: string,
    location: string,
    createdAt: int)

  /** A row of `otp_codes` (registration) or of `password_reset_otps` (password reset). */
  datatype CodeRow = CodeRow(email: string, code: string, expiresAt: int)

  /** Fifteen minutes, in seconds: how long a code stays valid. */
  const CodeLifetime := 900

  /** The row is for this address and code and has not expired yet. */
  predicate Live(row: CodeRow, email: string, code: string, now: int) {
    row.email == email && row.code == code && row.expiresAt > now
  }

  /** The code query returns at least one row. */
  predicate HasLiveCode(rows: seq<CodeRow>, email: string, code: string, now: int) {
    exists i | 0 <= i < |rows| :: Live(rows[i], email, code, now)
  }

  /** Deleting by address: every row for `email` goes, every other row stays, in order. */
  function WithoutEmail(rows: seq<CodeRow>, email: string): (r: seq<CodeRow>)
    ensures forall i :: 0 <= i < |r| ==> r[i].email != email && r[i] in rows
    ensures forall i :: 0 <= i < |rows| && rows[i].email != email ==> rows[i] in r
  {
    Filter(rows, (row: CodeRow) => row.email != email)
  }

  /** The delete keeps the order of the rows it leaves: a row appended last stays last, or goes. */
  lemma WithoutEmailAppend(rows: seq<CodeRow>, row: CodeRow, email: string)
    ensures WithoutEmail(rows + [row], email) == WithoutEmail(rows, email) + (if row.email != email then [row] else [])
  {
    var keep := (r: CodeRow) => r.email != email;
    FilterConcat(rows, [row], keep);
    FilterSingleton(row, keep);
  }

  /** A code stays usable until its expiry: appending it makes it live exactly before then. */
  lemma LiveAfterInsert(rows: seq<CodeRow>, email: string, code: string, issuedAt: int, now: int)
    ensures HasLiveCode(rows + [CodeRow(email, code, issuedAt + CodeLifetime)], email, code, now)
        <==> now < issuedAt + CodeLifetime || HasLiveCode(rows, email, code, now)
  {
    var rows' := rows + [CodeRow(email, code, issuedAt + CodeLifetime)];
    if HasLiveCode(rows, email, code, now) {
      var i :| 0 <= i < |rows| && Live(rows[i], email, code, now);
      assert rows'[i] == rows[i];
    }
    if now < issuedAt + CodeLifetime {
      assert Live(rows'[|rows|], email, code, now);
    }
    if HasLiveCode(rows', email, code, now) {
      var i :| 0 <= i < |rows'| && Live(rows'[i], email, code, now);
      if i < |rows| {
        assert rows[i] == rows'[i];
      }
    }
  }

  /** After the delete no code for that email is live, at any time: a code is used once. */
  lemma NoLiveCodeAfterDelete(rows: seq<CodeRow>, email: string, code: string, now: int)
    ensures !HasLiveCode(WithoutEmail(rows, email), email, code, now)
  {
  }

  /** The delete leaves the codes of every other email as they were. */
  lemma DeleteKeepsOtherEmails(rows: seq<CodeRow>, email: string, other: string, code: string, now: int)
    requires other != email
    ensures HasLiveCode(WithoutEmail(rows, email), other, code, now) <==> HasLiveCode(rows, other, code, now)
  {
    var r := WithoutEmail(rows, email);
    if HasLiveCode(rows, other, code, now) {
      var i :| 0 <= i < |rows| && Live(rows[i], other, code, now);
      assert rows[i] in r;
      var j :| 0 <= j < |r| && r[j] == rows[i];
      assert Live(r[j], other, code, now);
    }
    if HasLiveCode(r, other, code, now) {
      var j :| 0 <= j < |r| && Live(r[j], other, code, now);
      assert r[j] in rows;
      var i :| 0 <= i < |rows| && rows[i] == r[j];
      assert Live(rows[i], other, code, now);
    }
  }

  /** Some user has this username or this e-mail address. */
  predicate Taken(users: seq<User>, username: string, email: string) {
    exists i | 0 <= i < |users| :: users[i].username == username || users[i].email == email
  }

  /** The first user with this username, if any. */
  function UserByName(users: seq<User>, username: string): (r: Option<User>)
    ensures r.Some? ==> r.value in users && r.value.username == username
    ensures r.None? <==> forall i :: 0 <= i < |users| ==> users[i].username != username
  {
    Find(users, (u: User) => u.username == username)
  }

  /** The first user with this id, if any. */
  function UserById(users: seq<User>, id: int): (r: Option<User>)
    ensures r.Some? ==> r.value in users && r.value.id == id
    ensures r.None? <==> forall i :: 0 <= i < |users| ==> users[i].id != id
  {
    Find(users, (u: User) => u.id == id)
  }

  /** Some user has this e-mail address. */
  predicate HasEmail(users: seq<User>, email: string) {
    exists i | 0 <= i < |users| :: users[i].email == email
  }

  /** Setting the password hash where `cond` holds: the rows `cond` selects get `hash`, every other row stays. */
  function SetHashWhere(users: seq<User>, cond: User -> bool, hash: string): (r: seq<User>)
    ensures |r| == |users|
    ensures forall i :: 0 <= i < |users| && cond(users[i]) ==> r[i] == users[i].(passwordHash := hash)
    ensures forall i :: 0 <= i < |users| && !cond(users[i]) ==> r[i] == users[i]
  {
    seq(|users|, i requires 0 <= i < |users| => if cond(users[i]) then users[i].(passwordHash := hash) else users[i])
  }

  /** Usernames, e-mail addresses and ids are each unique, and ids lie in `[1, nextId)` as a serial column hands them out. */
  predicate UniqueUsers(users: seq<User>, nextId: nat) {
    && (forall i, j :: 0 <= i < j < |users| ==> users[i].username != users[j].username)
    && (forall i, j :: 0 <= i < j < |users| ==> users[i].email != users[j].email)
    && (forall i, j :: 0 <= i < j < |users| ==> users[i].id != users[j].id)
    && (forall i :: 0 <= i < |users| ==> 0 < users[i].id < nextId)
  }

  /** A user whose username and e-mail address are both new, with the next id, keeps the table unique. */
  lemma InsertKeepsUnique(users: seq<User>, nextId: nat, u: User)
    requires UniqueUsers(users, nextId) && !Taken(users, u.username, u.email)
    requires u.id == nextId && nextId > 0
    ensures UniqueUsers(users + [u], nextId + 1)
  {
    var users' := users + [u];
    forall i, j | 0 <= i < j < |users'|
      ensures users'[i].username != users'[j].username && users'[i].email != users'[j].email && users'[i].id != users'[j].id
    {
      if j == |users| {
        assert users'[i] == users[i];
      }
    }
  }

  /** Changing hashes leaves usernames, e-mail addresses and ids as they were. */
  lemma SetHashKeepsUnique(users: seq<User>, nextId: nat, cond: User -> bool, hash: string)
    requires UniqueUsers(users, nextId)
    ensures UniqueUsers(SetHashWhere(users, cond, hash), nextId)
  {
  }

  /** With unique usernames the lookup by name finds exactly the user with that name. */
  lemma UserByNameUnique(users: seq<User>, nextId: nat, i: nat)
    requires UniqueUsers(users, nextId) && i < |users|
    ensures UserByName(users, users[i].username) == Some(users[i])
  {
    var r := UserByName(users, users[i].username);
    var k :| 0 <= k < |users| && users[k] == r.value;
    assert k == i;
  }

  /** With unique ids the lookup by id finds exactly the user with that id. */
  lemma UserByIdUnique(users: seq<User>, nextId: nat, i: nat)
    requires UniqueUsers(users, nextId) && i < |users|
    ensures UserById(users, users[i].id) == Some(users[i])
  {
    var r := UserById(users, users[i].id);
    var k :| 0 <= k < |users| && users[k] == r.value;
    assert k == i;
  }
}
