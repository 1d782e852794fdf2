/**
 * The SQLite variant of the registry (index.js over the schema of database.js).
 *
 * The store is two tables. `users` has an AUTOINCREMENT primary key and a
 * UNIQUE `userName`; `frases` has an AUTOINCREMENT primary key and rows
 * `(userId, fraseKey, fraseValue)` with no uniqueness on `(userId, fraseKey)`
 * and a foreign key that is never enforced (no `PRAGMA foreign_keys`). A table
 * is a sequence of rows in rowid order; each AUTOINCREMENT counter is the
 * table's entry in `sqlite_sequence`, the largest id the table ever issued.
 */
module SqliteServer {
  import opened Wrappers
  import opened Http

  datatype UserRow = UserRow(id: int, userName: string, name: string, senha: string)
  datatype FraseRow = FraseRow(id: int, userId: int, fraseKey: string, fraseValue: string)

  /** A row of `SELECT id, userName, name FROM users`: no `senha` column. */
  datatype UserView = UserView(id: int, userName: string, name: string)

  /** A row of `SELECT fraseKey, fraseValue FROM frases`. */
  datatype Phrase = Phrase(fraseKey: string, fraseValue: string)

  /** The payload of a reply; the human-readable `message` text is not modelled. */
  datatype Body =
    | Message
    | NewId(id: int)
    | LoginData(id: int, userName: string)
    | PhraseRows(phrases: seq<Phrase>)
    | UserRows(views: seq<UserView>)

  datatype Reply = Reply(status: Status, body: Body)

  // ---------------------------------------------------------------------
  // The schema's constraints
  // ---------------------------------------------------------------------

  /** `id INTEGER PRIMARY KEY AUTOINCREMENT`: ids ascend in rowid order and never pass the counter. */
  ghost predicate UserKeys(rows: seq<UserRow>, counter: int): (b: bool)
    ensures b ==> forall x :: x in rows ==> 0 < x.id <= counter
  {
    && (forall i, j :: 0 <= i < j < |rows| ==> rows[i].id < rows[j].id)
    && (forall i :: 0 <= i < |rows| ==> 0 < rows[i].id <= counter)
  }

  ghost predicate FraseKeys(rows: seq<FraseRow>, counter: int): (b: bool)
    ensures b ==> forall x :: x in rows ==> 0 < x.id <= counter
  {
    && (forall i, j :: 0 <= i < j < |rows| ==> rows[i].id < rows[j].id)
    && (forall i :: 0 <= i < |rows| ==> 0 < rows[i].id <= counter)
  }

  /** `userName TEXT UNIQUE`. */
  ghost predicate UniqueUserNames(rows: seq<UserRow>): (b: bool)
    ensures b ==> forall x, y :: x in rows && y in rows && x.userName == y.userName ==> x == y
  {
    forall i, j :: 0 <= i < j < |rows| ==> rows[i].userName != rows[j].userName
  }

  predicate HasUserName(rows: seq<UserRow>, userName: string) {
    exists x :: x in rows && x.userName == userName
  }

  // ---------------------------------------------------------------------
  // The queries
  // ---------------------------------------------------------------------

  /** `SELECT * FROM users WHERE userName = $1`, first row. */
  function FindUser(rows: seq<UserRow>, userName: string): (r: Option<UserRow>)
    ensures r.Some? ==> r.value in rows && r.value.userName == userName
    ensures r.None? <==> !HasUserName(rows, userName)
  {
    if rows == [] then None
    else if rows[0].userName == userName then Some(rows[0])
    else FindUser(rows[1..], userName)
  }

  /** `SELECT fraseKey, fraseValue FROM frases WHERE userId = ?`, in rowid order. */
  function Select(rows: seq<FraseRow>, userId: int): (r: seq<Phrase>)
    ensures |r| <= |rows|
    ensures forall p :: p in r ==>
              exists x :: x in rows && x.userId == userId && p == Phrase(x.fraseKey, x.fraseValue)
    ensures forall x :: x in rows && x.userId == userId ==> Phrase(x.fraseKey, x.fraseValue) in r
  {
    if rows == [] then []
    else
      var rest := Select(rows[1..], userId);
      if rows[0].userId == userId then [Phrase(rows[0].fraseKey, rows[0].fraseValue)] + rest else rest
  }

  predicate Matches(x: FraseRow, userId: int, fraseKey: string) {
    x.userId == userId && x.fraseKey == fraseKey
  }

  /** `DELETE FROM frases WHERE userId = ? AND fraseKey = ?`: the rows kept and `this.changes`. */
  function DeleteWhere(rows: seq<FraseRow>, userId: int, fraseKey: string): (r: (seq<FraseRow>, nat))
    ensures |r.0| + r.1 == |rows|
    ensures forall x :: x in r.0 ==> x in rows && !Matches(x, userId, fraseKey)
    ensures forall x :: x in rows && !Matches(x, userId, fraseKey) ==> x in r.0
    ensures r.1 == 0 <==> forall x :: x in rows ==> !Matches(x, userId, fraseKey)
    ensures r.1 == 0 ==> r.0 == rows
  {
    if rows == [] then ([], 0)
    else
      var rest := DeleteWhere(rows[1..], userId, fraseKey);
      assert rows == [rows[0]] + rows[1..];
      if Matches(rows[0], userId, fraseKey) then (rest.0, rest.1 + 1)
      else ([rows[0]] + rest.0, rest.1)
  }

  /** `SELECT id, userName, name FROM users`. */
  function Views(rows: seq<UserRow>): (r: seq<UserView>)
    ensures |r| == |rows|
    ensures forall i :: 0 <= i < |rows| ==>
              r[i].id == rows[i].id && r[i].userName == rows[i].userName && r[i].name == rows[i].name
  {
    seq(|rows|, i requires 0 <= i < |rows| => UserView(rows[i].id, rows[i].userName, rows[i].name))
  }

  // ---------------------------------------------------------------------
  // Properties of the queries
  // ---------------------------------------------------------------------

  /** Appending a row with the next id and an untaken userName keeps the `users` constraints. */
  lemma AppendUser(rows: seq<UserRow>, row: UserRow, counter: int)
    requires UserKeys(rows, counter) && UniqueUserNames(rows) && 0 <= counter
    requires row.id == counter + 1 && !HasUserName(rows, row.userName)
    ensures UserKeys(rows + [row], counter + 1) && UniqueUserNames(rows + [row])
  {
    var after := rows + [row];
    forall i, j | 0 <= i < j < |after| ensures after[i].id < after[j].id && after[i].userName != after[j].userName {
      if j == |rows| {
        assert after[i] == rows[i] && rows[i] in rows;
      }
    }
    forall i | 0 <= i < |after| ensures 0 < after[i].id <= counter + 1 {
      if i < |rows| {
        assert after[i] == rows[i];
      } else {
        assert after[i] == row;
      }
    }
  }

  /** Appending a row with the next id keeps the `frases` primary-key constraint. */
  lemma AppendFrase(rows: seq<FraseRow>, row: FraseRow, counter: int)
    requires FraseKeys(rows, counter) && 0 <= counter && row.id == counter + 1
    ensures FraseKeys(rows + [row], counter + 1)
  {
    var after := rows + [row];
    forall i, j | 0 <= i < j < |after| ensures after[i].id < after[j].id {
      if j == |rows| {
        assert after[i] == rows[i];
      }
    }
    forall i | 0 <= i < |after| ensures 0 < after[i].id <= counter + 1 {
      if i < |rows| {
        assert after[i] == rows[i];
      } else {
        assert after[i] == row;
      }
    }
  }

  /** A row whose id is below every id of an ascending table can be put in front of it. */
  lemma ConsKeys(head: FraseRow, tail: seq<FraseRow>, counter: int)
    requires FraseKeys(tail, counter) && 0 < head.id <= counter
    requires forall x :: x in tail ==> head.id < x.id
    ensures FraseKeys([head] + tail, counter)
  {
  }

  /** The delete keeps the primary-key constraint: the rows kept still ascend and stay below the counter. */
  lemma {:induction false} DeleteKeepsKeys(rows: seq<FraseRow>, userId: int, fraseKey: string, counter: int)
    requires FraseKeys(rows, counter)
    ensures FraseKeys(DeleteWhere(rows, userId, fraseKey).0, counter)
  {
    if rows != [] {
      var tail := rows[1..];
      var rest := DeleteWhere(tail, userId, fraseKey).0;
      assert FraseKeys(tail, counter);
      DeleteKeepsKeys(tail, userId, fraseKey, counter);
      if !Matches(rows[0], userId, fraseKey) {
        forall x | x in rest ensures rows[0].id < x.id {
          var k :| 0 <= k < |tail| && tail[k] == x;
          assert rows[k + 1] == x;
        }
        assert 0 < rows[0].id <= counter;
        ConsKeys(rows[0], rest, counter);
      }
    }
  }

  /** An appended row is listed last for its user, and changes nobody else's listing. */
  lemma {:induction false} SelectAppend(rows: seq<FraseRow>, row: FraseRow, userId: int)
    ensures Select(rows + [row], userId) ==
              if row.userId == userId then Select(rows, userId) + [Phrase(row.fraseKey, row.fraseValue)]
              else Select(rows, userId)
  {
    if rows != [] {
      assert (rows + [row])[1..] == rows[1..] + [row];
      SelectAppend(rows[1..], row, userId);
    }
  }

  /** Deleting `(userId, fraseKey)` leaves every other user's listing exactly as it was. */
  lemma {:induction false} DeleteKeepsOthers(rows: seq<FraseRow>, userId: int, fraseKey: string, other: int)
    requires other != userId
    ensures Select(DeleteWhere(rows, userId, fraseKey).0, other) == Select(rows, other)
  {
    if rows != [] {
      DeleteKeepsOthers(rows[1..], userId, fraseKey, other);
    }
  }

  /** After the delete, the user's listing has no phrase under that key. */
  lemma DeleteRemovesKey(rows: seq<FraseRow>, userId: int, fraseKey: string)
    ensures forall p :: p in Select(DeleteWhere(rows, userId, fraseKey).0, userId) ==> p.fraseKey != fraseKey
  {
  }

  /** A second identical delete changes no row. */
  lemma DeleteTwice(rows: seq<FraseRow>, userId: int, fraseKey: string)
    ensures DeleteWhere(DeleteWhere(rows, userId, fraseKey).0, userId, fraseKey).1 == 0
  {
  }

  // ---------------------------------------------------------------------
  // The server: two tables and their counters behind the route handlers
  // ---------------------------------------------------------------------

  class Database {
    var users: seq<UserRow>
    var frases: seq<FraseRow>
    /** `sqlite_sequence` for `users` and for `frases`. */
    var usersCounter: nat
    var frasesCounter: nat
    /** Every id each table has issued so far, deleted rows included. */
    ghost var issuedUserIds: set<int>
    ghost var issuedFraseIds: set<int>

    ghost predicate Valid()
      reads this
    {
      && UserKeys(users, usersCounter) && UniqueUserNames(users)
      && FraseKeys(frases, frasesCounter)
      && (forall i :: i in issuedUserIds ==> 0 < i <= usersCounter)
      && (forall x :: x in users ==> x.id in issuedUserIds)
      && (forall i :: i in issuedFraseIds ==> 0 < i <= frasesCounter)
      && (forall x :: x in frases ==> x.id in issuedFraseIds)
    }

    /** Two empty tables (`CREATE TABLE IF NOT EXISTS` on a new file). */
    constructor ()
      ensures Valid()
      ensures users == [] && frases == [] && issuedUserIds == {} && issuedFraseIds == {}
    {
      users, frases := [], [];
      usersCounter, frasesCounter := 0, 0;
      issuedUserIds, issuedFraseIds := {}, {};
    }

    /**
     * POST /users (index.js:12-27). The handler as written queries through an undeclared
     * `pool`; this method performs the INSERT it evidently intends on the `users` table.
     */
    method PostUsers(userName: string, name: string, senha: string) returns (reply: Reply)
      requires Valid()
      modifies this
      ensures Valid()
      ensures frases == old(frases) && frasesCounter == old(frasesCounter) && issuedFraseIds == old(issuedFraseIds)
      ensures reply.status == Conflict <==> HasUserName(old(users), userName)
      ensures reply.status == Conflict ==>
                && reply.body == Message
                && users == old(users) && usersCounter == old(usersCounter)
                && issuedUserIds == old(issuedUserIds)
      ensures reply.status != Conflict ==>
                && reply.status == Created
                && reply.body.NewId?
                && (forall i :: i in old(issuedUserIds) ==> i < reply.body.id)
                && users == old(users) + [UserRow(reply.body.id, userName, name, senha)]
                && issuedUserIds == old(issuedUserIds) + {reply.body.id}
    {
      if HasUserName(users, userName) {
        // UNIQUE constraint failed: the insert is rolled back and the catch answers 409
        return Reply(Conflict, Message);
      }
      var id := usersCounter + 1;
      AppendUser(users, UserRow(id, userName, name, senha), usersCounter);
      users := users + [UserRow(id, userName, name, senha)];
      usersCounter := id;
      issuedUserIds := issuedUserIds + {id};
      reply := Reply(Created, NewId(id));
    }

    /**
     * POST /login (index.js:30-55), with the SELECT the handler intends (see PostUsers).
     * The secret is compared in plaintext; the reply never carries it.
     */
    method PostLogin(userName: string, senha: string) returns (reply: Reply)
      requires Valid()
      ensures reply.status == BadRequest <==> !HasUserName(users, userName)
      ensures reply.status == Unauthorized <==>
                exists x :: x in users && x.userName == userName && x.senha != senha
      ensures reply.status == OK <==>
                exists x :: x in users && x.userName == userName && x.senha == senha
      ensures reply.status == OK ==>
                exists x :: x in users && x.userName == userName && reply.body == LoginData(x.id, userName)
      ensures reply.status != OK ==> reply.body == Message
    {
      var found := FindUser(users, userName);
      if found.None? {
        return Reply(BadRequest, Message);
      }
      var user := found.value;
      assert forall x :: x in users && x.userName == userName ==> x == user by {
        forall x | x in users && x.userName == userName ensures x == user {
          var i :| 0 <= i < |users| && users[i] == x;
          var j :| 0 <= j < |users| && users[j] == user;
          assert i == j;
        }
      }
      if user.senha != senha {
        return Reply(Unauthorized, Message);
      }
      reply := Reply(OK, LoginData(user.id, user.userName));
    }

    /** POST /users/:id/frases (index.js:58-74): always appends, whatever the user or key. */
    method PostFrases(userId: int, fraseKey: string, fraseValue: string) returns (reply: Reply)
      requires Valid()
      modifies this
      ensures Valid()
      ensures users == old(users) && usersCounter == old(usersCounter) && issuedUserIds == old(issuedUserIds)
      ensures reply.status == Created && reply.body.NewId?
      ensures forall i :: i in old(issuedFraseIds) ==> i < reply.body.id
      ensures frases == old(frases) + [FraseRow(reply.body.id, userId, fraseKey, fraseValue)]
      ensures issuedFraseIds == old(issuedFraseIds) + {reply.body.id}
    {
      var id := frasesCounter + 1;
      AppendFrase(frases, FraseRow(id, userId, fraseKey, fraseValue), frasesCounter);
      frases := frases + [FraseRow(id, userId, fraseKey, fraseValue)];
      frasesCounter := id;
      issuedFraseIds := issuedFraseIds + {id};
      reply := Reply(Created, NewId(id));
    }

    /** GET /users/:id/frases (index.js:77-90): the tables are only read. */
    method GetFrases(userId: int) returns (reply: Reply)
      requires Valid()
      ensures reply.status == OK && reply.body.PhraseRows?
      ensures reply.body.phrases == Select(frases, userId)
      ensures (forall x :: x in frases ==> x.userId != userId) ==> reply.body.phrases == []
    {
      var rows := Select(frases, userId);
      if rows != [] {
        assert rows[0] in rows;
      }
      reply := Reply(OK, PhraseRows(rows));
    }

    /** DELETE /users/:id/frases/:fraseKey (index.js:93-106). */
    method DeleteFrase(userId: int, fraseKey: string) returns (reply: Reply)
      requires Valid()
      modifies this
      ensures Valid()
      ensures users == old(users) && usersCounter == old(usersCounter) && issuedUserIds == old(issuedUserIds)
      ensures frasesCounter == old(frasesCounter) && issuedFraseIds == old(issuedFraseIds)
      ensures frases == DeleteWhere(old(frases), userId, fraseKey).0
      ensures reply.status == NotFound <==> forall x :: x in old(frases) ==> !Matches(x, userId, fraseKey)
      ensures reply.status == NotFound ==> frases == old(frases)
      ensures reply.status != NotFound ==> reply.status == OK
      ensures reply.body == Message
    {
      DeleteKeepsKeys(frases, userId, fraseKey, frasesCounter);
      var result := DeleteWhere(frases, userId, fraseKey);
      frases := result.0;
      var changes := result.1;
      if changes == 0 {
        return Reply(NotFound, Message);
      }
      reply := Reply(OK, Message);
    }

    /** GET /users (index.js:109-116): the tables are only read. */
    method GetUsers() returns (reply: Reply)
      requires Valid()
      ensures reply.status == OK && reply.body.UserRows?
      ensures reply.body.views == Views(users)
    {
      reply := Reply(OK, UserRows(Views(users)));
    }

    /** DELETE /users (index.js:119-126): no cascade, and the counter keeps its value. */
    method DeleteUsers() returns (reply: Reply)
      requires Valid()
      modifies this
      ensures Valid()
      ensures users == [] && usersCounter == old(usersCounter) && issuedUserIds == old(issuedUserIds)
      ensures frases == old(frases) && frasesCounter == old(frasesCounter) && issuedFraseIds == old(issuedFraseIds)
      ensures reply == Reply(OK, Message)
    {
      users := [];
      reply := Reply(OK, Message);
    }
  }

  /** A client run against fresh tables: register, register again, log in, clear, register again. */
  method UsersScenario() {
    var db := new Database();
    var created := db.PostUsers("ana", "Ana", "segredo");
    assert created.status == Created;
    var id := created.body.id;
    assert db.users == [UserRow(id, "ana", "Ana", "segredo")];

    var again := db.PostUsers("ana", "Ana", "outro");
    assert HasUserName(db.users, "ana") by { assert db.users[0] in db.users; }
    assert again.status == Conflict;

    var denied := db.PostLogin("ana", "errado");
    assert denied.status == Unauthorized by { assert db.users[0] in db.users; }
    var login := db.PostLogin("ana", "segredo");
    assert login.status == OK by { assert db.users[0] in db.users; }

    var cleared := db.DeleteUsers();
    var recreated := db.PostUsers("ana", "Ana", "segredo");
    assert recreated.status == Created && id < recreated.body.id;
  }

  /** A client run against fresh tables: add the same phrase twice, list, remove twice. */
  method PhrasesScenario(id: int) {
    var db := new Database();
    var first := db.PostFrases(id, "greeting", "oi");
    var second := db.PostFrases(id, "greeting", "oi");
    assert first.body.id < second.body.id;
    var rows := db.frases;
    assert rows == [rows[0]] + [rows[1]];

    var listed := db.GetFrases(id);
    SelectAppend([rows[0]], rows[1], id);
    assert listed.body.phrases == [Phrase("greeting", "oi"), Phrase("greeting", "oi")];

    assert rows[0] in rows && Matches(rows[0], id, "greeting");
    var removed := db.DeleteFrase(id, "greeting");
    assert removed.status == OK;
    var missing := db.DeleteFrase(id, "greeting");
    assert missing.status == NotFound;
  }
}
