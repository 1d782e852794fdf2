/**
 * The Prisma variant of the registry (server.js).
 *
 * The store maps a user id to a record whose `frases` field is one JSON
 * object of phrase keys to phrase values. Each route is first stated as a
 * pure transition on the store (the functions below); the class `Server`
 * then performs the route as the handler does: it reads one record, branches
 * and writes the whole record back.
 */
module PrismaServer {
  import opened Wrappers
  import opened Http

  type UserId = string
  type Phrases = map<string, string>

  /** One `user` record; `senha` holds the bcrypt digest, `frases` may be null. */
  datatype User = User(userName: string, name: string, senha: string, frases: Option<Phrases>)

  type Store = map<UserId, User>

  /** bcrypt as an abstract pair: `hash(secret)` and `verify(secret, digest)`. */
  datatype Hasher = Hasher(hash: string -> string, verify: (string, string) -> bool)

  /** The one property of bcrypt the model relies on: a secret verifies against its own digest. */
  ghost predicate Sound(h: Hasher) {
    forall secret :: h.verify(secret, h.hash(secret))
  }

  /** Prisma's id generator, whose format is not modelled: it never returns an id in use. */
  type IdSource = set<UserId> -> UserId

  ghost predicate Fresh(newId: IdSource) {
    forall used :: newId(used) !in used
  }

  /** Every user name taken in the store. */
  function Handles(s: Store): set<string> {
    set id | id in s :: s[id].userName
  }

  /** `userName` is unique, so `findUnique({ where: { userName } })` finds at most one record. */
  ghost predicate UniqueHandles(s: Store) {
    forall a, b :: a in s && b in s && s[a].userName == s[b].userName ==> a == b
  }

  // ---------------------------------------------------------------------
  // The phrase map, changed by object spread
  // ---------------------------------------------------------------------

  /** `user.frases || {}`: a missing or null phrase object reads as empty. */
  function Current(u: User): (m: Phrases)
    ensures u.frases.Some? ==> m == u.frases.value
    ensures u.frases.None? ==> m == map[]
  {
    u.frases.GetOr(map[])
  }

  /** `frases[fraseKey]` is truthy: the key is present and its string value is not empty. */
  predicate Truthy(m: Phrases, key: string): (b: bool)
    ensures key !in m ==> !b
    ensures key in m ==> (b <==> m[key] != "")
  {
    key in m && m[key] != ""
  }

  /** `{ ...frases, [key]: value }`. */
  function WithPhrase(m: Phrases, key: string, value: string): (r: Phrases)
    ensures key in r && r[key] == value
    ensures r.Keys == m.Keys + {key}
    ensures forall k :: k in m && k != key ==> r[k] == m[k]
  {
    m[key := value]
  }

  /** `{ ...frases, [key]: undefined }`, stored as JSON, where an undefined member is dropped. */
  function WithoutPhrase(m: Phrases, key: string): (r: Phrases)
    ensures key !in r
    ensures r.Keys == m.Keys - {key}
    ensures forall k :: k in r ==> r[k] == m[k]
  {
    m - {key}
  }

  // ---------------------------------------------------------------------
  // Replies and the routes as transitions
  // ---------------------------------------------------------------------

  /** The payload of a reply; the human-readable `message` text is not modelled. */
  datatype Body =
    | Message
    | UserData(id: UserId, user: User)
    | LoginData(id: UserId, userName: string, senha: string)
    | PhraseData(frases: Option<Phrases>)
    | UsersData(users: Store)

  datatype Reply = Reply(status: Status, body: Body)

  /** A reply together with the store after the route. */
  datatype Step = Step(reply: Reply, store: Store)

  /** POST /users: reject a taken user name with 504, otherwise store the new record under `id`. */
  function CreateUser(s: Store, id: UserId, h: Hasher, userName: string, name: string, senha: string,
                      frases: Option<Phrases>): (r: Step)
    requires id !in s
    ensures r.reply.status == GatewayTimeout <==> userName in Handles(s)
    ensures r.reply.status == GatewayTimeout ==> r.store == s && r.reply.body == Message
    ensures r.reply.status != GatewayTimeout ==>
              && r.reply.status == Created
              && r.store.Keys == s.Keys + {id}
              && (forall other :: other in s ==> r.store[other] == s[other])
              && r.store[id] == User(userName, name, h.hash(senha), frases)
              && r.reply.body == UserData(id, r.store[id])
    ensures UniqueHandles(s) ==> UniqueHandles(r.store)
  {
    if userName in Handles(s) then
      Step(Reply(GatewayTimeout, Message), s)
    else
      var user := User(userName, name, h.hash(senha), frases);
      Step(Reply(Created, UserData(id, user)), s[id := user])
  }

  /** The id of the one record with this user name. */
  ghost function OwnerOf(s: Store, userName: string): (id: UserId)
    requires userName in Handles(s)
    ensures id in s && s[id].userName == userName
  {
    var id :| id in s && s[id].userName == userName; id
  }

  /** POST /login: 400 for an unknown user name, 401 when the digest does not verify, else 200. */
  ghost function Login(s: Store, h: Hasher, userName: string, senha: string): (r: Reply)
    requires UniqueHandles(s)
    ensures r.status == BadRequest <==> (forall id :: id in s ==> s[id].userName != userName)
    ensures r.status == Unauthorized <==>
              exists id :: id in s && s[id].userName == userName && !h.verify(senha, s[id].senha)
    ensures r.status == OK <==>
              exists id :: id in s && s[id].userName == userName && h.verify(senha, s[id].senha)
    ensures r.status == OK ==>
              exists id :: id in s && s[id].userName == userName && r.body == LoginData(id, userName, s[id].name)
    ensures r.status != OK ==> r.body == Message
  {
    if userName !in Handles(s) then
      Reply(BadRequest, Message)
    else
      var id := OwnerOf(s, userName);
      if !h.verify(senha, s[id].senha) then Reply(Unauthorized, Message)
      // the display name goes out under the key "senha"; the digest never does
      else Reply(OK, LoginData(id, s[id].userName, s[id].name))
  }

  /** PUT /users/:id/frases: 404 for an unknown id, 409 for a truthy key, else set the key. */
  function AddPhrase(s: Store, id: UserId, key: string, value: string): (r: Step)
    ensures r.reply.status == NotFound <==> id !in s
    ensures r.reply.status == Conflict <==> id in s && Truthy(Current(s[id]), key)
    ensures r.reply.status in {NotFound, Conflict} ==> r.store == s && r.reply.body == Message
    ensures r.reply.status !in {NotFound, Conflict} ==>
              && r.reply.status == OK
              && r.store.Keys == s.Keys
              && (forall other :: other in s && other != id ==> r.store[other] == s[other])
              && r.store[id] == s[id].(frases := Some(WithPhrase(Current(s[id]), key, value)))
              && r.reply.body == UserData(id, r.store[id])
    ensures UniqueHandles(s) ==> UniqueHandles(r.store)
  {
    if id !in s then
      Step(Reply(NotFound, Message), s)
    else
      var frases := Current(s[id]);
      if Truthy(frases, key) then
        Step(Reply(Conflict, Message), s)
      else
        var updated := s[id].(frases := Some(WithPhrase(frases, key, value)));
        Step(Reply(OK, UserData(id, updated)), s[id := updated])
  }

  /**
   * DELETE /users/:id/frases/:fraseKey: 404 for an unknown id or a falsy key, 500 when the
   * record's phrase object is null (the lookup `null[fraseKey]` throws), else drop the key.
   */
  function RemovePhrase(s: Store, id: UserId, key: string): (r: Step)
    ensures r.reply.status == NotFound <==>
              id !in s || (s[id].frases.Some? && !Truthy(s[id].frases.value, key))
    ensures r.reply.status == InternalError <==> id in s && s[id].frases.None?
    ensures r.reply.status in {NotFound, InternalError} ==> r.store == s && r.reply.body == Message
    ensures r.reply.status !in {NotFound, InternalError} ==>
              && r.reply.status == OK
              && id in s && s[id].frases.Some? && Truthy(s[id].frases.value, key)
              && r.store.Keys == s.Keys
              && (forall other :: other in s && other != id ==> r.store[other] == s[other])
              && r.store[id] == s[id].(frases := Some(WithoutPhrase(s[id].frases.value, key)))
              && r.reply.body == UserData(id, r.store[id])
    ensures UniqueHandles(s) ==> UniqueHandles(r.store)
  {
    if id !in s then
      Step(Reply(NotFound, Message), s)
    else if s[id].frases.None? then
      Step(Reply(InternalError, Message), s)
    else if !Truthy(s[id].frases.value, key) then
      Step(Reply(NotFound, Message), s)
    else
      var updated := s[id].(frases := Some(WithoutPhrase(s[id].frases.value, key)));
      Step(Reply(OK, UserData(id, updated)), s[id := updated])
  }

  /** GET /users/:id/frases: 404 for an unknown id, else exactly the stored phrase object. */
  function ListPhrases(s: Store, id: UserId): (r: Reply)
    ensures r.status == NotFound <==> id !in s
    ensures r.status == NotFound ==> r.body == Message
    ensures r.status != NotFound ==> r.status == OK && r.body == PhraseData(s[id].frases)
  {
    if id !in s then Reply(NotFound, Message) else Reply(OK, PhraseData(s[id].frases))
  }

  // ---------------------------------------------------------------------
  // Properties of sequences of routes
  // ---------------------------------------------------------------------

  /** A phrase that was added is listed with its value. */
  lemma AddThenList(s: Store, id: UserId, key: string, value: string)
    requires AddPhrase(s, id, key, value).reply.status == OK
    ensures var after := ListPhrases(AddPhrase(s, id, key, value).store, id);
            && after.status == OK
            && after.body.frases.Some?
            && key in after.body.frases.value
            && after.body.frases.value[key] == value
  {
  }

  /** With a non-empty value, adding then removing a key succeeds twice and the key is no longer listed. */
  lemma AddRemoveThenList(s: Store, id: UserId, key: string, value: string)
    requires value != ""
    requires AddPhrase(s, id, key, value).reply.status == OK
    ensures var added := AddPhrase(s, id, key, value).store;
            var removed := RemovePhrase(added, id, key);
            && removed.reply.status == OK
            && ListPhrases(removed.store, id).body.frases.Some?
            && key !in ListPhrases(removed.store, id).body.frases.value
  {
  }

  /** Removing the same key twice answers 200, then 404. */
  lemma RemoveTwice(s: Store, id: UserId, key: string)
    requires RemovePhrase(s, id, key).reply.status == OK
    ensures RemovePhrase(RemovePhrase(s, id, key).store, id, key).reply.status == NotFound
  {
  }

  /** Adding the same key twice with a non-empty value answers 200, then 409. */
  lemma AddTwice(s: Store, id: UserId, key: string, value: string, value': string)
    requires value != ""
    requires AddPhrase(s, id, key, value).reply.status == OK
    ensures AddPhrase(AddPhrase(s, id, key, value).store, id, key, value').reply.status == Conflict
  {
  }

  /** A key stored with the empty string counts as absent: adding overwrites it, removing answers 404. */
  lemma EmptyValueIsAbsent(s: Store, id: UserId, key: string, value: string)
    requires id in s && s[id].frases.Some?
    requires key in s[id].frases.value && s[id].frases.value[key] == ""
    ensures AddPhrase(s, id, key, value).reply.status == OK
    ensures AddPhrase(s, id, key, value).store[id].frases == Some(s[id].frases.value[key := value])
    ensures RemovePhrase(s, id, key).reply.status == NotFound
  {
  }

  /** A user just created with a secret logs in with that secret and gets their display name back. */
  lemma CreateThenLogin(s: Store, id: UserId, h: Hasher, userName: string, name: string, senha: string,
                        frases: Option<Phrases>)
    requires Sound(h) && UniqueHandles(s) && id !in s
    requires CreateUser(s, id, h, userName, name, senha, frases).reply.status == Created
    ensures var after := CreateUser(s, id, h, userName, name, senha, frases).store;
            Login(after, h, userName, senha) == Reply(OK, LoginData(id, userName, name))
  {
  }

  // ---------------------------------------------------------------------
  // The server: one mutable store behind the route handlers
  // ---------------------------------------------------------------------

  class Server {
    var users: Store
    const hasher: Hasher
    const newId: IdSource

    ghost predicate Valid()
      reads this
    {
      Sound(hasher) && Fresh(newId) && UniqueHandles(users)
    }

    constructor (hasher: Hasher, newId: IdSource)
      requires Sound(hasher) && Fresh(newId)
      ensures Valid()
      ensures users == map[] && this.hasher == hasher && this.newId == newId
    {
      this.hasher := hasher;
      this.newId := newId;
      users := map[];
    }

    /** POST /users (server.js:23-63). */
    method PostUsers(userName: string, name: string, senha: string, frases: Option<Phrases>)
      returns (reply: Reply)
      requires Valid()
      modifies this
      ensures Valid()
      ensures Step(reply, users) == CreateUser(old(users), newId(old(users).Keys), hasher, userName, name, senha, frases)
    {
      if userName in Handles(users) {
        return Reply(GatewayTimeout, Message);
      }
      var digest := hasher.hash(senha);
      var user := User(userName, name, digest, frases);
      var created := newId(users.Keys);
      users := users[created := user];
      reply := Reply(Created, UserData(created, user));
    }

    /** POST /login (server.js:66-102); the store is only read. */
    method PostLogin(userName: string, senha: string) returns (reply: Reply)
      requires Valid()
      ensures reply == Login(users, hasher, userName, senha)
    {
      if userName !in Handles(users) {
        return Reply(BadRequest, Message);
      }
      var id :| id in users && users[id].userName == userName;
      assert id == OwnerOf(users, userName);
      var user := users[id];
      var isPasswordValid := hasher.verify(senha, user.senha);
      if !isPasswordValid {
        return Reply(Unauthorized, Message);
      }
      reply := Reply(OK, LoginData(id, user.userName, user.name));
    }

    /** PUT /users/:id/frases (server.js:105-142). */
    method PutFrases(id: UserId, fraseKey: string, fraseValue: string) returns (reply: Reply)
      requires Valid()
      modifies this
      ensures Valid()
      ensures Step(reply, users) == AddPhrase(old(users), id, fraseKey, fraseValue)
    {
      if id !in users {
        return Reply(NotFound, Message);
      }
      var user := users[id];
      var frases := Current(user);
      if Truthy(frases, fraseKey) {
        return Reply(Conflict, Message);
      }
      var updated := user.(frases := Some(WithPhrase(frases, fraseKey, fraseValue)));
      users := users[id := updated];
      reply := Reply(OK, UserData(id, updated));
    }

    /** DELETE /users/:id/frases/:fraseKey (server.js:145-189). */
    method DeleteFrase(id: UserId, fraseKey: string) returns (reply: Reply)
      requires Valid()
      modifies this
      ensures Valid()
      ensures Step(reply, users) == RemovePhrase(old(users), id, fraseKey)
    {
      if id !in users {
        return Reply(NotFound, Message);
      }
      var user := users[id];
      if user.frases.None? {
        return Reply(InternalError, Message);
      }
      if !Truthy(user.frases.value, fraseKey) {
        return Reply(NotFound, Message);
      }
      var updated := user.(frases := Some(WithoutPhrase(user.frases.value, fraseKey)));
      users := users[id := updated];
      reply := Reply(OK, UserData(id, updated));
    }

    /** GET /users/:id/frases (server.js:191-217); the store is only read. */
    method GetFrases(id: UserId) returns (reply: Reply)
      requires Valid()
      ensures reply == ListPhrases(users, id)
    {
      if id !in users {
        return Reply(NotFound, Message);
      }
      reply := Reply(OK, PhraseData(users[id].frases));
    }

    /** GET /users (server.js:219-233): every record, digests included. */
    method GetUsers() returns (reply: Reply)
      requires Valid()
      ensures reply.status == OK
      ensures reply.body.UsersData? && reply.body.users.Keys == users.Keys
      ensures forall id :: id in users ==> reply.body.users[id] == users[id]
    {
      reply := Reply(OK, UsersData(users));
    }
  }

  /**
   * A client run against a fresh server: register, register again, log in, add a phrase
   * twice, list it, remove it twice. Only the route contracts are used.
   */
  method Scenario(server: Server)
    requires server.Valid() && server.users == map[]
    modifies server
  {
    var created := server.PostUsers("ana", "Ana", "segredo", None);
    assert "ana" !in Handles(map[]);
    assert created.status == Created && created.body.UserData?;
    var id := created.body.id;
    assert server.users[id].senha == server.hasher.hash("segredo");

    var again := server.PostUsers("ana", "Ana", "outro", None);
    assert again.status == GatewayTimeout;

    var login := server.PostLogin("ana", "segredo");
    assert server.hasher.verify("segredo", server.users[id].senha);
    assert login.status == OK && login.body == LoginData(id, "ana", "Ana");

    var added := server.PutFrases(id, "greeting", "oi");
    assert added.status == OK;
    var conflict := server.PutFrases(id, "greeting", "ola");
    assert conflict.status == Conflict;

    var listed := server.GetFrases(id);
    assert listed == Reply(OK, PhraseData(Some(map["greeting" := "oi"])));

    var removed := server.DeleteFrase(id, "greeting");
    assert removed.status == OK;
    var missing := server.DeleteFrase(id, "greeting");
    assert missing.status == NotFound;
  }
}
