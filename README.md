# Account and phrase registry, two variants

This project models the core of a small HTTP registry. Users register with a
user name, a display name and a password (`senha`). Each user owns a set of
named text phrases (`frases`). There are two variants of the server:

- **server.js**, the Prisma variant. The store maps a user id to one record
  `{userName, name, senha, frases}`. `senha` is a bcrypt digest, and `frases`
  is one JSON object from phrase key to phrase value. Module `PrismaServer`
  (prisma_server.dfy) states each route as a pure transition on
  `map<UserId, User>`: `CreateUser`, `Login`, `AddPhrase`, `RemovePhrase` and
  `ListPhrases`. Class `Server` runs the routes the way the handlers do: it
  reads one record, branches, and writes the whole record back. Each method
  ensures that its reply and new store are the ones the transition gives. The
  phrase-map updates done by object spread are the functions `WithPhrase` and
  `WithoutPhrase`. Key presence is JavaScript truthiness (`Truthy`): a key
  whose value is the empty string counts as absent.
- **index.js**, the SQLite variant, over the schema of database.js. Module
  `SqliteServer` (sqlite_server.dfy) has class `Database`, which holds the
  `users` and `frases` tables as row sequences in rowid order.
  - Each table has an AUTOINCREMENT counter, modelled as its `sqlite_sequence`
    entry, plus a ghost set of every id it has ever issued. The object
    invariant `Valid()` holds the schema's constraints: primary keys ascend
    and never pass the counter, and `userName` is unique.
  - The queries are functions: `FindUser`, `Select`, `DeleteWhere` (which
    also returns the number of changed rows) and `Views`.

common.dfy holds `Option` and the HTTP status codes the two servers use.

Collaborators that the model cannot see are parameters of the `Server`
constructor:

- bcrypt is a `Hasher`: a pair of function values `hash` and `verify`. The
  only assumption is `verify(s, hash(s))`.
- Prisma's id generator is an `IdSource` that never returns an id already in
  use.

## Model

| member | source | states |
|---|---|---|
| PrismaServer.Current | server.js:118 | `user.frases` or else `{}`: the stored phrase object when there is one, the empty map when `frases` is missing or null |
| PrismaServer.Truthy | server.js:119 | `frases[fraseKey]` is truthy exactly when the key is present with a non-empty string value; an absent key or "" is falsy. Inherited object keys such as `constructor` are left out |
| PrismaServer.WithPhrase | server.js:127 | `{ ...frases, [key]: value }` maps `key` to `value`, adds only `key` to the key set, and keeps every other key's value |
| PrismaServer.WithoutPhrase | server.js:171-174 | spreading with `[key]: undefined` drops exactly `key` and keeps every other key with its value |
| PrismaServer.CreateUser | server.js:26-55 | a taken user name gives 504 and leaves the store unchanged; otherwise the answer is 201 and the store gains exactly one record under the fresh id, holding the given userName, name and frases and `senha = hash(senha)`; the reply echoes that record, other records are unchanged, and user names stay unique |
| PrismaServer.Login | server.js:71-93 | an unknown user name gives 400; a digest that does not verify gives 401; both cases are stated as if-and-only-if; otherwise 200 with `{id, userName, senha: name}` of the matching record, so the display name is sent under "senha" and the digest never is |
| PrismaServer.AddPhrase | server.js:111-131 | an unknown id gives 404; a truthy key gives 409; both leave the store unchanged; otherwise 200, and the user's phrases become the old ones (null read as `{}`) with `key := value`; every other user and every other field is unchanged |
| PrismaServer.RemovePhrase | server.js:150-178 | an unknown id or a falsy key gives 404; a null phrase object makes `null[fraseKey]` throw, giving 500; none of these changes the store; otherwise 200, the key leaves that user's phrases, all other keys and users are unchanged |
| PrismaServer.ListPhrases | server.js:196-208 | an unknown id gives 404; otherwise 200 with exactly the stored phrase object (possibly null) |
| PrismaServer.AddThenList | server.js:124-131 | after a successful add of `key ↦ value`, the listing has `key ↦ value` |
| PrismaServer.AddRemoveThenList | server.js:168-178 | after adding a non-empty value and removing its key, the remove answers 200 and the listing no longer has the key |
| PrismaServer.RemoveTwice | server.js:161-178 | removing the same key a second time answers 404 |
| PrismaServer.AddTwice | server.js:119-121 | adding a key already holding a non-empty value answers 409 |
| PrismaServer.EmptyValueIsAbsent | server.js:119 | a key stored with "" counts as absent: adding overwrites it with 200, and removing answers 404 |
| PrismaServer.CreateThenLogin | server.js:40-93 | a user just created logs in with the same secret and gets `{id, userName, name}` back, given only `verify(s, hash(s))` |
| PrismaServer.Server.constructor | server.js:7 | a server starts with an empty store and the given hash pair and id source |
| PrismaServer.Server.PostUsers | server.js:23-63 | performs `CreateUser` with the next id from the id source; user names stay unique |
| PrismaServer.Server.PostLogin | server.js:66-102 | answers `Login` on the current store, which it does not change |
| PrismaServer.Server.PutFrases | server.js:105-142 | performs `AddPhrase` by reading the record, branching and writing it back |
| PrismaServer.Server.DeleteFrase | server.js:145-189 | performs `RemovePhrase` by reading the record, branching and writing it back |
| PrismaServer.Server.GetFrases | server.js:191-217 | answers `ListPhrases` on the current store, which it does not change |
| PrismaServer.Server.GetUsers | server.js:219-233 | answers 200 with every stored record, digests included, and changes nothing |
| SqliteServer.UserKeys | database.js:15 | `id INTEGER PRIMARY KEY AUTOINCREMENT` on `users`: defined as ids ascending in rowid order and bounded by the table's counter; its contract gives every row's id as positive and at most the counter |
| SqliteServer.UniqueUserNames | database.js:16 | `userName TEXT UNIQUE`: two rows with the same userName are the same row |
| SqliteServer.FraseKeys | database.js:24 | `id INTEGER PRIMARY KEY AUTOINCREMENT` on `frases`: defined as ids ascending in rowid order and bounded by the table's counter; its contract gives every row's id as positive and at most the counter |
| SqliteServer.AppendUser | index.js:16-19 | appending a row with the next id and an untaken userName keeps the `users` constraints (database.js:15-16) |
| SqliteServer.AppendFrase | index.js:62-64 | appending a row with the next id keeps the `frases` primary-key constraint (database.js:24) |
| SqliteServer.FindUser | index.js:34-42 | the row found has the requested userName; none is found if and only if no row has it |
| SqliteServer.Select | index.js:80-81 | every listed pair comes from a row of that user, and every row of that user is listed |
| SqliteServer.DeleteWhere | index.js:96-100 | kept rows plus changes equal the table size; kept rows are exactly the non-matching ones; zero changes if and only if no row matches, and then the table is unchanged |
| SqliteServer.Views | index.js:110 | one `{id, userName, name}` per user row, in rowid order, with no `senha` |
| SqliteServer.ConsKeys | database.js:24 | a row with an id below all of an ascending table's ids can be put in front, and the primary-key constraint still holds |
| SqliteServer.DeleteKeepsKeys | database.js:24 | the rows kept by the delete still satisfy the primary-key constraint |
| SqliteServer.SelectAppend | index.js:63-81 | an inserted row is listed last for its own user and changes no other user's listing |
| SqliteServer.DeleteKeepsOthers | index.js:97 | deleting `(userId, fraseKey)` leaves every other user's listing exactly as it was |
| SqliteServer.DeleteRemovesKey | index.js:97 | after the delete, that user's listing has no phrase under that key |
| SqliteServer.DeleteTwice | index.js:96-101 | a second identical delete changes zero rows, so it answers 404 |
| SqliteServer.Database.constructor | database.js:13-30 | both tables start empty, with no id issued |
| SqliteServer.Database.PostUsers | index.js:12-27 | a taken userName gives 409 and leaves `users` unchanged (UNIQUE, database.js:16); otherwise 201 with one new row appended under an id above every id ever issued; `frases` is untouched |
| SqliteServer.Database.PostLogin | index.js:30-55 | no row gives 400; a stored senha different from the given one (plaintext compare) gives 401; otherwise 200 with only `{id, userName}`; all stated as if-and-only-if |
| SqliteServer.Database.PostFrases | index.js:58-74 | always 201; appends one row `(id, userId, fraseKey, fraseValue)` under an id above every id ever issued, even for a duplicate key or an unknown user |
| SqliteServer.Database.GetFrases | index.js:77-90 | 200 with the `Select` of that user; an id with no rows gives an empty list, not an error |
| SqliteServer.Database.DeleteFrase | index.js:93-106 | deletes every row matching `(userId, fraseKey)` and nothing else; 404 if and only if no row matched (table unchanged), else 200 |
| SqliteServer.Database.GetUsers | index.js:109-116 | 200 with the projection `{id, userName, name}` of every user row |
| SqliteServer.Database.DeleteUsers | index.js:119-126 | empties `users` and keeps the id counter; `frases` is unchanged, so every phrase row is left without a user |

## Left out

- HTTP plumbing: Express, CORS, JSON body parsing, `listen` and logging (server.js:1-20, server.js:235-237, index.js:1-9, index.js:128-131). The connection and table-creation side effects of database.js:3-12 are left out too; the schema survives as `Valid()`.
- The human-readable `message` strings of the replies: every payload that only carries a message is `Message`.
- Store failures: the `catch` blocks and `err` callbacks that answer 500 on database errors are not modelled, because they depend on the database. Each route is modelled as if the store call succeeds. DELETE in index.js answers 404 on `err` as well; only its zero-changes branch is modelled. The 500 that server.js gives when a user's `frases` is null is modelled, because it follows from the code and not from the store.
- bcrypt internals and salting: `Hasher` is abstract, and the model assumes only that a secret verifies against its own digest. Nothing is assumed about other secrets, so a wrong password is not shown to give 401.
- Prisma id generation: the id format is not modelled. `IdSource` only promises an id not already in use.
- Concurrency: each handler is one atomic step. The read-check-write sequences in server.js:111-129 and server.js:150-176 can lose updates when requests run concurrently; these races are not modelled. Two concurrent registrations with one user name cannot both succeed. `findUnique({ where: { userName } })` (server.js:26-30) accepts only a unique field, so the schema has a unique index on `userName`. The losing `prisma.user.create` (server.js:43) fails on that index, and its catch answers 500 (server.js:56-61) instead of 504. The model, being sequential, always answers 504.
- The undeclared `pool` in index.js:16 and index.js:34 is not modelled. As written, every POST /users throws a ReferenceError, which the catch turns into 409, and every POST /login answers 500. The model runs the INSERT and SELECT these handlers evidently intend against the `users` table of database.js.
- Request values: every body field except `frases` and every route parameter is a string, and the model does not capture missing fields or non-string values there. `frases` of POST /users is an `Option`: an object, or `None` when it is missing or null. It therefore also leaves out SQLite's NOT NULL failures, JavaScript truthiness of `0`, `false` or `null` phrase values, and inherited object keys such as `constructor`, for which `frases[key]` is truthy. index.js route ids are taken as integers; what SQLite's type affinity does with a non-numeric id is not modelled.
- Setting a member to `undefined` (server.js:173) is modelled as removing the key. How Prisma and JSON encode `undefined` is not modelled.
- The FOREIGN KEY of database.js:28 is not enforced, because no `PRAGMA foreign_keys` is issued. The model matches this: PostFrases accepts any userId.
- SqliteServer.Select: its own contract states membership in both directions, not multiplicities. SelectAppend pins down the exact listing. The listing is in rowid order, an order SQLite does not promise without ORDER BY.
- SqliteServer.Views: the projection is listed in rowid order, an order SQLite does not promise for `SELECT id, userName, name FROM users` without ORDER BY (index.js:110).
- Integer width: ids are unbounded integers. SQLite's AUTOINCREMENT fails with SQLITE_FULL once rowid 2^63-1 has been used; that failure is not modelled.
- PrismaServer.Server.GetUsers: the reply is the store as a map, not the ordered array `findMany` returns.

## Behaviour worth noting

- server.js answers 504 (Gateway Timeout), not 409, for a taken user name.
- server.js's login reply is `{id, userName, senha: name}`: the display name travels under the key `senha`.
- On phrase insert, server.js rejects only a truthy existing key, so an existing key with an empty value is overwritten. index.js never rejects, because database.js declares no uniqueness on `(userId, fraseKey)`.
- index.js stores and compares passwords in plaintext.
- Listing the phrases of an unknown user answers 404 in server.js and 200 with an empty list in index.js.
- DELETE /users in index.js answers only a message, not a count, and deletes no phrase rows.
