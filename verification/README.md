# GraphQL todo demo: resolver layer

A Dafny model of the resolver layer of a small GraphQL server that serves two
in-memory collections, todos and users. A todo refers to its user by id. The
resolvers derive two fields of `Todo` from that reference:

- `user`: the first user whose id equals the todo's `userId`, or absent;
- `fullName`: the same lookup, answering `firstName + " " + lastName`, or the
  empty string when no user matches.

The two root queries `getTodos` and `getAllUsers` hand back the fixture
collections as they are.

Modules:

- `Wrappers` (`wrappers.dfy`): `Option`, standing for a JavaScript value that is
  either an object or `undefined`.
- `Schema` (`schema.dfy`): the `User` and `Todo` records with the fields and
  nullability of the GraphQL type definitions. `age` is `Option<int>`.
- `Resolver` (`resolver.dfy`): the lookup `FindUser`, which models
  `Array.prototype.find` with an id predicate, and the resolvers `TodoUser`,
  `FullName`, `GetTodos` and `GetAllUsers`. The lookup is also written as the
  loop that `find` performs (`FindUserScan`), and that loop is proved to agree
  with `FindUser`.
- `Execution` (`execution.dfy`): the query the client sends,
  `getTodos { id todo completed fullName }`. It runs the root query, then runs
  the `fullName` resolver on every todo.

The fixture modules are not part of this model. Every resolver therefore takes
the `users` and/or `todos` collection as a parameter, and every property holds
for arbitrary fixture contents. All resolvers are pure functions over immutable
values. So no resolver can change either collection, and the model states this
by construction rather than as a lemma.

## Model

| member | source | states |
|---|---|---|
| Resolver.FindUser | backend/src/schema/resolver.js:7 | a present result is an element of `users` whose id equals the searched id; the result is absent exactly when no user has that id |
| Resolver.FindUserReturnsFirstMatch | backend/src/schema/resolver.js:7 | if index `i` is the lowest index of a matching user, the lookup returns `users[i]`; earlier users never match and later duplicates are never returned |
| Resolver.FindUserIsFirstMatch | backend/src/schema/resolver.js:7 | every present result is the user stored at the first matching index |
| Resolver.FindUserScan | backend/src/schema/resolver.js:7 | the front-to-back scan that `find` performs, stopping at the first accepted element, returns the same as the lookup; a present result sits at the first matching index; an absent result means no user matches |
| Resolver.TodoUser | backend/src/schema/resolver.js:6-9 | the `user` field is a user from the fixture whose id equals the todo's `userId`; it is absent, not an error, exactly when no user has that id |
| Resolver.TodoUserFirstMatch | backend/src/schema/resolver.js:6-8 | when several users share the todo's `userId`, the `user` field is the one with the lowest index |
| Resolver.TodoUserWithDistinctIds | backend/src/schema/resolver.js:6-8 | when user ids are distinct, any user whose id equals the todo's `userId` is the one returned, wherever it sits |
| Resolver.FullName | backend/src/schema/resolver.js:10-16 | `fullName` is empty exactly when `user` is absent; otherwise it is the first name, one space and the last name, with length `|firstName| + 1 + |lastName|` |
| Resolver.FullNameAgreesWithUser | backend/src/schema/resolver.js:6-16 | both resolvers perform the same lookup: `fullName` is built from exactly the record `user` returns, and is empty when `user` is absent |
| Resolver.FullNameOfFirstMatch | backend/src/schema/resolver.js:10-16 | `fullName` uses the names of the first user whose id matches the todo's `userId` |
| Resolver.GetTodos | backend/src/schema/resolver.js:19 | `getTodos` returns the todo fixture with the same length, the same elements in the same order and the same multiset: nothing filtered, duplicated or reordered |
| Resolver.GetAllUsers | backend/src/schema/resolver.js:20 | `getAllUsers` returns the user fixture with the same length, the same elements in the same order and the same multiset |
| Execution.ResolveTodo | backend/src/schema/resolver.js:10-16 | a resolved todo keeps the todo's `id`, `todo` and `completed`; its `fullName` is empty exactly when no user has the todo's `userId`, and otherwise is the first name, one space and the last name of the first user whose id matches |
| Execution.ResolveAll | frontend/src/components/Todo/index.jsx:5-14 | resolving the selected fields yields one entry per todo, in order, carrying that todo's `id`, `todo`, `completed` and its `fullName` |
| Execution.AnswerGetTodos | frontend/src/components/Todo/index.jsx:5-14 | the answer to the client's query has one entry per fixture todo, in fixture order, each being that todo's resolved `id`, `todo`, `completed` and `fullName` |
| Execution.MatchedUserScenario | backend/src/schema/resolver.js:10-19 | for any user fixture whose first user with id 1 is named Ann Lee, todo 10 referring to user 1 gives an answer entry with id 10 and full name "Ann Lee" |
| Execution.MissingUserScenario | backend/src/schema/resolver.js:10-19 | todo 11 referring to a user id 999 that no user has gives an answer entry with an empty full name |

## Left out

- Id equality: the source compares ids with JavaScript loose equality (`==`). That comparison would equate the number `1` with the string `"1"`. The model uses a single id type (`int`) compared with plain equality. The same `int` is kept in `Execution`'s answer, whereas GraphQL serialises an `ID` field as a string (todo 10 comes back as `"10"`); the answer is the resolved value, not the wire format.
- Schema: `age` is a GraphQL `Int`, a 32-bit value. The model uses an unbounded `int`, because no resolver reads `age`.
- The fixture modules `backend/src/dummyData/todos` and `backend/src/dummyData/user` are not part of this model. Their contents are arbitrary parameters.
- The `Todo.user` and `Todo.fullName` resolvers are `async` and return promises. They are modelled as pure functions, because they never await anything. The root queries `getTodos` and `getAllUsers` are plain synchronous functions.
- The `user` field in a query answer: the client never selects it, so `Execution` resolves only `fullName`. `TodoUser` covers the `user` resolver itself.
- Server setup in `backend/src/index.js` is left out. It covers Express and Apollo wiring, CORS, body parsing and binding port 8000. All of it is I/O over libraries outside this model.
- Schema validation of incoming queries is left out. It is done by the GraphQL library.
- The React client is left out: the loading/error/data view and the todo card. It is presentation only.
