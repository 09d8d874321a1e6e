/** The resolver map of the GraphQL server: the two field resolvers of
    `Todo` (`user` and `fullName`) and the two root queries. Each resolver
    is a pure function of its parent object and the fixture collections,
    which are passed in explicitly. */
module Resolver {
  import opened Wrappers
  import opened Schema

  /** `i` is the lowest index holding a user whose id is `id`. */
  ghost predicate IsFirstMatch(users: seq<User>, id: Id, i: int) {
    && 0 <= i < |users|
    && users[i].id == id
    && forall j :: 0 <= j < i ==> users[j].id != id
  }

  /** No user in `users` has id `id`. */
  ghost predicate NoMatch(users: seq<User>, id: Id) {
    forall j :: 0 <= j < |users| ==> users[j].id != id
  }

  /** No two users share an id. */
  ghost predicate DistinctIds(users: seq<User>) {
    forall i, j :: 0 <= i < j < |users| ==> users[i].id != users[j].id
  }

  /** `users.find(user => user.id == id)`: scans from the front and stops at
      the first user whose id matches; absent when none does. */
  function FindUser(users: seq<User>, id: Id): (r: Option<User>)
    ensures r.Some? ==> r.value in users && r.value.id == id
    ensures r.None? <==> NoMatch(users, id)
  {
    if |users| == 0 then None
    else if users[0].id == id then Some(users[0])
    else FindUser(users[1..], id)
  }

  /** Whenever `i` is the first matching index, the lookup returns the user
      stored there: earlier users never match, later ones are never seen. */
  lemma {:induction false} FindUserReturnsFirstMatch(users: seq<User>, id: Id, i: int)
    requires IsFirstMatch(users, id, i)
    ensures FindUser(users, id) == Some(users[i])
    decreases i
  {
    if i > 0 {
      assert users[0].id != id;
      assert IsFirstMatch(users[1..], id, i - 1) by {
        forall j | 0 <= j < i - 1
          ensures users[1..][j].id != id
        {
          assert users[1..][j] == users[j + 1];
        }
      }
      FindUserReturnsFirstMatch(users[1..], id, i - 1);
    }
  }

  /** Any matching index has a first matching index at or before it. */
  lemma {:induction false} FirstMatchExists(users: seq<User>, id: Id, k: int)
    requires 0 <= k < |users| && users[k].id == id
    ensures exists i :: 0 <= i <= k && IsFirstMatch(users, id, i)
    decreases k
  {
    if forall j :: 0 <= j < k ==> users[j].id != id {
      assert IsFirstMatch(users, id, k);
    } else {
      var j :| 0 <= j < k && users[j].id == id;
      FirstMatchExists(users, id, j);
    }
  }

  /** A present result is the user at the first matching index. */
  lemma FindUserIsFirstMatch(users: seq<User>, id: Id)
    ensures FindUser(users, id).Some? ==>
      exists i :: IsFirstMatch(users, id, i) && users[i] == FindUser(users, id).value
  {
    if FindUser(users, id).Some? {
      var k :| 0 <= k < |users| && users[k].id == id;
      FirstMatchExists(users, id, k);
      var i :| 0 <= i <= k && IsFirstMatch(users, id, i);
      FindUserReturnsFirstMatch(users, id, i);
    }
  }

  /** The iteration `Array.prototype.find` performs: visit indices in
      increasing order and return the first element the predicate accepts. */
  method FindUserScan(users: seq<User>, id: Id) returns (r: Option<User>)
    ensures r == FindUser(users, id)
    ensures r.Some? ==> exists i :: IsFirstMatch(users, id, i) && users[i] == r.value
    ensures r.None? ==> NoMatch(users, id)
  {
    var k := 0;
    while k < |users|
      invariant 0 <= k <= |users|
      invariant forall j :: 0 <= j < k ==> users[j].id != id
    {
      if users[k].id == id {
        assert IsFirstMatch(users, id, k);
        FindUserReturnsFirstMatch(users, id, k);
        return Some(users[k]);
      }
      k := k + 1;
    }
    return None;
  }

  /** The `Todo.user` resolver: the user the todo refers to, if any. A
      dangling `userId` yields an absent user rather than an error. */
  function TodoUser(users: seq<User>, todo: Todo): (r: Option<User>)
    ensures r.Some? ==> r.value in users && r.value.id == todo.userId
    ensures r.None? <==> NoMatch(users, todo.userId)
  {
    FindUser(users, todo.userId)
  }

  /** When several users share the todo's `userId`, the one with the lowest
      index is returned. */
  lemma TodoUserFirstMatch(users: seq<User>, todo: Todo, i: int)
    requires IsFirstMatch(users, todo.userId, i)
    ensures TodoUser(users, todo) == Some(users[i])
  {
    FindUserReturnsFirstMatch(users, todo.userId, i);
  }

  /** With distinct ids, the referenced user is found whatever its position. */
  lemma TodoUserWithDistinctIds(users: seq<User>, todo: Todo, u: User)
    requires DistinctIds(users)
    requires u in users && u.id == todo.userId
    ensures TodoUser(users, todo) == Some(u)
  {
    var i :| 0 <= i < |users| && users[i] == u;
    assert IsFirstMatch(users, todo.userId, i);
    FindUserReturnsFirstMatch(users, todo.userId, i);
  }

  /** The `Todo.fullName` resolver. It performs its own lookup, identical to
      the one of `Todo.user`, and answers the empty string on no match and
      otherwise the first name, one space and the last name. */
  function FullName(users: seq<User>, todo: Todo): (r: string)
    ensures r == "" <==> TodoUser(users, todo).None?
    ensures TodoUser(users, todo).Some? ==>
      var u := TodoUser(users, todo).value;
      && |r| == |u.firstName| + 1 + |u.lastName|
      && r[..|u.firstName|] == u.firstName
      && r[|u.firstName|] == ' '
      && r[|u.firstName| + 1..] == u.lastName
  {
    match FindUser(users, todo.userId)
    case None => ""
    case Some(u) =>
      var name := u.firstName + " " + u.lastName;
      assert name[..|u.firstName|] == u.firstName;
      assert name[|u.firstName| + 1..] == u.lastName;
      name
  }

  /** The name `fullName` shows is assembled from exactly the record `user`
      returns for the same todo. */
  lemma FullNameAgreesWithUser(users: seq<User>, todo: Todo)
    ensures TodoUser(users, todo).None? ==> FullName(users, todo) == ""
    ensures TodoUser(users, todo).Some? ==>
      FullName(users, todo)
        == TodoUser(users, todo).value.firstName + " " + TodoUser(users, todo).value.lastName
  {
    if TodoUser(users, todo).Some? {
      var u := TodoUser(users, todo).value;
      var r := FullName(users, todo);
      assert r == r[..|u.firstName|] + [r[|u.firstName|]] + r[|u.firstName| + 1..];
    }
  }

  /** In terms of positions: the full name is built from the first user whose
      id matches, and is empty when there is none. */
  lemma FullNameOfFirstMatch(users: seq<User>, todo: Todo, i: int)
    requires IsFirstMatch(users, todo.userId, i)
    ensures FullName(users, todo) == users[i].firstName + " " + users[i].lastName
  {
    TodoUserFirstMatch(users, todo, i);
    FullNameAgreesWithUser(users, todo);
  }

  /** The `getTodos` root query: the todo fixture, unfiltered and in order. */
  function GetTodos(todos: seq<Todo>): (r: seq<Todo>)
    ensures |r| == |todos|
    ensures forall i :: 0 <= i < |r| ==> r[i] == todos[i]
    ensures multiset(r) == multiset(todos)
  {
    todos
  }

  /** The `getAllUsers` root query: the user fixture, unfiltered and in order. */
  function GetAllUsers(users: seq<User>): (r: seq<User>)
    ensures |r| == |users|
    ensures forall i :: 0 <= i < |r| ==> r[i] == users[i]
    ensures multiset(r) == multiset(users)
  {
    users
  }
}
