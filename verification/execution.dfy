/** The one query the client sends, `getTodos { id todo completed fullName }`,
    answered by running the root query and then the `fullName` field
    resolver on every todo it returns. */
module Execution {
  import opened Schema
  import opened Resolver

  /** One entry of the answer: the selected fields of one todo. */
  datatype TodoView = TodoView(id: Id, todo: string, completed: bool, fullName: string)

  /** Resolves the selected fields of one todo. */
  function ResolveTodo(users: seq<User>, t: Todo): (v: TodoView)
    ensures v.id == t.id && v.todo == t.todo && v.completed == t.completed
    ensures v.fullName == "" <==> NoMatch(users, t.userId)
    ensures forall i :: IsFirstMatch(users, t.userId, i) ==>
      v.fullName == users[i].firstName + " " + users[i].lastName
  {
    forall i | IsFirstMatch(users, t.userId, i)
      ensures FullName(users, t) == users[i].firstName + " " + users[i].lastName
    {
      FullNameOfFirstMatch(users, t, i);
    }
    TodoView(t.id, t.todo, t.completed, FullName(users, t))
  }

  /** Resolves the selected fields of every todo in `todos`, in order. */
  function ResolveAll(todos: seq<Todo>, users: seq<User>): (r: seq<TodoView>)
    ensures |r| == |todos|
    ensures forall i :: 0 <= i < |r| ==>
      && r[i].id == todos[i].id
      && r[i].todo == todos[i].todo
      && r[i].completed == todos[i].completed
      && r[i].fullName == FullName(users, todos[i])
  {
    if |todos| == 0 then []
    else [ResolveTodo(users, todos[0])] + ResolveAll(todos[1..], users)
  }

  /** The answer to the client's `getTodos` query. */
  function AnswerGetTodos(todos: seq<Todo>, users: seq<User>): (r: seq<TodoView>)
    ensures |r| == |todos|
    ensures forall i :: 0 <= i < |r| ==> r[i] == ResolveTodo(users, todos[i])
  {
    ResolveAll(GetTodos(todos), users)
  }

  /** A todo whose user exists shows that user's name. */
  lemma MatchedUserScenario(users: seq<User>, k: int, text: string, done: bool)
    requires IsFirstMatch(users, 1, k)
    requires users[k].firstName == "Ann" && users[k].lastName == "Lee"
    ensures AnswerGetTodos([Todo(10, text, done, 1)], users) == [TodoView(10, text, done, "Ann Lee")]
  {
    FullNameOfFirstMatch(users, Todo(10, text, done, 1), k);
    assert "Ann" + " " + "Lee" == "Ann Lee";
  }

  /** A todo whose user is missing shows an empty name and no error. */
  lemma MissingUserScenario(users: seq<User>, text: string, done: bool)
    requires NoMatch(users, 999)
    ensures AnswerGetTodos([Todo(11, text, done, 999)], users) == [TodoView(11, text, done, "")]
  {
  }
}
