/** The two record types of the GraphQL schema. Both are immutable
    fixtures: they are built once and never changed. */
module Schema {
  import opened Wrappers

  /** A user or todo identifier. The schema declares it as `ID!`; the
      model compares identifiers with plain equality. */
  type Id = int

  /** A user record. `age` is the only nullable field. */
  datatype User = User(
    id: Id,
    firstName: string,
    lastName: string,
    age: Option<int>,
    gender: string,
    email: string,
    phone: string)

  /** A todo record; `userId` refers to a `User.id`, with no guarantee
      that such a user exists. */
  datatype Todo = Todo(
    id: Id,
    todo: string,
    completed: bool,
    userId: Id)
}
