/** Values the two pages exchange with the task service, written as explicit
    tagged records instead of the JavaScript objects the pages receive. */
module Values {

  /** `None` stands for JavaScript `null` or `undefined`. */
  datatype Option<+T> = None | Some(value: T)

  /** A JavaScript value read where a boolean is expected. `Unset` stands for
      `undefined` and for every other value that is neither `true` nor `false`. */
  datatype Flag = True | False | Unset

  /** The strict-boolean flag for `b`. */
  function FlagOf(b: bool): (f: Flag)
    ensures f != Unset
    ensures f == True <==> b
  {
    if b then True else False
  }

  type Id = string

  /** A task list, as the lists endpoint returns it. */
  datatype TaskList = TaskList(id: Id, title: string)

  /** A task, as the task endpoints return it. `limit` is the wire deadline. */
  datatype Task = Task(id: Id, title: string, detail: string, done: Flag, limit: Option<string>)

  /** JavaScript truthiness of an optional string: present and not empty. */
  predicate Truthy(v: Option<string>)
  {
    v.Some? && v.value != ""
  }
}
