/**
 The data the four handlers share: JavaScript field values, the employee
 record, the parsed request body, the two stores and the HTTP responses.
 */
module Records {

  /** A body or record field: `None` is JavaScript `undefined` (the field is
      absent), `Some(v)` a string value. */
  datatype Option<+T> = None | Some(value: T)

  /** JavaScript truthiness of a string field: present and not empty. */
  predicate Truthy(v: Option<string>)
  {
    v.Some? && |v.value| > 0
  }

  /** An employee record as stored in the table. A record the creator puts
      has every field, and one the updater creates on a missing id lacks a
      photo unless the body supplies one. Nothing else about the table's
      contents is assumed, so every field but `id` may be absent. */
  datatype Employee = Employee(
    id: string,
    name: Option<string>,
    role: Option<string>,
    email: Option<string>,
    photoUrl: Option<string>)

  /** Whether the document client can marshal `e` as an item. Built with its
      default options, it refuses an undefined attribute value: the put throws
      before anything reaches the table. */
  predicate ItemDefined(e: Employee)
  {
    e.name.Some? && e.role.Some? && e.email.Some? && e.photoUrl.Some?
  }

  /** The fields of a parsed JSON request body that any handler reads. */
  datatype Body = Body(
    action: Option<string>,
    fileName: Option<string>,
    contentType: Option<string>,
    name: Option<string>,
    role: Option<string>,
    email: Option<string>,
    photoUrl: Option<string>)

  /** The world the handlers act on: the record table keyed by `id`, and the
      set of object keys present in the photo bucket. */
  datatype State = State(records: map<string, Employee>, blobs: set<string>)

  /** Every record is filed under its own `id`. */
  ghost predicate WellFormed(s: State)
  {
    forall k :: k in s.records ==> s.records[k].id == k
  }

  /** The JSON payload of a response. */
  datatype Payload =
    | UploadGrant(uploadUrl: string, key: string, publicUrl: string)
    | Record(employee: Employee)
    | Items(items: seq<Employee>)
    | Message(message: string)

  datatype Response = Response(status: int, payload: Payload)

  /** What a handler invocation returns, and the state it leaves behind. */
  datatype Reply = Reply(response: Response, next: State)

  const InternalErrorMessage := "Internal Server Error"
  const NotFoundMessage := "Employee not found"
  const DeletedMessage := "Employee deleted successfully"

  /** The response every handler's `catch` block produces. */
  const ServerError := Response(500, Message(InternalErrorMessage))
}
