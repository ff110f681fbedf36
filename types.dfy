/** Shapes shared by the backend and the frontend: the User record, the paginated
    list reply, the write payloads, and a small JSON value type for request bodies
    and for the untyped `details`/`meta` parts of error replies. */
module Types {

  datatype Option<+T> = None | Some(value: T)

  datatype Result<+T, +E> = Ok(value: T) | Err(error: E)

  /** A JSON value as the body parser produces it. A number is the exact decimal
      value written in the text; the rounding to a double that JSON parsing does
      (and its overflow to Infinity) is not part of this model. */
  datatype Json =
    | JNull
    | JBool(b: bool)
    | JNum(n: real)
    | JStr(s: string)
    | JArr(items: seq<Json>)
    | JObj(fields: seq<(string, Json)>)

  /** The one persisted entity. `age == None` is the JSON `null` ("not recorded"). */
  datatype User = User(id: int, name: string, email: string, age: Option<int>)

  /** The reply of the list operation. */
  datatype PaginatedUsers =
    PaginatedUsers(data: seq<User>, total: int, page: int, pageSize: int, totalPages: int)

  /** A field that may be left out (`undefined`), be explicitly `null`, or carry a value. */
  datatype Nullable<+T> = Undefined | Null | Value(v: T)

  /** The service's write payload `{name?, email?, age?: number | null}`. */
  datatype UserPayload = UserPayload(name: Option<string>, email: Option<string>, age: Nullable<int>)

  /** What the client form sends: `{name, email, age: number | null}`. */
  datatype UserInput = UserInput(name: string, email: string, age: Option<int>)
}
