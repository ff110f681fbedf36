/** The HTTP layer: the route table of backend/src/routes/user.routes.ts, the handlers
    of backend/src/controllers/user.controller.ts, the error handler applied to every
    failure (backend/src/middlewares/asyncHandler.ts forwards rejections to it) and the
    404 fallback of backend/src/app.ts for requests no route matches.

    `Dispatch` states the reply and the new table as a function of the old table;
    `Handle` runs one request against a `UserStore` through the service methods and is
    proved to agree with it. Path ids arrive already converted to integers. */
module UserController {
  import opened Types
  import opened UserSchema
  import opened Http
  import opened ErrorHandler
  import opened UserService

  datatype Verb = GET | POST | PUT | DELETE | OtherMethod

  /** The path below the API prefix: `/users`, `/users/:id`, or anything else. */
  datatype Route = Collection | Member(id: int) | Elsewhere

  datatype Query = Query(page: Option<QueryValue>, pageSize: Option<QueryValue>)

  datatype Request = Request(verb: Verb, route: Route, query: Query, body: RequestBody)

  /** The user table as a value. */
  datatype Table = Table(users: map<int, User>, nextId: int)

  datatype Outcome = Outcome(response: Response, table: Table)

  const RouteNotFound := "Ruta no encontrada"

  /** `req.query.page ?? "1"`. */
  function OrDefault(v: Option<QueryValue>, dflt: string): (r: Option<QueryValue>)
    ensures r.Some?
    ensures v.Some? ==> r == v
  {
    if v.None? then Some(QStr(dflt)) else v
  }

  /** `GET /users`: defaults, validation, then the service's page with status 200. */
  function ListReply(t: Table, q: Query): (r: Response)
    ensures PaginationSchema(OrDefault(q.page, "1"), OrDefault(q.pageSize, "10")).Err?
            ==> r == Response(400, ValidationBody(ValidationMessage, PaginationSchema(OrDefault(q.page, "1"), OrDefault(q.pageSize, "10")).error))
    ensures r.status == 200 <==> PaginationSchema(OrDefault(q.page, "1"), OrDefault(q.pageSize, "10")).Ok?
    ensures r.status == 200 ==>
      var pq := PaginationSchema(OrDefault(q.page, "1"), OrDefault(q.pageSize, "10")).value;
      r.body == PageBody(ListPage(t.users, t.nextId, pq.0, pq.1))
  {
    match PaginationSchema(OrDefault(q.page, "1"), OrDefault(q.pageSize, "10"))
    case Err(issues) => ErrorResponse(ZodError(issues))
    case Ok(pq) => Response(200, PageBody(ListPage(t.users, t.nextId, pq.0, pq.1)))
  }

  /** `GET /users/:id`: the record with status 200, or 404. */
  function GetReply(t: Table, id: int): (r: Response)
    ensures id in t.users <==> r.status == 200
    ensures id in t.users ==> r.body == UserBody(t.users[id])
    ensures id !in t.users ==> r == Response(404, MessageDetails(UserNotFound, None))
  {
    match Lookup(t.users, id)
    case Ok(u) => Response(200, UserBody(u))
    case Err(e) => ErrorResponse(e)
  }

  /** `POST /users`: the create schema first; only a valid payload reaches the store. */
  function CreateReply(isEmail: string -> bool, t: Table, body: RequestBody): (r: Outcome)
    ensures CreateSchema(isEmail, body).Err?
            ==> r == Outcome(ErrorResponse(ZodError(CreateSchema(isEmail, body).error)), t)
    ensures r.response.status == 201 <==>
              CreateSchema(isEmail, body).Ok? && CreateOutcome(t.users, t.nextId, CreateSchema(isEmail, body).value).Ok?
    ensures r.response.status == 201 ==>
              var u := CreateOutcome(t.users, t.nextId, CreateSchema(isEmail, body).value).value;
              r.response.body == UserBody(u) && r.table == Table(t.users[u.id := u], t.nextId + 1)
    ensures r.response.status != 201 ==> r.table == t
  {
    match CreateSchema(isEmail, body)
    case Err(issues) => Outcome(ErrorResponse(ZodError(issues)), t)
    case Ok(p) =>
      match CreateOutcome(t.users, t.nextId, p)
      case Err(e) => Outcome(ErrorResponse(e), t)
      case Ok(u) => Outcome(Response(201, UserBody(u)), Table(t.users[u.id := u], t.nextId + 1))
  }

  /** `PUT /users/:id`: the update schema first, then the service's existence check and
      merge; success is 200 with the updated record. */
  function UpdateReply(isEmail: string -> bool, t: Table, id: int, body: RequestBody): (r: Outcome)
    ensures UpdateSchema(isEmail, body).Err?
            ==> r == Outcome(ErrorResponse(ZodError(UpdateSchema(isEmail, body).error)), t)
    ensures UpdateSchema(isEmail, body).Ok? && id !in t.users
            ==> r == Outcome(Response(404, MessageDetails(UserNotFound, None)), t)
    ensures r.response.status == 200 <==>
              UpdateSchema(isEmail, body).Ok? && UpdateOutcome(t.users, id, UpdateSchema(isEmail, body).value).Ok?
    ensures r.response.status == 200 ==>
              id in t.users &&
              var u := Merge(t.users[id], UpdateSchema(isEmail, body).value);
              r.response.body == UserBody(u) && r.table == Table(t.users[id := u], t.nextId)
    ensures r.response.status != 200 ==> r.table == t
  {
    match UpdateSchema(isEmail, body)
    case Err(issues) => Outcome(ErrorResponse(ZodError(issues)), t)
    case Ok(p) =>
      match UpdateOutcome(t.users, id, p)
      case Err(e) => Outcome(ErrorResponse(e), t)
      case Ok(u) => Outcome(Response(200, UserBody(u)), Table(t.users[id := u], t.nextId))
  }

  /** `DELETE /users/:id`: 204 with no body once the record is gone, or 404. */
  function RemoveReply(t: Table, id: int): (r: Outcome)
    ensures id in t.users ==> r == Outcome(Response(204, NoBody), Table(t.users - {id}, t.nextId))
    ensures id !in t.users ==> r == Outcome(Response(404, MessageDetails(UserNotFound, None)), t)
  {
    match Lookup(t.users, id)
    case Err(e) => Outcome(ErrorResponse(e), t)
    case Ok(_) => Outcome(Response(204, NoBody), Table(t.users - {id}, t.nextId))
  }

  /** The five routes: list and create on the collection; read, update and delete on
      a member. */
  predicate Routed(req: Request)
  {
    match req.route
    case Collection => req.verb == GET || req.verb == POST
    case Member(_) => req.verb == GET || req.verb == PUT || req.verb == DELETE
    case Elsewhere => false
  }

  /** The route table; a request that no route matches gets the 404 fallback. */
  function Dispatch(isEmail: string -> bool, t: Table, req: Request): (r: Outcome)
    ensures !Routed(req) <==> r == Outcome(Response(404, MessageOnly(RouteNotFound)), t)
    ensures req.verb == GET ==> r.table == t
  {
    match (req.verb, req.route)
    case (GET, Collection) => Outcome(ListReply(t, req.query), t)
    case (GET, Member(id)) => Outcome(GetReply(t, id), t)
    case (POST, Collection) => CreateReply(isEmail, t, req.body)
    case (PUT, Member(id)) => UpdateReply(isEmail, t, id, req.body)
    case (DELETE, Member(id)) => RemoveReply(t, id)
    case _ => Outcome(Response(404, MessageOnly(RouteNotFound)), t)
  }

  /** Only a successful create, update or delete changes the table: reads and every
      failed request leave it as it was. */
  lemma OnlySuccessfulWritesChangeTable(isEmail: string -> bool, t: Table, req: Request)
    requires Dispatch(isEmail, t, req).table != t
    ensures req.verb in {POST, PUT, DELETE}
    ensures Dispatch(isEmail, t, req).response.status in {200, 201, 204}
  {
  }

  /** Every request keeps the table well formed: ids stay below the next id and keyed
      by themselves, and emails stay unique. */
  lemma DispatchKeepsTableInvariant(isEmail: string -> bool, t: Table, req: Request)
    requires TableInvariant(t.users, t.nextId)
    ensures TableInvariant(Dispatch(isEmail, t, req).table.users, Dispatch(isEmail, t, req).table.nextId)
  {
    var o := Dispatch(isEmail, t, req);
    if o.table != t {
      match (req.verb, req.route)
      case (POST, Collection) =>
        var p := CreateSchema(isEmail, req.body).value;
        var u := CreateOutcome(t.users, t.nextId, p).value;
        forall a | a in t.users ensures t.users[a].email != u.email {
          assert a !in EmailOwners(t.users, u.email);
        }
      case (PUT, Member(id)) =>
        var p := UpdateSchema(isEmail, req.body).value;
        var u := Merge(t.users[id], p);
        forall a | a in t.users && a != id ensures t.users[a].email != u.email {
          if p.email.Some? {
            assert a !in EmailOwners(t.users, p.email.value);
          }
        }
      case _ =>
    }
  }

  /** A missing `page`/`pageSize` is the same request as `page=1&pageSize=10`, and it
      is answered with the first ten records. */
  lemma ListDefaults(t: Table)
    ensures ListReply(t, Query(None, None)) == ListReply(t, Query(Some(QStr("1")), Some(QStr("10"))))
    ensures ListReply(t, Query(None, None)) == Response(200, PageBody(ListPage(t.users, t.nextId, 1, 10)))
  {
    PaginationDefaults();
    PaginationExplicitDefaults();
    assert OrDefault(None, "1") == Some(QStr("1")) && OrDefault(None, "10") == Some(QStr("10"));
  }

  /** The replies to a sequence of requests served one after another. */
  function Run(isEmail: string -> bool, t: Table, reqs: seq<Request>): (r: seq<Response>)
    ensures |r| == |reqs|
    ensures reqs != [] ==> r[0] == Dispatch(isEmail, t, reqs[0]).response
    decreases |reqs|
  {
    if reqs == [] then []
    else
      var o := Dispatch(isEmail, t, reqs[0]);
      [o.response] + Run(isEmail, o.table, reqs[1..])
  }

  const NoQuery := Query(None, None)
  const EmptyBody := Fields(None, None, None)

  /** A walk-through: create Ana without an age, read her back, set her age to 30,
      delete her, read again. */
  const AnaRequests := [
    Request(POST, Collection, NoQuery, Fields(Some(JStr("Ana")), Some(JStr("ana@x.com")), None)),
    Request(GET, Member(1), NoQuery, EmptyBody),
    Request(PUT, Member(1), NoQuery, Fields(None, None, Some(JNum(30.0)))),
    Request(DELETE, Member(1), NoQuery, EmptyBody),
    Request(GET, Member(1), NoQuery, EmptyBody)
  ]

  const Ana := User(1, "Ana", "ana@x.com", None)
  const Ana30 := User(1, "Ana", "ana@x.com", Some(30))

  /** The walk-through's first step: the POST on the empty table stores Ana with id 1. */
  lemma AnaCreated(isEmail: string -> bool)
    requires isEmail("ana@x.com")
    ensures Dispatch(isEmail, Table(map[], 1), AnaRequests[0])
         == Outcome(Response(201, UserBody(Ana)), Table(map[1 := Ana], 2))
  {
    assert EmailOwners(map[], "ana@x.com") == {};
  }

  /** The second step: the GET returns the stored record and changes nothing. */
  lemma AnaFetched(isEmail: string -> bool)
    ensures Dispatch(isEmail, Table(map[1 := Ana], 2), AnaRequests[1])
         == Outcome(Response(200, UserBody(Ana)), Table(map[1 := Ana], 2))
  {
  }

  /** The third step: the PUT sets the age to 30 and keeps the rest. */
  lemma AnaAged(isEmail: string -> bool)
    ensures Dispatch(isEmail, Table(map[1 := Ana], 2), AnaRequests[2])
         == Outcome(Response(200, UserBody(Ana30)), Table(map[1 := Ana30], 2))
  {
    assert (30.0).Floor == 30;
  }

  /** The fourth step: the DELETE empties the table and answers 204; the counter stays. */
  lemma AnaDeleted(isEmail: string -> bool)
    ensures Dispatch(isEmail, Table(map[1 := Ana30], 2), AnaRequests[3])
         == Outcome(Response(204, NoBody), Table(map[], 2))
  {
    assert (map[1 := Ana30] - {1}) == map[];
  }

  /** The last step: the GET of the deleted id answers 404. */
  lemma AnaGone(isEmail: string -> bool)
    ensures Dispatch(isEmail, Table(map[], 2), AnaRequests[4]).response
         == Response(404, MessageDetails(UserNotFound, None))
  {
  }

  /** On an empty table the walk-through gets 201 with id 1 and a null age, 200 with
      the same record, 200 with age 30 and the name unchanged, 204, and finally 404. */
  lemma AnaScenario(isEmail: string -> bool)
    requires isEmail("ana@x.com")
    ensures Run(isEmail, Table(map[], 1), AnaRequests) == [
      Response(201, UserBody(User(1, "Ana", "ana@x.com", None))),
      Response(200, UserBody(User(1, "Ana", "ana@x.com", None))),
      Response(200, UserBody(User(1, "Ana", "ana@x.com", Some(30)))),
      Response(204, NoBody),
      Response(404, MessageDetails(UserNotFound, None))
    ]
  {
    var ts := [Table(map[], 1), Table(map[1 := Ana], 2), Table(map[1 := Ana], 2),
      Table(map[1 := Ana30], 2), Table(map[], 2), Table(map[], 2)];
    var rs := [Response(201, UserBody(Ana)), Response(200, UserBody(Ana)), Response(200, UserBody(Ana30)),
      Response(204, NoBody), Response(404, MessageDetails(UserNotFound, None))];
    forall k | 0 <= k < 5
      ensures Dispatch(isEmail, ts[k], AnaRequests[k]) == Outcome(rs[k], ts[k + 1])
    {
      if k == 0 { AnaCreated(isEmail); }
      else if k == 1 { AnaFetched(isEmail); }
      else if k == 2 { AnaAged(isEmail); }
      else if k == 3 { AnaDeleted(isEmail); }
      else { AnaGone(isEmail); }
    }
    RunChain(isEmail, AnaRequests, ts, rs);
  }

  /** When the k-th request, served on the k-th table, answers the k-th reply and leaves
      the next table, `Run` answers exactly those replies. */
  lemma {:induction false} RunChain(isEmail: string -> bool, reqs: seq<Request>, ts: seq<Table>, rs: seq<Response>)
    requires |ts| == |reqs| + 1 && |rs| == |reqs|
    requires forall k :: 0 <= k < |reqs| ==> Dispatch(isEmail, ts[k], reqs[k]) == Outcome(rs[k], ts[k + 1])
    ensures Run(isEmail, ts[0], reqs) == rs
  {
    if |reqs| > 0 {
      RunChain(isEmail, reqs[1..], ts[1..], rs[1..]);
      assert rs == [rs[0]] + rs[1..];
    }
  }

  /** One request against the store, through the service's methods. */
  method Handle(store: UserStore, isEmail: string -> bool, req: Request) returns (resp: Response)
    requires store.Valid()
    modifies store
    ensures store.Valid()
    ensures Outcome(resp, Table(store.users, store.nextId))
         == Dispatch(isEmail, Table(old(store.users), old(store.nextId)), req)
  {
    match (req.verb, req.route)
    case (GET, Collection) =>
      var parsed := PaginationSchema(OrDefault(req.query.page, "1"), OrDefault(req.query.pageSize, "10"));
      if parsed.Err? {
        resp := ErrorResponse(ZodError(parsed.error));
      } else {
        var page := store.List(parsed.value.0, parsed.value.1);
        resp := Response(200, PageBody(page));
      }
    case (GET, Member(id)) =>
      var found := store.GetById(id);
      resp := if found.Ok? then Response(200, UserBody(found.value)) else ErrorResponse(found.error);
    case (POST, Collection) =>
      var parsed := CreateSchema(isEmail, req.body);
      if parsed.Err? {
        resp := ErrorResponse(ZodError(parsed.error));
      } else {
        var created := store.Create(parsed.value);
        resp := if created.Ok? then Response(201, UserBody(created.value)) else ErrorResponse(created.error);
      }
    case (PUT, Member(id)) =>
      var parsed := UpdateSchema(isEmail, req.body);
      if parsed.Err? {
        resp := ErrorResponse(ZodError(parsed.error));
      } else {
        var updated := store.Update(id, parsed.value);
        resp := if updated.Ok? then Response(200, UserBody(updated.value)) else ErrorResponse(updated.error);
      }
    case (DELETE, Member(id)) =>
      var removed := store.Remove(id);
      resp := if removed.Ok? then Response(204, NoBody) else ErrorResponse(removed.error);
    case _ =>
      resp := Response(404, MessageOnly(RouteNotFound));
  }
}
