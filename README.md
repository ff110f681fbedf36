# Users CRUD — a Dafny model

This project models the user-management application "users-fullstack-technical-test".
The back end is an Express API over one `User` table (id, name, email, optional age).
The front end is a React single page that lists, shows, creates, edits and deletes
users. The model covers these parts:

- **Server validation** (`UserSchema`): the zod create and update schemas and the
  pagination query schema. It follows zod's rules: a missing or wrongly typed field
  aborts, while failed checks are collected in declaration order. `parseInt(s, 10)` is
  modelled after section 19.2.5 of ECMA-262 (`JsText`).
- **User service** (`UserService`): a class `UserStore` holding the table as a
  `map<int, User>` plus the next fresh id. Its methods `List`, `GetById`, `Create`,
  `Update` and `Remove` are each proved against a pure function of the old table.
- **Error handler** (`ErrorHandler`): the first-match mapping from an error value to an
  HTTP status and JSON body.
- **Controller and routes** (`UserController`): defaults, validate-then-call and
  success statuses. `Dispatch` is the route table as a function of the table.
  `Handle` runs a request through the store's methods and is proved to agree with
  `Dispatch`.
- **Client form** (`UserForm`): the form's own validation, including the pattern
  `\S+@\S+\.\S+` given once declaratively and once as a matcher. It also covers the
  submitted payload, the messages shown after a rejected submit, and the fields' state.
- **Table** (`UserTable`): the button enable conditions, the page indicator and the
  body (loading, empty or rows).
- **View state** (`App`): a class `AppState` with one method per handler. Each awaited
  request is a parameter that says how it ended.

Shared shapes are in `Types`, and the HTTP replies are in `Http`.

Two facts come out of the proofs:

- `UserForm.ServerErrorsShowOnlyMessage`: every error reply of this server carries a
  non-empty `message`. The form therefore always shows that message alone. Its branch
  that lists the server's per-field `errors` never applies: a validation failure is
  shown as "Error de validación".
- `App.PagePastTheEnd`: deleting the only record of the last page reloads that same
  page. The reply has no records and a page count below the page shown. When that
  page is page 2 or later, `total` is at least 10, yet the table shows its empty
  state: `App.AppState.HandleDelete` states that `users`, `total` and `totalPages`
  are taken from that reply.

## Model

| member | source | states |
|---|---|---|
| JsText.TrimStartShape | frontend/src/components/users/UserForm.tsx:45-46 | the result is a suffix of the input, everything dropped is white space, and the result does not start with white space |
| JsText.TrimEndShape | frontend/src/components/users/UserForm.tsx:70-71 | the result is a prefix of the input, everything dropped is white space, and the result does not end with white space |
| JsText.TrimEmptyIffBlank | frontend/src/components/users/UserForm.tsx:45-46 | `Trim` (`trim()`) gives the empty string exactly when every character is white space, so `!s.trim()` is a blank test |
| JsText.TrimKeepsUnpadded | frontend/src/components/users/UserForm.tsx:70-71 | trimming a string whose ends are not white space leaves it unchanged |
| JsText.JsLength | backend/src/validators/user.schema.ts:6-11 | the JavaScript `length` of a string lies between its number of characters and twice that |
| JsText.JsLengthOfBmp | backend/src/validators/user.schema.ts:6-11 | the JavaScript `length` equals the number of characters exactly when no character lies outside the Basic Multilingual Plane |
| JsText.DigitPrefix | backend/src/validators/user.schema.ts:30 | the longest run of decimal digits at the start of the text: all digits, and the next character is not a digit |
| JsText.NatToString | frontend/src/components/users/UserForm.tsx:31 | `String(n)` of a natural number is a non-empty digit string with no leading zero, whose decimal value is `n` |
| JsText.IntToString | frontend/src/components/users/UserForm.tsx:31 | `String(n)` starts with a digit or a minus sign and ends with a digit |
| JsText.ParseIntUnsigned | backend/src/validators/user.schema.ts:30 | `parseInt` of a digit run followed by a non-digit (or nothing) is the decimal value of the run |
| JsText.ParseIntNegative | backend/src/validators/user.schema.ts:30 | `parseInt` of `-` and a digit run followed by a non-digit (or nothing) is minus the decimal value of the run |
| JsText.ParseIntOfIntToString | backend/src/validators/user.schema.ts:30 | `parseInt` reads back the integer `String` wrote, and stops at the first non-digit that follows |
| JsText.ParseIntSkipsWhite | backend/src/validators/user.schema.ts:36 | `parseInt` ignores leading white space |
| JsText.NumberOfIntToString | frontend/src/components/users/UserForm.tsx:29-33 | `NumberOf(IntToString(n)) == n`, that is `Number(String(n)) == n`: the age text the edit form shows reads back as the stored age |
| UserSchema.NameCheck | backend/src/validators/user.schema.ts:4-7 | the name field raises no issue exactly when it is absent from a partial schema or is a string of JavaScript length 1..100; a fatal check always carries an issue |
| UserSchema.EmailCheck | backend/src/validators/user.schema.ts:8-11 | the email field raises no issue exactly when it is absent from a partial schema or is a string that passes the email check with a JavaScript length of at most 150; a fatal check always carries an issue |
| UserSchema.AgeCheck | backend/src/validators/user.schema.ts:12-17 | the age field raises no issue exactly when it is absent, null or a non-negative integer; a fatal check always carries an issue |
| UserSchema.CreateSchema | backend/src/validators/user.schema.ts:3-18 | accepted exactly when the name is a string whose JavaScript length (UTF-16 code units) is 1..100, the email is a string that passes the email check and has a JavaScript length of at most 150, and the age is absent, null or a non-negative integer; accepted values are returned unchanged; a rejection has at least one issue; a missing name or email gives that field's required message |
| UserSchema.UpdateSchema | backend/src/validators/user.schema.ts:20-25 | accepted exactly when every present field meets the create constraints (the same JavaScript lengths) and at least a truthy name, a truthy email or a defined age is sent; the parsed payload keeps null and absent apart; a rejection has at least one issue |
| UserSchema.QueryNumber | backend/src/validators/user.schema.ts:28-39 | one query value (missing ones take their default) is accepted exactly when it is a string whose `parseInt` value exists, is at least 1 and is within the maximum; the result is that value; every issue is reported under that key |
| UserSchema.PaginationSchema | backend/src/validators/user.schema.ts:27-40 | accepted exactly when both values are acceptable; then `page >= 1` and `1 <= pageSize <= 100`, equal to their `parseInt` values |
| UserSchema.PaginationDefaults | backend/src/validators/user.schema.ts:27-40 | with no query values the result is page 1 and page size 10 |
| UserSchema.PaginationExplicitDefaults | backend/src/validators/user.schema.ts:27-40 | the texts "1" and "10" sent explicitly give page 1 and page size 10, the same as the defaults |
| UserSchema.PageZeroRejected | backend/src/validators/user.schema.ts:31 | `page=0` is rejected with the minimum issue under `page` |
| UserSchema.NonNumericPageRejected | backend/src/validators/user.schema.ts:30-31 | a page text starting with something other than white space, a sign or a digit parses to NaN and is rejected |
| UserSchema.EmptyCreateBodyReportsBothFields | backend/src/validators/user.schema.ts:5-9 | the empty body gives exactly the name-required and then the email-required issue |
| UserSchema.UpdateWithNoFieldsRejected | backend/src/validators/user.schema.ts:20-25 | an update with no field is rejected with the single "at least one field" issue |
| UserSchema.UpdateWithOnlyNullAge | backend/src/validators/user.schema.ts:20-25 | `{age: null}` alone is a valid update that clears the age |
| ErrorHandler.ErrorResponse | backend/src/middlewares/errorHandler.ts:6-54 | AppError gives its own status with `{message, details}`; a zod error gives 400 "Error de validación" with its issues in order; P2002 gives 409 with `meta`; P2025 gives 404 "Recurso no encontrado" with `meta`; every other error gives 500 with only the generic message |
| ErrorHandler.StatusFollowsTaxonomy | backend/src/middlewares/errorHandler.ts:15-53 | the status depends only on the kind of error, and apart from an AppError it is one of 400, 404, 409, 500 |
| ErrorHandler.InternalErrorsLeakNothing | backend/src/middlewares/errorHandler.ts:51-53 | a 500 reply carries the generic message and nothing else |
| UserService.IdsBetween | backend/src/services/user.service.ts:18 | the ids of the table in a range, strictly ascending, each one exactly once |
| UserService.Ordered | backend/src/services/user.service.ts:15-19 | the records in ascending id order |
| UserService.Window | backend/src/services/user.service.ts:16-17 | `skip`/`take`: at most `take` records, namely those at positions `skip, skip+1, ...` |
| UserService.CeilDivIsCeiling | backend/src/services/user.service.ts:28 | `CeilDiv` is `Math.ceil(total / pageSize)`: `totalPages * pageSize >= total`, and one page fewer would not hold them all |
| UserService.OrderedHoldsAll | backend/src/services/user.service.ts:15-20 | the ordered listing has one entry per record, and every record appears in it |
| UserService.ListPageWindow | backend/src/services/user.service.ts:12-19 | `ListPage` with `Offset`: a page holds at most `pageSize` records: those at positions `[(page-1)*pageSize, ...)` of the id order |
| UserService.ListPageAscending | backend/src/services/user.service.ts:18 | a page's records are in ascending id order and are stored records |
| UserService.ListPageCounters | backend/src/services/user.service.ts:20-29 | `total` is the record count, `totalPages` is the ceiling of `total / pageSize`, and `page` and `pageSize` are echoed |
| UserService.RecordOnItsPage | backend/src/services/user.service.ts:12-28 | the record at position `(page-1)*pageSize + j` of the id order is in slot `j` of page `page`, and that page is at most `totalPages` |
| UserService.PageBeforeCount | backend/src/services/user.service.ts:12-28 | a page whose offset lies inside the table is no later than the page count `ceil(total / pageSize)` |
| UserService.Lookup | backend/src/services/user.service.ts:32-42 | the record with that id, or AppError 404 "Usuario no encontrado" when there is none |
| UserService.CreateOutcome | backend/src/services/user.service.ts:44-52 | succeeds exactly when name and email are given and no record has the email; the new record has the fresh id, the given name and email, and a null age when the age is absent or null; a taken email gives P2002 |
| UserService.Merge | backend/src/services/user.service.ts:60-64 | each field changes only when the payload has it; an explicit null age clears the age; the id is kept |
| UserService.MergeLaws | backend/src/services/user.service.ts:60-64 | merging a payload is idempotent, and an empty payload changes nothing |
| UserService.UpdateOutcome | backend/src/services/user.service.ts:54-66 | 404 for an absent id; P2002 when another record owns the new email; otherwise the merged record |
| UserService.CreateThenGet | backend/src/services/user.service.ts:32-52 | a created record is found by its id, and every other lookup is unchanged |
| UserService.RemoveThenGet | backend/src/services/user.service.ts:68-75 | after a delete the record's lookup fails with 404, and every other lookup is unchanged |
| UserService.UserStore.constructor | backend/src/services/user.service.ts:10 | an empty, valid table whose first id is 1 |
| UserService.UserStore.List | backend/src/services/user.service.ts:11-30 | the reply is the page of the current table, and the table is not modified |
| UserService.UserStore.GetById | backend/src/services/user.service.ts:32-42 | the reply is the lookup of the id, and the table is not modified |
| UserService.UserStore.Create | backend/src/services/user.service.ts:44-52 | on success exactly one record is added under the fresh id and the next id advances; on failure nothing changes; ids and unique emails stay valid |
| UserService.UserStore.Update | backend/src/services/user.service.ts:54-66 | the existence check first; on success only that record is replaced by the merge; on failure nothing changes; the table stays valid |
| UserService.UserStore.Remove | backend/src/services/user.service.ts:68-75 | fails with 404 exactly when the id is absent, leaving the table unchanged; otherwise exactly that record is deleted |
| UserController.OrDefault | backend/src/controllers/user.controller.ts:8-9 | `?? default`: a given query value is kept, a missing one becomes the default text |
| UserController.ListReply | backend/src/controllers/user.controller.ts:6-14 | a failed pagination check is a 400 and the service is not asked; otherwise 200 with the service's page for the parsed numbers |
| UserController.GetReply | backend/src/controllers/user.controller.ts:16-20 | 200 with the record when it exists, else 404 "Usuario no encontrado" |
| UserController.CreateReply | backend/src/controllers/user.controller.ts:22-26 | an invalid body is a 400 and the table is untouched; 201 exactly when the body is valid and the email is free, and then the table gains exactly the returned record; the table is unchanged otherwise |
| UserController.UpdateReply | backend/src/controllers/user.controller.ts:28-33 | validation comes before the existence check; an invalid body is a 400 with the table untouched; a valid body for an absent id is 404; 200 exactly when the service succeeds, and then only that record changes |
| UserController.RemoveReply | backend/src/controllers/user.controller.ts:35-39 | 204 with no body and exactly that record removed, or 404 with the table unchanged |
| UserController.Dispatch | backend/src/routes/user.routes.ts:7-11 | a request that none of the five routes matches gets 404 "Ruta no encontrada" with the table unchanged, and only such a request gets that reply; a GET never changes the table |
| UserController.OnlySuccessfulWritesChangeTable | backend/src/routes/user.routes.ts:7-11 | only a POST, PUT or DELETE that succeeds (201, 200, 204) changes the table |
| UserController.DispatchKeepsTableInvariant | backend/src/routes/user.routes.ts:7-11 | every request keeps ids fresh and keyed by themselves, and keeps emails unique |
| UserController.ListDefaults | backend/src/controllers/user.controller.ts:7-10 | a list request without query values is the same as `page=1&pageSize=10` and returns the first ten records |
| UserController.Run | backend/src/routes/user.routes.ts:7-11 | one reply per request of a sequence served in order |
| UserController.RunChain | backend/src/routes/user.routes.ts:7-11 | when each request, served on its table, gives its reply and leaves the next table, the sequence gets exactly those replies |
| UserController.AnaCreated | backend/src/controllers/user.controller.ts:22-26 | a valid create on the empty table answers 201 with id 1 and a null age, stores the record and advances the counter to 2 |
| UserController.AnaFetched | backend/src/controllers/user.controller.ts:16-20 | reading the stored record answers 200 with it and changes nothing |
| UserController.AnaAged | backend/src/controllers/user.controller.ts:28-33 | updating only the age answers 200 with the new age and the old name and email, and stores that record |
| UserController.AnaDeleted | backend/src/controllers/user.controller.ts:35-39 | deleting the only record answers 204 and leaves an empty table with the counter unchanged |
| UserController.AnaGone | backend/src/controllers/user.controller.ts:16-20 | reading a deleted id answers 404 "Usuario no encontrado" |
| UserController.AnaScenario | backend/src/controllers/user.controller.ts:16-39 | on an empty table: create gives 201 with id 1 and a null age, read gives the same record, an age update keeps the name, delete gives 204, and a final read gives 404 |
| UserController.Handle | backend/src/routes/user.routes.ts:7-11 | running a request through the store's methods gives the reply and new table of `Dispatch`, and keeps the store valid |
| UserForm.DotIn | frontend/src/components/users/UserForm.tsx:48 | true exactly when some position in the range holds a `.` |
| UserForm.RunEnd | frontend/src/components/users/UserForm.tsx:48 | the end of the longest non-white run starting at a position |
| UserForm.MatchesAtIff | frontend/src/components/users/UserForm.tsx:48 | the matcher succeeds at an `@` exactly when the pattern matches with its `@` there |
| UserForm.ScanIff | frontend/src/components/users/UserForm.tsx:48 | scanning from a position succeeds exactly when a match starts at or after it |
| UserForm.EmailTestIff | frontend/src/components/users/UserForm.tsx:48 | `EmailTest`, the matcher, accepts exactly the strings holding a non-white character, `@`, a non-white run, `.` and a non-white character |
| UserForm.TrimKeepsPattern | frontend/src/components/users/UserForm.tsx:48-71 | an email that matches still matches after trimming |
| UserForm.Text | frontend/src/components/users/UserForm.tsx:45-55 | the message shown for each problem |
| UserForm.TextInjective | frontend/src/components/users/UserForm.tsx:45-55 | different problems show different messages |
| UserForm.Validate | frontend/src/components/users/UserForm.tsx:42-59 | no errors exactly when the trimmed name is non-empty, the trimmed email is non-empty and matches, and the age text is empty or a non-negative integer; each message appears exactly when its condition holds, so a blank email never gets the format error; the messages come in the order name, email, age |
| UserForm.Payload | frontend/src/components/users/UserForm.tsx:69-73 | the name and email sent are the trimmed inputs; an empty age text is sent as null, and an accepted one as its number |
| UserForm.AcceptedPayload | frontend/src/components/users/UserForm.tsx:63-73 | after validation the payload has a non-empty name, an email that matches the pattern, and a null or non-negative age |
| UserForm.EntryText | frontend/src/components/users/UserForm.tsx:79 | `e.message ?? String(e)` |
| UserForm.EntryTexts | frontend/src/components/users/UserForm.tsx:78-80 | one text per entry, in order |
| UserForm.ErrorMessages | frontend/src/components/users/UserForm.tsx:74-84 | the server's non-empty message alone; else one text per server `errors` entry; else the generic message |
| UserForm.DataOf | backend/src/middlewares/errorHandler.ts:15-53 | the `data` of an error reply as the form reads it; a validation reply keeps one entry per issue |
| UserForm.ServerErrorsShowOnlyMessage | frontend/src/components/users/UserForm.tsx:75-77 | for every error reply of the server, the form shows exactly its message; for a validation failure that is "Error de validación" |
| UserForm.FormState.constructor | frontend/src/components/users/UserForm.tsx:19-23 | all fields empty, no errors, not submitting |
| UserForm.FormState.Init | frontend/src/components/users/UserForm.tsx:25-40 | the fields copy the record, with a null age shown as ""; without a record the fields are empty; errors are cleared |
| UserForm.FormState.HandleSubmit | frontend/src/components/users/UserForm.tsx:61-88 | with validation errors they are shown, nothing is sent and `submitting` is left as it was; otherwise the payload is sent, the errors become empty on success or the rejection's messages, and submitting ends false; the fields are untouched |
| UserForm.UntouchedEditSendsRecord | frontend/src/components/users/UserForm.tsx:25-73 | opening the edit form on a record with unpadded name and email and submitting it untouched sends back exactly that record's fields |
| UserTable.PrevGuard | frontend/src/components/users/UserTable.tsx:99-104 | `PrevEnabled`: "previous" is enabled exactly when `page > 1` and not loading, and then it asks for a page that is at least 1 |
| UserTable.NextGuard | frontend/src/components/users/UserTable.tsx:110-115 | `NextEnabled`: "next" is enabled exactly when `page < totalPages`, `totalPages` is not 0 and not loading, and then it asks for a page that is at most `totalPages` |
| UserTable.PageCount | frontend/src/components/users/UserTable.tsx:38-108 | the indicator shows `totalPages`, or 1 when it is 0 |
| UserTable.AgeCell | frontend/src/components/users/UserTable.tsx:72 | an age is shown as its decimal text |
| UserTable.AgeCellDashIffNull | frontend/src/components/users/UserTable.tsx:72 | the cell is "-" exactly when the age is null |
| UserTable.RowOf | frontend/src/components/users/UserTable.tsx:59-72 | a row shows the record's id, name, email and age cell |
| UserTable.Body | frontend/src/components/users/UserTable.tsx:43-59 | loading wins; otherwise no users gives the empty state, and any users give one row each, in order |
| App.Toggled | frontend/src/App.tsx:59-61 | the other theme |
| App.ToggleTwice | frontend/src/App.tsx:59-61 | toggling twice restores the theme |
| App.BackendReplies | frontend/src/App.tsx:71-75 | the server's list reply echoes the page and page size and has a non-negative page count |
| App.PagePastTheEnd | frontend/src/App.tsx:121-139 | reloading a page past the last one gives no records and a page count below that page, with the total unchanged |
| App.NextPassesGuard | frontend/src/App.tsx:163-166 | an enabled "next" always passes `handlePageChange`'s range guard `PageInRange` |
| App.PrevPassesGuard | frontend/src/App.tsx:163-166 | an enabled "previous" passes the guard exactly when the page shown is at most one past the last |
| App.SidePanel | frontend/src/App.tsx:222-266 | detail with a selection shows the record; create shows the create form; edit with a selection shows the edit form; list without a selection shows the placeholder |
| App.ConsistentPanel | frontend/src/App.tsx:222-266 | when the selection agrees with the view, the side column always shows something, and the record shown is the selected one |
| App.AppState.constructor | frontend/src/App.tsx:25-38 | dark theme, list mode, page 1 of 1, no users, total 0, no selection, no toast |
| App.AppState.ToggleTheme | frontend/src/App.tsx:59-61 | the theme flips and nothing else changes |
| App.AppState.LoadUsers | frontend/src/App.tsx:68-82 | records, page and total come from the reply, and a page count of 0 becomes 1; a failed load only raises the error toast |
| App.AppState.HandleSelectUser | frontend/src/App.tsx:88-100 | the fetched record is selected and the detail view opens; a failed fetch raises a toast and leaves the mode and the selection unchanged |
| App.AppState.HandleCreateClick | frontend/src/App.tsx:102-105 | the selection is cleared and the create view opens |
| App.AppState.HandleEditClick | frontend/src/App.tsx:107-119 | the fetched record is selected and the edit view opens; a failed fetch raises a toast and leaves the mode and the selection unchanged |
| App.AppState.HandleDelete | frontend/src/App.tsx:121-139 | a declined confirmation changes nothing; a failed delete only raises a toast; a successful delete of the selected record clears the selection and returns to the list, a delete of another record keeps both; then the current page reloads: records, total and page count (0 shown as 1) come from the reply and the toast says the record was deleted, or a failed reload keeps them and raises the load-error toast |
| App.AppState.HandleSubmitCreate | frontend/src/App.tsx:141-146 | a failed create changes nothing and reaches the form; a successful one returns to the list and reloads the current page, taking records, total and page count from the reply, or keeping them and raising the load-error toast when the reload fails |
| App.AppState.HandleSubmitEdit | frontend/src/App.tsx:148-156 | without a selection nothing happens; a failed update changes nothing; otherwise the detail view; a failed re-fetch keeps the selection, records and counters and reaches the form; else the refreshed record is selected and the page reloads, taking records, total and page count from the reply, or keeping them and raising the load-error toast when the reload fails |
| App.AppState.HandleBackToList | frontend/src/App.tsx:158-161 | list mode with no selection |
| App.AppState.HandleCancelEdit | frontend/src/App.tsx:245 | back from the edit form to the detail of the same record |
| App.AppState.HandlePageChange | frontend/src/App.tsx:163-166 | a page outside `[1, totalPages]` (`PageInRange`) changes nothing; any other page is loaded: it becomes the page shown, with records, total and page count from the reply, or, when the load fails, everything is kept and the load-error toast is raised |

## Left out

- Prisma and the database are replaced by the map and the next-id counter of `UserStore`. Ids are handed out from 1 in order, and a failed insert does not use one up.
- The unique email constraint belongs to a database schema that is not part of this model. It is modelled as a check that raises P2002 on create and update.
- The `meta` of the store's P2002 error is a fixed stand-in value, `EmailConflictMeta`. Its real shape depends on the database driver; only its presence and its pass-through into the 409 reply are modelled.
- Database failures other than P2002 are not modelled. So are Prisma validation errors, which would be 500 replies, such as a NaN id.
- `Number(req.params.id)` is not modelled: path ids arrive as integers.
- `Number(age)` on the form's age text is modelled only for blank text and for an optional sign followed by digits. Fractions, exponents and hex literals are read as NaN, so `"1e2"` and `"1.0"`, which the source accepts, are rejected here.
- JsText.ParseInt: the loss of precision of very long digit runs is not modelled. The result is the exact integer, so a `page` of more than 309 digits, which JavaScript reads as Infinity and zod rejects, is accepted here.
- JsText.IntToString: the exponent notation JavaScript switches to for very large magnitudes is not modelled.
- UserSchema.CreateSchema: body numbers are exact decimals. The rounding of JSON parsing to a double, and its overflow to Infinity, are not modelled: `30.0000000000000001` is rejected here as a non-integer age, while the server reads it as 30.
- UserSchema.UpdateSchema: body numbers are exact decimals, as for the create schema; double rounding and overflow are not modelled.
- UserSchema.CreateSchema: zod's `.email()` regular expression is not modelled. It is the parameter `isEmail`, so the email constraint is stated relative to it.
- UserSchema.CreateSchema: when several fields fail, the full issue list is computed in zod's order. The contract states only that the list is non-empty and holds the required messages. The complete order is proved only for the empty body.
- UserController.Dispatch: three kinds of request are not answered as the Express stack answers them. A HEAD on `/users` or `/users/:id` is served by the GET routes in Express (200, or 404 "Usuario no encontrado") but is an `OtherMethod` here and gets the 404 fallback, so `!Routed(req) <==> 404` does not hold for it in the source. An OPTIONS request to any path is answered 204 by the `cors()` middleware, and gets the same 404 here. A JSON body whose top level is a number, string, boolean or null is refused by `express.json()` in strict mode before any controller runs, and the error handler's fallback makes that a 500; here it is a `NotAnObject` body and gets the 400 validation reply. Only a top-level array reaches zod in the source.
- The CORS setup, JSON body parsing and the health route of the Express app are not modelled. The unmatched-route 404 at backend/src/app.ts:25-27 is part of `Dispatch`.
- The promise mechanics of backend/src/middlewares/asyncHandler.ts are not modelled. Rejections are error results that reach `ErrorResponse`.
- The `Promise.all` pair in `list` is two reads of one snapshot, so a concurrent write between them is not modelled.
- The axios client wrappers in frontend/src/api/user.ts are not modelled. Each awaited call is a parameter of the handler.
- The App's loading flags (`loadingList`, `loadingDetail`), and the form's `submitting` while a request is in flight, are not modelled as separate states. Each handler is one atomic transition, and the flags are false at the end.
- Overlapping handlers are not modelled. An example is clicking a table row while a create request is pending.
- App.AppState.LoadUsers, HandleDelete, HandleSubmitCreate, HandleSubmitEdit and HandlePageChange require the list reply to echo the requested page, to carry the page size 10 the client asks for, and to report a non-negative page count. `App.BackendReplies` proves this of the server's reply.
- App.AppState.HandleSubmitCreate requires the create view, the only one that shows the create form.
- The theme loaded from `localStorage` or `prefers-color-scheme`, the `data-theme` attribute, the toast auto-dismiss timer, `window.confirm` (a boolean parameter) and `console.error` are not modelled.
- Rendering is not modelled: frontend/src/components/users/UserDetail.tsx, the JSX and CSS, and the input change handlers (plain field assignments).
- UserForm.ErrorMessages: the server's `message` is modelled as a string, and an `errors` entry either has a string `message` or is an object without one. Other JSON values are not modelled.
