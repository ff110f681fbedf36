/** The server-side validation rules of backend/src/validators/user.schema.ts: the
    create schema, the update schema (every field optional, at least one present) and
    the pagination query schema.

    The schemas are zod schemas; this module states what zod does with them:
    - a missing required value or a value of the wrong type is a FATAL issue, after
      which zod gives up on the object ("aborted");
    - a failed check (`min`, `max`, `email`, `int`) adds its issue and the remaining
      checks still run; the object is then only "dirty";
    - the keys are checked in the order the object declares them;
    - a refinement on the object runs when nothing was fatal, even if a field is dirty.
    zod's email test is not modelled: it is the parameter `isEmail`. String lengths are
    JavaScript lengths (`JsLength`, UTF-16 code units). */
module UserSchema {
  import opened Types
  import opened JsText

  /** One validation issue: the path of keys to the offending value and a message. */
  datatype Issue = Issue(path: seq<string>, message: string)

  /** What one field's schema reports: its issues, and whether one of them is fatal. */
  datatype FieldCheck = FieldCheck(issues: seq<Issue>, fatal: bool)

  /** A create or update request body after JSON parsing: the values found under the
      three keys the schema reads (`None` for an absent key; other keys are stripped),
      or a top-level value that is not an object. */
  datatype RequestBody =
    | Fields(name: Option<Json>, email: Option<Json>, age: Option<Json>)
    | NotAnObject(value: Json)

  /** A query-string parameter as the query parser delivers it: one string, a list of
      strings (the key was repeated) or a nested object. */
  datatype QueryValue = QStr(s: string) | QArray(items: seq<string>) | QObject

  const NameRequired := "El nombre es obligatorio"
  const NameEmpty := "El nombre no puede estar vacío"
  const NameTooLong := "El nombre es demasiado largo"
  const EmailRequired := "El email es obligatorio"
  const EmailInvalid := "Debe ser un email válido"
  const EmailTooLong := "El email es demasiado largo"
  const AgeNotInteger := "La edad debe ser un entero"
  const AgeNegative := "La edad no puede ser negativa"
  const NothingToUpdate := "Debe enviar al menos un campo para actualizar"

  const NameMaxLength := 100
  const EmailMaxLength := 150
  const PageSizeMax := 100

  /** zod's name for the type of a parsed value, used in its "Expected …" messages. */
  function TypeName(j: Json): string
  {
    match j
    case JNull => "null"
    case JBool(_) => "boolean"
    case JNum(_) => "number"
    case JStr(_) => "string"
    case JArr(_) => "array"
    case JObj(_) => "object"
  }

  predicate IsInteger(x: real) { x.Floor as real == x }

  function Fatal(key: string, message: string): FieldCheck
  {
    FieldCheck([Issue([key], message)], true)
  }

  function When(c: bool, key: string, message: string): seq<Issue>
  {
    if c then [Issue([key], message)] else []
  }

  /** `name: z.string({required_error}).min(1).max(100)`; `required` is false for the
      partial (update) schema. */
  function NameCheck(v: Option<Json>, required: bool): (r: FieldCheck)
    ensures |r.issues| == 0 <==> (v.None? && !required) || (v.Some? && ValidName(v.value))
    ensures r.fatal ==> |r.issues| > 0
  {
    match v
    case None => if required then Fatal("name", NameRequired) else FieldCheck([], false)
    case Some(JStr(s)) =>
      FieldCheck(When(JsLength(s) < 1, "name", NameEmpty) + When(JsLength(s) > NameMaxLength, "name", NameTooLong), false)
    case Some(j) => Fatal("name", "Expected string, received " + TypeName(j))
  }

  /** `email: z.string({required_error}).email().max(150)`. */
  function EmailCheck(isEmail: string -> bool, v: Option<Json>, required: bool): (r: FieldCheck)
    ensures |r.issues| == 0 <==> (v.None? && !required) || (v.Some? && ValidEmail(isEmail, v.value))
    ensures r.fatal ==> |r.issues| > 0
  {
    match v
    case None => if required then Fatal("email", EmailRequired) else FieldCheck([], false)
    case Some(JStr(s)) =>
      FieldCheck(When(!isEmail(s), "email", EmailInvalid) + When(JsLength(s) > EmailMaxLength, "email", EmailTooLong), false)
    case Some(j) => Fatal("email", "Expected string, received " + TypeName(j))
  }

  /** `age: z.number().int().min(0).optional().nullable()`. */
  function AgeCheck(v: Option<Json>): (r: FieldCheck)
    ensures |r.issues| == 0 <==> v.None? || ValidAge(v.value)
    ensures r.fatal ==> |r.issues| > 0
  {
    match v
    case None => FieldCheck([], false)
    case Some(JNull) => FieldCheck([], false)
    case Some(JNum(x)) =>
      FieldCheck(When(!IsInteger(x), "age", AgeNotInteger) + When(x < 0.0, "age", AgeNegative), false)
    case Some(j) => Fatal("age", "Expected number, received " + TypeName(j))
  }

  /** The parsed value of a string field (only read once the field passed). */
  function StringValue(v: Option<Json>): Option<string>
  {
    match v
    case Some(JStr(s)) => Some(s)
    case _ => None
  }

  /** The parsed value of the age field: undefined, null or the integer. */
  function AgeValue(v: Option<Json>): Nullable<int>
  {
    match v
    case Some(JNum(x)) => Value(x.Floor)
    case Some(JNull) => Null
    case _ => Undefined
  }

  function ParsedPayload(name: Option<Json>, email: Option<Json>, age: Option<Json>): UserPayload
  {
    UserPayload(StringValue(name), StringValue(email), AgeValue(age))
  }

  function RootNotObject(j: Json): seq<Issue>
  {
    [Issue([], "Expected object, received " + TypeName(j))]
  }

  // ----- The rules, stated field by field, independently of zod's mechanics -----

  predicate ValidName(v: Json) { v.JStr? && 1 <= JsLength(v.s) <= NameMaxLength }

  predicate ValidEmail(isEmail: string -> bool, v: Json) { v.JStr? && isEmail(v.s) && JsLength(v.s) <= EmailMaxLength }

  /** An age is acceptable when it is null or a non-negative integer. */
  predicate ValidAge(v: Json) { v.JNull? || (v.JNum? && IsInteger(v.n) && v.n >= 0.0) }

  predicate CreateAcceptable(isEmail: string -> bool, b: RequestBody)
  {
    && b.Fields?
    && b.name.Some? && ValidName(b.name.value)
    && b.email.Some? && ValidEmail(isEmail, b.email.value)
    && (b.age.Some? ==> ValidAge(b.age.value))
  }

  /** JavaScript truthiness of an optional string-valued field (`data.name || …`). */
  predicate TruthyString(v: Option<Json>) { v.Some? && v.value.JStr? && |v.value.s| > 0 }

  predicate UpdateAcceptable(isEmail: string -> bool, b: RequestBody)
  {
    && b.Fields?
    && (b.name.Some? ==> ValidName(b.name.value))
    && (b.email.Some? ==> ValidEmail(isEmail, b.email.value))
    && (b.age.Some? ==> ValidAge(b.age.value))
    && (TruthyString(b.name) || TruthyString(b.email) || b.age.Some?)
  }

  /** `userCreateSchema.parse(body)`: the parsed payload, or the issues zod reports. */
  function CreateSchema(isEmail: string -> bool, b: RequestBody): (r: Result<UserPayload, seq<Issue>>)
    ensures r.Ok? <==> CreateAcceptable(isEmail, b)
    ensures r.Ok? ==> r.value.name == Some(b.name.value.s) && r.value.email == Some(b.email.value.s)
    ensures r.Ok? ==> r.value.age == AgeValue(b.age)
    ensures r.Err? ==> r.error != []
    ensures b.Fields? && b.name.None? ==> r.Err? && Issue(["name"], NameRequired) in r.error
    ensures b.Fields? && b.email.None? ==> r.Err? && Issue(["email"], EmailRequired) in r.error
  {
    match b
    case NotAnObject(j) => Err(RootNotObject(j))
    case Fields(n, e, a) =>
      var issues := NameCheck(n, true).issues + EmailCheck(isEmail, e, true).issues + AgeCheck(a).issues;
      if |issues| == 0 then Ok(ParsedPayload(n, e, a)) else Err(issues)
  }

  /** `userUpdateSchema.parse(body)`: the partial schema, then the refinement that at
      least one field was sent (it runs only when no field issue was fatal). */
  function UpdateSchema(isEmail: string -> bool, b: RequestBody): (r: Result<UserPayload, seq<Issue>>)
    ensures r.Ok? <==> UpdateAcceptable(isEmail, b)
    ensures r.Ok? ==> r.value == ParsedPayload(b.name, b.email, b.age)
    ensures r.Err? ==> r.error != []
  {
    match b
    case NotAnObject(j) => Err(RootNotObject(j))
    case Fields(n, e, a) =>
      var nc, ec, ac := NameCheck(n, false), EmailCheck(isEmail, e, false), AgeCheck(a);
      var fatal := nc.fatal || ec.fatal || ac.fatal;
      var refinementFails := !fatal && !(TruthyString(n) || TruthyString(e) || a.Some?);
      var issues := nc.issues + ec.issues + ac.issues + (if refinementFails then [Issue([], NothingToUpdate)] else []);
      if |issues| == 0 then Ok(ParsedPayload(n, e, a)) else Err(issues)
  }

  // ----- Pagination -----

  /** The text a pagination parameter is read from: the value, or the schema default
      when it is absent; `None` when the value is not a single string. */
  function QueryText(v: Option<QueryValue>, dflt: string): Option<string>
  {
    if v.None? then Some(dflt) else if v.value.QStr? then Some(v.value.s) else None
  }

  /** Whether a parameter is acceptable: its text parses to an integer in [1, max]
      (no upper bound when `max` is `None`). */
  predicate AcceptableNumber(v: Option<QueryValue>, dflt: string, max: Option<int>)
  {
    var t := QueryText(v, dflt);
    && t.Some? && ParseInt(t.value).Some?
    && 1 <= ParseInt(t.value).value
    && (max.Some? ==> ParseInt(t.value).value <= max.value)
  }

  /** One pagination parameter: `z.string().transform(parseInt).pipe(z.number().int()
      .min(1)[.max(max)]).optional().default(dflt)`. `ParseInt` gives an exact
      integer or NaN (`None`), so the `int` check has nothing to reject in this model;
      the Infinity JavaScript gives for a very long digit run is not modelled. */
  function QueryNumber(key: string, v: Option<QueryValue>, dflt: string, max: Option<int>): (r: Result<int, seq<Issue>>)
    ensures r.Ok? <==> AcceptableNumber(v, dflt, max)
    ensures r.Ok? ==> Some(r.value) == ParseInt(QueryText(v, dflt).value)
    ensures r.Err? ==> r.error != [] && forall i :: 0 <= i < |r.error| ==> r.error[i].path == [key]
  {
    var q := if v.Some? then v.value else QStr(dflt);
    match q
    case QArray(_) => Err([Issue([key], "Expected string, received array")])
    case QObject => Err([Issue([key], "Expected string, received object")])
    case QStr(s) =>
      var n := ParseInt(s);
      if n.None? then Err([Issue([key], "Expected number, received nan")])
      else
        var issues := RangeIssues(key, n.value, max);
        if issues == [] then Ok(n.value) else Err(issues)
  }

  /** The `min(1)` and `max(max)` checks on a parsed number, in that order. */
  function RangeIssues(key: string, n: int, max: Option<int>): (r: seq<Issue>)
    ensures r == [] <==> 1 <= n && (max.Some? ==> n <= max.value)
    ensures forall i :: 0 <= i < |r| ==> r[i].path == [key]
  {
    When(n < 1, key, "Number must be greater than or equal to 1")
      + (if max.Some? then When(n > max.value, key, "Number must be less than or equal to " + IntToString(max.value)) else [])
  }

  /** `paginationSchema.parse({page, pageSize})`: both parsed numbers, or the issues of
      `page` followed by those of `pageSize`. */
  function PaginationSchema(page: Option<QueryValue>, pageSize: Option<QueryValue>): (r: Result<(int, int), seq<Issue>>)
    ensures r.Ok? <==> AcceptableNumber(page, "1", None) && AcceptableNumber(pageSize, "10", Some(PageSizeMax))
    ensures r.Ok? ==> Some(r.value.0) == ParseInt(QueryText(page, "1").value)
    ensures r.Ok? ==> Some(r.value.1) == ParseInt(QueryText(pageSize, "10").value)
    ensures r.Ok? ==> r.value.0 >= 1 && 1 <= r.value.1 <= PageSizeMax
    ensures r.Err? ==> r.error != []
  {
    var p := QueryNumber("page", page, "1", None);
    var s := QueryNumber("pageSize", pageSize, "10", Some(PageSizeMax));
    if p.Ok? && s.Ok? then Ok((p.value, s.value))
    else Err((if p.Err? then p.error else []) + (if s.Err? then s.error else []))
  }

  /** Absent parameters default to the texts "1" and "10", which parse to 1 and 10. */
  lemma PaginationDefaults()
    ensures PaginationSchema(None, None) == Ok((1, 10))
  {
    ParseIntUnsigned("1", "");
    ParseIntUnsigned("10", "");
    assert "1" + "" == "1" && DecimalValue("1") == 1;
    assert "10" + "" == "10" && DecimalValue("10") == 10;
    assert QueryNumber("page", None, "1", None) == Ok(1);
    assert QueryNumber("pageSize", None, "10", Some(PageSizeMax)) == Ok(10);
  }

  /** Sending the default texts explicitly gives the same page and size. */
  lemma PaginationExplicitDefaults()
    ensures PaginationSchema(Some(QStr("1")), Some(QStr("10"))) == Ok((1, 10))
  {
    ParseIntUnsigned("1", "");
    ParseIntUnsigned("10", "");
    assert "1" + "" == "1" && DecimalValue("1") == 1;
    assert "10" + "" == "10" && DecimalValue("10") == 10;
    assert QueryNumber("page", Some(QStr("1")), "1", None) == Ok(1);
    assert QueryNumber("pageSize", Some(QStr("10")), "10", Some(PageSizeMax)) == Ok(10);
  }

  /** `page=0` is rejected with the minimum-value issue on `page`. */
  lemma PageZeroRejected()
    ensures PaginationSchema(Some(QStr("0")), None).Err?
    ensures Issue(["page"], "Number must be greater than or equal to 1") in PaginationSchema(Some(QStr("0")), None).error
  {
    ParseIntOfIntToString(0, "");
    assert IntToString(0) + "" == "0";
  }

  /** Non-numeric text is NaN for parseInt, so the parameter is rejected. */
  lemma NonNumericPageRejected(s: string)
    requires s != [] && !IsWhite(s[0]) && !IsDigit(s[0]) && s[0] != '+' && s[0] != '-'
    ensures PaginationSchema(Some(QStr(s)), None).Err?
  {
    TrimStartUnpadded(s);
    assert DigitPrefix(s) == [];
    assert ParseInt(s) == None;
  }

  /** `POST /users` with `{}` reports both missing fields, name first. */
  lemma EmptyCreateBodyReportsBothFields(isEmail: string -> bool)
    ensures CreateSchema(isEmail, Fields(None, None, None))
         == Err([Issue(["name"], NameRequired), Issue(["email"], EmailRequired)])
  {
    var n, e := Issue(["name"], NameRequired), Issue(["email"], EmailRequired);
    assert NameCheck(None, true).issues == [n];
    assert EmailCheck(isEmail, None, true).issues == [e];
    assert AgeCheck(None).issues == [];
    assert [n] + [e] + [] == [n, e];
  }

  /** An update body without any of the three keys is rejected by the refinement. */
  lemma UpdateWithNoFieldsRejected(isEmail: string -> bool)
    ensures UpdateSchema(isEmail, Fields(None, None, None)) == Err([Issue([], NothingToUpdate)])
  {
    assert [] + [] + [] + [Issue([], NothingToUpdate)] == [Issue([], NothingToUpdate)];
  }

  /** `{age: null}` alone is a valid update that clears the age. */
  lemma UpdateWithOnlyNullAge(isEmail: string -> bool)
    ensures UpdateSchema(isEmail, Fields(None, None, Some(JNull))) == Ok(UserPayload(None, None, Null))
  {
  }
}
