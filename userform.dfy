/** The client-side user form of frontend/src/components/users/UserForm.tsx: its own
    validation (trimmed blank checks, the pattern `\S+@\S+\.\S+`, a non-negative
    integer age), the payload it submits, the messages it shows when the submit is
    rejected, and the field initialisation from the record being edited. */
module UserForm {
  import opened Types
  import opened JsText
  import Http
  import ErrorHandler

  const SaveFailed := "Ha ocurrido un error al guardar el usuario."
  /** `String(e)` of an object without a `message` property. */
  const PlainObjectText := "[object Object]"

  // ----- The email pattern -----

  /** The unanchored regular expression `\S+@\S+\.\S+` matches with its `@` at `a`
      and its `.` at `b`: a non-white character before the `@`, a non-empty
      non-white run between them, and a non-white character after the `.`. */
  ghost predicate MatchAround(s: string, a: int, b: int)
  {
    && 1 <= a && a + 2 <= b && b + 1 < |s|
    && s[a] == '@' && s[b] == '.'
    && !IsWhite(s[a - 1]) && !IsWhite(s[b + 1])
    && forall k :: a < k < b ==> !IsWhite(s[k])
  }

  ghost predicate EmailPattern(s: string)
  {
    exists a, b :: MatchAround(s, a, b)
  }

  /** The end of the run of non-white characters that starts at `i`. */
  function RunEnd(s: string, i: int): (e: int)
    requires 0 <= i <= |s|
    ensures i <= e <= |s|
    ensures forall k :: i <= k < e ==> !IsWhite(s[k])
    ensures e < |s| ==> IsWhite(s[e])
    decreases |s| - i
  {
    if i < |s| && !IsWhite(s[i]) then RunEnd(s, i + 1) else i
  }

  /** Whether some position in `[lo, hi)` holds a `.`. */
  function DotIn(s: string, lo: int, hi: int): (r: bool)
    requires 0 <= lo && hi <= |s|
    ensures r <==> exists b :: lo <= b < hi && s[b] == '.'
    decreases hi - lo
  {
    if lo >= hi then false else s[lo] == '.' || DotIn(s, lo + 1, hi)
  }

  /** The matcher tried with the `@` at `a`: the longest non-white run after it
      must hold a `.` that is neither its first nor its last character. */
  function MatchesAt(s: string, a: int): bool
    requires 0 <= a < |s|
  {
    1 <= a && s[a] == '@' && !IsWhite(s[a - 1]) && DotIn(s, a + 2, RunEnd(s, a + 1) - 1)
  }

  /** The matcher tried at every position from `i` on. */
  function Scan(s: string, i: nat): bool
    decreases |s| - i
  {
    i < |s| && (MatchesAt(s, i) || Scan(s, i + 1))
  }

  /** `/\S+@\S+\.\S+/.test(s)`. */
  function EmailTest(s: string): bool
  {
    Scan(s, 0)
  }

  lemma MatchesAtIff(s: string, a: int)
    requires 0 <= a < |s|
    ensures MatchesAt(s, a) <==> exists b :: MatchAround(s, a, b)
  {
    if MatchesAt(s, a) {
      var e := RunEnd(s, a + 1);
      var b :| a + 2 <= b < e - 1 && s[b] == '.';
      assert MatchAround(s, a, b);
    }
    if b :| MatchAround(s, a, b) {
      var e := RunEnd(s, a + 1);
      assert a + 2 <= b < e - 1 && s[b] == '.';
    }
  }

  lemma {:induction false} ScanIff(s: string, i: nat)
    ensures Scan(s, i) <==> exists a, b :: i <= a && MatchAround(s, a, b)
    decreases |s| - i
  {
    if i < |s| {
      ScanIff(s, i + 1);
      MatchesAtIff(s, i);
      if a, b :| i <= a && MatchAround(s, a, b) {
        if a == i {
          assert MatchesAt(s, i);
        } else {
          assert Scan(s, i + 1);
        }
      }
    }
  }

  /** The matcher accepts exactly the strings the pattern describes. */
  lemma EmailTestIff(s: string)
    ensures EmailTest(s) <==> EmailPattern(s)
  {
    ScanIff(s, 0);
  }

  /** A match consists of non-white characters, so it survives trimming. */
  lemma TrimKeepsPattern(s: string)
    requires EmailPattern(s)
    ensures EmailPattern(Trim(s))
  {
    var a, b :| MatchAround(s, a, b);
    var t := TrimStart(s);
    var p := |s| - |t|;
    var r := TrimEnd(t);
    TrimStartShape(s);
    TrimEndShape(t);
    assert r == Trim(s);
    forall k | 0 <= k < |r| ensures r[k] == s[p + k] {
      assert r[k] == t[k];
    }
    assert MatchAround(r, a - p, b - p);
  }

  // ----- Validation -----

  /** The age text is empty, or `Number` of it is a non-negative integer. */
  predicate AgeAcceptable(age: string)
  {
    |age| == 0 || (NumberOf(age).Some? && NumberOf(age).value >= 0)
  }

  /** The conditions the form enforces, stated independently of the error list. */
  ghost predicate FormAcceptable(name: string, email: string, age: string)
  {
    |Trim(name)| != 0 && |Trim(email)| != 0 && EmailPattern(email) && AgeAcceptable(age)
  }

  /** The problems `validate` reports, in the order it checks them. */
  datatype FormError = NameMissing | EmailMissing | EmailMalformed | AgeInvalid

  function Rank(e: FormError): (r: nat)
    ensures r < 4
  {
    match e
    case NameMissing => 0
    case EmailMissing => 1
    case EmailMalformed => 2
    case AgeInvalid => 3
  }

  /** The message the form shows for each problem. */
  function Text(e: FormError): (m: string)
    ensures e == NameMissing ==> m == "El nombre es obligatorio."
    ensures e == EmailMissing ==> m == "El email es obligatorio."
    ensures e == EmailMalformed ==> m == "El email no tiene un formato válido."
    ensures e == AgeInvalid ==> m == "La edad debe ser un número entero mayor o igual a 0."
  {
    match e
    case NameMissing => "El nombre es obligatorio."
    case EmailMissing => "El email es obligatorio."
    case EmailMalformed => "El email no tiene un formato válido."
    case AgeInvalid => "La edad debe ser un número entero mayor o igual a 0."
  }

  /** Different problems show different messages. */
  lemma TextInjective(e: FormError, f: FormError)
    requires Text(e) == Text(f)
    ensures e == f
  {
    assert |Text(NameMissing)| == 25 && |Text(EmailMissing)| == 24;
    assert |Text(EmailMalformed)| == 36 && |Text(AgeInvalid)| == 52;
  }

  function Texts(es: seq<FormError>): (r: seq<string>)
    ensures |r| == |es|
    ensures forall i :: 0 <= i < |es| ==> r[i] == Text(es[i])
  {
    if |es| == 0 then [] else [Text(es[0])] + Texts(es[1..])
  }

  /** `validate()`: name, then email (required, else format), then age. */
  function Validate(name: string, email: string, age: string): (errs: seq<FormError>)
    ensures |errs| == 0 <==> FormAcceptable(name, email, age)
    ensures NameMissing in errs <==> |Trim(name)| == 0
    ensures EmailMissing in errs <==> |Trim(email)| == 0
    ensures EmailMalformed in errs <==> |Trim(email)| != 0 && !EmailPattern(email)
    ensures AgeInvalid in errs <==> !AgeAcceptable(age)
    ensures forall i, j :: 0 <= i < j < |errs| ==> Rank(errs[i]) < Rank(errs[j])
  {
    EmailTestIff(email);
    var nameErrs := if |Trim(name)| == 0 then [NameMissing] else [];
    var emailErrs :=
      if |Trim(email)| == 0 then [EmailMissing]
      else if !EmailTest(email) then [EmailMalformed]
      else [];
    var ageErrs := if AgeAcceptable(age) then [] else [AgeInvalid];
    nameErrs + emailErrs + ageErrs
  }

  /** The object handed to `onSubmit`: trimmed name and email; an empty age text is
      `null`. A text `Number` reads as NaN would be sent as `null` too, but it never
      passes `Validate`. */
  function Payload(name: string, email: string, age: string): (r: UserInput)
    ensures r.name == Trim(name) && r.email == Trim(email)
    ensures |age| == 0 ==> r.age == None
    ensures AgeAcceptable(age) && r.age.Some? ==> r.age.value >= 0
    ensures |age| != 0 && AgeAcceptable(age) ==> r.age == NumberOf(age)
  {
    UserInput(Trim(name), Trim(email), if |age| == 0 then None else NumberOf(age))
  }

  /** What the form submits once it passes validation: a non-blank name, an email
      that still matches the pattern, and a non-negative age or null. */
  lemma AcceptedPayload(name: string, email: string, age: string)
    requires |Validate(name, email, age)| == 0
    ensures |Payload(name, email, age).name| != 0
    ensures EmailPattern(Payload(name, email, age).email)
    ensures Payload(name, email, age).age.Some? ==> Payload(name, email, age).age.value >= 0
  {
    TrimKeepsPattern(email);
  }

  // ----- Messages of a rejected submit -----

  /** One element of the server's `errors` list. */
  datatype ErrorEntry = Described(message: string) | Undescribed

  /** The parts of `error.response.data` the form reads. */
  datatype ErrorData = ErrorData(message: Option<string>, errors: Option<seq<ErrorEntry>>)

  /** A rejected `onSubmit`; `data == None` when the rejection carries no response
      data (a network failure, say). */
  datatype Rejection = Rejection(data: Option<ErrorData>)

  /** `e.message ?? String(e)`. */
  function EntryText(e: ErrorEntry): (r: string)
    ensures e.Described? ==> r == e.message
    ensures e.Undescribed? ==> r == PlainObjectText
  {
    match e
    case Described(m) => m
    case Undescribed => PlainObjectText
  }

  function EntryTexts(es: seq<ErrorEntry>): (r: seq<string>)
    ensures |r| == |es|
    ensures forall i :: 0 <= i < |es| ==> r[i] == EntryText(es[i])
  {
    if |es| == 0 then [] else [EntryText(es[0])] + EntryTexts(es[1..])
  }

  /** A string is truthy when it is not empty. */
  predicate HasMessage(d: ErrorData)
  {
    d.message.Some? && |d.message.value| != 0
  }

  /** The messages shown after a rejected submit, in priority order: the server's
      `message`, else the server's `errors`, else one generic message. */
  function ErrorMessages(rej: Rejection): (r: seq<string>)
    ensures rej.data.Some? && HasMessage(rej.data.value) ==> r == [rej.data.value.message.value]
    ensures rej.data.Some? && !HasMessage(rej.data.value) && rej.data.value.errors.Some?
            ==> (|r| == |rej.data.value.errors.value|
                 && forall i :: 0 <= i < |r| ==> r[i] == EntryText(rej.data.value.errors.value[i]))
    ensures (rej.data.None? || (!HasMessage(rej.data.value) && rej.data.value.errors.None?)) ==> r == [SaveFailed]
  {
    match rej.data
    case None => [SaveFailed]
    case Some(d) =>
      if HasMessage(d) then [d.message.value]
      else if d.errors.Some? then EntryTexts(d.errors.value)
      else [SaveFailed]
  }

  /** The `data` of an error reply of the server. */
  function DataOf(b: Http.Body): (d: ErrorData)
    ensures b.ValidationBody? ==> d.errors.Some? && |d.errors.value| == |b.errors|
  {
    match b
    case MessageDetails(m, _) => ErrorData(Some(m), None)
    case ValidationBody(m, issues) =>
      ErrorData(Some(m), Some(seq(|issues|, i requires 0 <= i < |issues| => Described(issues[i].message))))
    case MessageMeta(m, _) => ErrorData(Some(m), None)
    case MessageOnly(m) => ErrorData(Some(m), None)
    case _ => ErrorData(None, None)
  }

  /** Every error reply of the server carries a non-empty `message`, so the form
      shows that message alone; in particular a validation failure shows
      "Error de validación" and never the server's per-field issues. */
  lemma ServerErrorsShowOnlyMessage(e: Http.Error)
    requires e.AppError? ==> e.message != ""
    ensures ErrorMessages(Rejection(Some(DataOf(ErrorHandler.ErrorResponse(e).body))))
         == [DataOf(ErrorHandler.ErrorResponse(e).body).message.value]
    ensures e.ZodError? ==>
              ErrorMessages(Rejection(Some(DataOf(ErrorHandler.ErrorResponse(e).body)))) == [ErrorHandler.ValidationMessage]
  {
  }

  // ----- The form's state -----

  class FormState {
    var name: string
    var email: string
    var age: string
    var errors: seq<string>
    var submitting: bool

    constructor ()
      ensures name == "" && email == "" && age == "" && errors == [] && !submitting
    {
      name := "";
      email := "";
      age := "";
      errors := [];
      submitting := false;
    }

    /** The effect run when `initialUser` or `mode` changes: copy the record into the
        fields (a null age becomes the empty text), or clear them; drop old errors. */
    method Init(initialUser: Option<User>)
      modifies this
      ensures initialUser.Some? ==> name == initialUser.value.name && email == initialUser.value.email
      ensures initialUser.Some? ==>
                age == (if initialUser.value.age.Some? then IntToString(initialUser.value.age.value) else "")
      ensures initialUser.None? ==> name == "" && email == "" && age == ""
      ensures errors == [] && submitting == old(submitting)
    {
      if initialUser.Some? {
        var u := initialUser.value;
        name := u.name;
        email := u.email;
        age := if u.age.Some? then IntToString(u.age.value) else "";
      } else {
        name := "";
        email := "";
        age := "";
      }
      errors := [];
    }

    /** `handleSubmit`: validate; with errors, show them and send nothing (the
        `submitting` flag is not touched). Otherwise send the payload, then show nothing if `onSubmit` resolved (`reply == None`)
        or the messages of its rejection. Returns what was handed to `onSubmit`. */
    method HandleSubmit(reply: Option<Rejection>) returns (sent: Option<UserInput>)
      modifies this
      ensures name == old(name) && email == old(email) && age == old(age)
      ensures |Validate(name, email, age)| > 0 ==>
                sent == None && errors == Texts(Validate(name, email, age)) && submitting == old(submitting)
      ensures |Validate(name, email, age)| == 0 ==>
                sent == Some(Payload(name, email, age))
                && errors == (if reply.None? then [] else ErrorMessages(reply.value))
                && !submitting
    {
      var errs := Validate(name, email, age);
      if |errs| > 0 {
        errors := Texts(errs);
        sent := None;
      } else {
        submitting := true;
        sent := Some(Payload(name, email, age));
        errors := if reply.None? then [] else ErrorMessages(reply.value);
        submitting := false;
      }
    }
  }

  /** Opening the edit form on a record and submitting it untouched sends that
      record's fields back, provided the stored name and email carry no surrounding
      white space: the age goes out as text and reads back as the same number. */
  lemma UntouchedEditSendsRecord(u: User)
    requires u.name != [] ==> !IsWhite(u.name[0]) && !IsWhite(u.name[|u.name| - 1])
    requires u.email != [] ==> !IsWhite(u.email[0]) && !IsWhite(u.email[|u.email| - 1])
    ensures Payload(u.name, u.email, if u.age.Some? then IntToString(u.age.value) else "")
         == UserInput(u.name, u.email, u.age)
  {
    TrimKeepsUnpadded(u.name);
    TrimKeepsUnpadded(u.email);
    if u.age.Some? {
      NumberOfIntToString(u.age.value);
    }
  }
}
