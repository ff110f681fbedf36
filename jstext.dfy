/** The JavaScript string built-ins the core relies on: `String.prototype.trim`,
    `parseInt(s, 10)`, `Number(s)` on the texts the form accepts, and `String(n)`
    for an integer, and the `length` of a string. A Dafny string is a sequence of
    Unicode scalar values, while a JavaScript string is a sequence of UTF-16 code
    units: `JsLength` counts the latter. */
module JsText {
  import opened Types

  /** A WhiteSpace or LineTerminator code point (sections 12.2 and 12.3 of ECMA-262):
      the characters `trim`, `parseInt`, `Number` and the regular expression class
      `\s` all treat as white space. */
  predicate IsWhite(c: char)
  {
    || c == '\t' || c == '\n' || c == '\U{000B}' || c == '\U{000C}' || c == '\r'
    || c == ' ' || c == '\U{00A0}' || c == '\U{1680}'
    || ('\U{2000}' <= c <= '\U{200A}')
    || c == '\U{2028}' || c == '\U{2029}' || c == '\U{202F}' || c == '\U{205F}'
    || c == '\U{3000}' || c == '\U{FEFF}'
  }

  predicate IsDigit(c: char) { '0' <= c <= '9' }

  predicate AllDigits(s: string) { forall i :: 0 <= i < |s| ==> IsDigit(s[i]) }

  /** `s.length`: the number of UTF-16 code units. A character outside the Basic
      Multilingual Plane is a surrogate pair and counts twice. */
  function JsLength(s: string): (n: nat)
    ensures |s| <= n <= 2 * |s|
  {
    |s| + SupplementaryFrom(s, 0)
  }

  /** The number of characters outside the Basic Multilingual Plane in `s[i..]`. */
  function SupplementaryFrom(s: string, i: nat): (c: nat)
    requires i <= |s|
    ensures c <= |s| - i
    decreases |s| - i
  {
    if i == |s| then 0 else (if s[i] >= '\U{10000}' then 1 else 0) + SupplementaryFrom(s, i + 1)
  }

  /** The two lengths agree exactly when every character is in the Basic Multilingual
      Plane. */
  lemma JsLengthOfBmp(s: string)
    ensures JsLength(s) == |s| <==> forall i :: 0 <= i < |s| ==> s[i] < '\U{10000}'
  {
    NoSupplementaryFrom(s, 0);
  }

  lemma {:induction false} NoSupplementaryFrom(s: string, i: nat)
    requires i <= |s|
    ensures SupplementaryFrom(s, i) == 0 <==> forall j :: i <= j < |s| ==> s[j] < '\U{10000}'
    decreases |s| - i
  {
    if i < |s| {
      NoSupplementaryFrom(s, i + 1);
    }
  }

  function DigitValue(c: char): (d: nat)
    requires IsDigit(c)
    ensures d < 10
  {
    (c as int) - ('0' as int)
  }

  function DigitChar(d: nat): (c: char)
    requires d < 10
    ensures IsDigit(c) && DigitValue(c) == d
  {
    (('0' as int) + d) as char
  }

  /** Drops the leading white space. */
  function TrimStart(s: string): string
  {
    if s != [] && IsWhite(s[0]) then TrimStart(s[1..]) else s
  }

  /** Drops the trailing white space. */
  function TrimEnd(s: string): string
  {
    if s != [] && IsWhite(s[|s| - 1]) then TrimEnd(s[..|s| - 1]) else s
  }

  /** What `TrimStart` leaves: a suffix of the input that does not start with white
      space, everything before it being white space. */
  lemma {:induction false} TrimStartShape(s: string)
    ensures |TrimStart(s)| <= |s| && TrimStart(s) == s[|s| - |TrimStart(s)|..]
    ensures forall i :: 0 <= i < |s| - |TrimStart(s)| ==> IsWhite(s[i])
    ensures TrimStart(s) != [] ==> !IsWhite(TrimStart(s)[0])
  {
    if s != [] && IsWhite(s[0]) {
      TrimStartShape(s[1..]);
      assert s[1..][|s| - 1 - |TrimStart(s)|..] == s[|s| - |TrimStart(s)|..];
    }
  }

  /** What `TrimEnd` leaves: a prefix of the input that does not end with white
      space, everything after it being white space. */
  lemma {:induction false} TrimEndShape(s: string)
    ensures |TrimEnd(s)| <= |s| && TrimEnd(s) == s[..|TrimEnd(s)|]
    ensures forall i :: |TrimEnd(s)| <= i < |s| ==> IsWhite(s[i])
    ensures TrimEnd(s) != [] ==> !IsWhite(TrimEnd(s)[|TrimEnd(s)| - 1])
  {
    if s != [] && IsWhite(s[|s| - 1]) {
      TrimEndShape(s[..|s| - 1]);
      assert s[..|s| - 1][..|TrimEnd(s)|] == s[..|TrimEnd(s)|];
    }
  }

  /** `s.trim()`. */
  function Trim(s: string): string
  {
    TrimEnd(TrimStart(s))
  }

  /** A trimmed string is empty exactly when every character is white space; this
      is what makes `!s.trim()` a blank test. */
  lemma TrimEmptyIffBlank(s: string)
    ensures Trim(s) == [] <==> forall i :: 0 <= i < |s| ==> IsWhite(s[i])
  {
    var t := TrimStart(s);
    TrimStartShape(s);
    TrimEndShape(t);
    if Trim(s) == [] {
      assert |t| == 0;
    } else {
      var r := Trim(s);
      assert r[0] == t[0];
      assert t[0] == s[|s| - |t|];
    }
  }

  /** Trimming leaves a string alone when neither end is white space. */
  lemma TrimKeepsUnpadded(s: string)
    requires s != [] ==> !IsWhite(s[0]) && !IsWhite(s[|s| - 1])
    ensures Trim(s) == s
  {
  }

  /** The mathematical value of a decimal digit string, most significant digit first. */
  function DecimalValue(d: string): nat
    requires AllDigits(d)
  {
    if d == [] then 0 else DecimalValue(d[..|d| - 1]) * 10 + DigitValue(d[|d| - 1])
  }

  /** The longest prefix of `s` made of decimal digits. */
  function DigitPrefix(s: string): (z: string)
    ensures AllDigits(z) && |z| <= |s| && z == s[..|z|]
    ensures |z| < |s| ==> !IsDigit(s[|z|])
  {
    if s != [] && IsDigit(s[0]) then [s[0]] + DigitPrefix(s[1..]) else []
  }

  /** `parseInt(s, 10)` (section 19.2.5 of ECMA-262): skip leading white space, read
      one optional sign, then the longest run of decimal digits. No digits gives NaN,
      written `None`. A negative zero is the integer 0. The loss of precision of
      very long digit runs is not modelled. */
  function ParseInt(s: string): Option<int>
  {
    ParseSigned(TrimStart(s))
  }

  /** The steps of `parseInt` after the leading white space is gone. */
  function ParseSigned(t: string): Option<int>
  {
    var negative := |t| > 0 && t[0] == '-';
    var u := if |t| > 0 && (t[0] == '+' || t[0] == '-') then t[1..] else t;
    var z := DigitPrefix(u);
    if |z| == 0 then None
    else
      var v: int := DecimalValue(z);
      Some(if negative then -v else v)
  }

  /** Decimal digits of a natural number, without leading zeros. */
  function NatToString(n: nat): (r: string)
    ensures r != [] && AllDigits(r)
    ensures DecimalValue(r) == n
    ensures r[0] == '0' ==> r == "0"
  {
    if n < 10 then [DigitChar(n)]
    else
      var r := NatToString(n / 10) + [DigitChar(n % 10)];
      assert r[..|r| - 1] == NatToString(n / 10);
      r
  }

  /** `String(n)` for an integer `n` (below the magnitude where JavaScript switches
      to exponent notation). */
  function IntToString(n: int): (r: string)
    ensures r != [] && (IsDigit(r[0]) || r[0] == '-')
    ensures IsDigit(r[|r| - 1])
  {
    if n < 0 then "-" + NatToString(-n) else NatToString(n)
  }

  /** `Number(s)` (section 7.1.4.1.1 of ECMA-262) restricted to the texts a user types
      into the age field: blank text is 0, an optional sign followed by decimal digits
      is that integer. Every other text is treated as NaN (`None`). */
  function NumberOf(s: string): Option<int>
  {
    var t := Trim(s);
    if t == [] then Some(0) else SignedDecimal(t)
  }

  /** A non-blank trimmed text read as an optional sign and decimal digits. */
  function SignedDecimal(t: string): Option<int>
    requires t != []
  {
    var u := if t[0] == '+' || t[0] == '-' then t[1..] else t;
    if u != [] && AllDigits(u) then
      var v: int := DecimalValue(u);
      Some(if t[0] == '-' then -v else v)
    else None
  }

  lemma DigitPrefixOfDigits(s: string, rest: string)
    requires AllDigits(s)
    requires rest == [] || !IsDigit(rest[0])
    ensures DigitPrefix(s + rest) == s
  {
    if s != [] {
      assert (s + rest)[1..] == s[1..] + rest;
      DigitPrefixOfDigits(s[1..], rest);
    } else {
      assert s + rest == rest;
    }
  }

  /** The sign-and-digits step reads an unsigned digit run up to the first non-digit. */
  lemma ParseSignedUnsigned(d: string, rest: string)
    requires d != [] && AllDigits(d)
    requires rest == [] || !IsDigit(rest[0])
    ensures ParseSigned(d + rest) == Some(DecimalValue(d))
  {
    DigitPrefixOfDigits(d, rest);
    assert (d + rest)[0] == d[0];
  }

  /** The sign-and-digits step reads a minus sign and a digit run up to the first
      non-digit. */
  lemma ParseSignedNegative(d: string, rest: string)
    requires d != [] && AllDigits(d)
    requires rest == [] || !IsDigit(rest[0])
    ensures ParseSigned("-" + (d + rest)) == Some(-(DecimalValue(d) as int))
  {
    var u := d + rest;
    MinusPrefix(u);
    DigitPrefixOfDigits(d, rest);
    ParseSignedMinus("-" + u);
  }

  /** The text `"-" + u` is a minus sign followed by `u`. */
  lemma MinusPrefix(u: string)
    ensures ("-" + u)[0] == '-' && ("-" + u)[1..] == u
  {
  }

  /** After a minus sign, the sign-and-digits step negates the digit run it reads. */
  lemma ParseSignedMinus(t: string)
    requires |t| > 0 && t[0] == '-'
    ensures ParseSigned(t) == (var z := DigitPrefix(t[1..]); if |z| == 0 then None else Some(-(DecimalValue(z) as int)))
  {
  }

  lemma DigitNotWhite(c: char)
    requires IsDigit(c)
    ensures !IsWhite(c)
  {
  }

  lemma TrimStartUnpadded(s: string)
    requires s != [] && !IsWhite(s[0])
    ensures TrimStart(s) == s
  {
  }

  /** parseInt of a digit run up to the first non-digit. */
  lemma ParseIntUnsigned(d: string, rest: string)
    requires d != [] && AllDigits(d)
    requires rest == [] || !IsDigit(rest[0])
    ensures ParseInt(d + rest) == Some(DecimalValue(d))
  {
    var u := d + rest;
    assert u[0] == d[0];
    DigitNotWhite(d[0]);
    TrimStartUnpadded(u);
    ParseSignedUnsigned(d, rest);
  }

  /** parseInt of a minus sign and a digit run up to the first non-digit. */
  lemma ParseIntNegative(d: string, rest: string)
    requires d != [] && AllDigits(d)
    requires rest == [] || !IsDigit(rest[0])
    ensures ParseInt("-" + (d + rest)) == Some(-(DecimalValue(d) as int))
  {
    MinusPrefix(d + rest);
    TrimStartUnpadded("-" + (d + rest));
    ParseSignedNegative(d, rest);
  }

  /** `parseInt(String(n) + rest, 10) == n` when `rest` does not continue the digit
      run: parseInt reads back what String wrote and stops at the first non-digit. */
  lemma ParseIntOfIntToString(n: int, rest: string)
    requires rest == [] || !IsDigit(rest[0])
    ensures ParseInt(IntToString(n) + rest) == Some(n)
  {
    if n < 0 {
      ParseIntNegative(NatToString(-n), rest);
      StringOfNegative(n, rest);
    } else {
      ParseIntUnsigned(NatToString(n), rest);
    }
  }

  lemma StringOfNegative(n: int, rest: string)
    requires n < 0
    ensures IntToString(n) + rest == "-" + (NatToString(-n) + rest)
  {
  }

  /** parseInt ignores leading white space. */
  lemma ParseIntSkipsWhite(w: string, s: string)
    requires forall i :: 0 <= i < |w| ==> IsWhite(w[i])
    ensures ParseInt(w + s) == ParseInt(s)
  {
    TrimStartSkipsWhite(w, s);
  }

  lemma {:induction false} TrimStartSkipsWhite(w: string, s: string)
    requires forall i :: 0 <= i < |w| ==> IsWhite(w[i])
    ensures TrimStart(w + s) == TrimStart(s)
  {
    if w == [] {
      assert w + s == s;
    } else {
      assert (w + s)[1..] == w[1..] + s;
      TrimStartSkipsWhite(w[1..], s);
    }
  }

  lemma SignedDecimalOfDigits(d: string)
    requires d != [] && AllDigits(d)
    ensures SignedDecimal(d) == Some(DecimalValue(d))
  {
  }

  lemma SignedDecimalOfNegative(d: string)
    requires d != [] && AllDigits(d)
    ensures SignedDecimal("-" + d) == Some(-(DecimalValue(d) as int))
  {
    MinusPrefix(d);
  }

  /** `Number(String(n)) == n`: the age text the edit form shows reads back as the age. */
  lemma NumberOfIntToString(n: int)
    ensures NumberOf(IntToString(n)) == Some(n)
  {
    var s := IntToString(n);
    DigitNotWhite(s[|s| - 1]);
    if IsDigit(s[0]) {
      DigitNotWhite(s[0]);
    }
    TrimKeepsUnpadded(s);
    if n < 0 {
      SignedDecimalOfNegative(NatToString(-n));
    } else {
      SignedDecimalOfDigits(NatToString(n));
    }
  }
}
