/** The sanitizers and validators that the request handlers chain on form fields
    (`trim`, `escape`, `isLength`, `isAlphanumeric`, `notEmpty`, `isNumeric`), with the
    meaning the validator library gives them under default options. */
module Validators {
  import opened Base

  /** One entry of the error array a validation chain produces: the field and its message. */
  datatype FieldError = FieldError(path: string, msg: string)

  // ---------------------------------------------------------------- trim

  /** The characters the regular-expression class `\s` matches: these are what `trim` removes. */
  predicate IsWhitespace(c: char) {
    ('\t' <= c <= '\r') || c == ' ' || c == '\U{A0}' || c == '\U{1680}'
    || ('\U{2000}' <= c <= '\U{200A}') || c == '\U{2028}' || c == '\U{2029}'
    || c == '\U{202F}' || c == '\U{205F}' || c == '\U{3000}' || c == '\U{FEFF}'
  }

  predicate AllWhitespace(s: string) {
    forall i :: 0 <= i < |s| ==> IsWhitespace(s[i])
  }

  /** The end of the whitespace run that starts at `i`: the index of the first character at or
      after `i` that is not whitespace, or `|s|`. */
  function BlankRunEnd(s: string, i: nat): (n: nat)
    requires i <= |s|
    ensures i <= n <= |s|
    ensures forall k :: i <= k < n ==> IsWhitespace(s[k])
    ensures n == |s| || !IsWhitespace(s[n])
    decreases |s| - i
  {
    if i < |s| && IsWhitespace(s[i]) then BlankRunEnd(s, i + 1) else i
  }

  /** The start of the whitespace run that ends at `j`, looking no further left than `lo`. */
  function BlankRunStart(s: string, lo: nat, j: nat): (n: nat)
    requires lo <= j <= |s|
    ensures lo <= n <= j
    ensures forall k :: n <= k < j ==> IsWhitespace(s[k])
    ensures n == lo || !IsWhitespace(s[n - 1])
    decreases j
  {
    if j > lo && IsWhitespace(s[j - 1]) then BlankRunStart(s, lo, j - 1) else j
  }

  /** `trim()`: the result is the middle of `s` left when only whitespace is cut from each
      end; it is empty exactly when `s` is whitespace only, and otherwise neither starts nor
      ends with whitespace. */
  function Trim(s: string): (r: string)
    ensures |r| <= |s|
    ensures exists i :: 0 <= i <= |s| - |r| && r == s[i..i + |r|]
                        && AllWhitespace(s[..i]) && AllWhitespace(s[i + |r|..])
    ensures r == [] <==> AllWhitespace(s)
    ensures r == [] || (!IsWhitespace(r[0]) && !IsWhitespace(r[|r| - 1]))
  {
    var i := BlankRunEnd(s, 0);
    var e := BlankRunStart(s, i, |s|);
    TrimMiddle(s, i, e);
    var r := s[i..e];
    assert i + |r| == e && r == s[i..i + |r|];
    assert r != [] ==> r[0] == s[i] && r[|r| - 1] == s[e - 1];
    r
  }

  /** The cut made by `Trim`: whitespace before `i` and from `e` on, and non-whitespace at
      both inner edges, so the middle is empty only when everything is whitespace. */
  lemma TrimMiddle(s: string, i: nat, e: nat)
    requires i <= e <= |s|
    requires forall k :: 0 <= k < i ==> IsWhitespace(s[k])
    requires forall k :: e <= k < |s| ==> IsWhitespace(s[k])
    requires i == |s| || !IsWhitespace(s[i])
    requires e == i || !IsWhitespace(s[e - 1])
    ensures AllWhitespace(s[..i]) && AllWhitespace(s[e..])
    ensures e == i <==> AllWhitespace(s)
  {
    assert forall k :: 0 <= k < |s[e..]| ==> s[e..][k] == s[e + k];
    if e == i {
      assert i == |s|;
    }
  }

  /** A string without whitespace at either end is left alone by `trim`. */
  lemma TrimKeepsTrimmed(s: string)
    requires s == [] || (!IsWhitespace(s[0]) && !IsWhitespace(s[|s| - 1]))
    ensures Trim(s) == s
  {
  }

  /** Trimming twice is trimming once. */
  lemma TrimIdempotent(s: string)
    ensures Trim(Trim(s)) == Trim(s)
  {
    TrimKeepsTrimmed(Trim(s));
  }

  // ---------------------------------------------------------------- escape

  /** The characters `escape` replaces by an HTML entity, besides `&` itself. */
  predicate IsMarkup(c: char) {
    c == '"' || c == '\'' || c == '<' || c == '>' || c == '/' || c == '\\' || c == '`'
  }

  function EscapeChar(c: char): string {
    match c
    case '&' => "&amp;"
    case '"' => "&quot;"
    case '\'' => "&#x27;"
    case '<' => "&lt;"
    case '>' => "&gt;"
    case '/' => "&#x2F;"
    case '\\' => "&#x5C;"
    case '`' => "&#96;"
    case _ => [c]
  }

  /** `escape()`: replaces `& " ' < > / \ `` by HTML entities, so that no markup character
      survives, and never shortens the text. */
  function Escape(s: string): (r: string)
    ensures |r| >= |s|
    ensures forall i :: 0 <= i < |r| ==> !IsMarkup(r[i])
  {
    if s == [] then [] else EscapeChar(s[0]) + Escape(s[1..])
  }

  /** Text with no `&` and no markup character is left exactly as it is. */
  lemma {:induction false} EscapeKeepsPlain(s: string)
    requires forall i :: 0 <= i < |s| ==> s[i] != '&' && !IsMarkup(s[i])
    ensures Escape(s) == s
  {
    if s != [] {
      EscapeKeepsPlain(s[1..]);
      assert EscapeChar(s[0]) == [s[0]];
      assert Escape(s) == [s[0]] + s[1..];
    }
  }

  predicate StartsWith(s: string, prefix: string) {
    |prefix| <= |s| && forall k :: 0 <= k < |prefix| ==> s[k] == prefix[k]
  }

  /** The character whose entity `escape` writes at the front of `s`, if any. */
  function EntityAt(s: string): (c: Option<char>)
    ensures c.Some? ==> StartsWith(s, EscapeChar(c.value)) && |EscapeChar(c.value)| > 1
  {
    if s == [] || s[0] != '&' then None
    else if StartsWith(s, "&amp;") then Some('&')
    else if StartsWith(s, "&quot;") then Some('"')
    else if StartsWith(s, "&#x27;") then Some('\'')
    else if StartsWith(s, "&lt;") then Some('<')
    else if StartsWith(s, "&gt;") then Some('>')
    else if StartsWith(s, "&#x2F;") then Some('/')
    else if StartsWith(s, "&#x5C;") then Some('\\')
    else if StartsWith(s, "&#96;") then Some('`')
    else None
  }

  /** The inverse of `escape`: scanning from the left, each entity it writes is read back as
      its character and every other character is kept. */
  function Unescape(s: string): (r: string)
    ensures |r| <= |s|
    decreases |s|
  {
    if s == [] then []
    else
      match EntityAt(s)
      case Some(c) => [c] + Unescape(s[|EscapeChar(c)|..])
      case None => [s[0]] + Unescape(s[1..])
  }

  /** An escaped character is recognised at the front of any text it starts. The entities
      differ within their first five characters, so only the right one matches. */
  lemma EntityAtEscapeChar(c: char, t: string)
    ensures EntityAt(EscapeChar(c) + t) == if c == '&' || IsMarkup(c) then Some(c) else None
  {
    var e := EscapeChar(c);
    var s := e + t;
    assert forall k :: 0 <= k < |e| ==> s[k] == e[k];
    match c
    case '&' =>
    case '"' =>
      assert s[1] == 'q';
    case '\'' =>
      assert s[1] == '#' && s[2] == 'x' && s[4] == '7';
    case '<' =>
      assert s[1] == 'l';
    case '>' =>
      assert s[1] == 'g';
    case '/' =>
      assert s[1] == '#' && s[2] == 'x' && s[3] == '2' && s[4] == 'F';
    case '\\' =>
      assert s[1] == '#' && s[2] == 'x' && s[3] == '5';
    case '`' =>
      assert s[1] == '#' && s[2] == '9';
    case _ =>
      assert s[0] == c;
  }

  /** Unescaping reads one escaped character back off the front of the text. */
  lemma UnescapeEscapeChar(c: char, t: string)
    ensures Unescape(EscapeChar(c) + t) == [c] + Unescape(t)
  {
    var s := EscapeChar(c) + t;
    EntityAtEscapeChar(c, t);
    assert s[|EscapeChar(c)|..] == t;
    if !(c == '&' || IsMarkup(c)) {
      assert s[0] == c && |EscapeChar(c)| == 1;
    }
  }

  /** Escaping loses nothing: unescaping gives back the original text. */
  lemma {:induction false} EscapeRoundTrip(s: string)
    ensures Unescape(Escape(s)) == s
  {
    if s != [] {
      EscapeRoundTrip(s[1..]);
      UnescapeEscapeChar(s[0], Escape(s[1..]));
      assert [s[0]] + s[1..] == s;
    }
  }

  // ---------------------------------------------------------------- isAlphanumeric

  /** The `en-US` alphabet of `isAlphanumeric`: ASCII digits and letters. */
  predicate IsAlnumChar(c: char) {
    ('0' <= c <= '9') || ('a' <= c <= 'z') || ('A' <= c <= 'Z')
  }

  predicate AllAlnum(s: string) {
    forall i :: 0 <= i < |s| ==> IsAlnumChar(s[i])
  }

  /** `isAlphanumeric()`: one or more ASCII letters or digits, nothing else. */
  predicate IsAlphanumeric(s: string) {
    |s| > 0 && AllAlnum(s)
  }

  /** Escaping changes no alphanumeric text and introduces no alphanumeric verdict: every
      replaced character is non-alphanumeric and so is the `&` that replaces it. */
  lemma {:induction false} EscapeAlnum(s: string)
    ensures AllAlnum(Escape(s)) <==> AllAlnum(s)
    ensures AllAlnum(s) ==> Escape(s) == s
  {
    if AllAlnum(s) {
      EscapeKeepsPlain(s);
    } else {
      var head, tail := EscapeChar(s[0]), Escape(s[1..]);
      assert Escape(s) == head + tail;
      if !IsAlnumChar(s[0]) {
        assert !IsAlnumChar((head + tail)[0]);
      } else {
        EscapeAlnum(s[1..]);
        assert !AllAlnum(s[1..]) by {
          var i :| 0 <= i < |s| && !IsAlnumChar(s[i]);
          assert s[1..][i - 1] == s[i];
        }
        var j :| 0 <= j < |tail| && !IsAlnumChar(tail[j]);
        assert (head + tail)[|head| + j] == tail[j];
      }
    }
  }

  /** Hence `escape` before `isAlphanumeric` does not change the verdict. */
  lemma EscapeAlphanumeric(s: string)
    ensures IsAlphanumeric(Escape(s)) <==> IsAlphanumeric(s)
  {
    EscapeAlnum(s);
  }

  // ---------------------------------------------------------------- isLength

  /** Variation selectors 15 and 16, which `isLength` does not count. */
  predicate IsPresentationSelector(c: char) {
    c == '\U{FE0E}' || c == '\U{FE0F}'
  }

  /** The length `isLength` measures: code points, not counting presentation selectors. */
  function CountedLength(s: string): (n: nat)
    ensures n <= |s|
    ensures (forall i :: 0 <= i < |s| ==> !IsPresentationSelector(s[i])) ==> n == |s|
  {
    if s == [] then 0
    else (if IsPresentationSelector(s[0]) then 0 else 1) + CountedLength(s[1..])
  }

  /** `isLength({min})`. */
  predicate IsLength(s: string, min: nat) {
    CountedLength(s) >= min
  }

  /** The measure of JavaScript's `length`, in UTF-16 code units, which a schema's
      `maxLength` compares against. */
  function JsLength(s: string): (n: nat)
    ensures |s| <= n <= 2 * |s|
  {
    if s == [] then 0
    else (if s[0] as int >= 0x1_0000 then 2 else 1) + JsLength(s[1..])
  }

  // ---------------------------------------------------------------- notEmpty, isNumeric

  /** `notEmpty()`: at least one character. */
  predicate NotEmpty(s: string) {
    |s| > 0
  }

  predicate IsDigit(c: char) {
    '0' <= c <= '9'
  }

  predicate AllDigits(s: string) {
    forall i :: 0 <= i < |s| ==> IsDigit(s[i])
  }

  /** The unsigned part of `isNumeric`'s pattern: digits, optionally split by one `.`
      that is followed by at least one digit. */
  predicate IsUnsignedNumeral(t: string) {
    (|t| > 0 && AllDigits(t))
    || (exists k :: 0 <= k < |t| - 1 && t[k] == '.' && AllDigits(t[..k]) && AllDigits(t[k + 1..]))
  }

  /** `isNumeric()` with default options: an optional sign, then an unsigned numeral. */
  predicate IsNumeric(s: string) {
    var t := if |s| > 0 && (s[0] == '+' || s[0] == '-') then s[1..] else s;
    IsUnsignedNumeral(t)
  }

  /** A numeric text is never empty and holds no whitespace, so trimming cannot be what
      makes it numeric or not. */
  lemma NumericHasNoWhitespace(s: string)
    requires IsNumeric(s)
    ensures |s| > 0
    ensures forall i :: 0 <= i < |s| ==> !IsWhitespace(s[i])
  {
    var t := if |s| > 0 && (s[0] == '+' || s[0] == '-') then s[1..] else s;
    forall i | 0 <= i < |t|
      ensures IsDigit(t[i]) || t[i] == '.'
    {
      if !(|t| > 0 && AllDigits(t)) {
        var k :| 0 <= k < |t| - 1 && t[k] == '.' && AllDigits(t[..k]) && AllDigits(t[k + 1..]);
        if i < k {
          assert t[..k][i] == t[i];
        } else if i > k {
          assert t[k + 1..][i - k - 1] == t[i];
        }
      }
    }
    assert |t| > 0;
    forall i | 0 <= i < |s|
      ensures !IsWhitespace(s[i])
    {
      if t != s && i > 0 {
        assert s[i] == t[i - 1];
      }
    }
  }

  // ---------------------------------------------------------------- optional ISO 8601 dates

  /** A date field passes `optional({values: "falsy"}).isISO8601()`. */
  predicate DateAccepted(raw: string, lib: DateLib) {
    raw == "" || lib.isISO8601(raw)
  }

  /** `body(path, message).optional({values: "falsy"}).isISO8601().toDate()`: an unset
      date is not checked; a set one must be ISO 8601 or reports the field's message. */
  function DateErrors(path: string, raw: string, message: string, lib: DateLib): (errs: seq<FieldError>)
    ensures errs == [] <==> DateAccepted(raw, lib)
    ensures errs != [] ==> errs == [FieldError(path, message)]
  {
    if raw == "" then [] else if lib.isISO8601(raw) then [] else [FieldError(path, message)]
  }

  /** The date `toDate` leaves in the body, as the document stores it: unset stays unset. */
  function SubmittedDate(raw: string, lib: DateLib): Option<Date> {
    if raw == "" then None else lib.parse(raw)
  }
}
