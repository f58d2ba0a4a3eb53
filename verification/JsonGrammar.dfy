/**
 The JSON grammar as concrete-syntax trees.

 A text is a sequence of characters, one per byte of the file. A tree records every
 character of the text it stands for, blanks included, so `ValueText` is the inverse of
 parsing and says nothing about any algorithm.

 The flag `lax` widens the set of one-letter escapes by the NUL character: that is what
 the loader's escape test accepts, because it looks the letter up with `strchr`.
 */
module JsonGrammar {
  import opened Decimals

  // Sections 2 and 3 of RFC 8259: blanks and literal names.

  predicate IsSpace(c: char) {
    c == ' ' || c == '\t' || c == '\r' || c == '\n'
  }

  predicate IsDelimiter(c: char) {
    IsSpace(c) || c == ',' || c == ']' || c == '}'
  }

  predicate IsHex(c: char) {
    '0' <= c <= '9' || 'a' <= c <= 'f' || 'A' <= c <= 'F'
  }

  predicate IsEscape(c: char, lax: bool) {
    c == '"' || c == '\\' || c == '/' || c == 'b' || c == 'f' || c == 'n' || c == 'r' || c == 't'
    || (lax && c == '\0')
  }

  predicate IsPlain(c: char) {
    c != '"' && c != '\\' && ' ' <= c
  }

  /** The same by codes, as sections 2 and 7 list them. */
  lemma CharacterCodes(c: char)
    ensures IsSpace(c) <==> c as int in {0x20, 0x09, 0x0A, 0x0D}
    ensures IsDigit(c) <==> 0x30 <= c as int <= 0x39
    ensures IsHex(c) <==> 0x30 <= c as int <= 0x39 || 0x41 <= c as int <= 0x46 || 0x61 <= c as int <= 0x66
    ensures IsPlain(c) <==> 0x20 <= c as int <= 0x21 || 0x23 <= c as int <= 0x5B || 0x5D <= c as int
    ensures IsEscape(c, false) <==> c as int in {0x22, 0x5C, 0x2F, 0x62, 0x66, 0x6E, 0x72, 0x74}
    ensures IsEscape(c, true) <==> IsEscape(c, false) || c as int == 0
  {
  }

  predicate AllSpace(t: string) {
    forall i :: 0 <= i < |t| ==> IsSpace(t[i])
  }

  predicate IsLiteral(t: string) {
    t == "true" || t == "false" || t == "null"
  }

  // Section 6: number = [ minus ] int [ frac ] [ exp ].

  predicate IsWhole(t: string) {
    |t| > 0 && AllDigits(t) && (t[0] == '0' ==> |t| == 1)
  }

  predicate IsFraction(t: string) {
    t == "" || (|t| > 1 && t[0] == '.' && AllDigits(t[1..]))
  }

  function ExponentDigits(t: string): nat {
    if |t| > 1 && (t[1] == '+' || t[1] == '-') then 2 else 1
  }

  predicate IsExponent(t: string) {
    t == ""
    || (|t| > ExponentDigits(t) && (t[0] == 'e' || t[0] == 'E') && AllDigits(t[ExponentDigits(t)..]))
  }

  // Section 7: the characters between the quotes of a string.

  predicate IsBody(t: string, lax: bool) {
    if t == "" then true
    else if IsPlain(t[0]) then IsBody(t[1..], lax)
    else if t[0] != '\\' || |t| < 2 then false
    else if t[1] == 'u' then
      |t| >= 6 && IsHex(t[2]) && IsHex(t[3]) && IsHex(t[4]) && IsHex(t[5]) && IsBody(t[6..], lax)
    else IsEscape(t[1], lax) && IsBody(t[2..], lax)
  }

  predicate AllPlain(t: string) {
    forall i :: 0 <= i < |t| ==> IsPlain(t[i])
  }

  lemma {:induction false} PlainText(t: string)
    requires AllPlain(t)
    ensures IsBody(t, true)
  {
    if t != "" {
      PlainText(t[1..]);
    }
  }

  // Sections 4 and 5: objects and arrays share one shape; an object's elements carry keys.

  datatype Value =
    | Literal(name: string)
    | Number(minus: string, whole: string, fraction: string, exponent: string)
    | Str(body: string)
    | Composite(isObject: bool, lead: string, elems: Elems)

  /** `next` holds the blanks after the comma; it is empty on the last element. */
  datatype Elems =
    | NoElems
    | Elem(key: Key, value: Value, trail: string, next: string, rest: Elems)

  datatype Key =
    | NoKey
    | Key(name: string, beforeColon: string, afterColon: string)

  datatype Document = Document(before: string, root: Value, after: string)

  function OpenBracket(isObject: bool): char { if isObject then '{' else '[' }

  function CloseBracket(isObject: bool): char { if isObject then '}' else ']' }

  function ScalarText(v: Value): string
    requires !v.Composite?
  {
    match v
    case Literal(name) => name
    case Number(minus, whole, fraction, exponent) => minus + whole + fraction + exponent
    case Str(body) => "\"" + body + "\""
  }

  function ValueText(v: Value): (t: string)
    decreases v, 0
  {
    if v.Composite? then
      [OpenBracket(v.isObject)] + (v.lead + (ElemsText(v.elems) + [CloseBracket(v.isObject)]))
    else ScalarText(v)
  }

  function KeyText(k: Key): string {
    match k
    case NoKey => ""
    case Key(name, beforeColon, afterColon) => ("\"" + name + "\"") + (beforeColon + (":" + afterColon))
  }

  function Separator(e: Elems): string
    requires e.Elem?
  {
    if e.rest.NoElems? then "" else "," + e.next
  }

  function ElemsText(e: Elems): string
    decreases e, 1
  {
    match e
    case NoElems => ""
    case Elem(key, value, trail, next, rest) =>
      KeyText(key) + (ValueText(value) + (trail + (Separator(e) + ElemsText(rest))))
  }

  function DocumentText(d: Document): string {
    d.before + (ValueText(d.root) + d.after)
  }

  predicate WellFormed(v: Value, lax: bool) {
    match v
    case Literal(name) => IsLiteral(name)
    case Number(minus, whole, fraction, exponent) =>
      (minus == "" || minus == "-") && IsWhole(whole) && IsFraction(fraction) && IsExponent(exponent)
    case Str(body) => IsBody(body, lax)
    case Composite(isObject, lead, elems) => AllSpace(lead) && WellFormedElems(elems, isObject, lax)
  }

  predicate WellFormedKey(k: Key, isObject: bool, lax: bool) {
    match k
    case NoKey => !isObject
    case Key(name, beforeColon, afterColon) =>
      isObject && IsBody(name, lax) && AllSpace(beforeColon) && AllSpace(afterColon)
  }

  predicate WellFormedElems(e: Elems, isObject: bool, lax: bool) {
    match e
    case NoElems => true
    case Elem(key, value, trail, next, rest) =>
      && WellFormedKey(key, isObject, lax)
      && WellFormed(value, lax)
      && AllSpace(trail) && AllSpace(next)
      && (rest.NoElems? ==> next == "")
      && WellFormedElems(rest, isObject, lax)
  }

  predicate WellFormedDocument(d: Document, lax: bool) {
    AllSpace(d.before) && WellFormed(d.root, lax) && AllSpace(d.after)
  }

  /** How many containers enclose the most deeply nested value. */
  function Height(v: Value): nat {
    match v
    case Literal(_) => 0
    case Number(_, _, _, _) => 0
    case Str(_) => 0
    case Composite(_, _, elems) => ElemsHeight(elems)
  }

  function ElemsHeight(e: Elems): nat {
    match e
    case NoElems => 0
    case Elem(_, value, _, _, rest) => Max(1 + Height(value), ElemsHeight(rest))
  }

  function Max(a: nat, b: nat): nat { if a < b then b else a }

  /** `t` is one JSON text in which no value is nested deeper than 64. */
  ghost predicate IsJsonText(t: string, lax: bool) {
    exists d: Document {:trigger DocumentText(d)} ::
      WellFormedDocument(d, lax) && Height(d.root) <= 64 && DocumentText(d) == t
  }

  // The strict grammar is the lax one on texts without NUL.

  predicate NoNul(t: string) {
    forall i :: 0 <= i < |t| ==> t[i] != '\0'
  }

  lemma NoNulConcat(a: string, b: string)
    ensures NoNul(a + b) <==> NoNul(a) && NoNul(b)
  {
    if NoNul(a + b) {
      assert forall i :: 0 <= i < |a| ==> a[i] == (a + b)[i];
      assert forall i :: 0 <= i < |b| ==> b[i] == (a + b)[|a| + i];
    }
  }

  lemma {:induction false} StrictBody(t: string)
    ensures IsBody(t, false) <==> IsBody(t, true) && NoNul(t)
    decreases |t|
  {
    if t == "" {
    } else if IsPlain(t[0]) {
      StrictBody(t[1..]);
      assert t == t[..1] + t[1..];
      NoNulConcat(t[..1], t[1..]);
    } else if t[0] != '\\' || |t| < 2 {
    } else if t[1] == 'u' {
      if |t| >= 6 {
        StrictBody(t[6..]);
        assert t == t[..6] + t[6..];
        NoNulConcat(t[..6], t[6..]);
      }
    } else {
      StrictBody(t[2..]);
      assert t == t[..2] + t[2..];
      NoNulConcat(t[..2], t[2..]);
    }
  }

  lemma StrictScalar(v: Value)
    requires !v.Composite?
    ensures WellFormed(v, false) <==> WellFormed(v, true) && NoNul(ValueText(v))
  {
    match v
    case Literal(_) =>
    case Number(_, _, _, _) =>
    case Str(body) =>
      StrictBody(body);
      NoNulConcat("\"", body);
      NoNulConcat("\"" + body, "\"");
  }

  lemma StrictKey(k: Key, isObject: bool)
    ensures WellFormedKey(k, isObject, false) <==> WellFormedKey(k, isObject, true) && NoNul(KeyText(k))
  {
    match k
    case NoKey =>
    case Key(name, beforeColon, afterColon) =>
      StrictBody(name);
      NoNulConcat("\"" + name + "\"", beforeColon + (":" + afterColon));
      NoNulConcat("\"" + name, "\"");
      NoNulConcat("\"", name);
      NoNulConcat(beforeColon, ":" + afterColon);
      NoNulConcat(":", afterColon);
  }

  lemma {:induction false} StrictValue(v: Value)
    ensures WellFormed(v, false) <==> WellFormed(v, true) && NoNul(ValueText(v))
    decreases v, 0
  {
    if v.Composite? {
      StrictElems(v.elems, v.isObject);
      NoNulConcat([OpenBracket(v.isObject)], v.lead + (ElemsText(v.elems) + [CloseBracket(v.isObject)]));
      NoNulConcat(v.lead, ElemsText(v.elems) + [CloseBracket(v.isObject)]);
      NoNulConcat(ElemsText(v.elems), [CloseBracket(v.isObject)]);
    } else {
      StrictScalar(v);
    }
  }

  lemma NoNulElems(e: Elems)
    requires e.Elem?
    requires AllSpace(e.trail) && AllSpace(e.next)
    ensures NoNul(ElemsText(e)) <==> NoNul(KeyText(e.key)) && NoNul(ValueText(e.value)) && NoNul(ElemsText(e.rest))
  {
    var tail := Separator(e) + ElemsText(e.rest);
    NoNulConcat(KeyText(e.key), ValueText(e.value) + (e.trail + tail));
    NoNulConcat(ValueText(e.value), e.trail + tail);
    NoNulConcat(e.trail, tail);
    NoNulConcat(Separator(e), ElemsText(e.rest));
    NoNulConcat(",", e.next);
  }

  lemma {:induction false} StrictElems(e: Elems, isObject: bool)
    ensures WellFormedElems(e, isObject, false) <==> WellFormedElems(e, isObject, true) && NoNul(ElemsText(e))
    decreases e, 1
  {
    match e
    case NoElems =>
    case Elem(key, value, trail, next, rest) =>
      StrictKey(key, isObject);
      StrictValue(value);
      StrictElems(rest, isObject);
      if AllSpace(trail) && AllSpace(next) {
        NoNulElems(e);
      }
  }

  /** The strict grammar is exactly the lax one restricted to NUL-free texts. */
  lemma StrictIsLaxWithoutNul(t: string)
    ensures IsJsonText(t, false) <==> IsJsonText(t, true) && NoNul(t)
  {
    forall d: Document | DocumentText(d) == t
      ensures WellFormedDocument(d, false) <==> WellFormedDocument(d, true) && NoNul(t)
    {
      StrictValue(d.root);
      NoNulConcat(d.before, ValueText(d.root) + d.after);
      NoNulConcat(ValueText(d.root), d.after);
    }
  }
}
