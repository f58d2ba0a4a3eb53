/**
 What the validator accepts: exactly the texts of the grammar, read leniently for NUL.

 `Built*` turn a successful scan into a tree (soundness); `*Complete` show that the scan
 of a tree's text succeeds and ends at its last character (completeness).
 */
module JsonAcceptance {
  import opened Decimals
  import opened JsonGrammar
  import opened JsonValidator

  /** `t` stands in `s` from `p` up to `r`. */
  predicate Spans(s: string, p: nat, t: string, r: nat): (b: bool)
    ensures b ==> p + |t| == r <= |s|
  {
    p + |t| == r <= |s| && s[p..r] == t
  }

  /** What may follow a number: the end or a delimiter. */
  predicate Follow(s: string, p: nat) {
    p == |s| || (p < |s| && IsDelimiter(s[p]))
  }

  lemma SpansConcat(s: string, p: nat, a: string, b: string, r: nat)
    ensures Spans(s, p, a + b, r) <==> Spans(s, p, a, p + |a|) && Spans(s, p + |a|, b, r)
  {
    if Spans(s, p, a + b, r) {
      assert s[p..p + |a|] == s[p..r][..|a|] == a;
      assert s[p + |a|..r] == s[p..r][|a|..] == b;
    }
    if Spans(s, p, a, p + |a|) && Spans(s, p + |a|, b, r) {
      assert s[p..r] == s[p..p + |a|] + s[p + |a|..r];
    }
  }

  lemma CharSpan(s: string, p: nat, c: char)
    ensures Spans(s, p, [c], p + 1) <==> p < |s| && s[p] == c
  {
    if p < |s| {
      assert s[p..p + 1] == [s[p]];
    }
  }

  lemma SpanChar(s: string, p: nat, t: string, r: nat, i: nat)
    requires Spans(s, p, t, r) && i < |t|
    ensures s[p + i] == t[i]
  {
    assert s[p..r][i] == t[i];
  }

  lemma SpanRest(s: string, p: nat, t: string, r: nat, n: nat)
    requires Spans(s, p, t, r) && n <= |t|
    ensures Spans(s, p + n, t[n..], r)
  {
    assert t == t[..n] + t[n..];
    SpansConcat(s, p, t[..n], t[n..], r);
  }

  // ----- Blanks and digits -----

  lemma {:induction false} SkipSpaceSpan(s: string, p: nat)
    requires p <= |s|
    ensures AllSpace(s[p..SkipSpace(s, p)])
    ensures SkipSpace(s, p) < |s| ==> !IsSpace(s[SkipSpace(s, p)])
    decreases |s| - p
  {
    if p < |s| && IsSpace(s[p]) {
      SkipSpaceSpan(s, p + 1);
      assert s[p..SkipSpace(s, p)] == [s[p]] + s[p + 1..SkipSpace(s, p)];
    }
  }

  lemma {:induction false} SkipDigitsSpan(s: string, p: nat)
    requires p <= |s|
    ensures AllDigits(s[p..SkipDigits(s, p)])
    ensures SkipDigits(s, p) < |s| ==> !IsDigit(s[SkipDigits(s, p)])
    decreases |s| - p
  {
    if p < |s| && IsDigit(s[p]) {
      SkipDigitsSpan(s, p + 1);
      assert s[p..SkipDigits(s, p)] == [s[p]] + s[p + 1..SkipDigits(s, p)];
    }
  }

  lemma {:induction false} SkipSpaceExact(s: string, p: nat, t: string, r: nat)
    requires Spans(s, p, t, r) && AllSpace(t) && (r < |s| ==> !IsSpace(s[r]))
    ensures SkipSpace(s, p) == r
    decreases |t|
  {
    if t != "" {
      SpanChar(s, p, t, r, 0);
      SpanRest(s, p, t, r, 1);
      SkipSpaceExact(s, p + 1, t[1..], r);
    }
  }

  lemma {:induction false} SkipDigitsExact(s: string, p: nat, t: string, r: nat)
    requires Spans(s, p, t, r) && AllDigits(t) && (r < |s| ==> !IsDigit(s[r]))
    ensures SkipDigits(s, p) == r
    decreases |t|
  {
    if t != "" {
      SpanChar(s, p, t, r, 0);
      SpanRest(s, p, t, r, 1);
      SkipDigitsExact(s, p + 1, t[1..], r);
    }
  }

  // ----- Strings -----

  lemma {:induction false} BodyScanned(s: string, p: nat)
    requires ScanBody(s, p).At?
    ensures IsBody(s[p..ScanBody(s, p).pos - 1], true)
    ensures s[ScanBody(s, p).pos - 1] == '"'
    decreases |s| - p
  {
    hide IsHex, IsEscape;
    var r := ScanBody(s, p).pos - 1;
    var t := s[p..r];
    if s[p] == '"' {
    } else if s[p] != '\\' {
      BodyScanned(s, p + 1);
      assert t[1..] == s[p + 1..r];
    } else if s[p + 1] == 'u' {
      BodyScanned(s, p + 6);
      assert t[6..] == s[p + 6..r];
    } else {
      BodyScanned(s, p + 2);
      assert t[2..] == s[p + 2..r];
    }
  }

  lemma {:induction false} BodyComplete(s: string, p: nat, t: string, r: nat)
    requires Spans(s, p, t, r) && IsBody(t, true) && r < |s| && s[r] == '"'
    ensures ScanBody(s, p) == At(r + 1)
    decreases |t|
  {
    if t != "" {
      SpanChar(s, p, t, r, 0);
      if IsPlain(t[0]) {
        SpanRest(s, p, t, r, 1);
        BodyComplete(s, p + 1, t[1..], r);
      } else {
        SpanChar(s, p, t, r, 1);
        if t[1] == 'u' {
          SpanChar(s, p, t, r, 2);
          SpanChar(s, p, t, r, 3);
          SpanChar(s, p, t, r, 4);
          SpanChar(s, p, t, r, 5);
          SpanRest(s, p, t, r, 6);
          BodyComplete(s, p + 6, t[6..], r);
        } else {
          SpanRest(s, p, t, r, 2);
          BodyComplete(s, p + 2, t[2..], r);
        }
      }
    }
  }

  lemma QuotedSpans(s: string, p: nat, body: string, r: nat)
    ensures Spans(s, p, "\"" + body + "\"", r)
            <==> p + 1 + |body| + 1 == r <= |s| && s[p] == '"' && Spans(s, p + 1, body, r - 1) && s[r - 1] == '"'
  {
    hide Spans;
    SpansConcat(s, p, "\"" + body, "\"", r);
    SpansConcat(s, p, "\"", body, p + 1 + |body|);
    CharSpan(s, p, '"');
    CharSpan(s, p + 1 + |body|, '"');
  }

  lemma BuiltString(s: string, p: nat) returns (body: string)
    requires ScanString(s, p).At?
    ensures IsBody(body, true) && Spans(s, p, "\"" + body + "\"", ScanString(s, p).pos)
  {
    var r := ScanString(s, p).pos;
    BodyScanned(s, p + 1);
    body := s[p + 1..r - 1];
    QuotedSpans(s, p, body, r);
  }

  lemma StringComplete(s: string, p: nat, body: string, r: nat)
    requires Spans(s, p, "\"" + body + "\"", r) && IsBody(body, true)
    ensures ScanString(s, p) == At(r) && s[p] == '"'
  {
    QuotedSpans(s, p, body, r);
    BodyComplete(s, p + 1, body, r - 1);
  }

  // ----- Numbers -----

  lemma BuiltDigits(s: string, i: nat)
    requires i < |s| && IsDigit(s[i]) && s[i] != '0'
    ensures IsWhole(s[i..SkipDigits(s, i + 1)])
  {
    SkipDigitsSpan(s, i + 1);
    assert s[i..SkipDigits(s, i + 1)] == [s[i]] + s[i + 1..SkipDigits(s, i + 1)];
  }

  lemma BuiltWhole(s: string, p: nat) returns (minus: string, whole: string)
    requires p <= |s| && ScanWhole(s, p).At?
    ensures (minus == "" || minus == "-") && IsWhole(whole)
    ensures Spans(s, p, minus + whole, ScanWhole(s, p).pos)
  {
    var r := ScanWhole(s, p).pos;
    var i := if s[p] == '-' then p + 1 else p;
    minus, whole := s[p..i], s[i..r];
    SpansConcat(s, p, minus, whole, r);
    if s[i] != '0' {
      BuiltDigits(s, i);
    }
  }

  lemma BuiltFraction(s: string, p: nat)
    requires p <= |s| && ScanFraction(s, p).At?
    ensures IsFraction(s[p..ScanFraction(s, p).pos])
  {
    var r := ScanFraction(s, p).pos;
    if r != p {
      SkipDigitsSpan(s, p + 1);
      assert s[p..r][1..] == s[p + 1..r];
    }
  }

  lemma BuiltExponent(s: string, p: nat)
    requires p <= |s| && ScanExponent(s, p).At?
    ensures IsExponent(s[p..ScanExponent(s, p).pos])
  {
    var r := ScanExponent(s, p).pos;
    if r != p {
      var i := if s[p + 1] == '+' || s[p + 1] == '-' then p + 2 else p + 1;
      SkipDigitsSpan(s, i);
      assert s[p..r][i - p..] == s[i..r];
    }
  }

  lemma NumberSpans(s: string, p: nat, v: Value, r: nat)
    requires v.Number?
    ensures var q := p + |v.minus + v.whole|; var t := q + |v.fraction|;
            Spans(s, p, ValueText(v), r)
            <==> Spans(s, p, v.minus + v.whole, q) && Spans(s, q, v.fraction, t) && Spans(s, t, v.exponent, r)
  {
    hide Spans;
    SpansConcat(s, p, v.minus + v.whole + v.fraction, v.exponent, r);
    SpansConcat(s, p, v.minus + v.whole, v.fraction, p + |v.minus + v.whole + v.fraction|);
  }

  lemma BuiltNumber(s: string, p: nat) returns (v: Value)
    requires p <= |s| && ScanNumber(s, p).At?
    ensures v.Number? && WellFormed(v, true) && Spans(s, p, ValueText(v), ScanNumber(s, p).pos)
  {
    var minus, whole := BuiltWhole(s, p);
    var q := ScanWhole(s, p).pos;
    BuiltFraction(s, q);
    var t := ScanFraction(s, q).pos;
    BuiltExponent(s, t);
    var r := ScanExponent(s, t).pos;
    v := Number(minus, whole, s[q..t], s[t..r]);
    NumberSpans(s, p, v, r);
  }

  lemma WholeComplete(s: string, p: nat, minus: string, whole: string, r: nat)
    requires Spans(s, p, minus + whole, r) && (minus == "" || minus == "-") && IsWhole(whole)
    requires r < |s| ==> !IsDigit(s[r])
    ensures ScanWhole(s, p) == At(r)
    ensures s[p] == '-' || IsDigit(s[p])
  {
    SpansConcat(s, p, minus, whole, r);
    var i := p + |minus|;
    if minus == "-" {
      CharSpan(s, p, '-');
    }
    SpanChar(s, i, whole, r, 0);
    SpanRest(s, i, whole, r, 1);
    SkipDigitsExact(s, i + 1, whole[1..], r);
  }

  lemma FractionComplete(s: string, p: nat, t: string, r: nat)
    requires Spans(s, p, t, r) && IsFraction(t)
    requires r < |s| ==> !IsDigit(s[r]) && s[r] != '.'
    ensures ScanFraction(s, p) == At(r)
    ensures p < |s| ==> !IsDigit(s[p])
  {
    if t != "" {
      SpanChar(s, p, t, r, 0);
      SpanChar(s, p, t, r, 1);
      SpanRest(s, p, t, r, 1);
      assert IsDigit(t[1..][0]);
      SkipDigitsExact(s, p + 1, t[1..], r);
    }
  }

  lemma ExponentComplete(s: string, p: nat, t: string, r: nat)
    requires Spans(s, p, t, r) && IsExponent(t) && Follow(s, r)
    ensures ScanExponent(s, p) == At(r)
    ensures p < |s| ==> !IsDigit(s[p]) && s[p] != '.'
  {
    if t != "" {
      var n := ExponentDigits(t);
      SpanChar(s, p, t, r, 0);
      SpanChar(s, p, t, r, 1);
      SpanRest(s, p, t, r, n);
      assert IsDigit(t[n..][0]);
      SpanChar(s, p, t, r, n);
      SkipDigitsExact(s, p + n, t[n..], r);
    }
  }

  lemma NumberComplete(s: string, p: nat, v: Value, r: nat)
    requires v.Number? && WellFormed(v, true) && Spans(s, p, ValueText(v), r) && Follow(s, r)
    ensures ScanNumber(s, p) == At(r)
    ensures s[p] == '-' || IsDigit(s[p])
  {
    NumberSpans(s, p, v, r);
    var q := p + |v.minus + v.whole|;
    var t := q + |v.fraction|;
    ExponentComplete(s, t, v.exponent, r);
    FractionComplete(s, q, v.fraction, t);
    WholeComplete(s, p, v.minus, v.whole, q);
  }

  // ----- Where the parts of keys, containers and element lists stand -----

  lemma KeySpans(s: string, p: nat, k: Key, r: nat)
    requires k.Key?
    ensures var q := p + |k.name| + 2; var colon := q + |k.beforeColon|;
            Spans(s, p, KeyText(k), r)
            <==> Spans(s, p, "\"" + k.name + "\"", q) && Spans(s, q, k.beforeColon, colon)
                 && colon < |s| && s[colon] == ':' && Spans(s, colon + 1, k.afterColon, r)
  {
    hide Spans;
    var q := p + |k.name| + 2;
    SpansConcat(s, p, "\"" + k.name + "\"", k.beforeColon + (":" + k.afterColon), r);
    SpansConcat(s, q, k.beforeColon, ":" + k.afterColon, r);
    SpansConcat(s, q + |k.beforeColon|, ":", k.afterColon, r);
    CharSpan(s, q + |k.beforeColon|, ':');
  }

  lemma CompositeSpans(s: string, p: nat, v: Value, r: nat)
    requires v.Composite? && p + 2 <= r
    ensures var q := p + 1 + |v.lead|;
            Spans(s, p, ValueText(v), r)
            <==> r <= |s| && s[p] == OpenBracket(v.isObject) && Spans(s, p + 1, v.lead, q)
                 && Spans(s, q, ElemsText(v.elems), r - 1) && s[r - 1] == CloseBracket(v.isObject)
  {
    hide Spans, ElemsText;
    var q := p + 1 + |v.lead|;
    var close := [CloseBracket(v.isObject)];
    SpansConcat(s, p, [OpenBracket(v.isObject)], v.lead + (ElemsText(v.elems) + close), r);
    SpansConcat(s, p + 1, v.lead, ElemsText(v.elems) + close, r);
    SpansConcat(s, q, ElemsText(v.elems), close, r);
    CharSpan(s, p, OpenBracket(v.isObject));
    CharSpan(s, r - 1, CloseBracket(v.isObject));
  }

  function ValueStart(p: nat, e: Elems): nat
    requires e.Elem?
  {
    p + |KeyText(e.key)|
  }

  function ValueEnd(p: nat, e: Elems): nat
    requires e.Elem?
  {
    ValueStart(p, e) + |ValueText(e.value)|
  }

  function ElementEnd(p: nat, e: Elems): nat
    requires e.Elem?
  {
    ValueEnd(p, e) + |e.trail|
  }

  predicate ElementAt(s: string, p: nat, e: Elems)
    requires e.Elem?
  {
    Spans(s, p, KeyText(e.key), ValueStart(p, e)) && Spans(s, ValueStart(p, e), ValueText(e.value), ValueEnd(p, e))
    && Spans(s, ValueEnd(p, e), e.trail, ElementEnd(p, e))
  }

  lemma ElemsSpans(s: string, p: nat, e: Elems, r: nat)
    requires e.Elem?
    ensures var t := ElementEnd(p, e); var n := t + 1 + |e.next|;
            Spans(s, p, ElemsText(e), r)
            <==> ElementAt(s, p, e)
                 && (if e.rest.NoElems? then r == t
                     else t < |s| && s[t] == ',' && Spans(s, t + 1, e.next, n) && Spans(s, n, ElemsText(e.rest), r))
  {
    hide Spans, ElemsText, KeyText, ValueText;
    var t := ElementEnd(p, e);
    var tail := Separator(e) + ElemsText(e.rest);
    ElemsTextUnfold(e);
    SpansConcat(s, p, KeyText(e.key), ValueText(e.value) + (e.trail + tail), r);
    SpansConcat(s, ValueStart(p, e), ValueText(e.value), e.trail + tail, r);
    SpansConcat(s, ValueEnd(p, e), e.trail, tail, r);
    TailSpans(s, t, e, r);
  }

  lemma ElemsTextUnfold(e: Elems)
    requires e.Elem?
    ensures ElemsText(e) == KeyText(e.key) + (ValueText(e.value) + (e.trail + (Separator(e) + ElemsText(e.rest))))
  {
  }

  lemma CommaSpans(s: string, t: nat, next: string, rest: string, r: nat)
    ensures Spans(s, t, "," + next + rest, r)
            <==> t < |s| && s[t] == ',' && Spans(s, t + 1, next, t + 1 + |next|) && Spans(s, t + 1 + |next|, rest, r)
  {
    hide Spans;
    SpansConcat(s, t, "," + next, rest, r);
    SpansConcat(s, t, ",", next, t + 1 + |next|);
    CharSpan(s, t, ',');
  }

  lemma TailSpans(s: string, t: nat, e: Elems, r: nat)
    requires e.Elem?
    ensures var n := t + 1 + |e.next|;
            Spans(s, t, Separator(e) + ElemsText(e.rest), r)
            <==> if e.rest.NoElems? then r == t && t <= |s|
                 else t < |s| && s[t] == ',' && Spans(s, t + 1, e.next, n) && Spans(s, n, ElemsText(e.rest), r)
  {
    hide Spans, ElemsText;
    if e.rest.NoElems? {
      NoElemsText();
      assert Separator(e) + ElemsText(e.rest) == "";
      EmptySpan(s, t, r);
    } else {
      CommaSpans(s, t, e.next, ElemsText(e.rest), r);
    }
  }

  lemma EmptySpan(s: string, p: nat, r: nat)
    ensures Spans(s, p, "", r) <==> p == r <= |s|
  {
  }

  lemma SliceSpan(s: string, p: nat, r: nat)
    requires p <= r <= |s|
    ensures Spans(s, p, s[p..r], r)
  {
  }

  // ----- Soundness of values -----

  lemma BuiltKey(s: string, p: nat) returns (k: Key)
    requires ScanKey(s, p).At?
    ensures k.Key? && WellFormedKey(k, true, true) && Spans(s, p, KeyText(k), ScanKey(s, p).pos)
  {
    hide KeyText, ScanString, SkipSpace;
    var name := BuiltString(s, p);
    var q := ScanString(s, p).pos;
    var colon := SkipSpace(s, q);
    var r := SkipSpace(s, colon + 1);
    SkipSpaceSpan(s, q);
    SkipSpaceSpan(s, colon + 1);
    k := Key(name, s[q..colon], s[colon + 1..r]);
    KeySpans(s, p, k, r);
  }

  lemma BuiltLiteral(s: string, p: nat) returns (v: Value)
    requires ScanLiteral(s, p).At?
    ensures v.Literal? && WellFormed(v, true) && Spans(s, p, ValueText(v), ScanLiteral(s, p).pos)
  {
    v := Literal(s[p..ScanLiteral(s, p).pos]);
  }

  lemma {:induction false} BuiltValue(s: string, p: nat, depth: nat) returns (v: Value)
    requires ScanValue(s, p, depth).At?
    ensures WellFormed(v, true) && depth + Height(v) <= MAX_DEPTH
    ensures Spans(s, p, ValueText(v), ScanValue(s, p, depth).pos)
    decreases |s| - p, 0
  {
    hide Spans, ScanComposite, ScanString, ScanNumber, ScanLiteral;
    if s[p] == '{' {
      v := BuiltComposite(s, p, depth, true);
    } else if s[p] == '[' {
      v := BuiltComposite(s, p, depth, false);
    } else if s[p] == '"' {
      var body := BuiltString(s, p);
      v := Str(body);
    } else if s[p] == '-' || IsDigit(s[p]) {
      v := BuiltNumber(s, p);
    } else {
      v := BuiltLiteral(s, p);
    }
  }

  lemma {:induction false} BuiltComposite(s: string, p: nat, depth: nat, isObject: bool) returns (v: Value)
    requires p < |s| && s[p] == OpenBracket(isObject) && depth <= MAX_DEPTH
    requires ScanComposite(s, p, depth, isObject).At?
    ensures WellFormed(v, true) && depth + Height(v) <= MAX_DEPTH
    ensures Spans(s, p, ValueText(v), ScanComposite(s, p, depth, isObject).pos)
    decreases |s| - p - 1, 3
  {
    hide ScanElems, SkipSpace, ElemsText, ValueText;
    var q := SkipSpace(s, p + 1);
    var r := ScanComposite(s, p, depth, isObject).pos;
    SkipSpaceSpan(s, p + 1);
    v := Composite(isObject, s[p + 1..q], NoElems);
    if s[q] != CloseBracket(isObject) {
      var elems := BuiltElems(s, q, depth, isObject);
      v := Composite(isObject, s[p + 1..q], elems);
    } else {
      NoElemsText();
    }
    CompositeSpans(s, p, v, r);
  }

  lemma NoElemsText()
    ensures ElemsText(NoElems) == ""
  {
  }

  lemma {:induction false} BuiltElement(s: string, p: nat, depth: nat, isObject: bool) returns (e: Elems)
    requires ScanElement(s, p, depth, isObject).At?
    ensures e.Elem? && e.next == "" && e.rest.NoElems?
    ensures WellFormedElems(e, isObject, true) && depth + 1 + Height(e.value) <= MAX_DEPTH
    ensures ElementAt(s, p, e) && ElementEnd(p, e) == ScanElement(s, p, depth, isObject).pos
    decreases |s| - p, 1
  {
    hide ScanValue, ScanKey, SkipSpace, ValueText;
    var start, key := p, NoKey;
    if isObject {
      key := BuiltKey(s, p);
      start := ScanKey(s, p).pos;
    }
    var value := BuiltValue(s, start, depth + 1);
    var q := ScanValue(s, start, depth + 1).pos;
    SkipSpaceSpan(s, q);
    e := Elem(key, value, s[q..SkipSpace(s, q)], "", NoElems);
  }

  lemma {:induction false} BuiltElems(s: string, p: nat, depth: nat, isObject: bool) returns (e: Elems)
    requires depth <= MAX_DEPTH && ScanElems(s, p, depth, isObject).At?
    ensures e.Elem? && WellFormedElems(e, isObject, true) && depth + ElemsHeight(e) <= MAX_DEPTH
    ensures Spans(s, p, ElemsText(e), ScanElems(s, p, depth, isObject).pos - 1)
    ensures s[ScanElems(s, p, depth, isObject).pos - 1] == CloseBracket(isObject)
    decreases |s| - p, 2
  {
    hide Spans, ScanElement, SkipSpace, ElemsText, KeyText, ValueText;
    var t := ScanElement(s, p, depth, isObject).pos;
    var r := ScanElems(s, p, depth, isObject).pos - 1;
    e := BuiltElement(s, p, depth, isObject);
    if s[t] == ',' {
      var n := SkipSpace(s, t + 1);
      SkipSpaceSpan(s, t + 1);
      SliceSpan(s, t + 1, n);
      var rest := BuiltElems(s, n, depth, isObject);
      e := Elem(e.key, e.value, e.trail, s[t + 1..n], rest);
    }
    ElemsSpans(s, p, e, r);
  }

  // ----- Completeness of values -----

  lemma KeyComplete(s: string, p: nat, k: Key, r: nat)
    requires k.Key? && WellFormedKey(k, true, true) && Spans(s, p, KeyText(k), r)
    requires r < |s| && !IsSpace(s[r])
    ensures ScanKey(s, p) == At(r)
  {
    hide Spans, KeyText, ScanString, SkipSpace;
    KeySpans(s, p, k, r);
    var q := p + |k.name| + 2;
    var colon := q + |k.beforeColon|;
    StringComplete(s, p, k.name, q);
    SkipSpaceExact(s, q, k.beforeColon, colon);
    SkipSpaceExact(s, colon + 1, k.afterColon, r);
  }

  /** A value's text is not empty and starts with neither a blank nor a closing bracket. */
  lemma FirstChar(v: Value)
    requires WellFormed(v, true)
    ensures |ValueText(v)| > 0
    ensures !IsSpace(ValueText(v)[0]) && ValueText(v)[0] != ']' && ValueText(v)[0] != '}'
  {
  }

  lemma FirstElemChar(e: Elems, isObject: bool)
    requires e.Elem? && WellFormedElems(e, isObject, true)
    ensures |ElemsText(e)| > 0
    ensures !IsSpace(ElemsText(e)[0]) && ElemsText(e)[0] != CloseBracket(isObject)
  {
    FirstChar(e.value);
  }

  lemma LiteralComplete(s: string, p: nat, name: string, r: nat)
    requires IsLiteral(name) && Spans(s, p, name, r)
    ensures ScanLiteral(s, p) == At(r)
    ensures s[p] == 't' || s[p] == 'f' || s[p] == 'n'
  {
    SpanChar(s, p, name, r, 0);
    assert Matches(s, p, name);
    if name != "true" && Matches(s, p, "true") {
      SpanChar(s, p, "true", p + 4, 0);
      assert false;
    }
    if name == "null" && Matches(s, p, "false") {
      SpanChar(s, p, "false", p + 5, 0);
      assert false;
    }
  }

  lemma {:induction false} ValueComplete(s: string, p: nat, v: Value, r: nat, depth: nat)
    requires WellFormed(v, true) && Spans(s, p, ValueText(v), r) && Follow(s, r)
    requires depth + Height(v) <= MAX_DEPTH
    ensures ScanValue(s, p, depth) == At(r)
    decreases v, 0
  {
    hide Spans, ScanComposite, ScanString, ScanNumber, ScanLiteral, IsLiteral;
    match v
    case Literal(name) => LiteralComplete(s, p, name, r);
    case Number(_, _, _, _) => NumberComplete(s, p, v, r);
    case Str(body) => StringComplete(s, p, body, r);
    case Composite(isObject, _, _) =>
      CompositeComplete(s, p, v, r, depth);
  }

  lemma {:induction false} CompositeComplete(s: string, p: nat, v: Value, r: nat, depth: nat)
    requires v.Composite? && WellFormed(v, true) && Spans(s, p, ValueText(v), r)
    requires depth + Height(v) <= MAX_DEPTH
    ensures p < |s| && s[p] == OpenBracket(v.isObject) && ScanComposite(s, p, depth, v.isObject) == At(r)
    decreases v.elems, 2
  {
    hide Spans, ScanElems, SkipSpace, ElemsText;
    var q := p + 1 + |v.lead|;
    CompositeSpans(s, p, v, r);
    if v.elems.Elem? {
      FirstElemChar(v.elems, v.isObject);
      SpanChar(s, q, ElemsText(v.elems), r - 1, 0);
      ElemsComplete(s, q, v.elems, v.isObject, r - 1, depth);
    } else {
      NoElemsText();
      EmptySpan(s, q, r - 1);
    }
    SkipSpaceExact(s, p + 1, v.lead, q);
  }

  lemma {:induction false} ElementComplete(s: string, p: nat, e: Elems, isObject: bool, depth: nat)
    requires e.Elem? && WellFormedElems(e, isObject, true) && depth + 1 + Height(e.value) <= MAX_DEPTH
    requires ElementAt(s, p, e) && ElementEnd(p, e) < |s|
    requires IsDelimiter(s[ElementEnd(p, e)]) && !IsSpace(s[ElementEnd(p, e)])
    ensures ScanElement(s, p, depth, isObject) == At(ElementEnd(p, e))
    decreases e, 0
  {
    hide Spans, ScanValue, ScanKey, SkipSpace, ValueText;
    var start, q := ValueStart(p, e), ValueEnd(p, e);
    FirstChar(e.value);
    SpanChar(s, start, ValueText(e.value), q, 0);
    if isObject {
      KeyComplete(s, p, e.key, start);
    }
    if e.trail != "" {
      SpanChar(s, q, e.trail, q + |e.trail|, 0);
    }
    ValueComplete(s, start, e.value, q, depth + 1);
    SkipSpaceExact(s, q, e.trail, q + |e.trail|);
  }

  lemma {:induction false} ElemsComplete(s: string, p: nat, e: Elems, isObject: bool, r: nat, depth: nat)
    requires e.Elem? && WellFormedElems(e, isObject, true) && Spans(s, p, ElemsText(e), r)
    requires r < |s| && s[r] == CloseBracket(isObject) && depth + ElemsHeight(e) <= MAX_DEPTH
    ensures ScanElems(s, p, depth, isObject) == At(r + 1)
    decreases e, 1
  {
    hide Spans, ScanElement, SkipSpace, ElemsText, ElementAt, ElementEnd;
    ElemsSpans(s, p, e, r);
    var t := ElementEnd(p, e);
    if e.rest.Elem? {
      var n := t + 1 + |e.next|;
      FirstElemChar(e.rest, isObject);
      SpanChar(s, n, ElemsText(e.rest), r, 0);
      SkipSpaceExact(s, t + 1, e.next, n);
      ElemsComplete(s, n, e.rest, isObject, r, depth);
    }
    ElementComplete(s, p, e, isObject, depth);
  }

  // ----- Documents -----

  lemma BuiltDocument(s: string) returns (d: Document)
    requires Accepts(s)
    ensures WellFormedDocument(d, true) && Height(d.root) <= 64 && DocumentText(d) == s
  {
    hide ScanValue, SkipSpace, ValueText;
    var p := SkipSpace(s, 0);
    SkipSpaceSpan(s, 0);
    var root := BuiltValue(s, p, 0);
    var q := ScanValue(s, p, 0).pos;
    SkipSpaceSpan(s, q);
    d := Document(s[0..p], root, s[q..|s|]);
    SpansConcat(s, p, ValueText(root), d.after, |s|);
    SpansConcat(s, 0, d.before, ValueText(root) + d.after, |s|);
  }

  lemma FullSpan(s: string)
    ensures Spans(s, 0, s, |s|)
  {
  }

  /** Where the root of a document stands in its text. */
  lemma DocumentSpans(d: Document, s: string)
    requires WellFormedDocument(d, true) && DocumentText(d) == s
    ensures var p := |d.before|; var q := p + |ValueText(d.root)|;
            && Spans(s, 0, d.before, p) && Spans(s, p, ValueText(d.root), q) && Spans(s, q, d.after, |s|)
            && Follow(s, q)
  {
    FullSpan(s);
    hide Spans, ValueText;
    var p := |d.before|;
    var q := p + |ValueText(d.root)|;
    SpansConcat(s, 0, d.before, ValueText(d.root) + d.after, |s|);
    SpansConcat(s, p, ValueText(d.root), d.after, |s|);
    if d.after != "" {
      SpanChar(s, q, d.after, |s|, 0);
    }
  }

  lemma DocumentComplete(d: Document, s: string)
    requires WellFormedDocument(d, true) && Height(d.root) <= 64 && DocumentText(d) == s
    ensures Accepts(s)
  {
    hide ScanValue, SkipSpace, ValueText, Spans;
    var p := |d.before|;
    var q := p + |ValueText(d.root)|;
    DocumentSpans(d, s);
    FirstChar(d.root);
    SpanChar(s, p, ValueText(d.root), q, 0);
    SkipSpaceExact(s, 0, d.before, p);
    ValueComplete(s, p, d.root, q, 0);
    SkipSpaceExact(s, q, d.after, |s|);
  }

  /** The validator accepts exactly the texts of the lax grammar. */
  lemma AcceptsLaxGrammar(s: string)
    ensures Accepts(s) <==> IsJsonText(s, true)
  {
    if Accepts(s) {
      var d := BuiltDocument(s);
      assert DocumentText(d) == s;
    }
    if IsJsonText(s, true) {
      var d: Document :| WellFormedDocument(d, true) && Height(d.root) <= 64 && DocumentText(d) == s;
      DocumentComplete(d, s);
    }
  }

  /**
   The RFC's texts (sections 2 to 7 of RFC 8259, nesting limited to 64) are the accepted texts
   without NUL. So the validator is right on every text without NUL, and it is right on a text
   exactly when that text is not one of the lax grammar that holds a NUL.
   */
  lemma AgreesWithRfcExactly(s: string)
    ensures IsJsonText(s, false) <==> Accepts(s) && NoNul(s)
    ensures NoNul(s) ==> (Accepts(s) <==> IsJsonText(s, false))
    ensures (Accepts(s) <==> IsJsonText(s, false)) <==> (IsJsonText(s, true) ==> NoNul(s))
  {
    AcceptsLaxGrammar(s);
    StrictIsLaxWithoutNul(s);
  }

  /** The four characters quote, backslash, NUL, quote are accepted but are no JSON text. */
  lemma NulEscapeIsAccepted()
    ensures Accepts("\"\\\0\"") && !IsJsonText("\"\\\0\"", false)
  {
    var d := Document("", Str("\\\0"), "");
    var s := DocumentText(d);
    assert s == "\"\\\0\"";
    assert IsBody("\0", true) == false && IsBody("", true);
    assert IsBody("\\\0", true);
    DocumentComplete(d, s);
    assert !NoNul(s) by { assert s[2] == '\0'; }
    AgreesWithRfcExactly(s);
  }
}
