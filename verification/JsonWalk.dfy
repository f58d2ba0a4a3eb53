/**
 The tokens of an accepted text are the pre-order walk of its parse tree.

 `Walk` lists a tree's tokens with their spans, parents and child counts; `*Tokenized`
 follow the tokenizer across the text of a tree.
 */
module JsonWalk {
  import opened Wrappers
  import opened Decimals
  import opened JsonGrammar
  import opened JsonValidator
  import opened JsonAcceptance
  import opened JsonTokens

  function ContainerKind(isObject: bool): Kind {
    if isObject then ObjectToken else ArrayToken
  }

  /** Tokens directly below a container: one per array element, two per object member. */
  function Children(e: Elems): nat {
    match e
    case NoElems => 0
    case Elem(key, _, _, _, rest) => (if key.Key? then 2 else 1) + Children(rest)
  }

  function Size(v: Value): nat {
    if v.Composite? then 1 + SizeElems(v.elems) else 1
  }

  function SizeElems(e: Elems): nat {
    match e
    case NoElems => 0
    case Elem(key, value, _, _, rest) => (if key.Key? then 1 else 0) + Size(value) + SizeElems(rest)
  }

  /** The tokens of `v` when its text starts at `p` and its own token has index `base`. */
  function Walk(v: Value, p: nat, parent: Option<nat>, base: nat): (r: seq<Token>)
    ensures |r| == Size(v)
    decreases v, 0
  {
    var end := p + |ValueText(v)|;
    match v
    case Str(body) => [Token(StringToken, p + 1, end - 1, 0, parent)]
    case Composite(isObject, lead, elems) =>
      [Token(ContainerKind(isObject), p, end, Children(elems), parent)]
      + WalkElems(elems, p + 1 + |lead|, base, base + 1)
    case _ => [Token(PrimitiveToken, p, end, 0, parent)]
  }

  function WalkKey(k: Key, p: nat, parent: nat): (r: seq<Token>)
    ensures |r| == if k.Key? then 1 else 0
  {
    match k
    case NoKey => []
    case Key(name, _, _) => [Token(StringToken, p + 1, p + 1 + |name|, 0, Some(parent))]
  }

  function WalkElems(e: Elems, p: nat, parent: nat, base: nat): (r: seq<Token>)
    ensures |r| == SizeElems(e)
    decreases e, 1
  {
    match e
    case NoElems => []
    case Elem(key, value, _, next, rest) =>
      var keyTokens := WalkKey(key, p, parent);
      var valueBase := base + |keyTokens|;
      keyTokens + Walk(value, ValueStart(p, e), Some(parent), valueBase)
      + WalkElems(rest, ElementEnd(p, e) + 1 + |next|, parent, valueBase + Size(value))
  }

  /** The state once `ts` are appended, `n` of them directly below the open container. */
  function After(st: State, ts: seq<Token>, n: nat): (r: State)
    requires Valid(st)
    ensures r.parent == st.parent && r.capacity == st.capacity && |r.tokens| == |st.tokens| + |ts|
  {
    st.(tokens := Bump(st.tokens, st.parent, n) + ts)
  }

  lemma AfterAfter(st: State, a: seq<Token>, m: nat, b: seq<Token>, n: nat)
    requires Valid(st) && Valid(After(st, a, m))
    ensures After(After(st, a, m), b, n) == After(st, a + b, m + n)
  {
    assert After(After(st, a, m), b, n).tokens == After(st, a + b, m + n).tokens;
  }

  // ----- Capacity -----

  /** A tree of `n` tokens takes at least `2n - 1` characters. */
  lemma {:induction false} SizeBound(v: Value, lax: bool)
    requires WellFormed(v, lax)
    ensures 2 * Size(v) <= |ValueText(v)| + 1
    decreases v, 0
  {
    if v.Composite? {
      SizeElemsBound(v.elems, v.isObject, lax);
    }
  }

  lemma {:induction false} SizeElemsBound(e: Elems, isObject: bool, lax: bool)
    requires WellFormedElems(e, isObject, lax)
    ensures 2 * SizeElems(e) <= |ElemsText(e)| + (if e.Elem? then 1 else 0)
    decreases e, 1
  {
    match e
    case NoElems =>
    case Elem(key, value, trail, next, rest) =>
      SizeBound(value, lax);
      SizeElemsBound(rest, isObject, lax);
  }

  // ----- The tokenizer on strings and primitives -----

  /** Both readers of a string stop at the same quote. */
  lemma {:induction false} QuoteFound(s: string, p: nat, t: string, r: nat)
    requires Spans(s, p, t, r) && IsBody(t, true) && r < |s| && s[r] == '"'
    ensures ClosingQuote(s, p, false) == Some(r)
    decreases |t|
  {
    if t != "" {
      SpanChar(s, p, t, r, 0);
      if IsPlain(t[0]) {
        SpanRest(s, p, t, r, 1);
        QuoteFound(s, p + 1, t[1..], r);
      } else if t[1] == 'u' {
        HexSkipped(s, p, t, r);
        SpanRest(s, p, t, r, 6);
        QuoteFound(s, p + 6, t[6..], r);
      } else {
        SpanRest(s, p, t, r, 2);
        QuoteFound(s, p + 2, t[2..], r);
      }
    }
  }

  lemma HexSkipped(s: string, p: nat, t: string, r: nat)
    requires Spans(s, p, t, r) && |t| >= 6 && t[0] == '\\'
    requires IsHex(t[2]) && IsHex(t[3]) && IsHex(t[4]) && IsHex(t[5])
    ensures ClosingQuote(s, p, false) == ClosingQuote(s, p + 6, false)
  {
    SpanChar(s, p, t, r, 0);
    SpanChar(s, p, t, r, 2);
    SpanChar(s, p, t, r, 3);
    SpanChar(s, p, t, r, 4);
    SpanChar(s, p, t, r, 5);
    assert ClosingQuote(s, p, false) == ClosingQuote(s, p + 2, false);
    assert ClosingQuote(s, p + 2, false) == ClosingQuote(s, p + 4, false);
    assert ClosingQuote(s, p + 4, false) == ClosingQuote(s, p + 6, false);
  }

  predicate IsPrimitiveChar(c: char) {
    !IsDelimiter(c) && ' ' <= c && c != ':' && c != '{' && c != '[' && c != '"'
  }

  predicate AllPrimitive(t: string) {
    forall i :: 0 <= i < |t| ==> IsPrimitiveChar(t[i])
  }

  lemma AllPrimitiveConcat(a: string, b: string)
    requires AllPrimitive(a) && AllPrimitive(b)
    ensures AllPrimitive(a + b)
  {
  }

  lemma FractionIsPrimitive(t: string)
    requires IsFraction(t)
    ensures AllPrimitive(t)
  {
    if t != "" {
      assert t == t[..1] + t[1..];
    }
  }

  lemma ExponentIsPrimitive(t: string)
    requires IsExponent(t)
    ensures AllPrimitive(t)
  {
    if t != "" {
      var n := ExponentDigits(t);
      assert t == t[..n] + t[n..];
      AllPrimitiveConcat(t[..n], t[n..]);
    }
  }

  lemma NumberIsPrimitive(v: Value)
    requires v.Number? && WellFormed(v, true)
    ensures AllPrimitive(ValueText(v))
  {
    FractionIsPrimitive(v.fraction);
    ExponentIsPrimitive(v.exponent);
    assert AllPrimitive(v.minus) && AllPrimitive(v.whole);
    hide AllPrimitive, AllDigits, IsWhole, IsFraction, IsExponent;
    AllPrimitiveConcat(v.minus, v.whole);
    AllPrimitiveConcat(v.minus + v.whole, v.fraction);
    AllPrimitiveConcat(v.minus + v.whole + v.fraction, v.exponent);
  }

  lemma {:induction false} PrimitiveFound(s: string, p: nat, t: string, r: nat)
    requires Spans(s, p, t, r) && AllPrimitive(t) && Follow(s, r)
    ensures PrimitiveEnd(s, p) == Some(r)
    decreases |t|
  {
    if t != "" {
      SpanChar(s, p, t, r, 0);
      SpanRest(s, p, t, r, 1);
      PrimitiveFound(s, p + 1, t[1..], r);
    }
  }

  /** Appending one complete leaf. */
  lemma LeafAppended(st: State, kind: Kind, start: nat, end: nat)
    requires Valid(st) && |st.tokens| < st.capacity
    ensures SetLastEnd(Allocate(st, kind, start).value, end) == After(st, [Token(kind, start, end, 0, st.parent)], 1)
  {
    var one := Allocate(st, kind, start).value;
    assert SetLastEnd(one, end).tokens == Bump(st.tokens, st.parent, 1) + [Token(kind, start, end, 0, st.parent)];
  }

  lemma StepTaken(s: string, p: nat, st: State, next: State, last: nat)
    requires Valid(st) && p < |s| && TokenizeAt(s, p, st) == Go(next, last)
    ensures Valid(next) && TokenizeFrom(s, p, st) == TokenizeFrom(s, last + 1, next)
  {
    hide TokenizeAt;
  }

  lemma PrimitiveTokenized(s: string, p: nat, t: string, r: nat, st: State)
    requires Spans(s, p, t, r) && t != "" && AllPrimitive(t) && Follow(s, r)
    requires Valid(st) && |st.tokens| < st.capacity
    ensures Valid(After(st, [Token(PrimitiveToken, p, r, 0, st.parent)], 1))
    ensures TokenizeFrom(s, p, st) == TokenizeFrom(s, r, After(st, [Token(PrimitiveToken, p, r, 0, st.parent)], 1))
  {
    hide Spans, PrimitiveEnd, Allocate, SetLastEnd, After, Valid, TokenizeFrom;
    SpanChar(s, p, t, r, 0);
    PrimitiveFound(s, p, t, r);
    LeafAppended(st, PrimitiveToken, p, r);
    assert TokenizeAt(s, p, st) == PrimitiveStep(s, p, st);
    StepTaken(s, p, st, After(st, [Token(PrimitiveToken, p, r, 0, st.parent)], 1), r - 1);
  }

  lemma StringTokenized(s: string, p: nat, body: string, r: nat, st: State)
    requires Spans(s, p, "\"" + body + "\"", r) && IsBody(body, true)
    requires Valid(st) && |st.tokens| < st.capacity
    ensures Valid(After(st, [Token(StringToken, p + 1, r - 1, 0, st.parent)], 1))
    ensures TokenizeFrom(s, p, st) == TokenizeFrom(s, r, After(st, [Token(StringToken, p + 1, r - 1, 0, st.parent)], 1))
  {
    QuotedSpans(s, p, body, r);
    hide Spans, ClosingQuote, Allocate, SetLastEnd, After, Valid, TokenizeFrom;
    QuoteFound(s, p + 1, body, r - 1);
    LeafAppended(st, StringToken, p + 1, r - 1);
    assert TokenizeAt(s, p, st) == StringStep(s, p, st);
    StepTaken(s, p, st, After(st, [Token(StringToken, p + 1, r - 1, 0, st.parent)], 1), r - 1);
  }

  // ----- The tokenizer on blanks, colons and commas -----

  lemma SkipOne(s: string, p: nat, st: State)
    requires Valid(st) && p < |s| && (IsSpace(s[p]) || s[p] == ':' || s[p] == ',')
    ensures TokenizeFrom(s, p, st) == TokenizeFrom(s, p + 1, st)
  {
  }

  lemma {:induction false} SkipBlanks(s: string, p: nat, t: string, r: nat, st: State)
    requires Valid(st) && Spans(s, p, t, r) && AllSpace(t)
    ensures TokenizeFrom(s, p, st) == TokenizeFrom(s, r, st)
    decreases |t|
  {
    if t != "" {
      SpanChar(s, p, t, r, 0);
      SpanRest(s, p, t, r, 1);
      SkipOne(s, p, st);
      SkipBlanks(s, p + 1, t[1..], r, st);
    }
  }

  // ----- The tokenizer on trees -----

  /** What the tokenizer does from `p` to `r`: append `ts`, `n` of them below the open container. */
  predicate Appends(s: string, p: nat, r: nat, st: State, ts: seq<Token>, n: nat)
    requires Valid(st)
  {
    Valid(After(st, ts, n)) && TokenizeFrom(s, p, st) == TokenizeFrom(s, r, After(st, ts, n))
  }

  lemma AppendsThen(s: string, p: nat, q: nat, r: nat, st: State, a: seq<Token>, m: nat, b: seq<Token>, n: nat)
    requires Valid(st) && Appends(s, p, q, st, a, m) && Appends(s, q, r, After(st, a, m), b, n)
    ensures Appends(s, p, r, st, a + b, m + n)
  {
    AfterAfter(st, a, m, b, n);
  }

  lemma AppendsNothing(s: string, p: nat, r: nat, st: State)
    requires Valid(st) && TokenizeFrom(s, p, st) == TokenizeFrom(s, r, st)
    ensures Appends(s, p, r, st, [], 0)
  {
    assert After(st, [], 0).tokens == st.tokens;
    assert After(st, [], 0) == st;
  }

  lemma {:induction false} ValueTokenized(s: string, p: nat, v: Value, r: nat, st: State)
    requires WellFormed(v, true) && Spans(s, p, ValueText(v), r) && Follow(s, r)
    requires Valid(st) && |st.tokens| + Size(v) <= st.capacity
    ensures Appends(s, p, r, st, Walk(v, p, st.parent, |st.tokens|), 1)
    decreases v, 0
  {
    hide Spans, TokenizeFrom, After, WalkElems;
    match v
    case Literal(name) => PrimitiveTokenized(s, p, name, r, st);
    case Number(_, _, _, _) =>
      NumberIsPrimitive(v);
      FirstChar(v);
      PrimitiveTokenized(s, p, ValueText(v), r, st);
    case Str(body) => StringTokenized(s, p, body, r, st);
    case Composite(_, _, _) => CompositeTokenized(s, p, v, r, st);
  }

  function Opened(st: State, kind: Kind, p: nat): State
    requires Valid(st) && |st.tokens| < st.capacity
  {
    Allocate(st, kind, p).value.(parent := Some(|st.tokens|))
  }

  /** Closing the container opened at `st`, once its elements have been appended. */
  lemma ContainerClosed(s: string, p: nat, st: State, isObject: bool, ts: seq<Token>, n: nat, r: nat)
    requires Valid(st) && |st.tokens| < st.capacity
    requires Valid(Opened(st, ContainerKind(isObject), p))
    requires Valid(After(Opened(st, ContainerKind(isObject), p), ts, n))
    requires 0 < r <= |s| && s[r - 1] == CloseBracket(isObject)
    ensures Valid(After(st, [Token(ContainerKind(isObject), p, r, n, st.parent)] + ts, 1))
    ensures TokenizeFrom(s, r - 1, After(Opened(st, ContainerKind(isObject), p), ts, n))
            == TokenizeFrom(s, r, After(st, [Token(ContainerKind(isObject), p, r, n, st.parent)] + ts, 1))
  {
    hide Valid, After, Opened, CloseOpen, TokenizeFrom, Allocate;
    var kind := ContainerKind(isObject);
    var full := After(Opened(st, kind, p), ts, n);
    var done := After(st, [Token(kind, p, r, n, st.parent)] + ts, 1);
    ContainerClosedState(st, kind, p, ts, n, r);
    assert TokenizeAt(s, r - 1, full) == CloseStep(r - 1, full, kind) == Go(done, r - 1);
    StepTaken(s, r - 1, full, done, r - 1);
  }

  lemma ContainerClosedState(st: State, kind: Kind, p: nat, ts: seq<Token>, n: nat, r: nat)
    requires Valid(st) && |st.tokens| < st.capacity
    requires Valid(Opened(st, kind, p)) && Valid(After(Opened(st, kind, p), ts, n)) && 0 < r
    ensures CloseOpen(After(Opened(st, kind, p), ts, n), kind, r - 1)
            == Some(After(st, [Token(kind, p, r, n, st.parent)] + ts, 1))
  {
    var full := After(Opened(st, kind, p), ts, n);
    var b := |st.tokens|;
    var bumped := Bump(st.tokens, st.parent, 1);
    assert Opened(st, kind, p).tokens == bumped + [Token(kind, p, 0, 0, st.parent)];
    assert full.tokens == bumped + [Token(kind, p, 0, n, st.parent)] + ts;
    assert full.tokens[b] == Token(kind, p, 0, n, st.parent);
    assert SetEnd(full.tokens, b, r) == bumped + ([Token(kind, p, r, n, st.parent)] + ts);
  }

  lemma {:induction false} CompositeTokenized(s: string, p: nat, v: Value, r: nat, st: State)
    requires v.Composite? && WellFormed(v, true) && Spans(s, p, ValueText(v), r)
    requires Valid(st) && |st.tokens| + Size(v) <= st.capacity
    ensures Appends(s, p, r, st, Walk(v, p, st.parent, |st.tokens|), 1)
    decreases v.elems, 2
  {
    hide Spans, ElemsText, After, Walk, WalkElems, SizeElems;
    var kind, q := ContainerKind(v.isObject), p + 1 + |v.lead|;
    CompositeSpans(s, p, v, r);
    var inner := Opened(st, kind, p);
    assert TokenizeAt(s, p, st) == OpenStep(p, st, kind) == Go(inner, p);
    hide TokenizeAt, TokenizeFrom, Opened, Valid, Allocate, Bump;
    StepTaken(s, p, st, inner, p);
    SkipBlanks(s, p + 1, v.lead, q, inner);
    ElemsTokenized(s, q, v.elems, v.isObject, r - 1, inner, |st.tokens|);
    var ts := WalkElems(v.elems, q, |st.tokens|, |st.tokens| + 1);
    ContainerClosed(s, p, st, v.isObject, ts, Children(v.elems), r);
    WalkComposite(v, p, st.parent, |st.tokens|, r);
  }

  lemma WalkComposite(v: Value, p: nat, parent: Option<nat>, base: nat, r: nat)
    requires v.Composite? && r == p + |ValueText(v)|
    ensures Walk(v, p, parent, base)
            == [Token(ContainerKind(v.isObject), p, r, Children(v.elems), parent)]
               + WalkElems(v.elems, p + 1 + |v.lead|, base, base + 1)
  {
  }

  lemma KeyTokenizedFrom(s: string, p: nat, k: Key, r: nat, st: State, parent: nat)
    requires k.Key? && WellFormedKey(k, true, true) && Valid(st) && st.parent == Some(parent) && |st.tokens| < st.capacity
    requires var q := p + |k.name| + 2; var colon := q + |k.beforeColon|;
            Spans(s, p, "\"" + k.name + "\"", q) && Spans(s, q, k.beforeColon, colon)
            && colon < |s| && s[colon] == ':' && Spans(s, colon + 1, k.afterColon, r)
    ensures Appends(s, p, r, st, WalkKey(k, p, parent), 1)
  {
    hide Spans, TokenizeFrom, After, IsBody, AllSpace, Valid;
    var q := p + |k.name| + 2;
    var colon := q + |k.beforeColon|;
    StringTokenized(s, p, k.name, q, st);
    var done := After(st, WalkKey(k, p, parent), 1);
    SkipBlanks(s, q, k.beforeColon, colon, done);
    SkipOne(s, colon, done);
    SkipBlanks(s, colon + 1, k.afterColon, r, done);
  }

  lemma KeyTokenized(s: string, p: nat, k: Key, isObject: bool, r: nat, st: State, parent: nat)
    requires WellFormedKey(k, isObject, true) && Spans(s, p, KeyText(k), r)
    requires Valid(st) && st.parent == Some(parent) && |st.tokens| + (if k.Key? then 1 else 0) <= st.capacity
    ensures Appends(s, p, r, st, WalkKey(k, p, parent), if k.Key? then 1 else 0)
  {
    if k.Key? {
      KeySpans(s, p, k, r);
      hide *;
      KeyTokenizedFrom(s, p, k, r, st, parent);
    } else {
      AppendsNothing(s, p, r, st);
    }
  }

  lemma {:induction false} ElemsTokenized(s: string, p: nat, e: Elems, isObject: bool, r: nat, st: State, parent: nat)
    requires WellFormedElems(e, isObject, true) && Spans(s, p, ElemsText(e), r)
    requires r < |s| && s[r] == CloseBracket(isObject)
    requires Valid(st) && st.parent == Some(parent) && |st.tokens| + SizeElems(e) <= st.capacity
    ensures Appends(s, p, r, st, WalkElems(e, p, parent, |st.tokens|), Children(e))
    decreases e, 1
  {
    hide Spans, TokenizeFrom, Walk, WalkKey, ElementAt, ElementEnd, ElemsText, After, Valid, AllSpace, WellFormed;
    match e
    case NoElems =>
      NoElemsText();
      EmptySpan(s, p, r);
      AppendsNothing(s, p, r, st);
    case Elem(key, value, trail, next, rest) =>
      ElemsSpans(s, p, e, r);
      var t := ElementEnd(p, e);
      var m := if key.Key? then 2 else 1;
      var ts := WalkKey(key, p, parent)
      + Walk(value, ValueStart(p, e), Some(parent), |st.tokens| + |WalkKey(key, p, parent)|);
      ElementTokenized(s, p, e, isObject, st, parent);
      var mid := After(st, ts, m);
      if rest.NoElems? {
        AppendsNothing(s, t, r, mid);
        AppendsThen(s, p, t, r, st, ts, m, [], 0);
      } else {
        SkipOne(s, t, mid);
        SkipBlanks(s, t + 1, next, t + 1 + |next|, mid);
        ElemsTokenized(s, t + 1 + |next|, rest, isObject, r, mid, parent);
        AppendsThen(s, p, t, r, st, ts, m,
                    WalkElems(rest, t + 1 + |next|, parent, |mid.tokens|), Children(rest));
      }
  }

  lemma {:induction false} ElementTokenized(s: string, p: nat, e: Elems, isObject: bool, st: State, parent: nat)
    requires e.Elem? && WellFormedElems(e, isObject, true) && ElementAt(s, p, e)
    requires ElementEnd(p, e) < |s| && IsDelimiter(s[ElementEnd(p, e)])
    requires Valid(st) && st.parent == Some(parent) && |st.tokens| + SizeElems(e) <= st.capacity
    ensures Appends(s, p, ElementEnd(p, e), st,
                    WalkKey(e.key, p, parent)
                    + Walk(e.value, ValueStart(p, e), Some(parent), |st.tokens| + |WalkKey(e.key, p, parent)|),
                    if e.key.Key? then 2 else 1)
    decreases e, 0
  {
    hide Spans, TokenizeFrom, Walk, KeyText, ValueText, After, Valid, WellFormed;
    var start, q, t := ValueStart(p, e), ValueEnd(p, e), ElementEnd(p, e);
    var keys := WalkKey(e.key, p, parent);
    var k := if e.key.Key? then 1 else 0;
    KeyTokenized(s, p, e.key, isObject, start, st, parent);
    var mid := After(st, keys, k);
    if e.trail != "" {
      SpanChar(s, q, e.trail, t, 0);
    }
    ValueTokenized(s, start, e.value, q, mid);
    var values := Walk(e.value, start, Some(parent), |mid.tokens|);
    SkipBlanks(s, q, e.trail, t, After(mid, values, 1));
    AppendsThen(s, p, start, t, st, keys, k, values, 1);
  }

  // ----- Documents -----

  /**
   Every tree of an accepted text yields its walk, and an array of half the text's length
   plus one token would do: the loader allocates one more.
   */
  lemma TokensAreTheWalk(s: string, d: Document, capacity: nat)
    requires WellFormedDocument(d, true) && DocumentText(d) == s
    requires capacity >= |s| / 2 + 1
    ensures Tokenize(s, capacity) == Some(Walk(d.root, |d.before|, None, 0))
  {
    hide Spans, ValueText, TokenizeAt, Walk;
    var p, q := |d.before|, |d.before| + |ValueText(d.root)|;
    var st := State([], capacity, None);
    var ts := Walk(d.root, p, None, 0);
    DocumentSpans(d, s);
    SizeBound(d.root, true);
    SkipBlanks(s, 0, d.before, p, st);
    ValueTokenized(s, p, d.root, q, st);
    var done := After(st, ts, 1);
    SkipBlanks(s, q, d.after, |s|, done);
    assert done.tokens == ts;
    FirstToken(d.root, p);
  }

  lemma FirstToken(v: Value, p: nat)
    ensures Walk(v, p, None, 0)[0].parent == None
  {
  }

  function TokenCapacity(s: string): nat {
    |s| / 2 + 2
  }

  /** Every text the validator accepts is tokenized, and the tokens are the walk of its tree. */
  lemma AcceptedIsTokenized(s: string) returns (d: Document)
    requires Accepts(s)
    ensures WellFormedDocument(d, true) && Height(d.root) <= 64 && DocumentText(d) == s
    ensures Tokenize(s, |s| / 2 + 2) == Some(Walk(d.root, |d.before|, None, 0)) && TokenCapacity(s) == |s| / 2 + 2
  {
    d := BuiltDocument(s);
    TokensAreTheWalk(s, d, TokenCapacity(s));
  }
}
