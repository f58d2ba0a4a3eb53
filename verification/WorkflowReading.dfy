/**
 The loader's index arithmetic over flat tokens reads the catalog that the parse tree means.
 */
module WorkflowReading {
  import opened Wrappers
  import opened Decimals
  import opened JsonGrammar
  import opened JsonValidator
  import opened JsonAcceptance
  import opened JsonTokens
  import opened JsonWalk
  import opened TokenRows
  import opened WorkflowModel
  import opened WorkflowLoader
  import opened WorkflowTree

  // ----- Tokens of placed values -----

  lemma FirstOfSlice(ts: seq<Token>, i: nat, w: seq<Token>)
    requires w != [] && i + |w| <= |ts| && ts[i..i + |w|] == w
    ensures ts[i] == w[0] && ts[i + 1..i + |w|] == w[1..]
  {
    assert ts[i] == ts[i..i + |w|][0];
    SubSlice(ts, i, |w|, 1, |w|);
  }

  lemma ScalarWalk(v: Value, p: nat, parent: Option<nat>, base: nat)
    requires !v.Composite?
    ensures var r := p + |ValueText(v)|;
            Walk(v, p, parent, base) ==
              [if v.Str? then Token(StringToken, p + 1, r - 1, 0, parent) else Token(PrimitiveToken, p, r, 0, parent)]
  {
  }

  lemma ScalarToken(s: string, ts: seq<Token>, i: nat, v: Value, p: nat, parent: Option<nat>)
    requires InText(s, ts) && Placed(s, ts, i, v, p, parent) && !v.Composite?
    ensures ts[i].kind == if v.Str? then StringToken else PrimitiveToken
    ensures ts[i].childCount == 0
    ensures TokenText(s, ts[i]) == if v.Str? then v.body else ValueText(v)
  {
    hide Closed, WellFormed, Walk, WalkElems, InText, Spans, ValueText;
    InBounds(s, ts, i, v, p, parent);
    FirstOfSlice(ts, i, Walk(v, p, parent, i));
    ScalarWalk(v, p, parent, i);
    ScalarSpan(s, v, p);
  }

  lemma ScalarSpan(s: string, v: Value, p: nat)
    requires !v.Composite? && Spans(s, p, ValueText(v), p + |ValueText(v)|)
    ensures var r := p + |ValueText(v)|;
            r <= |s| && s[p..r] == ValueText(v) && (v.Str? ==> p + 1 <= r - 1 && s[p + 1..r - 1] == v.body)
  {
    if v.Str? {
      QuotedSpans(s, p, v.body, p + |ValueText(v)|);
    }
  }

  lemma CompositeParts(s: string, v: Value, p: nat)
    requires v.Composite? && Spans(s, p, ValueText(v), p + |ValueText(v)|)
    ensures var q := p + 1 + |v.lead|; Spans(s, q, ElemsText(v.elems), q + |ElemsText(v.elems)|)
  {
    hide Spans, ElemsText;
    CompositeSpans(s, p, v, p + |ValueText(v)|);
  }

  lemma ContainerToken(s: string, ts: seq<Token>, i: nat, v: Value, p: nat, parent: Option<nat>)
    requires Placed(s, ts, i, v, p, parent) && v.Composite?
    ensures ts[i].kind == ContainerKind(v.isObject) && ts[i].childCount == Children(v.elems)
    ensures PlacedElems(s, ts, i, i + 1, v.elems, v.isObject, p + 1 + |v.lead|)
    ensures i + 1 + SizeElems(v.elems) == i + Size(v)
  {
    hide Closed, WalkElems, Walk, ElemsText, ValueText, Spans, AllSpace;
    FirstOfSlice(ts, i, Walk(v, p, parent, i));
    WalkComposite(v, p, parent, i, p + |ValueText(v)|);
    CompositeParts(s, v, p);
  }

  lemma StringTokenIs(s: string, ts: seq<Token>, i: nat, v: Value, p: nat, parent: Option<nat>, key: string)
    requires InText(s, ts) && Placed(s, ts, i, v, p, parent)
    ensures i < |ts| && (TokenEquals(s, ts[i], key) <==> v == Str(key))
  {
    hide Placed, InText;
    InBounds(s, ts, i, v, p, parent);
    if v.Composite? {
      ContainerToken(s, ts, i, v, p, parent);
    } else {
      ScalarToken(s, ts, i, v, p, parent);
    }
  }

  lemma InBounds(s: string, ts: seq<Token>, i: nat, v: Value, p: nat, parent: Option<nat>)
    requires InText(s, ts) && Placed(s, ts, i, v, p, parent)
    ensures 0 < Size(v) && i + Size(v) <= |ts| && ts[i].start <= ts[i].end <= |s|
  {
  }

  // ----- Lookups -----

  lemma {:induction false} NthSkips(ts: seq<Token>, at: nat, n: nat, i: nat, j: nat)
    requires i <= j <= |ts| && forall k :: i <= k < j ==> ts[k].parent != Some(at)
    ensures NthChild(ts, at, n, i) == NthChild(ts, at, n, j)
    decreases j - i
  {
    if i < j {
      NthSkips(ts, at, n, i + 1, j);
    }
  }

  lemma {:induction false} FindSkips(s: string, ts: seq<Token>, at: nat, key: string, i: nat, j: nat, found: Option<nat>)
    requires InText(s, ts) && (found.Some? ==> found.value < |ts|)
    requires i <= j <= |ts| && forall k :: i <= k < j ==> ts[k].parent != Some(at)
    ensures FindFrom(s, ts, at, key, i, found) == FindFrom(s, ts, at, key, j, found)
    decreases j - i
  {
    hide InText;
    if i < j {
      FindSkips(s, ts, at, key, i + 1, j, found);
    }
  }

  /** The tokens of a kid behind its first, and those behind all kids, have other parents. */
  lemma KidTokens(s: string, ts: seq<Token>, at: nat, kids: seq<Kid>, from: nat, to: nat, m: nat)
    requires Row(s, ts, at, kids, from, to) && m < |kids| && at < kids[m].index
    ensures kids[m].index < |ts| && ts[kids[m].index].parent == Some(at)
    ensures kids[m].index < IndexAt(kids, m + 1, to) <= |ts|
    ensures forall k :: kids[m].index < k < IndexAt(kids, m + 1, to) ==> ts[k].parent != Some(at)
  {
    var kid := kids[m];
    assert Placed(s, ts, kid.index, kid.value, kid.pos, Some(at));
    PlacedParents(s, ts, kid.index, kid.value, kid.pos, Some(at));
    SizePositive(kid.value);
  }

  lemma SizePositive(v: Value)
    ensures Size(v) > 0
  {
  }

  lemma {:induction false} NthOfRow(s: string, ts: seq<Token>, at: nat, kids: seq<Kid>, from: nat, to: nat, m: nat, n: nat)
    requires Row(s, ts, at, kids, from, to) && Closed(ts, at, to) && to <= |ts| && m <= |kids|
    requires at < IndexAt(kids, m, to)
    ensures NthChild(ts, at, n, IndexAt(kids, m, to)) == if m + n < |kids| then Some(kids[m + n].index) else None
    decreases |kids| - m
  {
    hide Row, Closed;
    if m == |kids| {
      ClosedBehind(ts, at, to);
      NthSkips(ts, at, n, to, |ts|);
    } else {
      KidTokens(s, ts, at, kids, from, to, m);
      if n > 0 {
        NthSkips(ts, at, n - 1, kids[m].index + 1, IndexAt(kids, m + 1, to));
        NthOfRow(s, ts, at, kids, from, to, m + 1, n - 1);
      }
    }
  }

  lemma ClosedBehind(ts: seq<Token>, at: nat, to: nat)
    requires Closed(ts, at, to) && at < to
    ensures forall k :: to <= k < |ts| ==> ts[k].parent != Some(at)
  {
  }

  /** A token index and the value that stands there, or neither. */
  ghost predicate Same(s: string, ts: seq<Token>, i: Option<nat>, v: Option<Value>) {
    i.Some? == v.Some? && (i.Some? ==> i.value < |ts| && Stands(s, ts, i.value, v.value))
  }

  /** Whether the m-th kid is a name for the one behind it. */
  lemma KeyAtKid(s: string, ts: seq<Token>, at: nat, kids: seq<Kid>, from: nat, to: nat, m: nat, key: string)
    requires InText(s, ts) && Row(s, ts, at, kids, from, to) && Closed(ts, at, to) && to <= |ts|
    requires m < |kids| && at < kids[m].index && kids[m].index + 1 < |ts|
    ensures IsKey(s, ts, at, key, kids[m].index) <==> kids[m].value == Str(key) && m + 1 < |kids|
    ensures kids[m].value == Str(key) ==> IndexAt(kids, m + 1, to) == kids[m].index + 1
  {
    hide Placed, Closed, InText;
    var kid := kids[m];
    assert Placed(s, ts, kid.index, kid.value, kid.pos, Some(at));
    StringTokenIs(s, ts, kid.index, kid.value, kid.pos, Some(at), key);
    KidTokens(s, ts, at, kids, from, to, m);
    InBounds(s, ts, kid.index, kid.value, kid.pos, Some(at));
    if kid.value == Str(key) {
      assert IndexAt(kids, m + 1, to) == kid.index + 1;
      if m + 1 < |kids| {
        KidTokens(s, ts, at, kids, from, to, m + 1);
      } else {
        ClosedBehind(ts, at, to);
      }
    }
  }

  predicate ValuesOf(kids: seq<Kid>, vs: seq<Value>) {
    |kids| == |vs| && forall m :: 0 <= m < |kids| ==> kids[m].value == vs[m]
  }

  lemma {:induction false} KidListValues(e: Elems, p: nat, i: nat)
    ensures ValuesOf(KidList(e, p, i), Kids(e))
    decreases e
  {
    hide ElementEnd, ValueStart, Size;
    if e.Elem? {
      KidListValues(e.rest, ElementEnd(p, e) + 1 + |e.next|, i + (if e.key.Key? then 1 else 0) + Size(e.value));
    }
  }

  lemma KidAt(s: string, ts: seq<Token>, at: nat, kids: seq<Kid>, from: nat, to: nat, m: nat)
    requires Row(s, ts, at, kids, from, to) && m < |kids|
    ensures kids[m].index < |ts| && Stands(s, ts, kids[m].index, kids[m].value)
  {
    assert Placed(s, ts, kids[m].index, kids[m].value, kids[m].pos, Some(at));
    SizePositive(kids[m].value);
  }

  lemma {:induction false} FindOfRow(s: string, ts: seq<Token>, at: nat, key: string, kids: seq<Kid>, vs: seq<Value>,
                                     from: nat, to: nat, m: nat, i: Option<nat>, v: Option<Value>)
    requires InText(s, ts) && Row(s, ts, at, kids, from, to) && Closed(ts, at, to) && to <= |ts| && m <= |kids|
    requires ValuesOf(kids, vs) && at < IndexAt(kids, m, to) && Same(s, ts, i, v)
    ensures Same(s, ts, FindFrom(s, ts, at, key, IndexAt(kids, m, to), i), Pick(vs, key, m, v))
    decreases |kids| - m
  {
    hide Row, Closed, Stands, InText, Placed, IsKey;
    if m == |kids| {
      ClosedBehind(ts, at, to);
      FindSkips(s, ts, at, key, to, |ts|, i);
    } else {
      var index, next := kids[m].index, IndexAt(kids, m + 1, to);
      KidTokens(s, ts, at, kids, from, to, m);
      if m + 1 < |kids| {
        KidTokens(s, ts, at, kids, from, to, m + 1);
      }
      if index + 1 < |ts| {
        KeyAtKid(s, ts, at, kids, from, to, m, key);
        if vs[m] == Str(key) && m + 1 < |kids| {
          if i.None? {
            KidAt(s, ts, at, kids, from, to, m + 1);
            FindOfRow(s, ts, at, key, kids, vs, from, to, m + 1, Some(index + 1), Some(vs[m + 1]));
          }
        } else {
          FindSkips(s, ts, at, key, index + 1, next, i);
          FindOfRow(s, ts, at, key, kids, vs, from, to, m + 1, i, v);
        }
      }
    }
  }

  // ----- Members and elements -----

  lemma {:induction false} KidCount(e: Elems)
    ensures |Kids(e)| == Children(e)
  {
    if e.Elem? {
      KidCount(e.rest);
    }
  }

  /** Everything about the kids of a container that stands at `i`. */
  lemma ContainerRow(s: string, ts: seq<Token>, i: nat, v: Value) returns (kids: seq<Kid>)
    requires InText(s, ts) && v.Composite? && Stands(s, ts, i, v)
    ensures i + Size(v) <= |ts| && Size(v) > 0 && ts[i].kind == ContainerKind(v.isObject) && ts[i].childCount == |Kids(v.elems)|
    ensures Row(s, ts, i, kids, i + 1, i + Size(v)) && Closed(ts, i, i + Size(v)) && ValuesOf(kids, Kids(v.elems))
  {
    hide PlacedElems, WellFormed, Walk, ValueText, Spans, Closed, Row, KidList;
    var p: nat, parent: Option<nat> :| Placed(s, ts, i, v, p, parent);
    ContainerToken(s, ts, i, v, p, parent);
    InBounds(s, ts, i, v, p, parent);
    var q := p + 1 + |v.lead|;
    kids := KidList(v.elems, q, i + 1);
    KidsInRow(s, ts, i, i + 1, v.elems, v.isObject, q);
    KidListValues(v.elems, q, i + 1);
    KidCount(v.elems);
  }

  /** A token that is not a container's is a scalar's. */
  lemma ScalarStands(s: string, ts: seq<Token>, i: nat, v: Value)
    requires InText(s, ts) && !v.Composite? && Stands(s, ts, i, v)
    ensures i < |ts| && ts[i].kind == (if v.Str? then StringToken else PrimitiveToken)
    ensures TokenText(s, ts[i]) == if v.Str? then v.body else ValueText(v)
  {
    hide Placed, ValueText;
    var p: nat, parent: Option<nat> :| Placed(s, ts, i, v, p, parent);
    InBounds(s, ts, i, v, p, parent);
    ScalarToken(s, ts, i, v, p, parent);
  }

  /** The loader's lookup finds the token of the member that the tree's lookup finds. */
  lemma MemberFound(s: string, ts: seq<Token>, i: nat, v: Value, key: string)
    requires InText(s, ts) && Stands(s, ts, i, v)
    ensures i < |ts| && Same(s, ts, Find(s, ts, i, key), Member(v, key))
  {
    hide Stands, Row, Closed, InText, Pick, FindFrom, TokenText;
    if v.Composite? {
      var kids := ContainerRow(s, ts, i, v);
      if v.isObject {
        FirstIndex(s, ts, i, kids, i + 1, i + Size(v));
        FindOfRow(s, ts, i, key, kids, Kids(v.elems), i + 1, i + Size(v), 0, None, None);
      }
    } else {
      ScalarStands(s, ts, i, v);
    }
  }

  lemma FirstIndex(s: string, ts: seq<Token>, at: nat, kids: seq<Kid>, from: nat, to: nat)
    requires Row(s, ts, at, kids, from, to)
    ensures IndexAt(kids, 0, to) == from
  {
  }

  /** The loader's n-th element is the tree's; it is never missing. */
  lemma ElementFound(s: string, ts: seq<Token>, i: nat, v: Value, n: nat)
    requires InText(s, ts) && Stands(s, ts, i, v) && v.Composite? && !v.isObject && n < |Kids(v.elems)|
    ensures Nth(ts, i, n).Some? && Stands(s, ts, Nth(ts, i, n).value, Kids(v.elems)[n])
  {
    hide Stands, Row, Closed, InText, NthChild;
    var kids := ContainerRow(s, ts, i, v);
    FirstIndex(s, ts, i, kids, i + 1, i + Size(v));
    NthOfRow(s, ts, i, kids, i + 1, i + Size(v), 0, n);
    KidAt(s, ts, i, kids, i + 1, i + Size(v), n);
  }

  // ----- Scalars -----

  lemma NotADigit(t: string, i: nat)
    requires i < |t| && !IsDigit(t[i])
    ensures !AllDigits(t)
  {
  }

  /** A number's text is all digits exactly when it has no sign, fraction or exponent. */
  lemma PlainNumber(v: Value)
    requires v.Number? && WellFormed(v, true)
    ensures var t := ValueText(v);
            && t != "" && t[0] != '+'
            && (AllDigits(t) <==> v.minus == v.fraction == v.exponent == "")
            && (AllDigits(t) ==> t == v.whole && AllDigits(v.whole))
  {
    var t := ValueText(v);
    assert t == v.minus + v.whole + v.fraction + v.exponent;
    if v.minus != "" {
      NotADigit(t, 0);
    } else if v.fraction != "" {
      assert t[|v.whole|] == v.fraction[0];
      NotADigit(t, |v.whole|);
    } else if v.exponent != "" {
      assert t[|v.whole|] == v.exponent[0];
      NotADigit(t, |v.whole|);
    } else {
      assert t == v.whole;
    }
  }

  lemma NumberRead(s: string, ts: seq<Token>, i: nat, v: Value)
    requires InText(s, ts) && Stands(s, ts, i, v)
    ensures i < |ts| && ReadU64(s, ts[i]) == NumberIn(v)
  {
    hide Stands, InText, ValueText, AllDigits, DigitsValue, TokenText;
    InTextAt(s, ts, i, v);
    if v.Composite? {
      var kids := ContainerRow(s, ts, i, v);
    } else {
      ScalarStands(s, ts, i, v);
      StandsWellFormed(s, ts, i, v);
      if v.Number? {
        PlainNumber(v);
      } else if v.Literal? {
        LiteralDigits(v);
      }
    }
  }

  lemma LiteralDigits(v: Value)
    requires v.Literal? && WellFormed(v, true)
    ensures var t := ValueText(v); t != "" && t[0] != '+' && !AllDigits(t)
  {
    NotADigit(ValueText(v), 0);
  }

  lemma InTextAt(s: string, ts: seq<Token>, i: nat, v: Value)
    requires InText(s, ts) && Stands(s, ts, i, v)
    ensures i < |ts| && ts[i].start <= ts[i].end <= |s|
  {
    hide Placed;
    var p: nat, parent: Option<nat> :| Placed(s, ts, i, v, p, parent);
    InBounds(s, ts, i, v, p, parent);
  }

  lemma StandsWellFormed(s: string, ts: seq<Token>, i: nat, v: Value)
    requires Stands(s, ts, i, v)
    ensures WellFormed(v, true)
  {
  }

  // ----- Fields -----

  lemma U64Read(s: string, ts: seq<Token>, i: nat, v: Value, key: string)
    requires InText(s, ts) && Stands(s, ts, i, v)
    ensures FieldU64(s, ts, i, key) == U64In(v, key)
    ensures FieldU32(s, ts, i, key) == U32In(v, key)
  {
    hide Stands, InText, Find, Member, ReadU64, NumberIn;
    MemberFound(s, ts, i, v, key);
    var at := Find(s, ts, i, key);
    if at.Some? {
      NumberRead(s, ts, at.value, Member(v, key).value);
    }
  }

  lemma StringRead(s: string, ts: seq<Token>, i: nat, v: Value, key: string)
    requires InText(s, ts) && Stands(s, ts, i, v)
    ensures FieldString(s, ts, i, key) == StringIn(v, key)
  {
    hide Stands, InText, Find, Member, ValueText, TokenText;
    MemberFound(s, ts, i, v, key);
    var at := Find(s, ts, i, key);
    if at.Some? {
      var member := Member(v, key).value;
      InTextAt(s, ts, at.value, member);
      if member.Composite? {
        var kids := ContainerRow(s, ts, at.value, member);
      } else {
        ScalarStands(s, ts, at.value, member);
      }
    }
  }

  lemma TextIs(s: string, ts: seq<Token>, i: nat, v: Value, text: string)
    requires InText(s, ts) && Stands(s, ts, i, v)
    ensures i < |ts| && (TokenEquals(s, ts[i], text) <==> v == Str(text))
  {
    hide Placed, InText, TokenEquals;
    var p: nat, parent: Option<nat> :| Placed(s, ts, i, v, p, parent);
    StringTokenIs(s, ts, i, v, p, parent, text);
  }

  /** A nonempty array member, its token and its number of elements. */
  lemma ArrayRead(s: string, ts: seq<Token>, i: nat, v: Value, key: string)
    requires InText(s, ts) && Stands(s, ts, i, v)
    ensures FieldArray(s, ts, i, key).Some? == ArrayIn(v, key).Some?
    ensures FieldArray(s, ts, i, key).Some? ==>
              var member := Member(v, key);
              && member.Some? && member.value.Composite? && !member.value.isObject
              && Stands(s, ts, FieldArray(s, ts, i, key).value, member.value)
              && ArrayIn(v, key).value == Kids(member.value.elems)
              && ts[FieldArray(s, ts, i, key).value].childCount == |ArrayIn(v, key).value|
  {
    hide Stands, InText, Find, Member, Kids;
    MemberFound(s, ts, i, v, key);
    var at := Find(s, ts, i, key);
    if at.Some? {
      var member := Member(v, key).value;
      if member.Composite? {
        var kids := ContainerRow(s, ts, at.value, member);
      } else {
        ScalarStands(s, ts, at.value, member);
      }
    }
  }

  // ----- Steps to catalogs -----

  lemma StepRead(s: string, ts: seq<Token>, i: nat, v: Value, unitCount: nat)
    requires InText(s, ts) && Stands(s, ts, i, v)
    ensures StepOf(s, ts, i, unitCount) == StepIn(v, unitCount)
  {
    hide Stands, InText, Find, Member, FieldU32, FieldU64, U32In, U64In, TokenEquals;
    U64Read(s, ts, i, v, "unit");
    U64Read(s, ts, i, v, "timeout_ms");
    MemberFound(s, ts, i, v, "command");
    var command := Find(s, ts, i, "command");
    if command.Some? {
      TextIs(s, ts, command.value, Member(v, "command").value, "execute");
    }
  }

  lemma {:induction false} StepsRead(s: string, ts: seq<Token>, i: nat, v: Value, n: nat, unitCount: nat)
    requires InText(s, ts) && Stands(s, ts, i, v) && v.Composite? && !v.isObject && n <= |Kids(v.elems)|
    ensures Steps(s, ts, i, n, unitCount) == StepsIn(Kids(v.elems), n, unitCount)
  {
    hide Stands, InText, Kids, Nth, StepOf, StepIn;
    if n > 0 {
      StepsRead(s, ts, i, v, n - 1, unitCount);
      ElementFound(s, ts, i, v, n - 1);
      StepRead(s, ts, Nth(ts, i, n - 1).value, Kids(v.elems)[n - 1], unitCount);
    }
  }

  lemma SequenceRead(s: string, ts: seq<Token>, i: nat, v: Value, unitCount: nat)
    requires InText(s, ts) && Stands(s, ts, i, v)
    ensures SequenceOf(s, ts, i, unitCount) == SequenceIn(v, unitCount)
  {
    hide Stands, InText, Kids, Member, FieldString, StringIn, FieldArray, ArrayIn, Steps, StepsIn;
    StringRead(s, ts, i, v, "name");
    ArrayRead(s, ts, i, v, "steps");
    var steps := FieldArray(s, ts, i, "steps");
    if steps.Some? {
      StepsRead(s, ts, steps.value, Member(v, "steps").value, |ArrayIn(v, "steps").value|, unitCount);
    }
  }

  lemma {:induction false} SequencesRead(s: string, ts: seq<Token>, i: nat, v: Value, n: nat, unitCount: nat)
    requires InText(s, ts) && Stands(s, ts, i, v) && v.Composite? && !v.isObject && n <= |Kids(v.elems)|
    ensures Sequences(s, ts, i, n, unitCount) == SequencesIn(Kids(v.elems), n, unitCount)
  {
    hide Stands, InText, Kids, Nth, SequenceOf, SequenceIn, AllWfSequences;
    if n > 0 {
      SequencesRead(s, ts, i, v, n - 1, unitCount);
      ElementFound(s, ts, i, v, n - 1);
      SequenceRead(s, ts, Nth(ts, i, n - 1).value, Kids(v.elems)[n - 1], unitCount);
    }
  }

  lemma ScenarioRead(s: string, ts: seq<Token>, i: nat, v: Value, unitCount: nat)
    requires InText(s, ts) && Stands(s, ts, i, v)
    ensures ScenarioOf(s, ts, i, unitCount) == ScenarioIn(v, unitCount)
  {
    hide Stands, InText, Kids, Member, FieldString, StringIn, FieldArray, ArrayIn, Sequences, SequencesIn, FieldU32, U32In;
    StringRead(s, ts, i, v, "name");
    U64Read(s, ts, i, v, "id");
    ArrayRead(s, ts, i, v, "sequences");
    var sequences := FieldArray(s, ts, i, "sequences");
    if sequences.Some? {
      SequencesRead(s, ts, sequences.value, Member(v, "sequences").value, |ArrayIn(v, "sequences").value|, unitCount);
    }
  }

  lemma EntryRead(s: string, ts: seq<Token>, i: nat, v: Value, unitCount: nat, entries: seq<Entry>)
    requires InText(s, ts) && Stands(s, ts, i, v)
    ensures EntryOf(s, ts, i, unitCount, entries) ==
            var entry := EntryIn(v, unitCount);
            if entry.Some? && ClashesWithAny(entries, entry.value) then None else entry
  {
    hide Stands, InText, Find, Member, FieldU32, U32In, ScenarioOf, ScenarioIn, ClashesWithAny, WfEntry;
    U64Read(s, ts, i, v, "feature");
    U64Read(s, ts, i, v, "condition");
    MemberFound(s, ts, i, v, "scenario");
    var scenario := Find(s, ts, i, "scenario");
    if scenario.Some? {
      ScenarioRead(s, ts, scenario.value, Member(v, "scenario").value, unitCount);
    }
  }

  lemma {:induction false} EntriesRead(s: string, ts: seq<Token>, i: nat, v: Value, n: nat, unitCount: nat)
    requires InText(s, ts) && Stands(s, ts, i, v) && v.Composite? && !v.isObject && n <= |Kids(v.elems)|
    ensures Entries(s, ts, i, n, unitCount) == EntriesIn(Kids(v.elems), n, unitCount)
  {
    hide Stands, InText, Kids, Nth, EntryOf, EntryIn, ClashesWithAny, WfCatalog;
    if n > 0 {
      EntriesRead(s, ts, i, v, n - 1, unitCount);
      ElementFound(s, ts, i, v, n - 1);
      var front := Entries(s, ts, i, n - 1, unitCount);
      if front.Some? {
        EntryRead(s, ts, Nth(ts, i, n - 1).value, Kids(v.elems)[n - 1], unitCount, front.value);
      }
    }
  }

  lemma CatalogRead(s: string, ts: seq<Token>, v: Value, unitCount: nat)
    requires InText(s, ts) && Stands(s, ts, 0, v)
    ensures Catalog(s, ts, unitCount) == CatalogIn(v, unitCount)
  {
    hide Stands, InText, Kids, Member, FieldArray, ArrayIn, Entries, EntriesIn, FieldU64, U64In, WfCatalog;
    U64Read(s, ts, 0, v, "schema_version");
    ArrayRead(s, ts, 0, v, "workflows");
    var workflows := FieldArray(s, ts, 0, "workflows");
    if workflows.Some? {
      EntriesRead(s, ts, workflows.value, Member(v, "workflows").value, |ArrayIn(v, "workflows").value|, unitCount);
    }
  }

  // ----- Loading is reading the tree -----

  lemma WholeTreeStands(s: string, d: Document)
    requires WellFormedDocument(d, true) && DocumentText(d) == s
    ensures Stands(s, Walk(d.root, |d.before|, None, 0), 0, d.root)
  {
    hide Walk, ValueText, WellFormed, Spans;
    var p := |d.before|;
    var ts := Walk(d.root, p, None, 0);
    DocumentSpans(d, s);
    assert ts[0..Size(d.root)] == ts;
    assert Placed(s, ts, 0, d.root, p, None);
  }

  /**
   On every text the validator accepts, the loader returns the catalog that the text's tree
   means, or a schema error when it means none.
   */
  lemma LoadReadsTheTree(s: string, d: Document, unitCount: nat)
    requires WellFormedDocument(d, true) && Height(d.root) <= 64 && DocumentText(d) == s && unitCount > 0
    ensures Load(s, unitCount) ==
            var catalog := CatalogIn(d.root, unitCount);
            if catalog.Some? then Loaded(catalog.value) else SchemaError
  {
    hide Catalog, CatalogIn, Walk, WellFormedDocument, DocumentText, Height, Tokenize, Stands, Accepts, InText, WfCatalog;
    DocumentComplete(d, s);
    AcceptedInText(s);
    TokensAreTheWalk(s, d, TokenCapacity(s));
    WholeTreeStands(s, d);
    CatalogRead(s, Walk(d.root, |d.before|, None, 0), d.root, unitCount);
  }

  /**
   The results of loading any text: an invalid argument without units, a parse error exactly when
   the text is not of the validator's grammar, a schema error exactly when it is but its tree
   means no catalog, and otherwise that catalog.
   */
  lemma LoadResultsExactly(s: string, unitCount: nat)
    ensures Load(s, unitCount) == InvalidArgument <==> unitCount == 0
    ensures Load(s, unitCount) == ParseError <==> unitCount > 0 && !IsJsonText(s, true)
    ensures unitCount > 0 && IsJsonText(s, true) ==>
              exists d: Document {:trigger DocumentText(d)} ::
                && WellFormedDocument(d, true) && Height(d.root) <= 64 && DocumentText(d) == s
                && Load(s, unitCount) == (var catalog := CatalogIn(d.root, unitCount);
                                          if catalog.Some? then Loaded(catalog.value) else SchemaError)
  {
    AcceptsLaxGrammar(s);
    hide Catalog, CatalogIn, WellFormedDocument, DocumentText, Height, Tokenize, Accepts, InText, WfCatalog;
    if unitCount > 0 && IsJsonText(s, true) {
      var d: Document :| WellFormedDocument(d, true) && Height(d.root) <= 64 && DocumentText(d) == s;
      LoadReadsTheTree(s, d, unitCount);
    }
  }
}
