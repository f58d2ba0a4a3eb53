/**
 Trees among the tokens: where the tokens of a value, and of everything directly in it,
 stand in the token array.
 */
module TokenRows {
  import opened Wrappers
  import opened JsonGrammar
  import opened JsonAcceptance
  import opened JsonTokens
  import opened JsonWalk

  // ----- Where a tree stands among the tokens -----

  /** No token behind `to` has its parent in `from .. to`. */
  predicate Closed(ts: seq<Token>, from: nat, to: nat) {
    forall j :: to <= j < |ts| ==> ts[j].parent.None? || ts[j].parent.value < from || to <= ts[j].parent.value
  }

  predicate Placed(s: string, ts: seq<Token>, i: nat, v: Value, p: nat, parent: Option<nat>) {
    && WellFormed(v, true)
    && i + Size(v) <= |ts| && ts[i..i + Size(v)] == Walk(v, p, parent, i)
    && Spans(s, p, ValueText(v), p + |ValueText(v)|)
    && Closed(ts, i, i + Size(v))
  }

  /** Token `i` is the first one of `v`. */
  ghost predicate Stands(s: string, ts: seq<Token>, i: nat, v: Value) {
    exists p: nat, parent: Option<nat> :: Placed(s, ts, i, v, p, parent)
  }

  predicate PlacedElems(s: string, ts: seq<Token>, at: nat, i: nat, e: Elems, isObject: bool, p: nat) {
    && WellFormedElems(e, isObject, true) && at < i
    && i + SizeElems(e) <= |ts| && ts[i..i + SizeElems(e)] == WalkElems(e, p, at, i)
    && Spans(s, p, ElemsText(e), p + |ElemsText(e)|)
    && Closed(ts, at, i + SizeElems(e))
  }

  /** Inside a tree every token's parent is a token of the tree. */
  lemma {:induction false} ParentsInside(v: Value, p: nat, parent: Option<nat>, base: nat, k: nat)
    requires 0 < k < Size(v)
    ensures var q := Walk(v, p, parent, base)[k].parent; q.Some? && base <= q.value < base + Size(v)
    decreases v, 0
  {
    if v.Composite? {
      ElemsParentsInside(v.elems, p + 1 + |v.lead|, base, base + 1, k - 1);
    }
  }

  lemma {:induction false} ElemsParentsInside(e: Elems, p: nat, parent: nat, base: nat, k: nat)
    requires k < SizeElems(e)
    ensures var q := WalkElems(e, p, parent, base)[k].parent;
            q.Some? && (q.value == parent || base <= q.value < base + SizeElems(e))
    decreases e, 1
  {
    hide Walk, ElementEnd, ValueStart;
    var n := |WalkKey(e.key, p, parent)|;
    if k < n {
    } else if k < n + Size(e.value) {
      FirstParent(e.value, ValueStart(p, e), Some(parent), base + n);
      if k > n {
        ParentsInside(e.value, ValueStart(p, e), Some(parent), base + n, k - n);
      }
    } else {
      ElemsParentsInside(e.rest, ElementEnd(p, e) + 1 + |e.next|, parent, base + n + Size(e.value), k - n - Size(e.value));
    }
  }

  lemma FirstParent(v: Value, p: nat, parent: Option<nat>, base: nat)
    ensures Walk(v, p, parent, base)[0].parent == parent
  {
    hide WalkElems;
  }

  lemma PlacedParents(s: string, ts: seq<Token>, i: nat, v: Value, p: nat, parent: Option<nat>)
    requires Placed(s, ts, i, v, p, parent)
    ensures ts[i].parent == parent
    ensures forall j :: i < j < i + Size(v) ==> ts[j].parent.Some? && i <= ts[j].parent.value < i + Size(v)
  {
    hide Walk, WellFormed, ValueText, Closed;
    FirstParent(v, p, parent, i);
    assert ts[i] == ts[i..i + Size(v)][0];
    forall j | i < j < i + Size(v)
      ensures ts[j].parent.Some? && i <= ts[j].parent.value < i + Size(v)
    {
      ParentsInside(v, p, parent, i, j - i);
      assert ts[j] == ts[i..i + Size(v)][j - i];
    }
  }

  // ----- The kids of a container and their tokens -----

  datatype Kid = Kid(value: Value, index: nat, pos: nat)

  function KidList(e: Elems, p: nat, i: nat): seq<Kid> {
    match e
    case NoElems => []
    case Elem(key, value, _, next, rest) =>
      HeadKids(e, p, i) + KidList(rest, ElementEnd(p, e) + 1 + |next|, i + (if key.Key? then 1 else 0) + Size(value))
  }

  function HeadKids(e: Elems, p: nat, i: nat): seq<Kid>
    requires e.Elem?
  {
    if e.key.Key? then [Kid(Str(e.key.name), i, p), Kid(e.value, i + 1, ValueStart(p, e))]
    else [Kid(e.value, i, ValueStart(p, e))]
  }

  /** The first token of the m-th kid, or `to` behind the last. */
  function IndexAt(kids: seq<Kid>, m: nat, to: nat): nat {
    if m < |kids| then kids[m].index else to
  }

  /** The kids fill the tokens `from .. to`, one after the other. */
  predicate Row(s: string, ts: seq<Token>, at: nat, kids: seq<Kid>, from: nat, to: nat) {
    && IndexAt(kids, 0, to) == from
    && forall m :: 0 <= m < |kids| ==>
         && Placed(s, ts, kids[m].index, kids[m].value, kids[m].pos, Some(at))
         && IndexAt(kids, m + 1, to) == kids[m].index + Size(kids[m].value)
  }

  lemma RowCons(s: string, ts: seq<Token>, at: nat, kid: Kid, rest: seq<Kid>, to: nat)
    requires Placed(s, ts, kid.index, kid.value, kid.pos, Some(at))
    requires Row(s, ts, at, rest, kid.index + Size(kid.value), to)
    ensures Row(s, ts, at, [kid] + rest, kid.index, to)
  {
    hide Placed, Size;
    var kids := [kid] + rest;
    forall m | 0 <= m < |kids|
      ensures Placed(s, ts, kids[m].index, kids[m].value, kids[m].pos, Some(at))
      ensures IndexAt(kids, m + 1, to) == kids[m].index + Size(kids[m].value)
    {
      if m > 0 {
        assert kids[m] == rest[m - 1];
        assert IndexAt(kids, m + 1, to) == IndexAt(rest, m, to);
      } else {
        assert IndexAt(kids, 1, to) == IndexAt(rest, 0, to);
      }
    }
  }

  lemma SubSlice(ts: seq<Token>, i: nat, n: nat, a: nat, b: nat)
    requires i + n <= |ts| && a <= b <= n
    ensures ts[i..i + n][a..b] == ts[i + a..i + b]
  {
    var x := ts[i..i + n];
    forall k | 0 <= k < b - a
      ensures x[a..b][k] == ts[i + a..i + b][k]
    {
      assert x[a..b][k] == x[a + k] == ts[i + a + k];
    }
  }

  lemma SliceParts(ts: seq<Token>, i: nat, a: seq<Token>, b: seq<Token>, c: seq<Token>)
    requires i + |a| + |b| + |c| <= |ts| && ts[i..i + |a| + |b| + |c|] == a + b + c
    ensures ts[i..i + |a|] == a && ts[i + |a|..i + |a| + |b|] == b && ts[i + |a| + |b|..i + |a| + |b| + |c|] == c
  {
    var n, m := |a| + |b| + |c|, |a| + |b|;
    var x := ts[i..i + n];
    assert x == a + b + c;
    assert x[0..|a|] == a && x[|a|..m] == b && x[m..n] == c;
    SubSlice(ts, i, n, 0, |a|);
    SubSlice(ts, i, n, |a|, m);
    SubSlice(ts, i, n, m, n);
  }

  lemma ElemParts(s: string, ts: seq<Token>, at: nat, i: nat, e: Elems, isObject: bool, p: nat)
    requires e.Elem? && PlacedElems(s, ts, at, i, e, isObject, p)
    ensures var k := if e.key.Key? then 1 else 0; var r := i + k + Size(e.value);
            && ts[i..i + k] == WalkKey(e.key, p, at)
            && ts[i + k..r] == Walk(e.value, ValueStart(p, e), Some(at), i + k)
            && ts[r..r + SizeElems(e.rest)] == WalkElems(e.rest, ElementEnd(p, e) + 1 + |e.next|, at, r)
            && r + SizeElems(e.rest) == i + SizeElems(e)
  {
    hide Walk, WalkKey, ElementEnd, ValueStart, Closed, Spans, WellFormedElems, ElemsText;
    var k := |WalkKey(e.key, p, at)|;
    var r := i + k + Size(e.value);
    SliceParts(ts, i, WalkKey(e.key, p, at), Walk(e.value, ValueStart(p, e), Some(at), i + k),
               WalkElems(e.rest, ElementEnd(p, e) + 1 + |e.next|, at, r));
  }

  lemma SpanLength(s: string, p: nat, t: string, r: nat)
    requires Spans(s, p, t, r)
    ensures r == p + |t|
  {
  }

  lemma ElementEnds(p: nat, e: Elems)
    requires e.Elem?
    ensures ValueEnd(p, e) == ValueStart(p, e) + |ValueText(e.value)|
  {
  }

  lemma KeyNameSpan(s: string, p: nat, k: Key, r: nat)
    requires k.Key? && Spans(s, p, KeyText(k), r)
    ensures Spans(s, p, ValueText(Str(k.name)), p + |ValueText(Str(k.name))|)
  {
    KeySpans(s, p, k, r);
  }

  /** The texts of an element's parts. */
  lemma ElemTexts(s: string, e: Elems, isObject: bool, p: nat)
    requires e.Elem? && WellFormedElems(e, isObject, true) && Spans(s, p, ElemsText(e), p + |ElemsText(e)|)
    ensures Spans(s, ValueStart(p, e), ValueText(e.value), ValueStart(p, e) + |ValueText(e.value)|)
    ensures var q := ElementEnd(p, e) + 1 + |e.next|;
            e.rest.Elem? ==> Spans(s, q, ElemsText(e.rest), q + |ElemsText(e.rest)|)
    ensures e.key.Key? ==> Spans(s, p, ValueText(Str(e.key.name)), p + |ValueText(Str(e.key.name))|)
  {
    hide Spans, ElemsText, KeyText, ValueText, WellFormedElems, ElementEnd, ValueStart;
    var q := ElementEnd(p, e) + 1 + |e.next|;
    ElemsSpans(s, p, e, p + |ElemsText(e)|);
    ElementEnds(p, e);
    if e.rest.Elem? {
      assert Spans(s, q, ElemsText(e.rest), p + |ElemsText(e)|);
      SpanLength(s, q, ElemsText(e.rest), p + |ElemsText(e)|);
    }
    if e.key.Key? {
      KeyNameSpan(s, p, e.key, ValueStart(p, e));
    }
  }

  /** Tokens behind a kid never have a parent inside it. */
  lemma KidClosed(ts: seq<Token>, at: nat, from: nat, mid: nat, to: nat)
    requires at < from <= mid <= to <= |ts| && Closed(ts, at, to)
    requires forall j :: mid <= j < to ==> ts[j].parent.Some? && (ts[j].parent.value == at || mid <= ts[j].parent.value)
    ensures Closed(ts, from, mid)
  {
  }

  lemma KeyPlaced(s: string, ts: seq<Token>, at: nat, i: nat, e: Elems, isObject: bool, p: nat)
    requires e.Elem? && e.key.Key? && PlacedElems(s, ts, at, i, e, isObject, p)
    requires Closed(ts, i, i + 1)
    ensures Placed(s, ts, i, Str(e.key.name), p, Some(at))
  {
    hide Closed, WalkElems, ElemsText, Spans, IsBody, AllSpace;
    ElemParts(s, ts, at, i, e, isObject, p);
    ElemTexts(s, e, isObject, p);
    assert Walk(Str(e.key.name), p, Some(at), i) == WalkKey(e.key, p, at);
  }

  lemma ValuePlaced(s: string, ts: seq<Token>, at: nat, i: nat, e: Elems, isObject: bool, p: nat)
    requires e.Elem? && PlacedElems(s, ts, at, i, e, isObject, p)
    requires var v := i + (if e.key.Key? then 1 else 0); Closed(ts, v, v + Size(e.value))
    ensures Placed(s, ts, i + (if e.key.Key? then 1 else 0), e.value, ValueStart(p, e), Some(at))
  {
    hide Closed, WalkElems, Walk, ElemsText, Spans, AllSpace, ValueText, KeyText, ValueStart, ElementEnd;
    ElemParts(s, ts, at, i, e, isObject, p);
    ElemTexts(s, e, isObject, p);
  }

  lemma RestPlaced(s: string, ts: seq<Token>, at: nat, i: nat, e: Elems, isObject: bool, p: nat)
    requires e.Elem? && e.rest.Elem? && PlacedElems(s, ts, at, i, e, isObject, p)
    ensures PlacedElems(s, ts, at, i + (if e.key.Key? then 1 else 0) + Size(e.value), e.rest, isObject,
                        ElementEnd(p, e) + 1 + |e.next|)
  {
    hide Closed, WalkElems, Walk, ElemsText, Spans, AllSpace, ValueText, KeyText, ValueStart, ElementEnd;
    ElemParts(s, ts, at, i, e, isObject, p);
    ElemTexts(s, e, isObject, p);
  }

  /** Where the parents of the tokens of an element list are. */
  lemma ListParents(s: string, ts: seq<Token>, at: nat, i: nat, e: Elems, isObject: bool, p: nat)
    requires PlacedElems(s, ts, at, i, e, isObject, p)
    ensures forall j :: i <= j < i + SizeElems(e) ==> ts[j].parent.Some? && (ts[j].parent.value == at || i <= ts[j].parent.value)
  {
    hide Closed, WalkElems, ElemsText, Spans, WellFormedElems;
    forall j | i <= j < i + SizeElems(e)
      ensures ts[j].parent.Some? && (ts[j].parent.value == at || i <= ts[j].parent.value)
    {
      ElemsParentsInside(e, p, at, i, j - i);
      assert ts[j] == ts[i..i + SizeElems(e)][j - i];
    }
  }

  /** Tokens behind the value of an element have no parent in it, nor in the element's key. */
  lemma ElemClosed(s: string, ts: seq<Token>, at: nat, i: nat, e: Elems, isObject: bool, p: nat)
    requires e.Elem? && PlacedElems(s, ts, at, i, e, isObject, p)
    ensures var v := i + (if e.key.Key? then 1 else 0);
            Closed(ts, v, v + Size(e.value)) && (e.key.Key? ==> Closed(ts, i, i + 1))
  {
    var v := i + (if e.key.Key? then 1 else 0);
    var r := v + Size(e.value);
    var to := i + SizeElems(e);
    RestTokens(s, ts, at, i, e, isObject, p);
    KidClosed(ts, at, v, r, to);
    if e.key.Key? {
      ValueTokens(s, ts, at, i, e, isObject, p);
      KidClosed(ts, at, i, i + 1, to);
    }
  }

  lemma RestTokens(s: string, ts: seq<Token>, at: nat, i: nat, e: Elems, isObject: bool, p: nat)
    requires e.Elem? && PlacedElems(s, ts, at, i, e, isObject, p)
    ensures var r := i + (if e.key.Key? then 1 else 0) + Size(e.value);
            forall j :: r <= j < i + SizeElems(e) ==> ts[j].parent.Some? && (ts[j].parent.value == at || r <= ts[j].parent.value)
  {
    hide PlacedElems;
    if e.rest.Elem? {
      RestPlaced(s, ts, at, i, e, isObject, p);
      ListParents(s, ts, at, i + (if e.key.Key? then 1 else 0) + Size(e.value), e.rest, isObject, ElementEnd(p, e) + 1 + |e.next|);
      RestSize(e);
    } else {
      RestSize(e);
    }
  }

  lemma RestSize(e: Elems)
    requires e.Elem?
    ensures SizeElems(e) == (if e.key.Key? then 1 else 0) + Size(e.value) + SizeElems(e.rest)
    ensures e.rest.NoElems? ==> SizeElems(e.rest) == 0
  {
  }

  lemma ValueTokens(s: string, ts: seq<Token>, at: nat, i: nat, e: Elems, isObject: bool, p: nat)
    requires e.Elem? && PlacedElems(s, ts, at, i, e, isObject, p) && e.key.Key?
    ensures forall j :: i + 1 <= j < i + SizeElems(e) ==> ts[j].parent.Some? && (ts[j].parent.value == at || i + 1 <= ts[j].parent.value)
  {
    hide Closed, WalkElems, ElemsText, Spans, WellFormedElems, Walk;
    var r := i + 1 + Size(e.value);
    RestTokens(s, ts, at, i, e, isObject, p);
    ElemParts(s, ts, at, i, e, isObject, p);
    forall j | i + 1 <= j < r
      ensures ts[j].parent.Some? && (ts[j].parent.value == at || i + 1 <= ts[j].parent.value)
    {
      assert ts[j] == ts[i + 1..r][j - (i + 1)];
      FirstParent(e.value, ValueStart(p, e), Some(at), i + 1);
      if j > i + 1 {
        ParentsInside(e.value, ValueStart(p, e), Some(at), i + 1, j - (i + 1));
      }
    }
  }

  /** The kids of one element, in front of the others. */
  lemma KidsOfElem(s: string, ts: seq<Token>, at: nat, i: nat, e: Elems, isObject: bool, p: nat, rest: seq<Kid>, to: nat)
    requires e.Elem? && PlacedElems(s, ts, at, i, e, isObject, p)
    requires Row(s, ts, at, rest, i + (if e.key.Key? then 1 else 0) + Size(e.value), to)
    ensures Row(s, ts, at, HeadKids(e, p, i) + rest, i, to)
  {
    hide PlacedElems, Placed, Closed, Row, Size, ValueStart, ElementEnd;
    var k := if e.key.Key? then 1 else 0;
    var value := Kid(e.value, i + k, ValueStart(p, e));
    ElemClosed(s, ts, at, i, e, isObject, p);
    ValuePlaced(s, ts, at, i, e, isObject, p);
    RowCons(s, ts, at, value, rest, to);
    if e.key.Key? {
      KeyPlaced(s, ts, at, i, e, isObject, p);
      KeySize(e.key.name);
      RowCons(s, ts, at, Kid(Str(e.key.name), i, p), [value] + rest, to);
      assert HeadKids(e, p, i) + rest == [Kid(Str(e.key.name), i, p)] + ([value] + rest);
    } else {
      assert HeadKids(e, p, i) + rest == [value] + rest;
    }
  }

  /** The kids of a placed element list form a row. */
  lemma {:induction false} KidsInRow(s: string, ts: seq<Token>, at: nat, i: nat, e: Elems, isObject: bool, p: nat)
    requires PlacedElems(s, ts, at, i, e, isObject, p)
    ensures Row(s, ts, at, KidList(e, p, i), i, i + SizeElems(e))
    decreases e
  {
    hide PlacedElems, Row, Size, SizeElems, HeadKids, ValueStart, ElementEnd;
    if e.NoElems? {
      EmptyRow(s, ts, at, i, e, p);
    } else {
      var r := i + (if e.key.Key? then 1 else 0) + Size(e.value);
      var q := ElementEnd(p, e) + 1 + |e.next|;
      RestSize(e);
      if e.rest.Elem? {
        RestPlaced(s, ts, at, i, e, isObject, p);
        KidsInRow(s, ts, at, r, e.rest, isObject, q);
      } else {
        EmptyRow(s, ts, at, r, e.rest, q);
      }
      KidsOfElem(s, ts, at, i, e, isObject, p, KidList(e.rest, q, r), i + SizeElems(e));
    }
  }

  lemma KeySize(name: string)
    ensures Size(Str(name)) == 1
  {
  }

  lemma EmptyRow(s: string, ts: seq<Token>, at: nat, i: nat, e: Elems, p: nat)
    requires e.NoElems?
    ensures SizeElems(e) == 0 && Row(s, ts, at, KidList(e, p, i), i, i + SizeElems(e))
  {
  }
}
