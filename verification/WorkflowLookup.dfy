/**
 When a lookup by name is a lookup by name: the loader compares every string directly in an
 object with the name it looks for, values included.
 */
module WorkflowLookup {
  import opened Wrappers
  import opened JsonGrammar
  import opened WorkflowTree

  /** The values of the members with this name. */
  function Named(e: Elems, name: string): seq<Value> {
    match e
    case NoElems => []
    case Elem(key, value, _, _, rest) =>
      (if key.Key? && key.name == name then [value] else []) + Named(rest, name)
  }

  /** The string values spelled like the name, except the object's last value. */
  function Echoes(e: Elems, name: string): nat {
    match e
    case NoElems => 0
    case Elem(_, value, _, _, rest) => (if value == Str(name) && rest.Elem? then 1 else 0) + Echoes(rest, name)
  }

  /** What the loader's comparison hits, in order: the values it would return. */
  function Hits(e: Elems, name: string): seq<Value> {
    match e
    case NoElems => []
    case Elem(key, value, _, _, rest) =>
      (if key.Key? && key.name == name then [value] else [])
      + (if value == Str(name) && rest.Elem? && rest.key.Key? then [Str(rest.key.name)] else [])
      + Hits(rest, name)
  }

  function Sole(hits: seq<Value>, found: Option<Value>): Option<Value> {
    if hits == [] then found
    else if |hits| == 1 && found.None? then Some(hits[0])
    else None
  }

  predicate AllNamed(e: Elems) {
    e.Elem? ==> e.key.Key? && AllNamed(e.rest)
  }

  lemma {:induction false} ObjectIsNamed(e: Elems)
    requires WellFormedElems(e, true, true)
    ensures AllNamed(e)
    decreases e
  {
    if e.Elem? {
      ObjectIsNamed(e.rest);
    }
  }

  lemma SoleOfTwo(first: seq<Value>, hits: seq<Value>, found: Option<Value>)
    requires |first| <= 1
    ensures Sole(first + hits, found) ==
            if first == [] then Sole(hits, found) else if found.None? then Sole(hits, Some(first[0])) else None
  {
    if first == [] {
      assert first + hits == hits;
    } else {
      assert (first + hits)[0] == first[0];
    }
  }

  lemma {:induction false} PickIsSole(kids: seq<Value>, e: Elems, name: string, m: nat, found: Option<Value>)
    requires AllNamed(e) && m <= |kids| && kids[m..] == Kids(e)
    ensures Pick(kids, name, m, found) == Sole(Hits(e, name), found)
    decreases e, 1
  {
    hide Sole;
    if e.Elem? {
      var rest := Kids(e.rest);
      assert kids[m..] == [Str(e.key.name), e.value] + rest;
      assert kids[m] == kids[m..][0] && kids[m + 1] == kids[m..][1] && kids[m + 2..] == kids[m..][2..] == rest;
      assert e.rest.Elem? ==> rest[0] == Str(e.rest.key.name) && kids[m + 2] == kids[m + 2..][0];
      var first := if e.key.name == name then [e.value] else [];
      var second := if e.value == Str(name) && e.rest.Elem? then [Str(e.rest.key.name)] else [];
      var others := Hits(e.rest, name);
      assert Hits(e, name) == first + (second + others);
      SoleOfTwo(first, second + others, found);
      if first == [] {
        SecondIsSole(kids, e, name, m, found);
      } else if found.None? {
        SecondIsSole(kids, e, name, m, Some(e.value));
      }
    } else {
      NoHits(found);
    }
  }

  lemma NoHits(found: Option<Value>)
    ensures Sole([], found) == found
  {
  }

  /** The step at an element's value. */
  lemma {:induction false} SecondIsSole(kids: seq<Value>, e: Elems, name: string, m: nat, found: Option<Value>)
    requires e.Elem? && AllNamed(e) && m + 2 <= |kids| && kids[m + 1] == e.value && kids[m + 2..] == Kids(e.rest)
    ensures var second := if e.value == Str(name) && e.rest.Elem? && e.rest.key.Key? then [Str(e.rest.key.name)] else [];
            Pick(kids, name, m + 1, found) == Sole(second + Hits(e.rest, name), found)
    decreases e, 0
  {
    hide Sole;
    var second := if e.value == Str(name) && e.rest.Elem? then [Str(e.rest.key.name)] else [];
    SoleOfTwo(second, Hits(e.rest, name), found);
    if e.rest.Elem? {
      assert kids[m + 2] == kids[m + 2..][0] == Str(e.rest.key.name);
      if second == [] {
        PickIsSole(kids, e.rest, name, m + 2, found);
      } else if found.None? {
        PickIsSole(kids, e.rest, name, m + 2, Some(Str(e.rest.key.name)));
      }
    } else {
      NoHits(found);
    }
  }

  lemma {:induction false} HitsCount(e: Elems, name: string)
    requires AllNamed(e)
    ensures |Hits(e, name)| == |Named(e, name)| + Echoes(e, name)
    ensures Echoes(e, name) == 0 ==> Hits(e, name) == Named(e, name)
    decreases e
  {
    if e.Elem? {
      HitsCount(e.rest, name);
    }
  }

  /** The only member of an object with this name. */
  function OnlyNamed(v: Value, name: string): Option<Value> {
    if v.Composite? && v.isObject && |Named(v.elems, name)| == 1 then Some(Named(v.elems, name)[0]) else None
  }

  /** No value echoes the name, or an echo only adds to a lookup that fails anyway. */
  predicate Unmistaken(e: Elems, name: string) {
    || Echoes(e, name) == 0
    || |Named(e, name)| >= 2
    || (Named(e, name) == [] && Echoes(e, name) >= 2)
  }

  /** The loader's lookup returns the only member of that name exactly when no value is mistaken for it. */
  lemma LookupExactly(v: Value, name: string)
    requires WellFormed(v, true) && v.Composite? && v.isObject
    ensures Member(v, name) == OnlyNamed(v, name) <==> Unmistaken(v.elems, name)
  {
    var e := v.elems;
    ObjectIsNamed(e);
    assert Kids(e)[0..] == Kids(e);
    PickIsSole(Kids(e), e, name, 0, None);
    HitsCount(e, name);
  }

  /** {"name":"steps","steps":...}, whatever the value of its second member is. */
  function NamedSteps(steps: Value): Value {
    Composite(true, "", Elem(Key("name", "", ""), Str("steps"), "", "", StepsMember(steps)))
  }

  function StepsMember(steps: Value): Elems {
    Elem(Key("steps", "", ""), steps, "", "", NoElems)
  }

  lemma NamedStepsWellFormed(steps: Value)
    requires WellFormed(steps, true)
    ensures WellFormed(NamedSteps(steps), true)
  {
    hide IsBody;
    PlainText("name");
    PlainText("steps");
    assert WellFormedKey(Key("name", "", ""), true, true) && WellFormedKey(Key("steps", "", ""), true, true);
    assert WellFormed(Str("steps"), true);
    assert WellFormedElems(StepsMember(steps), true, true);
    assert WellFormedElems(NamedSteps(steps).elems, true, true);
  }

  lemma NamedStepsHits(steps: Value)
    ensures AllNamed(NamedSteps(steps).elems)
    ensures Hits(NamedSteps(steps).elems, "steps") == [Str("steps"), steps]
    ensures Named(NamedSteps(steps).elems, "steps") == [steps]
  {
    assert |"name"| == 4 && |"steps"| == 5;
    assert AllNamed(StepsMember(steps));
    assert Hits(StepsMember(steps), "steps") == Named(StepsMember(steps), "steps") == [steps];
  }

  /**
   A value mistaken for a name the loader looks up: in such an object the lookup of "steps"
   fails, although exactly one member has that name.
   */
  lemma ValueMistakenForName(steps: Value)
    requires WellFormed(steps, true)
    ensures var v := NamedSteps(steps);
            WellFormed(v, true) && Member(v, "steps") == None && OnlyNamed(v, "steps") == Some(steps)
  {
    hide WellFormed, Hits, Pick, Kids, AllNamed, Named;
    NamedStepsWellFormed(steps);
    NamedStepsHits(steps);
    var e := NamedSteps(steps).elems;
    assert Kids(e)[0..] == Kids(e);
    PickIsSole(Kids(e), e, "steps", 0, None);
  }
}
