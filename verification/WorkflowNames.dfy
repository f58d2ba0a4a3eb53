/**
 When the loader reads members by their names: the catalog a tree means if every lookup gave
 the only member of that name, and when loading gives that catalog.
 */
module WorkflowNames {
  import opened Wrappers
  import opened JsonGrammar
  import opened WorkflowModel
  import opened WorkflowLoader
  import opened WorkflowTree
  import opened WorkflowLookup
  import opened WorkflowReading

  // ----- Reading by names -----

  function NumberNamed(v: Value, name: string): Option<nat> {
    var member := OnlyNamed(v, name);
    if member.None? then None else NumberIn(member.value)
  }

  function SmallNamed(v: Value, name: string): Option<nat> {
    var number := NumberNamed(v, name);
    if number.Some? && number.value <= UINT32_MAX then number else None
  }

  function StringNamed(v: Value, name: string): Option<string> {
    var member := OnlyNamed(v, name);
    if member.Some? && member.value.Str? && member.value.body != "" && '\\' !in member.value.body
    then Some(member.value.body) else None
  }

  function ArrayNamed(v: Value, name: string): Option<seq<Value>> {
    var member := OnlyNamed(v, name);
    if member.Some? && member.value.Composite? && !member.value.isObject && Kids(member.value.elems) != []
    then Some(Kids(member.value.elems)) else None
  }

  function StepNamed(v: Value, unitCount: nat): Option<Step> {
    var number, timeout := SmallNamed(v, "unit"), NumberNamed(v, "timeout_ms");
    if number.None? || number.value == 0 || number.value > unitCount || timeout.None? || timeout.value == 0
       || OnlyNamed(v, "command") != Some(Str("execute"))
    then None
    else Some(Step(number.value - 1, timeout.value))
  }

  function StepsNamed(vs: seq<Value>, n: nat, unitCount: nat): Option<seq<Step>>
    requires n <= |vs|
  {
    if n == 0 then Some([])
    else
      var front, last := StepsNamed(vs, n - 1, unitCount), StepNamed(vs[n - 1], unitCount);
      if front.None? || last.None? then None else Some(front.value + [last.value])
  }

  function SequenceNamed(v: Value, unitCount: nat): Option<Sequence> {
    var name, steps := StringNamed(v, "name"), ArrayNamed(v, "steps");
    if name.None? || steps.None? then None
    else
      var all := StepsNamed(steps.value, |steps.value|, unitCount);
      if all.None? then None else Some(Sequence(name.value, all.value))
  }

  function SequencesNamed(vs: seq<Value>, n: nat, unitCount: nat): Option<seq<Sequence>>
    requires n <= |vs|
  {
    if n == 0 then Some([])
    else
      var front, last := SequencesNamed(vs, n - 1, unitCount), SequenceNamed(vs[n - 1], unitCount);
      if front.None? || last.None? || StepCount(front.value) + |last.value.steps| > UINT64_MAX then None
      else Some(front.value + [last.value])
  }

  function ScenarioNamed(v: Value, unitCount: nat): Option<Scenario> {
    var id, name, sequences := SmallNamed(v, "id"), StringNamed(v, "name"), ArrayNamed(v, "sequences");
    if id.None? || id.value == 0 || name.None? || sequences.None? then None
    else
      var all := SequencesNamed(sequences.value, |sequences.value|, unitCount);
      if all.None? then None else Some(Scenario(id.value, name.value, all.value, StepCount(all.value)))
  }

  function EntryNamed(v: Value, unitCount: nat): Option<Entry> {
    var feature, condition, scenario := SmallNamed(v, "feature"), SmallNamed(v, "condition"), OnlyNamed(v, "scenario");
    if feature.None? || feature.value == 0 || condition.None? || scenario.None? then None
    else
      var content := ScenarioNamed(scenario.value, unitCount);
      if content.None? then None else Some(Entry(feature.value, condition.value, content.value))
  }

  function EntriesNamed(vs: seq<Value>, n: nat, unitCount: nat): Option<seq<Entry>>
    requires n <= |vs|
  {
    if n == 0 then Some([])
    else
      var front, last := EntriesNamed(vs, n - 1, unitCount), EntryNamed(vs[n - 1], unitCount);
      if front.None? || last.None? || ClashesWithAny(front.value, last.value) then None
      else Some(front.value + [last.value])
  }

  function CatalogNamed(v: Value, unitCount: nat): Option<seq<Entry>> {
    var workflows := ArrayNamed(v, "workflows");
    if NumberNamed(v, "schema_version") != Some(1) || workflows.None? then None
    else EntriesNamed(workflows.value, |workflows.value|, unitCount)
  }

  // ----- Trees in which no value is mistaken -----

  /** The names the loader looks up. */
  predicate IsRead(name: string) {
    || name == "schema_version" || name == "workflows" || name == "feature" || name == "condition" || name == "scenario"
    || name == "id" || name == "name" || name == "sequences" || name == "steps"
    || name == "unit" || name == "command" || name == "timeout_ms"
  }

  /** No object of the tree holds a value that a lookup would mistake for a name. */
  ghost predicate Clear(v: Value) {
    v.Composite? ==>
      && ClearElems(v.elems)
      && (v.isObject ==> forall name :: IsRead(name) ==> Unmistaken(v.elems, name))
  }

  ghost predicate ClearElems(e: Elems) {
    e.Elem? ==> Clear(e.value) && ClearElems(e.rest)
  }

  /** Well-formed and without mistakes. */
  ghost predicate Sound(v: Value) {
    WellFormed(v, true) && Clear(v)
  }

  ghost predicate AllSound(vs: seq<Value>) {
    forall i :: 0 <= i < |vs| ==> Sound(vs[i])
  }

  lemma {:induction false} SoundKids(e: Elems, isObject: bool)
    requires WellFormedElems(e, isObject, true) && ClearElems(e)
    ensures AllSound(Kids(e))
    decreases e
  {
    if e.Elem? {
      SoundKids(e.rest, isObject);
      assert Sound(e.value);
      assert e.key.Key? ==> Sound(Str(e.key.name));
    }
  }

  lemma {:induction false} SoundNamed(e: Elems, isObject: bool, name: string)
    requires WellFormedElems(e, isObject, true) && ClearElems(e)
    ensures AllSound(Named(e, name))
    decreases e
  {
    if e.Elem? {
      SoundNamed(e.rest, isObject, name);
      assert Sound(e.value);
    }
  }

  lemma SameLookup(v: Value, name: string)
    requires Sound(v) && IsRead(name)
    ensures Member(v, name) == OnlyNamed(v, name)
    ensures OnlyNamed(v, name).Some? ==> Sound(OnlyNamed(v, name).value)
    ensures ArrayIn(v, name) == ArrayNamed(v, name)
    ensures ArrayNamed(v, name).Some? ==> AllSound(ArrayNamed(v, name).value)
    ensures U64In(v, name) == NumberNamed(v, name) && U32In(v, name) == SmallNamed(v, name)
    ensures StringIn(v, name) == StringNamed(v, name)
  {
    hide IsRead, Kids, Pick, NumberIn;
    if v.Composite? && v.isObject {
      assert Unmistaken(v.elems, name);
      LookupExactly(v, name);
      SoundNamed(v.elems, true, name);
      hide Named;
      var only := OnlyNamed(v, name);
      if only.Some? {
        assert Sound(only.value);
        if only.value.Composite? {
          SoundKids(only.value.elems, only.value.isObject);
        }
      }
    }
  }

  // ----- The two readings agree -----

  lemma SameStep(v: Value, unitCount: nat)
    requires Sound(v)
    ensures StepIn(v, unitCount) == StepNamed(v, unitCount)
  {
    hide Sound, Member, OnlyNamed, U64In, U32In, NumberNamed, SmallNamed;
    SameLookup(v, "unit");
    SameLookup(v, "timeout_ms");
    SameLookup(v, "command");
  }

  lemma {:induction false} SameSteps(vs: seq<Value>, n: nat, unitCount: nat)
    requires n <= |vs| && AllSound(vs)
    ensures StepsIn(vs, n, unitCount) == StepsNamed(vs, n, unitCount)
  {
    hide Sound, StepIn, StepNamed;
    if n > 0 {
      SameSteps(vs, n - 1, unitCount);
      SameStep(vs[n - 1], unitCount);
    }
  }

  lemma SameSequence(v: Value, unitCount: nat)
    requires Sound(v)
    ensures SequenceIn(v, unitCount) == SequenceNamed(v, unitCount)
  {
    hide Sound, AllSound, Member, OnlyNamed, StringIn, StringNamed, ArrayIn, ArrayNamed, StepsIn, StepsNamed;
    SameLookup(v, "name");
    SameLookup(v, "steps");
    var steps := ArrayNamed(v, "steps");
    if steps.Some? {
      SameSteps(steps.value, |steps.value|, unitCount);
    }
  }

  lemma {:induction false} SameSequences(vs: seq<Value>, n: nat, unitCount: nat)
    requires n <= |vs| && AllSound(vs)
    ensures SequencesIn(vs, n, unitCount) == SequencesNamed(vs, n, unitCount)
  {
    hide Sound, SequenceIn, SequenceNamed, StepCount;
    if n > 0 {
      SameSequences(vs, n - 1, unitCount);
      SameSequence(vs[n - 1], unitCount);
    }
  }

  lemma SameScenario(v: Value, unitCount: nat)
    requires Sound(v)
    ensures ScenarioIn(v, unitCount) == ScenarioNamed(v, unitCount)
  {
    hide Sound, AllSound, Member, OnlyNamed, StringIn, StringNamed, ArrayIn, ArrayNamed, SequencesIn, SequencesNamed,
         U64In, U32In, NumberNamed, SmallNamed, StepCount;
    SameLookup(v, "id");
    SameLookup(v, "name");
    SameLookup(v, "sequences");
    var sequences := ArrayNamed(v, "sequences");
    if sequences.Some? {
      SameSequences(sequences.value, |sequences.value|, unitCount);
    }
  }

  lemma SameEntry(v: Value, unitCount: nat)
    requires Sound(v)
    ensures EntryIn(v, unitCount) == EntryNamed(v, unitCount)
  {
    hide Sound, Member, OnlyNamed, ScenarioIn, ScenarioNamed, U64In, U32In, NumberNamed, SmallNamed;
    SameLookup(v, "feature");
    SameLookup(v, "condition");
    SameLookup(v, "scenario");
    var scenario := OnlyNamed(v, "scenario");
    if scenario.Some? {
      SameScenario(scenario.value, unitCount);
    }
  }

  lemma {:induction false} SameEntries(vs: seq<Value>, n: nat, unitCount: nat)
    requires n <= |vs| && AllSound(vs)
    ensures EntriesIn(vs, n, unitCount) == EntriesNamed(vs, n, unitCount)
  {
    hide Sound, EntryIn, EntryNamed, ClashesWithAny;
    if n > 0 {
      SameEntries(vs, n - 1, unitCount);
      SameEntry(vs[n - 1], unitCount);
    }
  }

  lemma SameCatalog(v: Value, unitCount: nat)
    requires Sound(v)
    ensures CatalogIn(v, unitCount) == CatalogNamed(v, unitCount)
  {
    hide Sound, AllSound, Member, OnlyNamed, ArrayIn, ArrayNamed, EntriesIn, EntriesNamed, U64In, NumberNamed;
    SameLookup(v, "schema_version");
    SameLookup(v, "workflows");
    var workflows := ArrayNamed(v, "workflows");
    if workflows.Some? {
      SameEntries(workflows.value, |workflows.value|, unitCount);
    }
  }

  /**
   Loading an accepted text gives the catalog read by names, if no object of its tree holds a
   value that a lookup mistakes for a name.
   */
  lemma LoadReadsByName(s: string, d: Document, unitCount: nat)
    requires WellFormedDocument(d, true) && Height(d.root) <= 64 && DocumentText(d) == s && unitCount > 0
    requires Clear(d.root)
    ensures Load(s, unitCount) ==
            var catalog := CatalogNamed(d.root, unitCount);
            if catalog.Some? then Loaded(catalog.value) else SchemaError
  {
    assert Sound(d.root);
    hide Load, CatalogIn, CatalogNamed, Height, DocumentText, Sound;
    LoadReadsTheTree(s, d, unitCount);
    SameCatalog(d.root, unitCount);
  }
}
