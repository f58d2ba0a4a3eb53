/**
 The catalog a JSON tree means: what the loader reads, told on the tree instead of on flat
 tokens with parent indexes.
 */
module WorkflowTree {
  import opened Wrappers
  import opened Decimals
  import opened JsonGrammar
  import opened WorkflowModel
  import opened WorkflowLoader

  // ----- Reading a tree -----

  /** What lies directly in a container; a member's name counts as a string before its value. */
  function Kids(e: Elems): seq<Value> {
    match e
    case NoElems => []
    case Elem(key, value, _, _, rest) => (if key.Key? then [Str(key.name)] else []) + [value] + Kids(rest)
  }

  /**
   The value behind the only string spelled `key`, from the m-th kid on; `found` was met
   before. A string that is itself a value counts too, when something follows it.
   */
  function Pick(kids: seq<Value>, key: string, m: nat, found: Option<Value>): Option<Value>
    decreases |kids| - m
  {
    if m + 1 >= |kids| then found
    else if kids[m] == Str(key) then
      if found.None? then Pick(kids, key, m + 1, Some(kids[m + 1])) else None
    else Pick(kids, key, m + 1, found)
  }

  function Member(v: Value, key: string): Option<Value> {
    if v.Composite? && v.isObject then Pick(Kids(v.elems), key, 0, None) else None
  }

  /** An unsigned integer written with digits only, in at most 31 of them and 64 bits. */
  function NumberIn(v: Value): Option<nat> {
    if v.Number? && v.minus == v.fraction == v.exponent == "" && |v.whole| < 32 && AllDigits(v.whole)
       && DigitsValue(v.whole) <= UINT64_MAX
    then Some(DigitsValue(v.whole)) else None
  }

  function U64In(v: Value, key: string): Option<nat> {
    var member := Member(v, key);
    if member.None? then None else NumberIn(member.value)
  }

  function U32In(v: Value, key: string): Option<nat> {
    var number := U64In(v, key);
    if number.Some? && number.value <= UINT32_MAX then number else None
  }

  /** A nonempty string without escapes. */
  function StringIn(v: Value, key: string): Option<string> {
    var member := Member(v, key);
    if member.Some? && member.value.Str? && member.value.body != "" && '\\' !in member.value.body
    then Some(member.value.body) else None
  }

  /** The elements of a nonempty array. */
  function ArrayIn(v: Value, key: string): (r: Option<seq<Value>>)
    ensures r.Some? ==> r.value != []
  {
    var member := Member(v, key);
    if member.Some? && member.value.Composite? && !member.value.isObject && Kids(member.value.elems) != []
    then Some(Kids(member.value.elems)) else None
  }

  function StepIn(v: Value, unitCount: nat): Option<Step> {
    var number, timeout := U32In(v, "unit"), U64In(v, "timeout_ms");
    if number.None? || number.value == 0 || number.value > unitCount || timeout.None? || timeout.value == 0
       || Member(v, "command") != Some(Str("execute"))
    then None
    else Some(Step(number.value - 1, timeout.value))
  }

  /** The first `n` steps. */
  function StepsIn(vs: seq<Value>, n: nat, unitCount: nat): (r: Option<seq<Step>>)
    requires n <= |vs|
  {
    if n == 0 then Some([])
    else
      var front, last := StepsIn(vs, n - 1, unitCount), StepIn(vs[n - 1], unitCount);
      if front.None? || last.None? then None else Some(front.value + [last.value])
  }

  function SequenceIn(v: Value, unitCount: nat): Option<Sequence> {
    var name, steps := StringIn(v, "name"), ArrayIn(v, "steps");
    if name.None? || steps.None? then None
    else
      var all := StepsIn(steps.value, |steps.value|, unitCount);
      if all.None? then None else Some(Sequence(name.value, all.value))
  }

  function SequencesIn(vs: seq<Value>, n: nat, unitCount: nat): Option<seq<Sequence>>
    requires n <= |vs|
  {
    if n == 0 then Some([])
    else
      var front, last := SequencesIn(vs, n - 1, unitCount), SequenceIn(vs[n - 1], unitCount);
      if front.None? || last.None? || StepCount(front.value) + |last.value.steps| > UINT64_MAX then None
      else Some(front.value + [last.value])
  }

  function ScenarioIn(v: Value, unitCount: nat): Option<Scenario> {
    var id, name, sequences := U32In(v, "id"), StringIn(v, "name"), ArrayIn(v, "sequences");
    if id.None? || id.value == 0 || name.None? || sequences.None? then None
    else
      var all := SequencesIn(sequences.value, |sequences.value|, unitCount);
      if all.None? then None else Some(Scenario(id.value, name.value, all.value, StepCount(all.value)))
  }

  function EntryIn(v: Value, unitCount: nat): Option<Entry> {
    var feature, condition, scenario := U32In(v, "feature"), U32In(v, "condition"), Member(v, "scenario");
    if feature.None? || feature.value == 0 || condition.None? || scenario.None? then None
    else
      var content := ScenarioIn(scenario.value, unitCount);
      if content.None? then None else Some(Entry(feature.value, condition.value, content.value))
  }

  function EntriesIn(vs: seq<Value>, n: nat, unitCount: nat): Option<seq<Entry>>
    requires n <= |vs|
  {
    if n == 0 then Some([])
    else
      var front, last := EntriesIn(vs, n - 1, unitCount), EntryIn(vs[n - 1], unitCount);
      if front.None? || last.None? || ClashesWithAny(front.value, last.value) then None
      else Some(front.value + [last.value])
  }

  function CatalogIn(v: Value, unitCount: nat): Option<seq<Entry>> {
    var workflows := ArrayIn(v, "workflows");
    if U64In(v, "schema_version") != Some(1) || workflows.None? then None
    else EntriesIn(workflows.value, |workflows.value|, unitCount)
  }
}
