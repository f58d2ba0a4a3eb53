/**
 From tokens to a catalog (`json_object_find` to `build_catalog`).

 Each loop of the loader is a method proved to compute the function of the same meaning;
 `None` stands for a schema error. Lookups compare raw spellings, as the loader does.
 */
module WorkflowLoader {
  import opened Wrappers
  import opened Decimals
  import opened JsonGrammar
  import opened JsonValidator
  import opened JsonAcceptance
  import opened JsonTokens
  import opened JsonWalk
  import opened WorkflowModel

  /** Every token's span lies in the text. */
  predicate InText(s: string, ts: seq<Token>) {
    forall i :: 0 <= i < |ts| ==> ts[i].start <= ts[i].end <= |s|
  }

  function TokenText(s: string, t: Token): string
    requires t.start <= t.end <= |s|
  {
    s[t.start..t.end]
  }

  predicate TokenEquals(s: string, t: Token, expected: string)
    requires t.start <= t.end <= |s|
  {
    t.kind == StringToken && TokenText(s, t) == expected
  }

  // ----- Lookups -----

  /** Token `i` is a string spelled `key` directly in the object, and so is its successor. */
  predicate IsKey(s: string, ts: seq<Token>, at: nat, key: string, i: nat)
    requires InText(s, ts) && i + 1 < |ts|
  {
    ts[i].parent == Some(at) && TokenEquals(s, ts[i], key) && ts[i + 1].parent == Some(at)
  }

  function FindFrom(s: string, ts: seq<Token>, at: nat, key: string, i: nat, found: Option<nat>): (r: Option<nat>)
    requires InText(s, ts) && (found.Some? ==> found.value < |ts|)
    ensures r.Some? ==> r.value < |ts|
    decreases |ts| - i
  {
    if i + 1 >= |ts| then found
    else if IsKey(s, ts, at, key, i) then
      if found.None? then FindFrom(s, ts, at, key, i + 1, Some(i + 1)) else None
    else FindFrom(s, ts, at, key, i + 1, found)
  }

  function Find(s: string, ts: seq<Token>, at: nat, key: string): (r: Option<nat>)
    requires InText(s, ts)
    ensures r.Some? ==> r.value < |ts|
  {
    if at >= |ts| || ts[at].kind != ObjectToken then None else FindFrom(s, ts, at, key, at + 1, None)
  }

  method ObjectFind(s: string, ts: seq<Token>, at: nat, key: string) returns (result: Option<nat>)
    requires InText(s, ts)
    ensures result == Find(s, ts, at, key)
  {
    result := None;
    if at >= |ts| || ts[at].kind != ObjectToken {
      return;
    }
    var duplicate, index := false, at + 1;
    while index + 1 < |ts| && !duplicate
      invariant at < index
      invariant !duplicate ==> (result.Some? ==> result.value < |ts|)
                               && Find(s, ts, at, key) == FindFrom(s, ts, at, key, index, result)
      invariant duplicate ==> Find(s, ts, at, key) == None
      decreases |ts| - index
    {
      if IsKey(s, ts, at, key, index) {
        if result.None? {
          result := Some(index + 1);
        } else {
          duplicate := true;
        }
      }
      index := index + 1;
    }
    if duplicate {
      result := None;
    }
  }

  function NthChild(ts: seq<Token>, at: nat, n: nat, i: nat): (r: Option<nat>)
    ensures r.Some? ==> i <= r.value < |ts| && ts[r.value].parent == Some(at)
    decreases |ts| - i
  {
    if i >= |ts| then None
    else if ts[i].parent == Some(at) then if n == 0 then Some(i) else NthChild(ts, at, n - 1, i + 1)
    else NthChild(ts, at, n, i + 1)
  }

  function Nth(ts: seq<Token>, at: nat, n: nat): (r: Option<nat>)
    ensures r.Some? ==> at < r.value < |ts| && ts[r.value].parent == Some(at)
  {
    if at >= |ts| || ts[at].kind != ArrayToken then None else NthChild(ts, at, n, at + 1)
  }

  method ArrayAt(ts: seq<Token>, at: nat, n: nat) returns (result: Option<nat>)
    ensures result == Nth(ts, at, n)
  {
    result := None;
    if at >= |ts| || ts[at].kind != ArrayToken {
      return;
    }
    var found, index := 0, at + 1;
    while index < |ts| && result.None?
      invariant at < index
      invariant result.None? ==> found <= n && Nth(ts, at, n) == NthChild(ts, at, n - found, index)
      invariant result.Some? ==> Nth(ts, at, n) == result
      decreases |ts| - index
    {
      if ts[index].parent == Some(at) {
        if found == n {
          result := Some(index);
        }
        found := found + 1;
      }
      index := index + 1;
    }
  }

  // ----- Scalars -----

  /**
   `strtoull` in base ten on a primitive: an optional plus sign, digits only, no overflow.
   A primitive holds no blank and no NUL, so nothing else can be skipped or cut off.
   */
  function ReadU64(s: string, t: Token): (r: Option<nat>)
    requires t.start <= t.end <= |s|
    ensures r.Some? ==> r.value <= UINT64_MAX
  {
    var text := TokenText(s, t);
    if t.kind != PrimitiveToken || text == "" || |text| >= 32 then None
    else
      var digits := if text[0] == '+' then text[1..] else text;
      if digits != "" && AllDigits(digits) && DigitsValue(digits) <= UINT64_MAX then Some(DigitsValue(digits))
      else None
  }

  function FieldU64(s: string, ts: seq<Token>, at: nat, key: string): (r: Option<nat>)
    requires InText(s, ts)
    ensures r.Some? ==> r.value <= UINT64_MAX
  {
    var i := Find(s, ts, at, key);
    if i.None? then None else ReadU64(s, ts[i.value])
  }

  function FieldU32(s: string, ts: seq<Token>, at: nat, key: string): (r: Option<nat>)
    requires InText(s, ts)
    ensures r.Some? ==> r.value <= UINT32_MAX
  {
    var v := FieldU64(s, ts, at, key);
    if v.Some? && v.value <= UINT32_MAX then v else None
  }

  function FieldString(s: string, ts: seq<Token>, at: nat, key: string): Option<string>
    requires InText(s, ts)
  {
    var i := Find(s, ts, at, key);
    if i.None? || ts[i.value].kind != StringToken then None
    else
      var text := TokenText(s, ts[i.value]);
      if text != "" && '\\' !in text then Some(text) else None
  }

  /** A field that must hold a nonempty array. */
  function FieldArray(s: string, ts: seq<Token>, at: nat, key: string): (r: Option<nat>)
    requires InText(s, ts)
    ensures r.Some? ==> r.value < |ts| && ts[r.value].kind == ArrayToken && ts[r.value].childCount > 0
  {
    var i := Find(s, ts, at, key);
    if i.Some? && ts[i.value].kind == ArrayToken && ts[i.value].childCount > 0 then i else None
  }

  // ----- Steps, sequences, scenarios, entries -----

  function StepOf(s: string, ts: seq<Token>, at: nat, unitCount: nat): (r: Option<Step>)
    requires InText(s, ts)
    ensures r.Some? ==> WfStep(r.value, unitCount)
  {
    var command := Find(s, ts, at, "command");
    var number := FieldU32(s, ts, at, "unit");
    var timeout := FieldU64(s, ts, at, "timeout_ms");
    if number.None? || number.value == 0 || number.value > unitCount
       || command.None? || !TokenEquals(s, ts[command.value], "execute")
       || timeout.None? || timeout.value == 0
    then None
    else Some(Step(number.value - 1, timeout.value))
  }

  function Steps(s: string, ts: seq<Token>, at: nat, n: nat, unitCount: nat): (r: Option<seq<Step>>)
    requires InText(s, ts)
    ensures r.Some? ==> |r.value| == n && WfSequence(Sequence("", r.value), unitCount) == (n > 0)
  {
    if n == 0 then Some([])
    else
      var front := Steps(s, ts, at, n - 1, unitCount);
      var i := Nth(ts, at, n - 1);
      if front.None? || i.None? then None
      else
        var step := StepOf(s, ts, i.value, unitCount);
        if step.None? then None else Some(front.value + [step.value])
  }

  function SequenceOf(s: string, ts: seq<Token>, at: nat, unitCount: nat): (r: Option<Sequence>)
    requires InText(s, ts)
    ensures r.Some? ==> WfSequence(r.value, unitCount)
  {
    var name := FieldString(s, ts, at, "name");
    var steps := FieldArray(s, ts, at, "steps");
    if name.None? || steps.None? then None
    else
      var all := Steps(s, ts, steps.value, ts[steps.value].childCount, unitCount);
      if all.None? then None
      else
        assert WfSequence(Sequence("", all.value), unitCount);
        Some(Sequence(name.value, all.value))
  }

  predicate AllWfSequences(sequences: seq<Sequence>, unitCount: nat) {
    forall i :: 0 <= i < |sequences| ==> WfSequence(sequences[i], unitCount)
  }

  function Sequences(s: string, ts: seq<Token>, at: nat, n: nat, unitCount: nat): (r: Option<seq<Sequence>>)
    requires InText(s, ts)
    ensures r.Some? ==> |r.value| == n && AllWfSequences(r.value, unitCount)
  {
    if n == 0 then Some([])
    else
      var front := Sequences(s, ts, at, n - 1, unitCount);
      var i := Nth(ts, at, n - 1);
      if front.None? || i.None? then None
      else
        var sequence := SequenceOf(s, ts, i.value, unitCount);
        if sequence.None? || StepCount(front.value) + |sequence.value.steps| > UINT64_MAX then None
        else Some(front.value + [sequence.value])
  }

  function ScenarioOf(s: string, ts: seq<Token>, at: nat, unitCount: nat): (r: Option<Scenario>)
    requires InText(s, ts)
    ensures r.Some? ==> WfScenario(r.value, unitCount)
  {
    var id := FieldU32(s, ts, at, "id");
    var name := FieldString(s, ts, at, "name");
    var sequences := FieldArray(s, ts, at, "sequences");
    if id.None? || id.value == 0 || name.None? || sequences.None? then None
    else
      var all := Sequences(s, ts, sequences.value, ts[sequences.value].childCount, unitCount);
      if all.None? then None else Some(Scenario(id.value, name.value, all.value, StepCount(all.value)))
  }

  predicate ClashesWithAny(entries: seq<Entry>, entry: Entry) {
    exists i :: 0 <= i < |entries| && Clash(entries[i], entry)
  }

  function EntryOf(s: string, ts: seq<Token>, at: nat, unitCount: nat, entries: seq<Entry>): (r: Option<Entry>)
    requires InText(s, ts)
    ensures r.Some? ==> WfEntry(r.value, unitCount) && !ClashesWithAny(entries, r.value)
  {
    var feature := FieldU32(s, ts, at, "feature");
    var condition := FieldU32(s, ts, at, "condition");
    var at' := Find(s, ts, at, "scenario");
    if feature.None? || feature.value == 0 || condition.None? || at'.None? then None
    else
      var scenario := ScenarioOf(s, ts, at'.value, unitCount);
      if scenario.None? then None
      else
        var entry := Entry(feature.value, condition.value, scenario.value);
        if ClashesWithAny(entries, entry) then None else Some(entry)
  }

  function Entries(s: string, ts: seq<Token>, at: nat, n: nat, unitCount: nat): (r: Option<seq<Entry>>)
    requires InText(s, ts)
    ensures r.Some? ==> |r.value| == n && WfCatalog(r.value, unitCount)
  {
    if n == 0 then Some([])
    else
      var front := Entries(s, ts, at, n - 1, unitCount);
      var i := Nth(ts, at, n - 1);
      if front.None? || i.None? then None
      else
        var entry := EntryOf(s, ts, i.value, unitCount, front.value);
        if entry.None? then None else Some(front.value + [entry.value])
  }

  const SCHEMA_VERSION: nat := 1

  function Catalog(s: string, ts: seq<Token>, unitCount: nat): (r: Option<seq<Entry>>)
    requires InText(s, ts)
    ensures r.Some? ==> r.value != [] && WfCatalog(r.value, unitCount)
  {
    var version := FieldU64(s, ts, 0, "schema_version");
    var workflows := FieldArray(s, ts, 0, "workflows");
    if version != Some(SCHEMA_VERSION) || workflows.None? then None
    else Entries(s, ts, workflows.value, ts[workflows.value].childCount, unitCount)
  }

  // ----- The loader's loops -----

  method ParseSteps(s: string, ts: seq<Token>, at: nat, count: nat, unitCount: nat) returns (steps: Option<seq<Step>>)
    requires InText(s, ts)
    ensures steps == Steps(s, ts, at, count, unitCount)
  {
    hide StepOf, Nth, WfSequence, InText, Sequences, Entries;
    steps := Some([]);
    var index := 0;
    while index < count && steps.Some?
      invariant 0 <= index <= count
      invariant steps.Some? ==> steps == Steps(s, ts, at, index, unitCount)
      invariant steps.None? ==> Steps(s, ts, at, count, unitCount).None?
    {
      var i := ArrayAt(ts, at, index);
      var step := if i.None? then None else StepOf(s, ts, i.value, unitCount);
      index := index + 1;
      if step.None? {
        FailureStays(s, ts, at, index, count, unitCount);
        steps := None;
      } else {
        steps := Some(steps.value + [step.value]);
      }
    }
  }

  lemma {:induction false} FailureStays(s: string, ts: seq<Token>, at: nat, n: nat, count: nat, unitCount: nat)
    requires InText(s, ts) && n <= count
    ensures Steps(s, ts, at, n, unitCount).None? ==> Steps(s, ts, at, count, unitCount).None?
    ensures Sequences(s, ts, at, n, unitCount).None? ==> Sequences(s, ts, at, count, unitCount).None?
    ensures Entries(s, ts, at, n, unitCount).None? ==> Entries(s, ts, at, count, unitCount).None?
    decreases count - n
  {
    hide StepOf, SequenceOf, EntryOf, Nth;
    if n < count {
      FailureStays(s, ts, at, n + 1, count, unitCount);
    }
  }

  method ParseSequence(s: string, ts: seq<Token>, at: nat, unitCount: nat) returns (sequence: Option<Sequence>)
    requires InText(s, ts)
    ensures sequence == SequenceOf(s, ts, at, unitCount)
  {
    hide FieldString, FieldArray, Steps;
    sequence := None;
    var name := FieldString(s, ts, at, "name");
    var steps := FieldArray(s, ts, at, "steps");
    if name.Some? && steps.Some? {
      var all := ParseSteps(s, ts, steps.value, ts[steps.value].childCount, unitCount);
      if all.Some? {
        sequence := Some(Sequence(name.value, all.value));
      }
    }
  }

  method ParseSequences(s: string, ts: seq<Token>, at: nat, count: nat, unitCount: nat)
      returns (sequences: Option<seq<Sequence>>, totalSteps: nat)
    requires InText(s, ts)
    ensures sequences == Sequences(s, ts, at, count, unitCount)
    ensures sequences.Some? ==> totalSteps == StepCount(sequences.value)
  {
    hide SequenceOf, WfSequence, Steps, Entries;
    sequences, totalSteps := Some([]), 0;
    var index := 0;
    while index < count && sequences.Some?
      invariant 0 <= index <= count
      invariant sequences.Some? ==> sequences == Sequences(s, ts, at, index, unitCount)
                                    && totalSteps == StepCount(sequences.value) <= UINT64_MAX
      invariant sequences.None? ==> Sequences(s, ts, at, count, unitCount).None?
    {
      var i := ArrayAt(ts, at, index);
      var sequence := None;
      if i.Some? {
        sequence := ParseSequence(s, ts, i.value, unitCount);
      }
      index := index + 1;
      if sequence.None? || |sequence.value.steps| > UINT64_MAX - totalSteps {
        FailureStays(s, ts, at, index, count, unitCount);
        sequences := None;
      } else {
        totalSteps := totalSteps + |sequence.value.steps|;
        sequences := Some(sequences.value + [sequence.value]);
      }
    }
  }

  method ParseScenario(s: string, ts: seq<Token>, at: nat, unitCount: nat) returns (scenario: Option<Scenario>)
    requires InText(s, ts)
    ensures scenario == ScenarioOf(s, ts, at, unitCount)
  {
    hide FieldString, FieldArray, FieldU32, Sequences;
    scenario := None;
    var sequences := FieldArray(s, ts, at, "sequences");
    var name := FieldString(s, ts, at, "name");
    var id := FieldU32(s, ts, at, "id");
    if id.Some? && id.value != 0 && name.Some? && sequences.Some? {
      var all, total := ParseSequences(s, ts, sequences.value, ts[sequences.value].childCount, unitCount);
      if all.Some? {
        scenario := Some(Scenario(id.value, name.value, all.value, total));
      }
    }
  }

  method EntryIsDuplicate(entries: seq<Entry>, entry: Entry) returns (duplicate: bool)
    ensures duplicate == ClashesWithAny(entries, entry)
  {
    duplicate := false;
    var index := 0;
    while index < |entries| && !duplicate
      invariant 0 <= index <= |entries|
      invariant duplicate == exists i :: 0 <= i < index && Clash(entries[i], entry)
    {
      duplicate := Clash(entries[index], entry);
      index := index + 1;
    }
  }

  method ParseEntry(s: string, ts: seq<Token>, at: nat, unitCount: nat, entries: seq<Entry>) returns (entry: Option<Entry>)
    requires InText(s, ts)
    ensures entry == EntryOf(s, ts, at, unitCount, entries)
  {
    hide FieldU32, Find, ScenarioOf, ClashesWithAny;
    entry := None;
    var at' := ObjectFind(s, ts, at, "scenario");
    var feature := FieldU32(s, ts, at, "feature");
    var condition := FieldU32(s, ts, at, "condition");
    if feature.None? || feature.value == 0 || condition.None? || at'.None? {
      return;
    }
    var scenario := ParseScenario(s, ts, at'.value, unitCount);
    if scenario.Some? {
      var candidate := Entry(feature.value, condition.value, scenario.value);
      var duplicate := EntryIsDuplicate(entries, candidate);
      if !duplicate {
        entry := Some(candidate);
      }
    }
  }

  method BuildCatalog(s: string, ts: seq<Token>, unitCount: nat) returns (entries: Option<seq<Entry>>)
    requires InText(s, ts)
    ensures entries == Catalog(s, ts, unitCount)
  {
    hide EntryOf, WfCatalog, WfEntry, ClashesWithAny, FieldU64, FieldArray;
    var version := FieldU64(s, ts, 0, "schema_version");
    var workflows := FieldArray(s, ts, 0, "workflows");
    if version != Some(SCHEMA_VERSION) || workflows.None? {
      return None;
    }
    var at, count := workflows.value, ts[workflows.value].childCount;
    entries := Some([]);
    var index := 0;
    while index < count && entries.Some?
      invariant 0 <= index <= count
      invariant entries.Some? ==> entries == Entries(s, ts, at, index, unitCount)
      invariant entries.None? ==> Entries(s, ts, at, count, unitCount).None?
    {
      var i := ArrayAt(ts, at, index);
      var entry := None;
      if i.Some? {
        entry := ParseEntry(s, ts, i.value, unitCount, entries.value);
      }
      index := index + 1;
      if entry.None? {
        FailureStays(s, ts, at, index, count, unitCount);
        entries := None;
      } else {
        entries := Some(entries.value + [entry.value]);
      }
    }
  }

  // ----- Loading a text -----

  datatype LoadResult = InvalidArgument | ParseError | SchemaError | Loaded(catalog: seq<Entry>)

  /** The tokens of a walk lie within the text of the tree. */
  lemma {:induction false} WalkInText(v: Value, p: nat, parent: Option<nat>, base: nat, i: nat)
    requires i < Size(v)
    ensures p <= Walk(v, p, parent, base)[i].start <= Walk(v, p, parent, base)[i].end <= p + |ValueText(v)|
    decreases v, 0
  {
    if v.Composite? && i > 0 {
      WalkElemsInText(v.elems, p + 1 + |v.lead|, base, base + 1, i - 1);
    }
  }

  lemma ElemsLength(p: nat, e: Elems)
    requires e.Elem?
    ensures p + |ElemsText(e)| == ElementEnd(p, e) + |Separator(e)| + |ElemsText(e.rest)|
    ensures e.rest.Elem? ==> |Separator(e)| == 1 + |e.next|
  {
    hide KeyText, ValueText;
  }

  lemma {:induction false} WalkElemsInText(e: Elems, p: nat, parent: nat, base: nat, i: nat)
    requires i < SizeElems(e)
    ensures p <= WalkElems(e, p, parent, base)[i].start <= WalkElems(e, p, parent, base)[i].end <= p + |ElemsText(e)|
    decreases e, 1
  {
    hide ElemsText, ValueText, Walk, Separator;
    var k := |WalkKey(e.key, p, parent)|;
    ElemsLength(p, e);
    if i < k {
    } else if i < k + Size(e.value) {
      WalkInText(e.value, ValueStart(p, e), Some(parent), base + k, i - k);
    } else {
      WalkElemsInText(e.rest, ElementEnd(p, e) + 1 + |e.next|, parent, base + k + Size(e.value), i - k - Size(e.value));
    }
  }

  lemma AcceptedInText(s: string)
    requires Accepts(s)
    ensures Tokenize(s, TokenCapacity(s)).Some? && InText(s, Tokenize(s, TokenCapacity(s)).value)
    ensures Tokenize(s, TokenCapacity(s)).value != []
  {
    hide *;
    var d := AcceptedIsTokenized(s);
    WholeWalkInText(s, d);
  }

  lemma WholeWalkInText(s: string, d: Document)
    requires DocumentText(d) == s
    ensures InText(s, Walk(d.root, |d.before|, None, 0)) && Walk(d.root, |d.before|, None, 0) != []
  {
    forall i | 0 <= i < Size(d.root)
      ensures Walk(d.root, |d.before|, None, 0)[i].start <= Walk(d.root, |d.before|, None, 0)[i].end <= |s|
    {
      WalkInText(d.root, |d.before|, None, 0, i);
    }
  }

  /** The loader on a file's bytes: a failure of the tokenizer after the validator is impossible. */
  function Load(s: string, unitCount: nat): (r: LoadResult)
    ensures r.Loaded? ==> unitCount > 0 && r.catalog != [] && WfCatalog(r.catalog, unitCount)
  {
    if unitCount == 0 then InvalidArgument
    else if !Accepts(s) then ParseError
    else
      AcceptedInText(s);
      var catalog := Catalog(s, Tokenize(s, TokenCapacity(s)).value, unitCount);
      if catalog.None? then SchemaError else Loaded(catalog.value)
  }

  method LoadText(s: string, unitCount: nat) returns (result: LoadResult)
    ensures result == Load(s, unitCount)
  {
    hide Catalog, Accepts, Tokenize;
    if unitCount == 0 {
      return InvalidArgument;
    }
    var parser := new Parser(TokenCapacity(s));
    var ok := ValidateDocument(s);
    if !ok {
      return ParseError;
    }
    AcceptedInText(s);
    ok := parser.Run(s);
    var ts := parser.tokens[..parser.count];
    var catalog := BuildCatalog(s, ts, unitCount);
    return if catalog.None? then SchemaError else Loaded(catalog.value);
  }
}
