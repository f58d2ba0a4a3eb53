/**
 Which catalogs a text can describe: writing a catalog as JSON and loading it is the identity
 on exactly the catalogs that the loader can return.
 */
module WorkflowRender {
  import opened Wrappers
  import opened Decimals
  import opened JsonGrammar
  import opened JsonValidator
  import opened JsonAcceptance
  import opened JsonTokens
  import opened WorkflowModel
  import opened WorkflowLoader
  import opened WorkflowTree
  import opened WorkflowLookup
  import opened WorkflowReading

  // ----- Writing values -----

  function Decimal(n: nat): string {
    if n < 10 then [Digit(n)] else Decimal(n / 10) + [Digit(n % 10)]
  }

  function Num(n: nat): Value {
    Number("", Decimal(n), "", "")
  }

  function MemberElems(ms: seq<(string, Value)>): Elems {
    if ms == [] then NoElems else Elem(Key(ms[0].0, "", ""), ms[0].1, "", "", MemberElems(ms[1..]))
  }

  function Obj(ms: seq<(string, Value)>): Value {
    Composite(true, "", MemberElems(ms))
  }

  function ItemElems(vs: seq<Value>): Elems {
    if vs == [] then NoElems else Elem(NoKey, vs[0], "", "", ItemElems(vs[1..]))
  }

  function Arr(vs: seq<Value>): Value {
    Composite(false, "", ItemElems(vs))
  }

  // ----- Writing catalogs -----

  function StepTree(step: Step): Value {
    Obj([("unit", Num(step.unitIndex + 1)), ("command", Str("execute")), ("timeout_ms", Num(step.timeout))])
  }

  function StepTrees(steps: seq<Step>): seq<Value> {
    seq(|steps|, i requires 0 <= i < |steps| => StepTree(steps[i]))
  }

  function SequenceTree(sequence: Sequence): Value {
    Obj([("steps", Arr(StepTrees(sequence.steps))), ("name", Str(sequence.name))])
  }

  function SequenceTrees(sequences: seq<Sequence>): seq<Value> {
    seq(|sequences|, i requires 0 <= i < |sequences| => SequenceTree(sequences[i]))
  }

  function ScenarioTree(scenario: Scenario): Value {
    Obj([("id", Num(scenario.id)), ("sequences", Arr(SequenceTrees(scenario.sequences))), ("name", Str(scenario.name))])
  }

  function EntryTree(entry: Entry): Value {
    Obj([("feature", Num(entry.feature)), ("condition", Num(entry.condition)), ("scenario", ScenarioTree(entry.scenario))])
  }

  function EntryTrees(entries: seq<Entry>): seq<Value> {
    seq(|entries|, i requires 0 <= i < |entries| => EntryTree(entries[i]))
  }

  function CatalogTree(catalog: seq<Entry>): Value {
    Obj([("schema_version", Num(1)), ("workflows", Arr(EntryTrees(catalog)))])
  }

  function Rendered(catalog: seq<Entry>): string {
    DocumentText(Document("", CatalogTree(catalog), ""))
  }

  // ----- Catalogs that can be described -----

  predicate PlainName(name: string) {
    name != "" && IsBody(name, true) && '\\' !in name
  }

  predicate LoadableStep(step: Step, unitCount: nat) {
    WfStep(step, unitCount) && step.unitIndex + 1 <= UINT32_MAX
  }

  predicate LoadableSequence(sequence: Sequence, unitCount: nat) {
    && PlainName(sequence.name) && sequence.steps != []
    && forall i :: 0 <= i < |sequence.steps| ==> LoadableStep(sequence.steps[i], unitCount)
  }

  predicate LoadableScenario(scenario: Scenario, unitCount: nat) {
    && 0 < scenario.id <= UINT32_MAX && PlainName(scenario.name) && scenario.sequences != []
    && (forall i :: 0 <= i < |scenario.sequences| ==> LoadableSequence(scenario.sequences[i], unitCount))
    && scenario.totalSteps == StepCount(scenario.sequences) <= UINT64_MAX
  }

  predicate LoadableEntry(entry: Entry, unitCount: nat) {
    0 < entry.feature <= UINT32_MAX && entry.condition <= UINT32_MAX && LoadableScenario(entry.scenario, unitCount)
  }

  predicate NoClash(catalog: seq<Entry>) {
    forall i, j :: 0 <= i < j < |catalog| ==> !Clash(catalog[i], catalog[j])
  }

  predicate Loadable(catalog: seq<Entry>, unitCount: nat) {
    && catalog != [] && NoClash(catalog)
    && forall i :: 0 <= i < |catalog| ==> LoadableEntry(catalog[i], unitCount)
  }

  // ----- Written values are well-formed and shallow -----

  lemma {:induction false} DecimalShape(n: nat)
    ensures IsWhole(Decimal(n)) && DigitsValue(Decimal(n)) == n
    ensures n > 0 ==> Decimal(n)[0] != '0'
    decreases n
  {
    var t := Decimal(n);
    if n >= 10 {
      DecimalShape(n / 10);
      assert t[..|t| - 1] == Decimal(n / 10);
    } else {
      assert t[..0] == "";
      assert DigitsValue(t) == 10 * DigitsValue(t[..0]) + n;
    }
  }

  lemma {:induction false} DecimalLength(n: nat, k: nat)
    requires n < Power(k) && k > 0
    ensures |Decimal(n)| <= k
    decreases k
  {
    if n >= 10 {
      DecimalLength(n / 10, k - 1);
    }
  }

  lemma TwentyDigits()
    ensures UINT64_MAX < Power(20)
  {
    assert Power(20) == 10000 * Power(16) == 10000 * 10000 * Power(12) == 10000 * 10000 * 10000 * Power(8)
        == 10000 * 10000 * 10000 * 10000 * Power(4) by {
      Tens4(16); Tens4(12); Tens4(8); Tens4(4);
    }
    Tens4(0);
  }

  lemma Tens4(k: nat)
    ensures Power(k + 4) == 10000 * Power(k)
  {
    assert Power(k + 4) == 10 * Power(k + 3) == 100 * Power(k + 2) == 1000 * Power(k + 1);
  }

  /** Well-formed, with at most `h` containers around its deepest part. */
  predicate Fits(v: Value, h: nat) {
    WellFormed(v, true) && Height(v) <= h
  }

  lemma NumFits(n: nat)
    requires n <= UINT64_MAX
    ensures Fits(Num(n), 0) && NumberIn(Num(n)) == Some(n)
  {
    DecimalShape(n);
    TwentyDigits();
    DecimalLength(n, 20);
  }

  lemma {:induction false} ItemsFit(vs: seq<Value>, h: nat)
    requires forall i :: 0 <= i < |vs| ==> Fits(vs[i], h)
    ensures Fits(Arr(vs), h + 1) && Kids(ItemElems(vs)) == vs
  {
    if vs != [] {
      ItemsFit(vs[1..], h);
      assert Fits(vs[0], h);
    }
  }

  lemma {:induction false} MembersFit(ms: seq<(string, Value)>, h: nat)
    requires forall i :: 0 <= i < |ms| ==> IsBody(ms[i].0, true) && Fits(ms[i].1, h)
    ensures Fits(Obj(ms), h + 1)
  {
    if ms != [] {
      MembersFit(ms[1..], h);
      assert IsBody(ms[0].0, true) && Fits(ms[0].1, h);
    }
  }

  // ----- Members are found again -----

  predicate Differs(ms: seq<(string, Value)>, i: nat, name: string)
    requires i < |ms|
  {
    ms[i].0 != name && (i + 1 < |ms| ==> ms[i].1 != Str(name))
  }

  lemma {:induction false} NothingNamed(ms: seq<(string, Value)>, name: string)
    requires forall i :: 0 <= i < |ms| ==> Differs(ms, i, name)
    ensures Named(MemberElems(ms), name) == [] && Echoes(MemberElems(ms), name) == 0
  {
    if ms != [] {
      assert Differs(ms, 0, name);
      forall i | 0 <= i < |ms| - 1
        ensures Differs(ms[1..], i, name)
      {
        assert Differs(ms, i + 1, name);
      }
      NothingNamed(ms[1..], name);
    }
  }

  lemma {:induction false} OneNamed(ms: seq<(string, Value)>, name: string, j: nat)
    requires j < |ms| && ms[j].0 == name && (j + 1 < |ms| ==> ms[j].1 != Str(name))
    requires forall i :: 0 <= i < |ms| && i != j ==> Differs(ms, i, name)
    ensures Named(MemberElems(ms), name) == [ms[j].1] && Echoes(MemberElems(ms), name) == 0
  {
    forall i | 0 <= i < |ms| - 1 && i + 1 != j
      ensures Differs(ms[1..], i, name)
    {
      assert Differs(ms, i + 1, name);
    }
    if j == 0 {
      NothingNamed(ms[1..], name);
    } else {
      assert Differs(ms, 0, name);
      OneNamed(ms[1..], name, j - 1);
    }
  }

  lemma MemberWritten(ms: seq<(string, Value)>, name: string, j: nat, h: nat)
    requires j < |ms| && ms[j].0 == name && (j + 1 < |ms| ==> ms[j].1 != Str(name))
    requires forall i :: 0 <= i < |ms| && i != j ==> Differs(ms, i, name)
    requires Fits(Obj(ms), h)
    ensures Member(Obj(ms), name) == Some(ms[j].1)
  {
    OneNamed(ms, name, j);
    LookupExactly(Obj(ms), name);
  }

  // ----- Reading what was written -----

  /** A value that no lookup of these names mistakes for a name. */
  predicate Silent(v: Value, names: seq<string>) {
    forall i :: 0 <= i < |names| ==> v != Str(names[i])
  }

  predicate Names(names: seq<string>) {
    && (forall i :: 0 <= i < |names| ==> IsBody(names[i], true))
    && (forall i, j :: 0 <= i < j < |names| ==> names[i] != names[j])
  }

  function Zip(names: seq<string>, vs: seq<Value>): seq<(string, Value)>
    requires |names| == |vs|
  {
    seq(|names|, i requires 0 <= i < |names| => (names[i], vs[i]))
  }

  /** An object with distinct names and no misleading value but its last gives every member back. */
  lemma ObjectWritten(names: seq<string>, vs: seq<Value>, h: nat, j: nat)
    requires j < |names| == |vs| && Names(names)
    requires forall i :: 0 <= i < |vs| ==> Fits(vs[i], h) && (i + 1 < |vs| ==> Silent(vs[i], names))
    ensures Fits(Obj(Zip(names, vs)), h + 1) && Member(Obj(Zip(names, vs)), names[j]) == Some(vs[j])
  {
    hide Fits, IsBody, MemberElems;
    var ms := Zip(names, vs);
    MembersFit(ms, h);
    forall i | 0 <= i < |ms| && i != j
      ensures Differs(ms, i, names[j])
    {
      assert names[i] != names[j];
    }
    MemberWritten(ms, names[j], j, h + 1);
  }

  const STEP_NAMES := ["unit", "command", "timeout_ms"]
  const SEQUENCE_NAMES := ["steps", "name"]
  const SCENARIO_NAMES := ["id", "sequences", "name"]
  const ENTRY_NAMES := ["feature", "condition", "scenario"]
  const CATALOG_NAMES := ["schema_version", "workflows"]

  lemma Three(a: string, b: string, c: string)
    requires AllPlain(a) && AllPlain(b) && AllPlain(c) && a != b && a != c && b != c
    ensures Names([a, b, c])
  {
    hide IsBody, IsPlain;
    PlainText(a);
    PlainText(b);
    PlainText(c);
  }

  lemma Two(a: string, b: string)
    requires AllPlain(a) && AllPlain(b) && a != b
    ensures Names([a, b])
  {
    hide IsBody, IsPlain;
    PlainText(a);
    PlainText(b);
  }

  lemma StepNames()
    ensures Names(STEP_NAMES)
  {
    hide IsBody, Names;
    assert |"unit"| == 4 && |"command"| == 7 && |"timeout_ms"| == 10;
    Three("unit", "command", "timeout_ms");
  }

  lemma ExecuteIsSilent()
    ensures Fits(Str("execute"), 0) && Silent(Str("execute"), STEP_NAMES)
  {
    hide IsBody;
    PlainText("execute");
    assert |"unit"| == 4 && |"timeout_ms"| == 10 && "execute"[0] != "command"[0];
  }

  lemma SequenceNames()
    ensures Names(SEQUENCE_NAMES)
  {
    hide IsBody, Names;
    assert |"steps"| == 5 && |"name"| == 4;
    Two("steps", "name");
  }

  lemma CatalogNames()
    ensures Names(CATALOG_NAMES)
  {
    hide IsBody, Names;
    assert |"schema_version"| == 14 && |"workflows"| == 9;
    Two("schema_version", "workflows");
  }

  lemma ScenarioNames()
    ensures Names(SCENARIO_NAMES)
  {
    hide IsBody, Names;
    assert |"id"| == 2 && |"sequences"| == 9 && |"name"| == 4;
    Three("id", "sequences", "name");
  }

  lemma EntryNames()
    ensures Names(ENTRY_NAMES)
  {
    hide IsBody, Names;
    assert |"feature"| == 7 && |"condition"| == 9 && |"scenario"| == 8;
    Three("feature", "condition", "scenario");
  }

  lemma Zipped3(a: string, b: string, c: string, x: Value, y: Value, z: Value)
    ensures [(a, x), (b, y), (c, z)] == Zip([a, b, c], [x, y, z])
  {
  }

  lemma Zipped2(a: string, b: string, x: Value, y: Value)
    ensures [(a, x), (b, y)] == Zip([a, b], [x, y])
  {
  }

  lemma StepWritten(step: Step, unitCount: nat)
    requires LoadableStep(step, unitCount)
    ensures Fits(StepTree(step), 1) && StepIn(StepTree(step), unitCount) == Some(step)
  {
    hide Names, Fits, Silent, Num, Member, NumberIn, MemberElems, Zip;
    var vs := [Num(step.unitIndex + 1), Str("execute"), Num(step.timeout)];
    NumFits(step.unitIndex + 1);
    NumFits(step.timeout);
    StepNames();
    ExecuteIsSilent();
    NumSilent(step.unitIndex + 1, STEP_NAMES);
    Zipped3("unit", "command", "timeout_ms", vs[0], vs[1], vs[2]);
    ObjectWritten(STEP_NAMES, vs, 0, 0);
    ObjectWritten(STEP_NAMES, vs, 0, 1);
    ObjectWritten(STEP_NAMES, vs, 0, 2);
  }

  lemma NumSilent(n: nat, names: seq<string>)
    ensures Silent(Num(n), names)
  {
  }

  lemma {:induction false} StepsWritten(steps: seq<Step>, n: nat, unitCount: nat)
    requires n <= |steps| && forall i :: 0 <= i < |steps| ==> LoadableStep(steps[i], unitCount)
    ensures StepsIn(StepTrees(steps), n, unitCount) == Some(steps[..n])
  {
    hide StepTree, StepIn, LoadableStep;
    if n > 0 {
      StepsWritten(steps, n - 1, unitCount);
      StepWritten(steps[n - 1], unitCount);
      assert steps[..n] == steps[..n - 1] + [steps[n - 1]];
    }
  }

  /** A written array is read as its elements; it is silent. */
  lemma ArrayWritten(v: Value, name: string, vs: seq<Value>, h: nat, names: seq<string>)
    requires vs != [] && forall i :: 0 <= i < |vs| ==> Fits(vs[i], h)
    ensures Fits(Arr(vs), h + 1) && Silent(Arr(vs), names)
    ensures Member(v, name) == Some(Arr(vs)) ==> ArrayIn(v, name) == Some(vs)
  {
    ItemsFit(vs, h);
  }

  lemma NameWritten(v: Value, name: string, h: nat)
    requires PlainName(name)
    ensures Fits(Str(name), h)
    ensures Member(v, "name") == Some(Str(name)) ==> StringIn(v, "name") == Some(name)
  {
  }

  lemma NumWritten(v: Value, name: string, n: nat, h: nat, names: seq<string>)
    requires n <= UINT64_MAX
    ensures Fits(Num(n), h) && Silent(Num(n), names)
    ensures Member(v, name) == Some(Num(n)) ==> U64In(v, name) == Some(n)
    ensures Member(v, name) == Some(Num(n)) && n <= UINT32_MAX ==> U32In(v, name) == Some(n)
  {
    NumFits(n);
  }

  lemma SequenceWritten(q: Sequence, unitCount: nat)
    requires LoadableSequence(q, unitCount)
    ensures Fits(SequenceTree(q), 3) && SequenceIn(SequenceTree(q), unitCount) == Some(q)
  {
    hide Names, Fits, Silent, Num, Member, MemberElems, Zip, LoadableStep, StepTree, Arr, StringIn, ArrayIn, StepsIn, PlainName, Obj;
    var trees, v := StepTrees(q.steps), SequenceTree(q);
    forall i | 0 <= i < |trees|
      ensures Fits(trees[i], 1)
    {
      StepWritten(q.steps[i], unitCount);
    }
    ArrayWritten(v, "steps", trees, 1, SEQUENCE_NAMES);
    NameWritten(v, q.name, 2);
    SequenceNames();
    Zipped2("steps", "name", Arr(trees), Str(q.name));
    ObjectWritten(SEQUENCE_NAMES, [Arr(trees), Str(q.name)], 2, 0);
    ObjectWritten(SEQUENCE_NAMES, [Arr(trees), Str(q.name)], 2, 1);
    StepsWritten(q.steps, |trees|, unitCount);
    assert q.steps[..|trees|] == q.steps;
  }

  lemma {:induction false} SequencesWritten(qs: seq<Sequence>, n: nat, unitCount: nat)
    requires n <= |qs| && StepCount(qs) <= UINT64_MAX
    requires forall i :: 0 <= i < |qs| ==> LoadableSequence(qs[i], unitCount)
    ensures SequencesIn(SequenceTrees(qs), n, unitCount) == Some(qs[..n])
  {
    hide SequenceTree, SequenceIn, LoadableSequence, StepCount, Flatten;
    if n > 0 {
      SequencesWritten(qs, n - 1, unitCount);
      SequenceWritten(qs[n - 1], unitCount);
      assert qs[..n] == qs[..n - 1] + [qs[n - 1]];
      StepCountPrefix(qs, n - 1);
      StepCountMonotone(qs, n);
    }
  }

  lemma ScenarioWritten(c: Scenario, unitCount: nat)
    requires LoadableScenario(c, unitCount)
    ensures Fits(ScenarioTree(c), 5) && ScenarioIn(ScenarioTree(c), unitCount) == Some(c)
  {
    hide Names, Fits, Silent, Num, Member, MemberElems, Zip, LoadableSequence, SequenceTree, Arr, StringIn, ArrayIn,
         U32In, U64In, SequencesIn, PlainName, Obj, StepCount;
    var trees, v := SequenceTrees(c.sequences), ScenarioTree(c);
    forall i | 0 <= i < |trees|
      ensures Fits(trees[i], 3)
    {
      SequenceWritten(c.sequences[i], unitCount);
    }
    NumWritten(v, "id", c.id, 4, SCENARIO_NAMES);
    ArrayWritten(v, "sequences", trees, 3, SCENARIO_NAMES);
    NameWritten(v, c.name, 4);
    ScenarioNames();
    var vs := [Num(c.id), Arr(trees), Str(c.name)];
    Zipped3("id", "sequences", "name", vs[0], vs[1], vs[2]);
    ObjectWritten(SCENARIO_NAMES, vs, 4, 0);
    ObjectWritten(SCENARIO_NAMES, vs, 4, 1);
    ObjectWritten(SCENARIO_NAMES, vs, 4, 2);
    SequencesWritten(c.sequences, |trees|, unitCount);
    assert c.sequences[..|trees|] == c.sequences;
  }

  lemma EntryWritten(e: Entry, unitCount: nat)
    requires LoadableEntry(e, unitCount)
    ensures Fits(EntryTree(e), 6) && EntryIn(EntryTree(e), unitCount) == Some(e)
  {
    hide Names, Fits, Silent, Num, Member, MemberElems, Zip, ScenarioTree, ScenarioIn, U32In, U64In, LoadableScenario, Obj;
    var v := EntryTree(e);
    ScenarioWritten(e.scenario, unitCount);
    NumWritten(v, "feature", e.feature, 5, ENTRY_NAMES);
    NumWritten(v, "condition", e.condition, 5, ENTRY_NAMES);
    EntryNames();
    var vs := [Num(e.feature), Num(e.condition), ScenarioTree(e.scenario)];
    Zipped3("feature", "condition", "scenario", vs[0], vs[1], vs[2]);
    ObjectWritten(ENTRY_NAMES, vs, 5, 0);
    ObjectWritten(ENTRY_NAMES, vs, 5, 1);
    ObjectWritten(ENTRY_NAMES, vs, 5, 2);
  }

  lemma {:induction false} EntriesWritten(catalog: seq<Entry>, n: nat, unitCount: nat)
    requires n <= |catalog| && Loadable(catalog, unitCount)
    ensures EntriesIn(EntryTrees(catalog), n, unitCount) == Some(catalog[..n])
  {
    hide EntryTree, EntryIn, LoadableEntry, Clash;
    if n > 0 {
      EntriesWritten(catalog, n - 1, unitCount);
      EntryWritten(catalog[n - 1], unitCount);
      assert catalog[..n] == catalog[..n - 1] + [catalog[n - 1]];
    }
  }

  lemma CatalogWritten(catalog: seq<Entry>, unitCount: nat)
    requires Loadable(catalog, unitCount)
    ensures Fits(CatalogTree(catalog), 8) && CatalogIn(CatalogTree(catalog), unitCount) == Some(catalog)
  {
    hide Names, Fits, Silent, Num, Member, MemberElems, Zip, EntryTree, Arr, ArrayIn, U32In, U64In, EntriesIn, LoadableEntry,
         NoClash, Obj;
    var trees, v := EntryTrees(catalog), CatalogTree(catalog);
    forall i | 0 <= i < |trees|
      ensures Fits(trees[i], 6)
    {
      EntryWritten(catalog[i], unitCount);
    }
    NumWritten(v, "schema_version", 1, 7, CATALOG_NAMES);
    ArrayWritten(v, "workflows", trees, 6, CATALOG_NAMES);
    CatalogNames();
    Zipped2("schema_version", "workflows", Num(1), Arr(trees));
    ObjectWritten(CATALOG_NAMES, [Num(1), Arr(trees)], 7, 0);
    ObjectWritten(CATALOG_NAMES, [Num(1), Arr(trees)], 7, 1);
    EntriesWritten(catalog, |trees|, unitCount);
    assert catalog[..|trees|] == catalog;
  }

  /** Loading the text written for a catalog returns the catalog. */
  lemma LoadOfRendered(catalog: seq<Entry>, unitCount: nat)
    requires Loadable(catalog, unitCount) && unitCount > 0
    ensures Load(Rendered(catalog), unitCount) == Loaded(catalog)
  {
    hide CatalogTree, CatalogIn, Loadable, DocumentText, Load;
    CatalogWritten(catalog, unitCount);
    var d := Document("", CatalogTree(catalog), "");
    LoadReadsTheTree(Rendered(catalog), d, unitCount);
  }

  // ----- What is loaded can be written -----

  predicate AllWellFormed(vs: seq<Value>) {
    forall i :: 0 <= i < |vs| ==> WellFormed(vs[i], true)
  }

  lemma {:induction false} KidsWellFormed(e: Elems, isObject: bool)
    requires WellFormedElems(e, isObject, true)
    ensures AllWellFormed(Kids(e))
    decreases e
  {
    if e.Elem? {
      KidsWellFormed(e.rest, isObject);
      assert e.key.Key? ==> WellFormed(Str(e.key.name), true);
    }
  }

  lemma {:induction false} PickWellFormed(kids: seq<Value>, name: string, m: nat, found: Option<Value>)
    requires AllWellFormed(kids) && (found.Some? ==> WellFormed(found.value, true))
    ensures var r := Pick(kids, name, m, found); r.Some? ==> WellFormed(r.value, true)
    decreases |kids| - m
  {
    if m + 1 < |kids| {
      if kids[m] == Str(name) {
        if found.None? {
          PickWellFormed(kids, name, m + 1, Some(kids[m + 1]));
        }
      } else {
        PickWellFormed(kids, name, m + 1, found);
      }
    }
  }

  lemma MemberWellFormed(v: Value, name: string)
    requires WellFormed(v, true)
    ensures Member(v, name).Some? ==> WellFormed(Member(v, name).value, true)
    ensures ArrayIn(v, name).Some? ==> AllWellFormed(ArrayIn(v, name).value)
  {
    hide Pick, Kids;
    if v.Composite? {
      KidsWellFormed(v.elems, v.isObject);
      PickWellFormed(Kids(v.elems), name, 0, None);
      var member := Member(v, name);
      if member.Some? && member.value.Composite? {
        KidsWellFormed(member.value.elems, member.value.isObject);
      }
    }
  }

  lemma StringIsPlain(v: Value, name: string)
    requires WellFormed(v, true)
    ensures StringIn(v, name).Some? ==> PlainName(StringIn(v, name).value)
  {
    hide Member;
    MemberWellFormed(v, name);
  }

  lemma {:induction false} StepsLoadable(vs: seq<Value>, n: nat, unitCount: nat)
    requires n <= |vs| && StepsIn(vs, n, unitCount).Some?
    ensures var steps := StepsIn(vs, n, unitCount).value;
            |steps| == n && forall i :: 0 <= i < n ==> LoadableStep(steps[i], unitCount)
  {
    if n > 0 {
      StepsLoadable(vs, n - 1, unitCount);
      StepLoadable(vs[n - 1], unitCount);
      hide StepIn, LoadableStep;
    }
  }

  lemma StepLoadable(v: Value, unitCount: nat)
    requires StepIn(v, unitCount).Some?
    ensures LoadableStep(StepIn(v, unitCount).value, unitCount)
  {
    hide Member;
  }

  lemma SequenceLoadable(v: Value, unitCount: nat)
    requires WellFormed(v, true) && SequenceIn(v, unitCount).Some?
    ensures LoadableSequence(SequenceIn(v, unitCount).value, unitCount)
  {
    hide Member, StringIn, ArrayIn, StepsIn, LoadableStep, PlainName;
    StringIsPlain(v, "name");
    var steps := ArrayIn(v, "steps").value;
    StepsLoadable(steps, |steps|, unitCount);
  }

  lemma {:induction false} SequencesLoadable(vs: seq<Value>, n: nat, unitCount: nat)
    requires n <= |vs| && AllWellFormed(vs) && SequencesIn(vs, n, unitCount).Some?
    ensures var sequences := SequencesIn(vs, n, unitCount).value;
            && |sequences| == n && StepCount(sequences) <= UINT64_MAX
            && forall i :: 0 <= i < n ==> LoadableSequence(sequences[i], unitCount)
  {
    hide SequenceIn, LoadableSequence, WellFormed, Flatten;
    if n > 0 {
      SequencesLoadable(vs, n - 1, unitCount);
      SequenceLoadable(vs[n - 1], unitCount);
      var sequences := SequencesIn(vs, n, unitCount).value;
      assert sequences[..n - 1] == SequencesIn(vs, n - 1, unitCount).value;
    }
  }

  lemma ScenarioLoadable(v: Value, unitCount: nat)
    requires WellFormed(v, true) && ScenarioIn(v, unitCount).Some?
    ensures LoadableScenario(ScenarioIn(v, unitCount).value, unitCount)
  {
    hide Member, StringIn, ArrayIn, SequencesIn, LoadableSequence, PlainName, StepCount, U64In, AllWellFormed;
    StringIsPlain(v, "name");
    MemberWellFormed(v, "sequences");
    var sequences := ArrayIn(v, "sequences").value;
    SequencesLoadable(sequences, |sequences|, unitCount);
  }

  lemma EntryLoadable(v: Value, unitCount: nat)
    requires WellFormed(v, true) && EntryIn(v, unitCount).Some?
    ensures LoadableEntry(EntryIn(v, unitCount).value, unitCount)
  {
    hide Member, ScenarioIn, LoadableScenario, U64In;
    MemberWellFormed(v, "scenario");
    ScenarioLoadable(Member(v, "scenario").value, unitCount);
  }

  lemma {:induction false} EntriesLoadable(vs: seq<Value>, n: nat, unitCount: nat)
    requires n <= |vs| && AllWellFormed(vs) && EntriesIn(vs, n, unitCount).Some?
    ensures var entries := EntriesIn(vs, n, unitCount).value;
            |entries| == n && NoClash(entries) && forall i :: 0 <= i < n ==> LoadableEntry(entries[i], unitCount)
  {
    hide EntryIn, LoadableEntry, WellFormed, Clash;
    if n > 0 {
      EntriesLoadable(vs, n - 1, unitCount);
      EntryLoadable(vs[n - 1], unitCount);
    }
  }

  lemma CatalogLoadable(v: Value, unitCount: nat)
    requires WellFormed(v, true) && CatalogIn(v, unitCount).Some?
    ensures Loadable(CatalogIn(v, unitCount).value, unitCount)
  {
    hide Member, ArrayIn, EntriesIn, LoadableEntry, NoClash, AllWellFormed, U64In;
    MemberWellFormed(v, "workflows");
    var workflows := ArrayIn(v, "workflows").value;
    EntriesLoadable(workflows, |workflows|, unitCount);
  }

  /**
   A catalog is loaded from some text exactly when it is loadable: unique keys and ids,
   nonempty sequences and steps, plain names, numbers in range.
   */
  lemma LoadableExactly(catalog: seq<Entry>, unitCount: nat)
    requires unitCount > 0
    ensures Loadable(catalog, unitCount) <==> exists s: string :: Load(s, unitCount) == Loaded(catalog)
  {
    hide Loadable, CatalogIn, Accepts, Load;
    if Loadable(catalog, unitCount) {
      LoadOfRendered(catalog, unitCount);
    }
    forall s: string | Load(s, unitCount) == Loaded(catalog)
      ensures Loadable(catalog, unitCount)
    {
      LoadedIsAccepted(s, unitCount);
      var d := BuiltDocument(s);
      LoadReadsTheTree(s, d, unitCount);
      CatalogLoadable(d.root, unitCount);
    }
  }

  lemma LoadedIsAccepted(s: string, unitCount: nat)
    requires Load(s, unitCount).Loaded?
    ensures Accepts(s)
  {
    hide Accepts, Catalog, Tokenize;
  }
}
