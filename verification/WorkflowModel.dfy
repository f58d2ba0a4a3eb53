/**
 Scenarios, sequences and steps (`domain_workflow.h`), and what the loader promises of them.
 */
module WorkflowModel {
  import opened Wrappers

  const UINT32_MAX: nat := 0xFFFF_FFFF
  const UINT64_MAX: nat := 0xFFFF_FFFF_FFFF_FFFF

  datatype Step = Step(unitIndex: nat, timeout: nat)

  datatype Sequence = Sequence(name: string, steps: seq<Step>)

  datatype Scenario = Scenario(id: nat, name: string, sequences: seq<Sequence>, totalSteps: nat)

  datatype Entry = Entry(feature: nat, condition: nat, scenario: Scenario)

  function StepCount(sequences: seq<Sequence>): nat {
    if sequences == [] then 0 else StepCount(sequences[..|sequences| - 1]) + |sequences[|sequences| - 1].steps|
  }

  /** All steps of all sequences, in the order they are to be issued. */
  function Flatten(sequences: seq<Sequence>): (r: seq<Step>)
    ensures |r| == StepCount(sequences)
  {
    if sequences == [] then []
    else Flatten(sequences[..|sequences| - 1]) + sequences[|sequences| - 1].steps
  }

  predicate WfStep(step: Step, unitCount: nat) {
    step.unitIndex < unitCount && 0 < step.timeout <= UINT64_MAX
  }

  predicate WfSequence(sequence: Sequence, unitCount: nat) {
    sequence.steps != [] && forall i :: 0 <= i < |sequence.steps| ==> WfStep(sequence.steps[i], unitCount)
  }

  predicate WfScenario(scenario: Scenario, unitCount: nat) {
    && 0 < scenario.id <= UINT32_MAX
    && scenario.sequences != []
    && (forall i :: 0 <= i < |scenario.sequences| ==> WfSequence(scenario.sequences[i], unitCount))
    && scenario.totalSteps == StepCount(scenario.sequences)
  }

  predicate WfEntry(entry: Entry, unitCount: nat) {
    0 < entry.feature <= UINT32_MAX && entry.condition <= UINT32_MAX && WfScenario(entry.scenario, unitCount)
  }

  predicate Clash(a: Entry, b: Entry) {
    (a.feature == b.feature && a.condition == b.condition) || a.scenario.id == b.scenario.id
  }

  ghost predicate WfCatalog(catalog: seq<Entry>, unitCount: nat) {
    && (forall i :: 0 <= i < |catalog| ==> WfEntry(catalog[i], unitCount))
    && (forall i, j :: 0 <= i < j < |catalog| ==> !Clash(catalog[i], catalog[j]))
  }

  lemma {:induction false} StepCountPrefix(sequences: seq<Sequence>, k: nat)
    requires k < |sequences|
    ensures StepCount(sequences[..k + 1]) == StepCount(sequences[..k]) + |sequences[k].steps|
    ensures Flatten(sequences[..k + 1]) == Flatten(sequences[..k]) + sequences[k].steps
  {
    var front := sequences[..k + 1];
    assert front[..k] == sequences[..k];
  }

  lemma {:induction false} StepCountMonotone(sequences: seq<Sequence>, k: nat)
    requires k <= |sequences|
    ensures StepCount(sequences[..k]) <= StepCount(sequences)
    ensures Flatten(sequences[..k]) <= Flatten(sequences)
    decreases |sequences| - k
  {
    if k < |sequences| {
      StepCountPrefix(sequences, k);
      StepCountMonotone(sequences, k + 1);
    } else {
      assert sequences[..k] == sequences;
    }
  }

  predicate Answers(entry: Entry, feature: nat, condition: nat) {
    entry.feature == feature && entry.condition == condition
  }

  /** The scenario of the first entry for a feature and condition. */
  function Lookup(catalog: seq<Entry>, feature: nat, condition: nat): Option<Scenario> {
    if catalog == [] then None
    else if Answers(catalog[0], feature, condition) then Some(catalog[0].scenario)
    else Lookup(catalog[1..], feature, condition)
  }

  /** The lookup fails exactly when no entry answers; otherwise it gives the first that does. */
  lemma {:induction false} LookupIsFirst(catalog: seq<Entry>, feature: nat, condition: nat) returns (i: nat)
    ensures Lookup(catalog, feature, condition) == if i < |catalog| then Some(catalog[i].scenario) else None
    ensures i <= |catalog| && (i < |catalog| ==> Answers(catalog[i], feature, condition))
    ensures forall j :: 0 <= j < i ==> !Answers(catalog[j], feature, condition)
  {
    if catalog == [] || Answers(catalog[0], feature, condition) {
      return 0;
    }
    var behind := LookupIsFirst(catalog[1..], feature, condition);
    i := behind + 1;
    forall j | 0 <= j < i
      ensures !Answers(catalog[j], feature, condition)
    {
      assert j > 0 ==> catalog[j] == catalog[1..][j - 1];
    }
  }

  /** `domain_workflow_catalog_find`. */
  method CatalogFind(catalog: seq<Entry>, feature: nat, condition: nat) returns (scenario: Option<Scenario>)
    ensures scenario == Lookup(catalog, feature, condition)
  {
    scenario := None;
    var index := 0;
    while index < |catalog| && scenario == None
      invariant 0 <= index <= |catalog|
      invariant Lookup(catalog, feature, condition) ==
                if scenario.Some? then scenario else Lookup(catalog[index..], feature, condition)
    {
      if catalog[index].feature == feature && catalog[index].condition == condition {
        scenario := Some(catalog[index].scenario);
      }
      assert catalog[index..][1..] == catalog[index + 1..];
      index := index + 1;
    }
  }

  /** In a well-formed catalog at most one scenario answers a feature and condition. */
  lemma CatalogFindUnique(catalog: seq<Entry>, unitCount: nat, i: nat, j: nat)
    requires WfCatalog(catalog, unitCount) && i < |catalog| && j < |catalog|
    requires Answers(catalog[i], catalog[j].feature, catalog[j].condition)
    ensures i == j
  {
    if i != j {
      assert Clash(catalog[i], catalog[j]) && Clash(catalog[j], catalog[i]);
    }
  }
}
