/**
  Rubric validation, identical in both revisions of the grading service: a
  rubric is a dict from criterion name to a details dict that carries a
  numeric `weight` and a string `criteria`. The check stops at the first
  criterion that breaks a rule and reports it; weights are not summed.
 */
module Rubric {
  import opened Base
  import opened Json

  /** The rule a rubric broke, with the criterion it broke it at. */
  datatype RubricError =
    | NotADict
    | CriterionNotDict(criterion: string, details: Value)
    | MissingFields(criterion: string, missing: set<string>)
    | WeightNotNumber(criterion: string, weight: Value)
    | CriteriaNotString(criterion: string, criteria: Value)

  datatype Check = Pass | Fail(error: RubricError)

  const RequiredFields: set<string> := {"weight", "criteria"}

  /** `isinstance(v, (int, float))`; `bool` is a subclass of `int`, so booleans pass. */
  predicate IsNumber(v: Value) {
    v.Bool? || v.Int? || v.Float?
  }

  /**
    A criterion's details as both revisions accept them, stated on the
    entries themselves: a dict holding a numeric `weight` and a string
    `criteria`, other keys allowed.
   */
  predicate WellFormed(details: Value) {
    && details.Object?
    && (exists k :: 0 <= k < |details.entries| && details.entries[k].0 == "weight" && IsNumber(details.entries[k].1))
    && (exists k :: 0 <= k < |details.entries| && details.entries[k].0 == "criteria" && details.entries[k].1.Str?)
  }

  /** Every details dict in the rubric is a Python dict: no key occurs twice. */
  predicate DictsHaveUniqueKeys(entries: seq<(string, Value)>) {
    forall k :: 0 <= k < |entries| ==> (entries[k].1.Object? ==> UniqueKeys(entries[k].1.entries))
  }

  /** The body of the loop: the checks on one criterion, in the source's order. */
  function CheckCriterion(name: string, details: Value): Check {
    if !details.Object? then Fail(CriterionNotDict(name, details))
    else
      var missing := RequiredFields - Keys(details.entries);
      if missing != {} then Fail(MissingFields(name, missing))
      else if !IsNumber(Lookup(details.entries, "weight").value) then
        Fail(WeightNotNumber(name, Lookup(details.entries, "weight").value))
      else if !Lookup(details.entries, "criteria").value.Str? then
        Fail(CriteriaNotString(name, Lookup(details.entries, "criteria").value))
      else Pass
  }

  /** The loop over `rubric.items()`: the first failing criterion decides. */
  function CheckEntries(entries: seq<(string, Value)>): Check
    decreases |entries|
  {
    if entries == [] then Pass
    else match CheckCriterion(entries[0].0, entries[0].1)
      case Fail(e) => Fail(e)
      case Pass => CheckEntries(entries[1..])
  }

  /** `validate_rubric`: returns normally (Pass) or raises with the broken rule (Fail). */
  function ValidateRubric(rubric: Value): Check {
    if !rubric.Object? then Fail(NotADict) else CheckEntries(rubric.entries)
  }

  /** One criterion passes its checks exactly when its details are well formed. */
  lemma CheckCriterionIff(name: string, details: Value)
    requires details.Object? ==> UniqueKeys(details.entries)
    ensures CheckCriterion(name, details) == Pass <==> WellFormed(details)
  {
    if details.Object? {
      var e := details.entries;
      var ks := Keys(e);
      if "weight" !in ks {
        assert "weight" in RequiredFields - ks;
      } else if "criteria" !in ks {
        assert "criteria" in RequiredFields - ks;
      } else {
        assert RequiredFields - ks == {};
        var w :| 0 <= w < |e| && e[w].0 == "weight";
        var c :| 0 <= c < |e| && e[c].0 == "criteria";
        LookupUnique(e, w);
        LookupUnique(e, c);
        FieldAt(e, w, "weight");
        FieldAt(e, c, "criteria");
      }
    }
  }

  /** In a dict, the entry holding a key is the only one with that key. */
  lemma FieldAt(e: seq<(string, Value)>, w: nat, key: string)
    requires UniqueKeys(e) && w < |e| && e[w].0 == key
    ensures forall k :: 0 <= k < |e| && e[k].0 == key ==> k == w
  {
  }

  /**
    A rubric passes validation exactly when it is a dict whose every
    criterion is well formed, whatever the weights add up to.
   */
  lemma ValidateRubricIff(rubric: Value)
    requires rubric.Object? ==> DictsHaveUniqueKeys(rubric.entries)
    ensures ValidateRubric(rubric) == Pass <==>
            rubric.Object? && forall k :: 0 <= k < |rubric.entries| ==> WellFormed(rubric.entries[k].1)
  {
    if rubric.Object? {
      CheckEntriesIff(rubric.entries);
    }
  }

  lemma {:induction false} CheckEntriesIff(entries: seq<(string, Value)>)
    requires DictsHaveUniqueKeys(entries)
    ensures CheckEntries(entries) == Pass <==> forall k :: 0 <= k < |entries| ==> WellFormed(entries[k].1)
    decreases |entries|
  {
    if entries != [] {
      CheckCriterionIff(entries[0].0, entries[0].1);
      assert forall k :: 1 <= k < |entries| ==> entries[k] == entries[1..][k - 1];
      CheckEntriesIff(entries[1..]);
    }
  }

  /**
    When validation fails on a dict, the error is the one the first
    ill-formed criterion raises, and every criterion before it is well formed.
   */
  lemma {:induction false} FirstFailureReported(entries: seq<(string, Value)>)
    requires DictsHaveUniqueKeys(entries)
    requires CheckEntries(entries).Fail?
    ensures exists k :: 0 <= k < |entries|
              && CheckCriterion(entries[k].0, entries[k].1) == CheckEntries(entries)
              && (forall m :: 0 <= m < k ==> WellFormed(entries[m].1))
    decreases |entries|
  {
    if CheckCriterion(entries[0].0, entries[0].1).Fail? {
      assert CheckCriterion(entries[0].0, entries[0].1) == CheckEntries(entries);
    } else {
      CheckCriterionIff(entries[0].0, entries[0].1);
      assert forall k :: 1 <= k < |entries| ==> entries[k] == entries[1..][k - 1];
      FirstFailureReported(entries[1..]);
      var k :| 0 <= k < |entries[1..]|
               && CheckCriterion(entries[1..][k].0, entries[1..][k].1) == CheckEntries(entries[1..])
               && (forall m :: 0 <= m < k ==> WellFormed(entries[1..][m].1));
      assert CheckCriterion(entries[k + 1].0, entries[k + 1].1) == CheckEntries(entries);
    }
  }

  /** The three invalid rubrics of the integration test are rejected, each for its own reason. */
  lemma IntegrationTestRubrics()
    ensures ValidateRubric(Object([("content", Object([("criteria", Str("Test criteria"))]))]))
            == Fail(MissingFields("content", {"weight"}))
    ensures ValidateRubric(Object([("content", Object([("weight", Int(100))]))]))
            == Fail(MissingFields("content", {"criteria"}))
    ensures ValidateRubric(Object([("content", Object([("weight", Str("100")), ("criteria", Str("Test criteria"))]))]))
            == Fail(WeightNotNumber("content", Str("100")))
  {
    assert Keys([("criteria", Str("Test criteria"))]) == {"criteria"};
    assert RequiredFields - {"criteria"} == {"weight"};
    assert Keys([("weight", Int(100))]) == {"weight"};
    assert RequiredFields - {"weight"} == {"criteria"};
    assert RequiredFields - {"weight", "criteria"} == {};
  }
}
