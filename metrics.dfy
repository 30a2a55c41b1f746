/**
 * Metrics between a reference array and a reconstructed (target) array.
 *
 * The score functions live in `enstools.scores`, which is not part of this model: each is an
 * uninterpreted function of the two arrays, listed in a registry under its name together with
 * the names of its parameters.
 */
module Metrics {
  import opened Wrappers
  import opened DataModel
  import opened Dicts

  /** A function of the scores package: the names of its parameters and its value. */
  datatype ScoreFunction = ScoreFunction(parameters: seq<string>, apply: (seq<Value>, seq<Value>) -> real)

  /** Every requested argument name is a parameter of `f`. */
  predicate Accepts(f: ScoreFunction, arguments: seq<string>)
  {
    forall a :: a in arguments ==> a in f.parameters
  }

  /** `get_matching_scores`: the registry entries whose signature takes every requested argument. */
  function GetMatchingScores(scores: Dict<ScoreFunction>, arguments: seq<string>): (r: Dict<ScoreFunction>)
    ensures forall i :: 0 <= i < |r| ==> Accepts(r[i].1, arguments)
    ensures forall i :: 0 <= i < |r| ==> r[i].0 in Keys(scores)
    ensures forall i :: 0 <= i < |scores| && Accepts(scores[i].1, arguments) ==> scores[i].0 in Keys(r)
    ensures Distinct(scores) ==> Distinct(r)
  {
    if |scores| == 0 then []
    else
      var rest := GetMatchingScores(scores[..|scores| - 1], arguments);
      var last := scores[|scores| - 1];
      assert forall i :: 0 <= i < |scores| - 1 ==> scores[..|scores| - 1][i] == scores[i];
      assert Keys(scores) == Keys(scores[..|scores| - 1]) + [last.0];
      if Accepts(last.1, arguments) then
        assert Keys(rest + [last]) == Keys(rest) + [last.0];
        rest + [last]
      else rest
  }

  /** `get_available_metrics`: the scores that take a reference and a target. */
  function AvailableMetrics(scores: Dict<ScoreFunction>): Dict<ScoreFunction>
  {
    GetMatchingScores(scores, ["reference", "target"])
  }

  function NotAvailable(name: string): Error
  {
    EnstoolsError("Metric '" + name + "' not available.")
  }

  /** `compute_metric` on arrays that have already been through the NaN fill. */
  function MetricValue(scores: Dict<ScoreFunction>, reference: seq<Value>, target: seq<Value>, name: string): (r: Result<real>)
    ensures r.Err? <==> name !in Keys(AvailableMetrics(scores))
    ensures r.Err? ==> r.error == NotAvailable(name)
  {
    match Get(AvailableMetrics(scores), name)
    case None => Err(NotAvailable(name))
    case Some(f) => Ok(f.apply(reference, target))
  }

  /** A name missing from the registry is never available (the case of "dummy_metric"). */
  lemma UnknownMetricFails(scores: Dict<ScoreFunction>, reference: seq<Value>, target: seq<Value>, name: string)
    requires name !in Keys(scores)
    ensures MetricValue(scores, reference, target, name) == Err(NotAvailable(name))
  {
    var avail := AvailableMetrics(scores);
    assert forall i :: 0 <= i < |avail| ==> Keys(avail)[i] != name;
  }

  /** A score is available exactly when it takes both a reference and a target. */
  lemma AvailableIff(scores: Dict<ScoreFunction>, i: nat)
    requires Distinct(scores) && i < |scores|
    ensures scores[i].0 in Keys(AvailableMetrics(scores)) <==> Accepts(scores[i].1, ["reference", "target"])
  {
    var avail := AvailableMetrics(scores);
    if scores[i].0 in Keys(avail) {
      var j :| 0 <= j < |avail| && avail[j].0 == scores[i].0;
      FromRegistry(scores, ["reference", "target"], j);
    }
  }

  /** An entry kept by the filter is an entry of the registry, unchanged. */
  lemma {:induction false} FromRegistry(scores: Dict<ScoreFunction>, arguments: seq<string>, j: nat)
    requires j < |GetMatchingScores(scores, arguments)|
    ensures exists i :: 0 <= i < |scores| && GetMatchingScores(scores, arguments)[j] == scores[i]
  {
    var init := scores[..|scores| - 1];
    var rest := GetMatchingScores(init, arguments);
    assert forall i :: 0 <= i < |scores| - 1 ==> init[i] == scores[i];
    if j < |rest| {
      FromRegistry(init, arguments, j);
      var i :| 0 <= i < |init| && rest[j] == init[i];
      assert GetMatchingScores(scores, arguments)[j] == scores[i];
    } else {
      assert GetMatchingScores(scores, arguments)[j] == scores[|scores| - 1];
    }
  }

  /** `fix_nan` on one array, in place. */
  method FixNanInPlace(a: array<Value>)
    modifies a
    ensures a[..] == FixNanValues(old(a[..]))
  {
    var i := 0;
    while i < a.Length
      invariant 0 <= i <= a.Length
      invariant forall k :: 0 <= k < i ==> a[k] == FixNanValue(old(a[k]))
      invariant forall k :: i <= k < a.Length ==> a[k] == old(a[k])
    {
      if a[i].NaN? {
        a[i] := Num(FillValue);
      }
      i := i + 1;
    }
  }

  /**
   * `DataArrayMetrics`: a reference and a target array, NaN-filled in place on construction,
   * and a cache of the metrics computed so far.
   */
  class DataArrayMetrics {
    const scores: Dict<ScoreFunction>
    const reference: array<Value>
    const target: array<Value>
    const availableMetrics: seq<string>
    var metricValues: map<string, real>
    /** The names whose metric was computed, in the order they were computed. */
    ghost var computed: seq<string>

    ghost predicate Valid()
      reads this, reference, target
    {
      && availableMetrics == Keys(AvailableMetrics(scores))
      && (forall n :: n in metricValues ==> ComputeMetric(n) == Ok(metricValues[n]))
      && (forall n :: n in metricValues <==> n in computed)
      && (forall i, j :: 0 <= i < j < |computed| ==> computed[i] != computed[j])
    }

    /** `compute_metric`: the score of the current arrays, or EnstoolsError for an unknown name. */
    function ComputeMetric(name: string): (r: Result<real>)
      reads reference, target
      ensures r.Err? <==> name !in availableMetrics || name !in Keys(AvailableMetrics(scores))
    {
      if name !in availableMetrics then Err(NotAvailable(name))
      else MetricValue(scores, reference[..], target[..], name)
    }

    constructor (scores: Dict<ScoreFunction>, reference: array<Value>, target: array<Value>)
      modifies reference, target
      ensures Valid()
      ensures this.scores == scores && this.reference == reference && this.target == target
      ensures reference[..] == FixNanValues(old(reference[..]))
      ensures target[..] == FixNanValues(old(target[..]))
      ensures !HasNaN(reference[..]) && !HasNaN(target[..])
      ensures metricValues == map[] && computed == []
    {
      this.scores := scores;
      this.reference := reference;
      this.target := target;
      availableMetrics := Keys(AvailableMetrics(scores));
      metricValues := map[];
      computed := [];
      new;
      FixNan();
    }

    /** `fix_nan`: both arrays NaN-filled in place; when they are one array, filling twice changes nothing. */
    method FixNan()
      modifies reference, target
      ensures reference[..] == FixNanValues(old(reference[..]))
      ensures target[..] == FixNanValues(old(target[..]))
    {
      FixNanInPlace(reference);
      FixNanInPlace(target);
      if reference == target {
        FixNanIdempotent(old(reference[..]));
      }
    }

    /** `__getitem__`: a cached value if there is one, otherwise computed once and stored. */
    method GetItem(name: string) returns (r: Result<real>)
      requires Valid()
      modifies this`metricValues, this`computed
      ensures Valid()
      ensures r == ComputeMetric(name)
      ensures r.Ok? ==> name in metricValues && metricValues[name] == r.value
      ensures name in old(metricValues) ==> metricValues == old(metricValues) && computed == old(computed)
      ensures name !in old(metricValues) && r.Ok? ==>
        metricValues == old(metricValues)[name := r.value] && computed == old(computed) + [name]
      ensures r.Err? ==> metricValues == old(metricValues) && computed == old(computed)
    {
      if name !in metricValues {
        r := ComputeMetric(name);
        if r.Ok? {
          ghost var before := computed;
          assert name !in before;
          metricValues := metricValues[name := r.value];
          computed := computed + [name];
          assert forall i :: 0 <= i < |before| ==> computed[i] == before[i];
        }
      } else {
        r := Ok(metricValues[name]);
      }
    }
  }

  /** `DatasetMetrics.variables`: the dataset's variables that are not coordinates, in order. */
  function DatasetVariables(variables: seq<string>, coords: seq<string>): (r: seq<string>)
    ensures forall v :: v in r <==> v in variables && v !in coords
    ensures |r| <= |variables|
  {
    if |variables| == 0 then []
    else
      var rest := DatasetVariables(variables[..|variables| - 1], coords);
      var v := variables[|variables| - 1];
      assert variables == variables[..|variables| - 1] + [v];
      if v in coords then rest else rest + [v]
  }

  /** `set(a) == set(b)`. */
  predicate SameNames(a: seq<string>, b: seq<string>)
  {
    (forall v :: v in a ==> v in b) && (forall v :: v in b ==> v in a)
  }

  /** `check_consistency`: the same variable names and the same coordinate names on both sides. */
  function CheckConsistency(referenceVariables: seq<string>, targetVariables: seq<string>,
                            referenceCoords: seq<string>, targetCoords: seq<string>): (r: Outcome)
    ensures r.Pass? <==> (forall v :: v in referenceVariables <==> v in targetVariables)
                         && (forall c :: c in referenceCoords <==> c in targetCoords)
    ensures r.Fail? ==> r.error.AssertionError?
  {
    if !SameNames(referenceVariables, targetVariables) then Fail(AssertionError(""))
    else if !SameNames(referenceCoords, targetCoords) then Fail(AssertionError(""))
    else Pass
  }

  /** `DatasetMetrics.__getitem__`: only the dataset's own variables may be asked for. */
  function SelectVariable<T>(variables: seq<string>, metrics: map<string, T>, name: string): (r: Result<T>)
    ensures name !in variables ==> r.Err? && r.error.AssertionError?
    ensures (forall v :: v in variables ==> v in metrics) ==> (r.Ok? <==> name in variables)
    ensures r.Ok? ==> name in metrics && r.value == metrics[name]
  {
    if name !in variables then
      Err(AssertionError("The provided variable name " + name + " does not exist in this dataset."))
    else if name in metrics then Ok(metrics[name])
    else Err(KeyError(name))
  }
}
