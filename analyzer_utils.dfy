/**
 * Helpers of the analyzer: the metrics record of one reconstruction, the parameter range of
 * each compression mode, and the bisection searches over a continuous range or a list of
 * integers.
 *
 * A search takes the objective `f` as an ordinary function from the parameter to the margin
 * "smallest (metric - threshold)"; a positive margin means every threshold is met. Parameters
 * and margins are real numbers: floating-point rounding of the midpoint is not modelled.
 */
module AnalyzerUtils {
  import opened Wrappers
  import opened DataModel
  import opened Dicts
  import opened Metrics

  /** The name under which the emulator's compression ratio is stored in a metrics record. */
  const CompressionRatio: string := "compression_ratio"

  // ---------------------------------------------------------------------------------------------
  // get_metrics

  /**
   * `get_metrics`: the value of every requested metric, in the order requested, leaving out the
   * compression ratio (which no score computes). The first unavailable name aborts the record.
   */
  function MetricsRecord(scores: Dict<ScoreFunction>, reference: seq<Value>, recovered: seq<Value>,
                         names: seq<string>): (r: Result<Dict<real>>)
    ensures r.Ok? <==> forall n :: n in names && n != CompressionRatio ==> n in Keys(AvailableMetrics(scores))
    ensures r.Ok? ==> forall n :: n in Keys(r.value) <==> n in names && n != CompressionRatio
    ensures r.Ok? ==> Distinct(r.value)
    ensures r.Ok? ==> forall n :: n in Keys(r.value) ==>
      Ok(Get(r.value, n).value) == MetricValue(scores, reference, recovered, n)
    ensures r.Err? ==> exists n :: n in names && r.error == NotAvailable(n)
    decreases |names|
  {
    if |names| == 0 then Ok([])
    else
      var init := names[..|names| - 1];
      var n := names[|names| - 1];
      assert names == init + [n];
      var acc :- MetricsRecord(scores, reference, recovered, init);
      if n == CompressionRatio then Ok(acc)
      else
        var v :- MetricValue(scores, reference, recovered, n);
        Ok(Put(acc, n, v))
  }

  /** One more name: skipped when it is the compression ratio, otherwise its value is stored or its error returned. */
  lemma MetricsRecordStep(scores: Dict<ScoreFunction>, reference: seq<Value>, recovered: seq<Value>,
                          names: seq<string>, i: nat)
    requires i < |names| && MetricsRecord(scores, reference, recovered, names[..i]).Ok?
    ensures var acc := MetricsRecord(scores, reference, recovered, names[..i]).value;
      var v := MetricValue(scores, reference, recovered, names[i]);
      MetricsRecord(scores, reference, recovered, names[..i + 1])
      == if names[i] == CompressionRatio then Ok(acc) else if v.Err? then Err(v.error) else Ok(Put(acc, names[i], v.value))
  {
    assert names[..i + 1][..i] == names[..i];
  }

  /** Once a prefix of the names fails, the whole record fails with the same error. */
  lemma {:induction false} MetricsRecordErrorPersists(scores: Dict<ScoreFunction>, reference: seq<Value>,
                                                      recovered: seq<Value>, names: seq<string>, k: nat)
    requires k <= |names|
    requires MetricsRecord(scores, reference, recovered, names[..k]).Err?
    ensures MetricsRecord(scores, reference, recovered, names) == MetricsRecord(scores, reference, recovered, names[..k])
    decreases |names| - k
  {
    if k < |names| {
      var init := names[..|names| - 1];
      assert init[..k] == names[..k];
      MetricsRecordErrorPersists(scores, reference, recovered, init, k);
      var before := MetricsRecord(scores, reference, recovered, init);
      assert before.Err?;
      assert MetricsRecord(scores, reference, recovered, names) == Err(before.error);
    } else {
      assert names[..k] == names;
    }
  }

  /** `get_metrics` run on two arrays: both are NaN-filled in place, then the record is built name by name. */
  method GetMetrics(scores: Dict<ScoreFunction>, reference: array<Value>, recovered: array<Value>,
                    metricNames: seq<string>) returns (r: Result<Dict<real>>)
    modifies reference, recovered
    ensures reference[..] == FixNanValues(old(reference[..]))
    ensures recovered[..] == FixNanValues(old(recovered[..]))
    ensures r == MetricsRecord(scores, FixNanValues(old(reference[..])), FixNanValues(old(recovered[..])), metricNames)
  {
    var metrics := new DataArrayMetrics(scores, reference, recovered);
    r := CollectMetrics(metrics, metricNames);
  }

  /**
   * The comprehension of `get_metrics`, `{name: metrics[name] for name in metric_names if name !=
   * "compression_ratio"}`: each value is read through the cache of `metrics`.
   */
  method CollectMetrics(metrics: DataArrayMetrics, metricNames: seq<string>) returns (r: Result<Dict<real>>)
    requires metrics.Valid()
    modifies metrics`metricValues, metrics`computed
    ensures metrics.Valid()
    ensures r == MetricsRecord(metrics.scores, metrics.reference[..], metrics.target[..], metricNames)
  {
    ghost var reference, recovered := metrics.reference[..], metrics.target[..];
    var acc: Dict<real> := [];
    for i := 0 to |metricNames|
      invariant metrics.Valid()
      invariant MetricsRecord(metrics.scores, reference, recovered, metricNames[..i]) == Ok(acc)
    {
      var name := metricNames[i];
      MetricsRecordStep(metrics.scores, reference, recovered, metricNames, i);
      if name != CompressionRatio {
        var v := metrics.GetItem(name);
        if v.Err? {
          MetricsRecordErrorPersists(metrics.scores, reference, recovered, metricNames, i + 1);
          return Err(v.error);
        }
        acc := Put(acc, name, v.value);
      }
    }
    assert metricNames[..|metricNames|] == metricNames;
    return Ok(acc);
  }

  // ---------------------------------------------------------------------------------------------
  // check_compression_ratio and get_parameter_range

  /** `check_compression_ratio`: the ratio is strictly above the "compression_ratio" threshold. */
  function CheckCompressionRatio(ratio: real, thresholds: Dict<real>): (r: Result<bool>)
    ensures r.Err? <==> CompressionRatio !in Keys(thresholds)
    ensures r.Err? ==> r.error == KeyError(CompressionRatio)
    ensures r.Ok? ==> (r.value <==> ratio > Get(thresholds, CompressionRatio).value)
  {
    match Get(thresholds, CompressionRatio)
    case None => Err(KeyError(CompressionRatio))
    case Some(t) => Ok(ratio > t)
  }

  /** Compressor name -> mode name -> parameter range, as the encoding package defines it. */
  type ModeTable = Dict<Dict<ParameterRange>>

  /**
   * `get_parameter_range`: the (looser, tighter) bounds of the search for a mode. `values` are
   * the numbers of the analysed array; `table` is the encoding package's table, consulted for
   * the two SZ3 modes.
   */
  function GetParameterRange(mode: string, values: seq<real>, table: ModeTable): (r: Result<ParameterRange>)
    ensures mode in ["abs", "accuracy"] && |values| > 0 ==>
      r.Ok? && r.value.tighter == Float(0.0) && r.value.looser.Float?
      && (forall i, j :: 0 <= i < |values| && 0 <= j < |values| ==> values[i] - values[j] <= r.value.looser.r)
      && (exists i, j :: 0 <= i < |values| && 0 <= j < |values| && values[i] - values[j] == r.value.looser.r)
    ensures mode in ["abs", "accuracy"] && |values| == 0 ==> r == Err(ValueError)
    ensures mode in ["rel", "pw_rel"] ==> r == Ok(ParameterRange(Float(1.0), Float(0.0)))
    ensures mode == "rate" ==> r == Ok(ParameterRange(Float(1.0), Float(32.0)))
    ensures mode == "precision" ==> r == Ok(ParameterRange(Int(2), Int(32)))
    ensures mode in ["norm2", "psnr"] ==>
      (r.Ok? <==> "sz3" in Keys(table) && mode in Keys(Get(table, "sz3").value))
      && (r.Ok? ==> r.value == Get(Get(table, "sz3").value, mode).value)
    ensures mode !in ["abs", "accuracy", "rel", "pw_rel", "rate", "precision", "norm2", "psnr"] ==>
      r.Err? && r.error.EnstoolsError?
  {
    if mode in ["abs", "accuracy"] then
      if |values| == 0 then Err(ValueError)
      else Ok(ParameterRange(Float(Max(values) - Min(values)), Float(0.0)))
    else if mode in ["rel", "pw_rel"] then Ok(ParameterRange(Float(1.0), Float(0.0)))
    else if mode == "rate" then Ok(ParameterRange(Float(1.0), Float(32.0)))
    else if mode == "precision" then Ok(ParameterRange(Int(2), Int(32)))
    else if mode in ["norm2", "psnr"] then
      match Get(table, "sz3")
      case None => Err(KeyError("sz3"))
      case Some(modes) =>
        match Get(modes, mode)
        case None => Err(KeyError(mode))
        case Some(range) => Ok(range)
    else Err(EnstoolsError("Mode " + mode + " not implemented."))
  }

  // ---------------------------------------------------------------------------------------------
  // Bisection

  const DefaultMaxDepth: int := 50
  const DefaultRetries: int := 5
  const DefaultThreshold: real := 0.1

  /** The parameter a search settled on (or why it failed), and how many times it evaluated `f`. */
  datatype Search<P> = Search(outcome: Result<P>, evaluations: nat)

  /** `comparison`: whether the looser half of the range is kept. */
  predicate KeepsLooserHalf(value: real, direct: bool)
  {
    (value > 0.0) == direct
  }

  /** `x` lies in the closed interval spanned by `a` and `b`, in whichever order they come. */
  predicate Between(x: real, a: real, b: real)
  {
    (a <= x <= b) || (b <= x <= a)
  }

  /**
   * `continuous_bisection_method` over the range (start, end), start being the looser end.
   * The recursive call does not pass `maxDepth` on, so every call below the first one runs
   * with the default depth limit of 50.
   */
  function ContinuousBisection(start: real, end: real, f: real -> real, depth: int, maxDepth: int,
                               lastValue: Option<real>, retry: int, threshold: real, direct: bool): (r: Search<real>)
    ensures r.outcome.Ok? && r.evaluations >= 1
    ensures Between(r.outcome.value, start, end)
    decreases if maxDepth == DefaultMaxDepth then 0 else 1, DefaultMaxDepth - depth
  {
    var middle := (start + end) / 2.0;
    var value := f(middle);
    var candidate := if value > 0.0 then middle else end;
    if 0.0 <= value < threshold then Search(Ok(candidate), 1)
    else if lastValue == Some(value) && retry == 0 then Search(Ok(candidate), 1)
    else
      var retry' := if lastValue == Some(value) then retry - 1 else retry;
      if depth >= maxDepth then Search(Ok(candidate), 1)
      else
        var rest :=
          if KeepsLooserHalf(value, direct)
          then ContinuousBisection(start, middle, f, depth + 1, DefaultMaxDepth, Some(value), retry', threshold, direct)
          else ContinuousBisection(middle, end, f, depth + 1, DefaultMaxDepth, Some(value), retry', threshold, direct);
        Search(rest.outcome, rest.evaluations + 1)
  }

  /** A margin of exactly zero at the first midpoint ends the search at once, on `end`, not on the midpoint. */
  lemma ExactZeroReturnsEnd(start: real, end: real, f: real -> real, depth: int, maxDepth: int,
                            lastValue: Option<real>, retry: int, threshold: real, direct: bool)
    requires f((start + end) / 2.0) == 0.0 && threshold > 0.0
    ensures ContinuousBisection(start, end, f, depth, maxDepth, lastValue, retry, threshold, direct) == Search(Ok(end), 1)
  {
  }

  /**
   * With a direct relation, if the tightest end of the range meets every threshold, so does the
   * parameter the search returns: each step keeps an `end` whose margin is not negative.
   */
  lemma {:induction false} ContinuousIsSafe(start: real, end: real, f: real -> real, depth: int, maxDepth: int,
                                            lastValue: Option<real>, retry: int, threshold: real)
    requires f(end) >= 0.0
    ensures f(ContinuousBisection(start, end, f, depth, maxDepth, lastValue, retry, threshold, true).outcome.value) >= 0.0
    decreases if maxDepth == DefaultMaxDepth then 0 else 1, DefaultMaxDepth - depth
  {
    var middle := (start + end) / 2.0;
    var value := f(middle);
    var retry' := if lastValue == Some(value) then retry - 1 else retry;
    if !(0.0 <= value < threshold) && !(lastValue == Some(value) && retry == 0) && depth < maxDepth {
      if value > 0.0 {
        ContinuousIsSafe(start, middle, f, depth + 1, DefaultMaxDepth, Some(value), retry', threshold);
      } else {
        ContinuousIsSafe(middle, end, f, depth + 1, DefaultMaxDepth, Some(value), retry', threshold);
      }
    }
  }

  /** A margin that only the loosest parameter 0 meets: it never increases toward the tighter end. */
  function LooserOnlySafe(x: real): real
  {
    if x <= 0.0 then 1.0 else -1.0
  }

  /**
   * The safety of `ContinuousIsSafe` does not carry over to an inverse relation. On (0, 1) with
   * `LooserOnlySafe`, which the relation test reads as inverse, the search keeps halving toward 0
   * on the same negative margin until its retries run out, and then returns the tighter end 1/64,
   * whose margin is negative, although the looser end 0 meets the thresholds.
   */
  lemma InverseMayReturnUnsafeEnd()
    ensures LooserOnlySafe(0.0) >= 0.0
    ensures !(LooserOnlySafe(0.9) > LooserOnlySafe(0.1))
    ensures ContinuousBisection(0.0, 1.0, LooserOnlySafe, 0, DefaultMaxDepth, None, DefaultRetries, DefaultThreshold, false)
            == Search(Ok(1.0 / 64.0), 7)
    ensures LooserOnlySafe(1.0 / 64.0) < 0.0
  {
    var f := LooserOnlySafe;
    assert ContinuousBisection(0.0, 1.0 / 64.0, f, 6, DefaultMaxDepth, Some(-1.0), 0, DefaultThreshold, false)
           == Search(Ok(1.0 / 64.0), 1);
    assert ContinuousBisection(0.0, 1.0 / 32.0, f, 5, DefaultMaxDepth, Some(-1.0), 1, DefaultThreshold, false)
           == Search(Ok(1.0 / 64.0), 2);
    assert ContinuousBisection(0.0, 1.0 / 16.0, f, 4, DefaultMaxDepth, Some(-1.0), 2, DefaultThreshold, false)
           == Search(Ok(1.0 / 64.0), 3);
    assert ContinuousBisection(0.0, 1.0 / 8.0, f, 3, DefaultMaxDepth, Some(-1.0), 3, DefaultThreshold, false)
           == Search(Ok(1.0 / 64.0), 4);
    assert ContinuousBisection(0.0, 1.0 / 4.0, f, 2, DefaultMaxDepth, Some(-1.0), 4, DefaultThreshold, false)
           == Search(Ok(1.0 / 64.0), 5);
    assert ContinuousBisection(0.0, 1.0 / 2.0, f, 1, DefaultMaxDepth, Some(-1.0), 5, DefaultThreshold, false)
           == Search(Ok(1.0 / 64.0), 6);
  }

  /** Under the default depth limit, a search started at `depth` evaluates `f` at most max(1, 51 - depth) times. */
  lemma {:induction false} ContinuousEvaluationsAtDefault(start: real, end: real, f: real -> real, depth: int,
                                                          lastValue: Option<real>, retry: int, threshold: real, direct: bool)
    ensures ContinuousBisection(start, end, f, depth, DefaultMaxDepth, lastValue, retry, threshold, direct).evaluations
            <= if depth >= DefaultMaxDepth then 1 else DefaultMaxDepth + 1 - depth
    decreases DefaultMaxDepth - depth
  {
    var middle := (start + end) / 2.0;
    var value := f(middle);
    var retry' := if lastValue == Some(value) then retry - 1 else retry;
    if depth < DefaultMaxDepth {
      ContinuousEvaluationsAtDefault(start, middle, f, depth + 1, Some(value), retry', threshold, direct);
      ContinuousEvaluationsAtDefault(middle, end, f, depth + 1, Some(value), retry', threshold, direct);
    }
  }

  /** A search started at a non-negative depth evaluates `f` at most 51 times, whatever `maxDepth` says. */
  lemma ContinuousEvaluationsBound(start: real, end: real, f: real -> real, depth: int, maxDepth: int,
                                   lastValue: Option<real>, retry: int, threshold: real, direct: bool)
    requires depth >= 0
    ensures ContinuousBisection(start, end, f, depth, maxDepth, lastValue, retry, threshold, direct).evaluations
            <= DefaultMaxDepth + 1
  {
    var middle := (start + end) / 2.0;
    var value := f(middle);
    var retry' := if lastValue == Some(value) then retry - 1 else retry;
    ContinuousEvaluationsAtDefault(start, middle, f, depth + 1, Some(value), retry', threshold, direct);
    ContinuousEvaluationsAtDefault(middle, end, f, depth + 1, Some(value), retry', threshold, direct);
  }

  /**
   * When no early exit fires (the margin is always negative and never repeats), a search under the
   * default depth limit started at depth d in 0..50 evaluates `f` exactly 51 - d times.
   */
  lemma {:induction false} ContinuousRunsToDefaultDepth(start: real, end: real, f: real -> real, g: real -> real, depth: int,
                                                        lastValue: Option<real>, retry: int, threshold: real, direct: bool)
    requires 0 <= depth <= DefaultMaxDepth && start != end
    requires AlwaysNegative(f) && LeftInverse(f, g)
    requires lastValue == None || lastValue == Some(f(start)) || lastValue == Some(f(end))
    ensures ContinuousBisection(start, end, f, depth, DefaultMaxDepth, lastValue, retry, threshold, direct).evaluations
            == DefaultMaxDepth + 1 - depth
    decreases DefaultMaxDepth - depth
  {
    var middle := (start + end) / 2.0;
    var value := f(middle);
    assert middle != start && middle != end;
    assert lastValue != Some(value);
    if depth < DefaultMaxDepth {
      if KeepsLooserHalf(value, direct) {
        ContinuousRunsToDefaultDepth(start, middle, f, g, depth + 1, Some(value), retry, threshold, direct);
      } else {
        ContinuousRunsToDefaultDepth(middle, end, f, g, depth + 1, Some(value), retry, threshold, direct);
      }
    }
  }

  /** Every parameter fails some threshold. */
  ghost predicate AlwaysNegative(f: real -> real)
  {
    forall x :: f(x) < 0.0
  }

  /** `g` recovers the parameter from its margin, so no two parameters give the same margin. */
  ghost predicate LeftInverse(f: real -> real, g: real -> real)
  {
    forall x :: g(f(x)) == x
  }

  /** A negative margin at the first midpoint, below the first call's depth limit, leads to one recursive call. */
  lemma FirstStepRecurses(start: real, end: real, middle: real, f: real -> real, maxDepth: int,
                          retry: int, threshold: real, direct: bool)
    requires middle == (start + end) / 2.0
    requires maxDepth >= 1 && f(middle) < 0.0
    ensures ContinuousBisection(start, end, f, 0, maxDepth, None, retry, threshold, direct).evaluations
      == 1 + (if KeepsLooserHalf(f(middle), direct)
              then ContinuousBisection(start, middle, f, 1, DefaultMaxDepth, Some(f(middle)), retry, threshold, direct)
              else ContinuousBisection(middle, end, f, 1, DefaultMaxDepth, Some(f(middle)), retry, threshold, direct)).evaluations
  {
  }

  /**
   * The limit given to the first call only decides whether there is a second call: with any
   * `maxDepth` of at least 1 (3, say, or 1000), a search that never exits early makes 51 evaluations.
   */
  lemma MaxDepthNotForwarded(start: real, end: real, f: real -> real, g: real -> real, maxDepth: int,
                             retry: int, threshold: real, direct: bool)
    requires start != end && maxDepth >= 1
    requires AlwaysNegative(f) && LeftInverse(f, g)
    ensures ContinuousBisection(start, end, f, 0, maxDepth, None, retry, threshold, direct).evaluations
            == DefaultMaxDepth + 1
  {
    var middle := (start + end) / 2.0;
    FirstStepRecurses(start, end, middle, f, maxDepth, retry, threshold, direct);
    if KeepsLooserHalf(f(middle), direct) {
      LooserHalfRunsToDefaultDepth(start, end, middle, f, g, retry, threshold, direct);
    } else {
      TighterHalfRunsToDefaultDepth(start, end, middle, f, g, retry, threshold, direct);
    }
  }

  /** The midpoint of two different reals differs from both. */
  lemma MidpointIsInside(start: real, end: real)
    requires start != end
    ensures (start + end) / 2.0 != start && (start + end) / 2.0 != end
  {
  }

  /** A search on a half range, entered with the margin of one of its ends, makes 50 evaluations. */
  lemma HalfRunsToDefaultDepth(lo: real, hi: real, shared: real, f: real -> real, g: real -> real, retry: int, threshold: real, direct: bool)
    requires lo != hi && (shared == lo || shared == hi)
    requires AlwaysNegative(f) && LeftInverse(f, g)
    ensures ContinuousBisection(lo, hi, f, 1, DefaultMaxDepth, Some(f(shared)), retry, threshold, direct).evaluations
            == DefaultMaxDepth
  {
    ContinuousRunsToDefaultDepth(lo, hi, f, g, 1, Some(f(shared)), retry, threshold, direct);
  }

  /** The search on the looser half, entered with the first margin, makes 50 evaluations. */
  lemma LooserHalfRunsToDefaultDepth(start: real, end: real, middle: real, f: real -> real, g: real -> real,
                                     retry: int, threshold: real, direct: bool)
    requires start != end && middle == (start + end) / 2.0
    requires AlwaysNegative(f) && LeftInverse(f, g)
    ensures ContinuousBisection(start, middle, f, 1, DefaultMaxDepth, Some(f(middle)), retry, threshold, direct).evaluations
            == DefaultMaxDepth
  {
    MidpointIsInside(start, end);
    HalfRunsToDefaultDepth(start, middle, middle, f, g, retry, threshold, direct);
  }


  /** The search on the tighter half, entered with the first margin, makes 50 evaluations. */
  lemma TighterHalfRunsToDefaultDepth(start: real, end: real, middle: real, f: real -> real, g: real -> real,
                                      retry: int, threshold: real, direct: bool)
    requires start != end && middle == (start + end) / 2.0
    requires AlwaysNegative(f) && LeftInverse(f, g)
    ensures ContinuousBisection(middle, end, f, 1, DefaultMaxDepth, Some(f(middle)), retry, threshold, direct).evaluations
            == DefaultMaxDepth
  {
    MidpointIsInside(start, end);
    HalfRunsToDefaultDepth(middle, end, middle, f, g, retry, threshold, direct);
  }


  /**
   * `discrete_bisection_method` over a list of integer parameters, looser first. The element at
   * index len/2 is evaluated; the fallback is the list's last element; the kept part is
   * `values[..mid]` or `values[mid..]`. An empty list fails with IndexError.
   */
  function DiscreteBisection(values: seq<int>, f: real -> real, depth: int, maxDepth: int,
                             lastValue: Option<real>, retry: int, threshold: real, direct: bool): (r: Search<int>)
    ensures r.outcome.Ok? ==> r.outcome.value in values && r.evaluations >= 1
    ensures r.outcome.Err? ==> r.outcome.error == IndexError
    decreases if maxDepth == DefaultMaxDepth then 0 else 1, DefaultMaxDepth - depth
  {
    if |values| == 0 then Search(Err(IndexError), 0)
    else
      var mid := |values| / 2;
      var middle := values[mid];
      var value := f(middle as real);
      var candidate := if value > 0.0 then middle else values[|values| - 1];
      if 0.0 <= value < threshold then Search(Ok(candidate), 1)
      else if lastValue == Some(value) && retry == 0 then Search(Ok(candidate), 1)
      else
        var retry' := if lastValue == Some(value) then retry - 1 else retry;
        if depth >= maxDepth then Search(Ok(candidate), 1)
        else
          var next := if KeepsLooserHalf(value, direct) then values[..mid] else values[mid..];
          var rest := DiscreteBisection(next, f, depth + 1, DefaultMaxDepth, Some(value), retry', threshold, direct);
          Search(rest.outcome, rest.evaluations + 1)
  }

  /** A one-element list whose only value clears the early-exit band is cut to nothing: IndexError. */
  lemma DiscreteSingletonIsEmptied()
    ensures DiscreteBisection([5], x => 1.0, 0, DefaultMaxDepth, None, DefaultRetries, DefaultThreshold, true)
            == Search(Err(IndexError), 1)
  {
    var f: real -> real := x => 1.0;
    assert [5][..1 / 2] == [];
    assert DiscreteBisection([], f, 1, DefaultMaxDepth, Some(1.0), DefaultRetries, DefaultThreshold, true)
           == Search(Err(IndexError), 0);
  }

  /** The objective of the counterexample: parameters 3 and above meet every threshold, 2 does not. */
  function StepAtThree(x: real): real
  {
    if x >= 3.0 then 1.0 else -1.0
  }

  /**
   * On the list [2, 3] with a direct relation, the search evaluates 3 (margin 1 > 0), keeps only
   * the looser half [2], and then settles on 2, whose margin is negative, once its retries are
   * spent: the one parameter that meets the thresholds has been dropped.
   */
  lemma DiscreteDropsSatisfyingMiddle()
    ensures StepAtThree(3.0) > 0.0 && StepAtThree(2.0) < 0.0
    ensures DiscreteBisection([2, 3], StepAtThree, 0, DefaultMaxDepth, None, DefaultRetries, DefaultThreshold, true)
            == Search(Ok(2), 8)
  {
    var f := StepAtThree;
    assert [2, 3][..1] == [2];
    assert [2][0..] == [2];
    assert DiscreteBisection([2], f, 7, DefaultMaxDepth, Some(-1.0), 0, DefaultThreshold, true) == Search(Ok(2), 1);
    assert DiscreteBisection([2], f, 6, DefaultMaxDepth, Some(-1.0), 1, DefaultThreshold, true) == Search(Ok(2), 2);
    assert DiscreteBisection([2], f, 5, DefaultMaxDepth, Some(-1.0), 2, DefaultThreshold, true) == Search(Ok(2), 3);
    assert DiscreteBisection([2], f, 4, DefaultMaxDepth, Some(-1.0), 3, DefaultThreshold, true) == Search(Ok(2), 4);
    assert DiscreteBisection([2], f, 3, DefaultMaxDepth, Some(-1.0), 4, DefaultThreshold, true) == Search(Ok(2), 5);
    assert DiscreteBisection([2], f, 2, DefaultMaxDepth, Some(-1.0), 5, DefaultThreshold, true) == Search(Ok(2), 6);
    assert DiscreteBisection([2], f, 1, DefaultMaxDepth, Some(1.0), 5, DefaultThreshold, true) == Search(Ok(2), 7);
  }

  /**
   * The discrete search with the satisfying middle kept: the looser part is `values[..mid + 1]`,
   * so the list never becomes empty and its last element is always one already known to be safe.
   */
  function CorrectedDiscreteBisection(values: seq<int>, f: real -> real, depth: int, maxDepth: int,
                                      lastValue: Option<real>, retry: int, threshold: real, direct: bool): (r: Search<int>)
    ensures |values| > 0 ==> r.outcome.Ok?
    ensures r.outcome.Ok? ==> r.outcome.value in values
    ensures r.outcome.Err? ==> r.outcome.error == IndexError
    decreases if maxDepth == DefaultMaxDepth then 0 else 1, DefaultMaxDepth - depth
  {
    if |values| == 0 then Search(Err(IndexError), 0)
    else
      var mid := |values| / 2;
      var middle := values[mid];
      var value := f(middle as real);
      var candidate := if value > 0.0 then middle else values[|values| - 1];
      if 0.0 <= value < threshold then Search(Ok(candidate), 1)
      else if lastValue == Some(value) && retry == 0 then Search(Ok(candidate), 1)
      else
        var retry' := if lastValue == Some(value) then retry - 1 else retry;
        if depth >= maxDepth then Search(Ok(candidate), 1)
        else
          var next := if KeepsLooserHalf(value, direct) then values[..mid + 1] else values[mid..];
          var rest := CorrectedDiscreteBisection(next, f, depth + 1, DefaultMaxDepth, Some(value), retry', threshold, direct);
          Search(rest.outcome, rest.evaluations + 1)
  }

  /** A call of the corrected search that stops returns its candidate. */
  lemma CorrectedStops(values: seq<int>, f: real -> real, depth: int, maxDepth: int, lastValue: Option<real>,
                       retry: int, threshold: real, mid: nat, value: real)
    requires |values| > 0 && mid == |values| / 2 && value == f(values[mid] as real)
    requires 0.0 <= value < threshold || (lastValue == Some(value) && retry == 0) || depth >= maxDepth
    ensures CorrectedDiscreteBisection(values, f, depth, maxDepth, lastValue, retry, threshold, true).outcome
            == Ok(if value > 0.0 then values[mid] else values[|values| - 1])
  {
  }

  /**
   * A call of the corrected search with a direct relation that goes on: with the looser half on a
   * positive margin, with the tighter half otherwise.
   */
  lemma CorrectedRecurses(values: seq<int>, f: real -> real, depth: int, maxDepth: int, lastValue: Option<real>,
                          retry: int, threshold: real, mid: nat, value: real, next: seq<int>)
    requires |values| > 0 && mid == |values| / 2 && value == f(values[mid] as real)
    requires !(0.0 <= value < threshold) && !(lastValue == Some(value) && retry == 0) && depth < maxDepth
    requires next == if value > 0.0 then values[..mid + 1] else values[mid..]
    ensures CorrectedDiscreteBisection(values, f, depth, maxDepth, lastValue, retry, threshold, true).outcome
            == CorrectedDiscreteBisection(next, f, depth + 1, DefaultMaxDepth, Some(value),
                                          if lastValue == Some(value) then retry - 1 else retry, threshold, true).outcome
  {
  }

  /**
   * With a direct relation, if the tightest parameter of the list meets every threshold, the
   * corrected search returns a parameter that meets every threshold too.
   */
  lemma {:induction false} CorrectedDiscreteIsSafe(values: seq<int>, f: real -> real, depth: int, maxDepth: int,
                                                   lastValue: Option<real>, retry: int, threshold: real)
    requires |values| > 0 && f(values[|values| - 1] as real) >= 0.0
    ensures CorrectedDiscreteBisection(values, f, depth, maxDepth, lastValue, retry, threshold, true).outcome.Ok?
    ensures f(CorrectedDiscreteBisection(values, f, depth, maxDepth, lastValue, retry, threshold, true).outcome.value as real) >= 0.0
    decreases if maxDepth == DefaultMaxDepth then 0 else 1, DefaultMaxDepth - depth
  {
    var mid := |values| / 2;
    var value := f(values[mid] as real);
    if !(0.0 <= value < threshold) && !(lastValue == Some(value) && retry == 0) && depth < maxDepth {
      var next := if value > 0.0 then values[..mid + 1] else values[mid..];
      assert next[|next| - 1] == if value > 0.0 then values[mid] else values[|values| - 1];
      CorrectedRecurses(values, f, depth, maxDepth, lastValue, retry, threshold, mid, value, next);
      CorrectedDiscreteIsSafe(next, f, depth + 1, DefaultMaxDepth, Some(value),
                              if lastValue == Some(value) then retry - 1 else retry, threshold);
    } else {
      CorrectedStops(values, f, depth, maxDepth, lastValue, retry, threshold, mid, value);
    }
  }

  /** The corrected search on the counterexample keeps 3. */
  lemma CorrectedKeepsSatisfyingMiddle()
    ensures CorrectedDiscreteBisection([2, 3], StepAtThree, 0, DefaultMaxDepth, None, DefaultRetries, DefaultThreshold, true).outcome
            == Ok(3)
  {
    CorrectedDiscreteIsSafe([2, 3], StepAtThree, 0, DefaultMaxDepth, None, DefaultRetries, DefaultThreshold);
  }

  /** `list(range(lo, hi))`. */
  function Range(lo: int, hi: int): (r: seq<int>)
    ensures |r| == if hi > lo then hi - lo else 0
    ensures forall i :: 0 <= i < |r| ==> r[i] == lo + i
    decreases hi - lo
  {
    if hi <= lo then [] else [lo] + Range(lo + 1, hi)
  }

  /**
   * `bisection_method`: a float looser bound selects the continuous search, an int looser bound
   * the discrete search over `range(looser, tighter + 1)`, anything else a TypeError.
   */
  function BisectionMethod(range: ParameterRange, f: real -> real, depth: int, maxDepth: int,
                           lastValue: Option<real>, retry: int, threshold: real, direct: bool): (r: Search<Scalar>)
    ensures range.looser.Other? ==> r == Search(Err(TypeError), 0)
    ensures r.outcome.Ok? ==> !r.outcome.value.Other? && r.evaluations >= 1
    ensures range.looser.Int? && !range.tighter.Int? ==> r == Search(Err(TypeError), 0)
    ensures range.looser.Float? && !range.tighter.Other? ==>
      r.outcome.Ok? && r.outcome.value.Float?
      && Between(r.outcome.value.r, range.looser.r, AsReal(range.tighter))
    ensures range.looser.Int? && range.tighter.Int? && r.outcome.Ok? ==>
      r.outcome.value.Int? && range.looser.i <= r.outcome.value.i <= range.tighter.i
    ensures range.looser.Int? && range.tighter.Int? && range.tighter.i < range.looser.i ==>
      r == Search(Err(IndexError), 0)
  {
    if range.looser.Float? then
      if range.tighter.Other? then Search(Err(TypeError), 0)
      else
        var s := ContinuousBisection(range.looser.r, AsReal(range.tighter), f, depth, maxDepth, lastValue, retry, threshold, direct);
        Search(Ok(Float(s.outcome.value)), s.evaluations)
    else if range.looser.Int? then
      if !range.tighter.Int? then Search(Err(TypeError), 0)
      else
        var values := Range(range.looser.i, range.tighter.i + 1);
        var s := DiscreteBisection(values, f, depth, maxDepth, lastValue, retry, threshold, direct);
        match s.outcome
        case Ok(p) => Search(Ok(Int(p)), s.evaluations)
        case Err(e) => Search(Err(e), s.evaluations)
    else Search(Err(TypeError), 0)
  }
  /** On a float range, the bisection is the continuous search between the two bounds. */
  lemma BisectionOnFloatRange(looser: real, tighter: real, f: real -> real, depth: int, maxDepth: int,
                              lastValue: Option<real>, retry: int, threshold: real, direct: bool)
    ensures var c := ContinuousBisection(looser, tighter, f, depth, maxDepth, lastValue, retry, threshold, direct);
      BisectionMethod(ParameterRange(Float(looser), Float(tighter)), f, depth, maxDepth, lastValue, retry, threshold, direct)
      == Search(Ok(Float(c.outcome.value)), c.evaluations)
  {
  }

}
