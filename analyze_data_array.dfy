/**
 * The analysis of one data array for one (compressor, mode) pair: find the loosest compression
 * parameter whose reconstruction still meets every threshold, and report the compression
 * specification string with the metrics of that reconstruction.
 *
 * The emulator (compress then decompress) and the score functions are outside this model; they
 * enter as functions in an `Environment`, together with the mode table of the encoding package,
 * the specification separator and the `.3g` rendering of the parameter.
 */
module AnalyzeDataArray {
  import opened Wrappers
  import opened DataModel
  import opened Dicts
  import opened Strings
  import opened Metrics
  import opened AnalyzerUtils

  /** The metrics used to choose between encodings when a compression ratio is the target. */
  const DiagnosticMetrics: seq<string> := ["correlation_I", "ssim_I"]

  /** The lossy compressor: the reconstructed values and the compression ratio for a parameter. */
  datatype Emulator = Emulator(
    reconstruct: (string, string, real, seq<Value>) -> seq<Value>,
    ratio: (string, string, real, seq<Value>) -> real)

  /** What the analysis takes from the packages around it. */
  datatype Environment = Environment(
    scores: Dict<ScoreFunction>,
    emulator: Emulator,
    table: ModeTable,
    separator: char,
    render: Scalar -> string)

  /** The outcome of one analysis: a lossless fallback, or a lossy parameter with its specification. */
  datatype Analysis =
    | Lossless(metrics: Dict<real>)
    | Lossy(parameter: Scalar, specification: string, metrics: Dict<real>)

  /** The `(specification, metrics)` pair the source returns. */
  function AsPair(a: Analysis): (string, Dict<real>)
  {
    match a
    case Lossless(m) => ("lossless", m)
    case Lossy(_, s, m) => (s, m)
  }

  /** The metrics reported for an array that contains NaN. */
  const NanMetrics: Dict<real> := [(CompressionRatio, 1.0), ("correlation_I", 0.0), ("ssim_I", 0.0)]

  // ---------------------------------------------------------------------------------------------
  // define_functions_to_optimize, as functions of the parameter

  /**
   * `get_metrics_from_parameter`: the metrics named by the thresholds, computed between the data
   * and its reconstruction, plus the emulator's compression ratio.
   */
  function MetricsAt(env: Environment, compressor: string, mode: string, thresholds: Dict<real>,
                     data: seq<Value>, p: real): (r: Result<Dict<real>>)
    ensures r.Ok? <==> forall n :: n in Keys(thresholds) && n != CompressionRatio ==> n in Keys(AvailableMetrics(env.scores))
    ensures r.Ok? ==> forall n :: n in Keys(r.value) <==> n in Keys(thresholds) || n == CompressionRatio
    ensures r.Ok? ==> Get(r.value, CompressionRatio) == Some(env.emulator.ratio(compressor, mode, p, data))
    ensures r.Ok? ==> Distinct(r.value)
  {
    var target := env.emulator.reconstruct(compressor, mode, p, data);
    var m :- MetricsRecord(env.scores, FixNanValues(data), FixNanValues(target), Keys(thresholds));
    Ok(Put(m, CompressionRatio, env.emulator.ratio(compressor, mode, p, data)))
  }

  /** `metrics[k] - thresholds[k]`, or KeyError when the record lacks `k`. */
  function Difference(metrics: Dict<real>, key: string, threshold: real): (r: Result<real>)
    ensures r.Ok? <==> key in Keys(metrics)
    ensures r.Ok? ==> r.value == Get(metrics, key).value - threshold
  {
    match Get(metrics, key)
    case None => Err(KeyError(key))
    case Some(v) => Ok(v - threshold)
  }

  /**
   * The body of `function_to_nullify`: the smallest `metrics[k] - thresholds[k]` over the
   * threshold keys, in order. No thresholds is a ValueError (`min` of nothing).
   */
  function Margin(metrics: Dict<real>, thresholds: Dict<real>): (r: Result<real>)
    ensures r.Ok? <==> |thresholds| > 0 && forall i :: 0 <= i < |thresholds| ==> thresholds[i].0 in Keys(metrics)
    ensures r.Ok? ==> forall i :: 0 <= i < |thresholds| ==>
      r.value <= Get(metrics, thresholds[i].0).value - thresholds[i].1
    ensures r.Ok? ==> exists i :: 0 <= i < |thresholds| &&
                        r.value == Get(metrics, thresholds[i].0).value - thresholds[i].1
    decreases |thresholds|
  {
    if |thresholds| == 0 then Err(ValueError)
    else
      var init := thresholds[..|thresholds| - 1];
      var last := thresholds[|thresholds| - 1];
      assert forall i :: 0 <= i < |init| ==> init[i] == thresholds[i];
      if |thresholds| == 1 then Difference(metrics, last.0, last.1)
      else
        var m :- Margin(metrics, init);
        var d :- Difference(metrics, last.0, last.1);
        Ok(if d < m then d else m)
  }

  /** `constrain`: the margin is not negative exactly when every threshold is met. */
  lemma ConstrainIffAllMet(metrics: Dict<real>, thresholds: Dict<real>)
    requires Margin(metrics, thresholds).Ok?
    ensures Margin(metrics, thresholds).value >= 0.0 <==>
      forall i :: 0 <= i < |thresholds| ==> Get(metrics, thresholds[i].0).value >= thresholds[i].1
  {
    var m := Margin(metrics, thresholds).value;
    if forall i :: 0 <= i < |thresholds| ==> Get(metrics, thresholds[i].0).value >= thresholds[i].1 {
      var i :| 0 <= i < |thresholds| && m == Get(metrics, thresholds[i].0).value - thresholds[i].1;
    }
  }

  /** `function_to_nullify` at parameter `p`. */
  function ObjectiveAt(env: Environment, compressor: string, mode: string, thresholds: Dict<real>,
                       data: seq<Value>, p: real): (r: Result<real>)
    ensures r.Ok? <==> (|thresholds| > 0 &&
      forall n :: n in Keys(thresholds) && n != CompressionRatio ==> n in Keys(AvailableMetrics(env.scores)))
  {
    var metrics :- MetricsAt(env, compressor, mode, thresholds, data, p);
    assert forall i :: 0 <= i < |thresholds| ==> thresholds[i].0 in Keys(thresholds);
    Margin(metrics, thresholds)
  }

  /** Whether the objective fails does not depend on the parameter: it fails everywhere or nowhere. */
  lemma ObjectiveFailsEverywhereOrNowhere(env: Environment, compressor: string, mode: string,
                                          thresholds: Dict<real>, data: seq<Value>, p: real, q: real)
    ensures ObjectiveAt(env, compressor, mode, thresholds, data, p).Ok?
            == ObjectiveAt(env, compressor, mode, thresholds, data, q).Ok?
  {
  }

  /** The objective as the searches see it: a total function of the parameter. */
  function Nullify(env: Environment, compressor: string, mode: string, thresholds: Dict<real>,
                   data: seq<Value>): real -> real
  {
    p => match ObjectiveAt(env, compressor, mode, thresholds, data, p)
         case Ok(v) => v
         case Err(_) => 0.0
  }

  // ---------------------------------------------------------------------------------------------
  // find_direct_relation

  /**
   * `find_direct_relation`: compares the objective at 10% and at 90% of the way from the looser
   * to the tighter bound; true when the value near the tighter bound is strictly larger.
   */
  function FindDirectRelation(looser: real, tighter: real, f: real -> real): bool
  {
    var first := looser + (tighter - looser) / 10.0;
    var third := looser + 9.0 * (tighter - looser) / 10.0;
    f(third) > f(first)
  }

  /** Distance of `x` from `a`. */
  function Distance(x: real, a: real): real
  {
    if x >= a then x - a else a - x
  }

  /** An objective that grows strictly while moving from the looser to the tighter bound is detected as direct. */
  lemma DirectWhenIncreasingTowardTighter(looser: real, tighter: real, f: real -> real)
    requires looser != tighter
    requires forall x, y :: (Between(x, looser, tighter) && Between(y, looser, tighter) &&
                             Distance(x, looser) < Distance(y, looser)) ==> f(x) < f(y)
    ensures FindDirectRelation(looser, tighter, f)
  {
    var first := looser + (tighter - looser) / 10.0;
    var third := looser + 9.0 * (tighter - looser) / 10.0;
    assert Between(first, looser, tighter) && Between(third, looser, tighter);
    assert Distance(first, looser) < Distance(third, looser);
  }

  /** An objective that never grows on the way to the tighter bound is detected as inverse. */
  lemma InverseWhenNotIncreasing(looser: real, tighter: real, f: real -> real)
    requires forall x, y :: (Between(x, looser, tighter) && Between(y, looser, tighter) &&
                             Distance(x, looser) <= Distance(y, looser)) ==> f(y) <= f(x)
    ensures !FindDirectRelation(looser, tighter, f)
  {
    var first := looser + (tighter - looser) / 10.0;
    var third := looser + 9.0 * (tighter - looser) / 10.0;
    assert Between(first, looser, tighter) && Between(third, looser, tighter);
    assert Distance(first, looser) <= Distance(third, looser);
  }

  // ---------------------------------------------------------------------------------------------
  // analyze_data_array

  /** A run of the analysis: its result and the final value of the evaluation counter (None: untouched). */
  datatype Run = Run(result: Result<Analysis>, counter: Option<nat>)

  /** `thresholds` with every name of `names` set to `value`, in order. */
  function SetAll(thresholds: Dict<real>, names: seq<string>, value: real): (r: Dict<real>)
    ensures forall n :: n in names ==> Get(r, n) == Some(value)
    ensures forall n :: n !in names ==> Get(r, n) == Get(thresholds, n)
    ensures Distinct(thresholds) ==> Distinct(r)
    decreases |names|
  {
    if |names| == 0 then thresholds
    else Put(SetAll(thresholds, names[..|names| - 1], value), names[|names| - 1], value)
  }

  /** The threshold dictionary of the diagnostic recomputation in compression-ratio mode. */
  function WithDiagnostics(thresholds: Dict<real>): Dict<real>
  {
    SetAll(thresholds, DiagnosticMetrics, 1.0)
  }

  /** The specification string `lossy<sep>compressor<sep>mode<sep>parameter`. */
  function Specification(env: Environment, compressor: string, mode: string, parameter: Scalar): string
  {
    Join(["lossy", compressor, mode, env.render(parameter)], env.separator)
  }

  /** `p` is a parameter of the kind the range asks for, inside the range. */
  predicate InRange(p: Scalar, range: ParameterRange)
  {
    && !range.looser.Other? && !range.tighter.Other?
    && (range.looser.Float? ==> p.Float? && Between(p.r, range.looser.r, AsReal(range.tighter)))
    && (range.looser.Int? ==> p.Int? && range.tighter.Int? && range.looser.i <= p.i <= range.tighter.i)
  }

  /** The search phase: the parameter found (or why none was found) and the counter after it. */
  datatype Searched = Searched(outcome: Result<Scalar>, counter: nat)

  /**
   * From the parameter range to the parameter: the two probes of `find_direct_relation`, then
   * the bisection on the objective. The counter counts the probes and the search's evaluations.
   */
  function SearchStep(env: Environment, compressor: string, mode: string, thresholds: Dict<real>,
                      data: seq<Value>): (r: Searched)
    requires !HasNaN(data)
    ensures r.outcome.Ok? ==> r.counter >= 3 && GetParameterRange(mode, Reals(data), env.table).Ok?
    ensures r.outcome.Ok? ==> InRange(r.outcome.value, GetParameterRange(mode, Reals(data), env.table).value)
    ensures GetParameterRange(mode, Reals(data), env.table).Err? ==>
      r == Searched(Err(GetParameterRange(mode, Reals(data), env.table).error), 0)
  {
    match GetParameterRange(mode, Reals(data), env.table)
    case Err(e) => Searched(Err(e), 0)
    case Ok(range) => SearchOnRange(env, compressor, mode, thresholds, data, range)
  }

  /** The search phase once the range is known. */
  function SearchOnRange(env: Environment, compressor: string, mode: string, thresholds: Dict<real>,
                         data: seq<Value>, range: ParameterRange): (r: Searched)
    ensures r.outcome.Ok? ==> r.counter >= 3 && InRange(r.outcome.value, range)
  {
    if range.looser.Other? || range.tighter.Other? then Searched(Err(TypeError), 0)
    else
      var looser := AsReal(range.looser);
      var tighter := AsReal(range.tighter);
      match ObjectiveAt(env, compressor, mode, thresholds, data, looser + (tighter - looser) / 10.0)
      case Err(e) => Searched(Err(e), 1)
      case Ok(_) => SearchWith(range, Nullify(env, compressor, mode, thresholds, data))
  }

  /** When the first probe does not fail, the search phase is the search on the objective. */
  lemma SearchOnRangeProbed(env: Environment, compressor: string, mode: string, thresholds: Dict<real>,
                            data: seq<Value>, range: ParameterRange)
    requires !range.looser.Other? && !range.tighter.Other?
    requires ObjectiveAt(env, compressor, mode, thresholds, data,
                         AsReal(range.looser) + (AsReal(range.tighter) - AsReal(range.looser)) / 10.0).Ok?
    ensures SearchOnRange(env, compressor, mode, thresholds, data, range)
            == SearchWith(range, Nullify(env, compressor, mode, thresholds, data))
  {
  }

  /** The direction probe on `f`, then the bisection with the default settings; two evaluations plus the search's. */
  function SearchWith(range: ParameterRange, f: real -> real): (r: Searched)
    requires !range.looser.Other? && !range.tighter.Other?
    ensures r.outcome.Ok? ==> r.counter >= 3 && InRange(r.outcome.value, range)
  {
    var looser := AsReal(range.looser);
    var tighter := AsReal(range.tighter);
    var search := BisectionMethod(range, f, 0, DefaultMaxDepth, None, DefaultRetries, DefaultThreshold,
                                  FindDirectRelation(looser, tighter, f));
    Searched(search.outcome, 2 + search.evaluations)
  }

  /** On a float range, the search is the continuous bisection between the bounds, in the probed direction. */
  lemma SearchWithOnFloatRange(looser: real, tighter: real, f: real -> real)
    ensures var c := ContinuousBisection(looser, tighter, f, 0, DefaultMaxDepth, None, DefaultRetries, DefaultThreshold,
                                         FindDirectRelation(looser, tighter, f));
      SearchWith(ParameterRange(Float(looser), Float(tighter)), f) == Searched(Ok(Float(c.outcome.value)), 2 + c.evaluations)
  {
    BisectionOnFloatRange(looser, tighter, f, 0, DefaultMaxDepth, None, DefaultRetries, DefaultThreshold,
                          FindDirectRelation(looser, tighter, f));
  }

  /**
   * The final report on the chosen parameter: the metrics are computed once more, in
   * compression-ratio mode with both diagnostics added to the thresholds and a fresh counter.
   */
  function Report(env: Environment, compressor: string, mode: string, thresholds: Dict<real>,
                  data: seq<Value>, parameter: Scalar, evaluations: nat): (r: Run)
    requires !parameter.Other?
    ensures r.counter == Some(if CompressionRatio in Keys(thresholds) then 1 else evaluations + 1)
    ensures r.result.Ok? ==> (r.result.value.Lossy? && r.result.value.parameter == parameter
      && r.result.value.specification == Specification(env, compressor, mode, parameter)
      && CompressionRatio in Keys(r.result.value.metrics))
    ensures r.result.Ok? && CompressionRatio in Keys(thresholds) ==>
      forall n :: n in DiagnosticMetrics ==> n in Keys(r.result.value.metrics)
    ensures CompressionRatio !in Keys(thresholds) ==>
      (r.result.Ok? <==> MetricsAt(env, compressor, mode, thresholds, data, AsReal(parameter)).Ok?)
    ensures CompressionRatio !in Keys(thresholds) && r.result.Ok? ==>
      r.result.value.metrics == MetricsAt(env, compressor, mode, thresholds, data, AsReal(parameter)).value
  {
    var ratioMode := CompressionRatio in Keys(thresholds);
    var finalThresholds := if ratioMode then WithDiagnostics(thresholds) else thresholds;
    var counter := if ratioMode then 1 else evaluations + 1;
    match MetricsAt(env, compressor, mode, finalThresholds, data, AsReal(parameter))
    case Err(e) => Run(Err(e), Some(counter))
    case Ok(metrics) =>
      assert ratioMode ==> forall n :: n in DiagnosticMetrics ==> Get(finalThresholds, n).Some?;
      Run(Ok(Lossy(parameter, Specification(env, compressor, mode, parameter), metrics)), Some(counter))
  }

  /** The result of the report: the metrics at the parameter, under the thresholds the report uses. */
  lemma ReportResult(env: Environment, compressor: string, mode: string, thresholds: Dict<real>,
                     data: seq<Value>, parameter: Scalar, evaluations: nat)
    requires !parameter.Other?
    ensures var final := if CompressionRatio in Keys(thresholds) then WithDiagnostics(thresholds) else thresholds;
      var metrics := MetricsAt(env, compressor, mode, final, data, AsReal(parameter));
      Report(env, compressor, mode, thresholds, data, parameter, evaluations).result
      == if metrics.Err? then Err(metrics.error)
         else Ok(Lossy(parameter, Specification(env, compressor, mode, parameter), metrics.value))
  {
  }

  /** The analysis of a time step that holds no NaN. */
  function AnalyzeStep(env: Environment, compressor: string, mode: string, thresholds: Dict<real>,
                       data: seq<Value>): Run
    requires !HasNaN(data)
  {
    var s := SearchStep(env, compressor, mode, thresholds, data);
    match s.outcome
    case Err(e) => Run(Err(e), Some(s.counter))
    case Ok(parameter) => Report(env, compressor, mode, thresholds, data, parameter, s.counter)
  }

  /** `analyze_data_array`. */
  function Analyze(env: Environment, grid: Grid, compressor: string, mode: string, thresholds: Dict<real>): Run
  {
    match LastTimeStep(grid)
    case Err(e) => Run(Err(e), None)
    case Ok(step) =>
      if HasNaN(step) then Run(Ok(Lossless(NanMetrics)), None)
      else AnalyzeStep(env, compressor, mode, thresholds, step)
  }

  /** Only the last time step is analysed. */
  lemma OnlyLastTimeStep(env: Environment, steps: seq<seq<Value>>, compressor: string, mode: string,
                         thresholds: Dict<real>)
    requires |steps| > 0
    ensures Analyze(env, Timed(steps), compressor, mode, thresholds)
            == Analyze(env, Untimed(steps[|steps| - 1]), compressor, mode, thresholds)
  {
  }

  /** A NaN in the analysed step short-circuits to lossless; no search runs and the counter is untouched. */
  lemma NanFallsBackToLossless(env: Environment, grid: Grid, compressor: string, mode: string,
                               thresholds: Dict<real>, step: seq<Value>)
    requires LastTimeStep(grid) == Ok(step) && HasNaN(step)
    ensures Analyze(env, grid, compressor, mode, thresholds) == Run(Ok(Lossless(NanMetrics)), None)
    ensures AsPair(Lossless(NanMetrics)).0 == "lossless"
  {
  }

  /** Every successful result carries the compression ratio; in compression-ratio mode a lossy one carries both diagnostics too. */
  lemma ResultMetricsHaveRatio(env: Environment, grid: Grid, compressor: string, mode: string, thresholds: Dict<real>)
    requires Analyze(env, grid, compressor, mode, thresholds).result.Ok?
    ensures var a := Analyze(env, grid, compressor, mode, thresholds).result.value;
      CompressionRatio in Keys(a.metrics)
      && (a.Lossy? && CompressionRatio in Keys(thresholds) ==> forall n :: n in DiagnosticMetrics ==> n in Keys(a.metrics))
  {
    var a := Analyze(env, grid, compressor, mode, thresholds).result.value;
    if a.Lossless? {
      assert Keys(NanMetrics)[0] == CompressionRatio;
    }
  }

  /**
   * The specification string splits back into its four fields "lossy", compressor, mode and the
   * rendered parameter, when none of them contains the separator.
   */
  lemma SpecificationHasFourFields(env: Environment, compressor: string, mode: string, parameter: Scalar)
    requires env.separator !in "lossy" && env.separator !in compressor && env.separator !in mode
    requires env.separator !in env.render(parameter)
    ensures Split(Specification(env, compressor, mode, parameter), env.separator)
            == ["lossy", compressor, mode, env.render(parameter)]
  {
    SplitJoin(["lossy", compressor, mode, env.render(parameter)], env.separator);
  }

  /**
   * A NaN-free step's result is lossy, and its parameter lies in the mode's range: between the
   * bounds for a float range, among 2..32 for the precision mode.
   */
  lemma ParameterWithinRange(env: Environment, compressor: string, mode: string, thresholds: Dict<real>,
                             data: seq<Value>, range: ParameterRange)
    requires !HasNaN(data)
    requires GetParameterRange(mode, Reals(data), env.table) == Ok(range)
    requires AnalyzeStep(env, compressor, mode, thresholds, data).result.Ok?
    ensures var a := AnalyzeStep(env, compressor, mode, thresholds, data).result.value;
      a.Lossy? && InRange(a.parameter, range)
      && (mode == "precision" ==> a.parameter.Int? && 2 <= a.parameter.i <= 32)
  {
  }

  /** On a float range where the objective does not fail, the search phase is the continuous search on the objective. */
  lemma SearchOnFloatRange(env: Environment, compressor: string, mode: string, thresholds: Dict<real>,
                           data: seq<Value>, looser: real, tighter: real)
    requires ObjectiveAt(env, compressor, mode, thresholds, data, looser + (tighter - looser) / 10.0).Ok?
    ensures var f := Nullify(env, compressor, mode, thresholds, data);
      var c := ContinuousBisection(looser, tighter, f, 0, DefaultMaxDepth, None, DefaultRetries, DefaultThreshold,
                                   FindDirectRelation(looser, tighter, f));
      SearchOnRange(env, compressor, mode, thresholds, data, ParameterRange(Float(looser), Float(tighter)))
      == Searched(Ok(Float(c.outcome.value)), 2 + c.evaluations)
  {
    SearchOnRangeProbed(env, compressor, mode, thresholds, data, ParameterRange(Float(looser), Float(tighter)));
    SearchWithOnFloatRange(looser, tighter, Nullify(env, compressor, mode, thresholds, data));
  }

  /** The same, starting from the data: the mode's range is a float range. */
  lemma SearchStepOnFloatRange(env: Environment, compressor: string, mode: string, thresholds: Dict<real>,
                               data: seq<Value>, looser: real, tighter: real)
    requires !HasNaN(data)
    requires GetParameterRange(mode, Reals(data), env.table) == Ok(ParameterRange(Float(looser), Float(tighter)))
    requires ObjectiveAt(env, compressor, mode, thresholds, data, looser + (tighter - looser) / 10.0).Ok?
    ensures var f := Nullify(env, compressor, mode, thresholds, data);
      var c := ContinuousBisection(looser, tighter, f, 0, DefaultMaxDepth, None, DefaultRetries, DefaultThreshold,
                                   FindDirectRelation(looser, tighter, f));
      SearchStep(env, compressor, mode, thresholds, data) == Searched(Ok(Float(c.outcome.value)), 2 + c.evaluations)
  {
    SearchOnFloatRange(env, compressor, mode, thresholds, data, looser, tighter);
  }

  /** The continuous search on the objective: the parameter it returns meets every threshold when the tighter bound does. */
  lemma ContinuousSearchIsSafe(env: Environment, compressor: string, mode: string, thresholds: Dict<real>,
                               data: seq<Value>, looser: real, tighter: real)
    requires !HasNaN(data)
    requires GetParameterRange(mode, Reals(data), env.table) == Ok(ParameterRange(Float(looser), Float(tighter)))
    requires ObjectiveAt(env, compressor, mode, thresholds, data, tighter).Ok?
    requires ObjectiveAt(env, compressor, mode, thresholds, data, tighter).value >= 0.0
    requires FindDirectRelation(looser, tighter, Nullify(env, compressor, mode, thresholds, data))
    ensures var s := SearchStep(env, compressor, mode, thresholds, data);
      s.outcome.Ok? && s.outcome.value.Float?
      && ObjectiveAt(env, compressor, mode, thresholds, data, s.outcome.value.r).Ok?
      && ObjectiveAt(env, compressor, mode, thresholds, data, s.outcome.value.r).value >= 0.0
  {
    var f := Nullify(env, compressor, mode, thresholds, data);
    ObjectiveFailsEverywhereOrNowhere(env, compressor, mode, thresholds, data, tighter, looser + (tighter - looser) / 10.0);
    SearchStepOnFloatRange(env, compressor, mode, thresholds, data, looser, tighter);
    ContinuousIsSafe(looser, tighter, f, 0, DefaultMaxDepth, None, DefaultRetries, DefaultThreshold);
    var p := ContinuousBisection(looser, tighter, f, 0, DefaultMaxDepth, None, DefaultRetries, DefaultThreshold, true).outcome.value;
    ObjectiveFailsEverywhereOrNowhere(env, compressor, mode, thresholds, data, tighter, p);
  }

  /**
   * For a float range searched in the direct direction, when the tighter bound meets every
   * threshold, the reported metrics meet every threshold as well (outside compression-ratio mode).
   */
  lemma ContinuousResultMeetsThresholds(env: Environment, compressor: string, mode: string, thresholds: Dict<real>,
                                        data: seq<Value>, looser: real, tighter: real)
    requires !HasNaN(data)
    requires CompressionRatio !in Keys(thresholds)
    requires GetParameterRange(mode, Reals(data), env.table) == Ok(ParameterRange(Float(looser), Float(tighter)))
    requires ObjectiveAt(env, compressor, mode, thresholds, data, tighter).Ok?
    requires ObjectiveAt(env, compressor, mode, thresholds, data, tighter).value >= 0.0
    requires FindDirectRelation(looser, tighter, Nullify(env, compressor, mode, thresholds, data))
    ensures var run := AnalyzeStep(env, compressor, mode, thresholds, data);
      run.result.Ok? && run.result.value.Lossy?
      && Margin(run.result.value.metrics, thresholds).Ok?
      && Margin(run.result.value.metrics, thresholds).value >= 0.0
  {
    ContinuousSearchIsSafe(env, compressor, mode, thresholds, data, looser, tighter);
    var s := SearchStep(env, compressor, mode, thresholds, data);
    var p := s.outcome.value;
    assert MetricsAt(env, compressor, mode, thresholds, data, AsReal(p)).Ok?;
  }

  /**
   * The counter after a lossy analysis: 1 in compression-ratio mode (the recomputation starts it
   * afresh), otherwise the two probes, the search's evaluations and the final metrics, at least 4.
   */
  lemma CounterAfterLossyAnalysis(env: Environment, compressor: string, mode: string, thresholds: Dict<real>,
                                  data: seq<Value>)
    requires !HasNaN(data)
    requires AnalyzeStep(env, compressor, mode, thresholds, data).result.Ok?
    ensures var run := AnalyzeStep(env, compressor, mode, thresholds, data);
      run.counter.Some?
      && (CompressionRatio in Keys(thresholds) ==> run.counter.value == 1)
      && (CompressionRatio !in Keys(thresholds) ==> run.counter.value >= 4)
  {
  }


  // ---------------------------------------------------------------------------------------------
  // The evaluation counter and the three functions of define_functions_to_optimize

  /** The module-level COUNTER of metric evaluations. */
  class EvaluationCounter {
    var count: nat

    constructor ()
      ensures count == 0
    {
      count := 0;
    }
  }

  /** The closures returned by `define_functions_to_optimize`, sharing the array and the options. */
  class OptimizationFunctions {
    const env: Environment
    const data: seq<Value>
    const compressor: string
    const mode: string
    const thresholds: Dict<real>
    const counter: EvaluationCounter

    /** Defining the functions resets the counter. */
    constructor (env: Environment, data: seq<Value>, compressor: string, mode: string,
                 thresholds: Dict<real>, counter: EvaluationCounter)
      modifies counter
      ensures this.env == env && this.data == data && this.compressor == compressor
      ensures this.mode == mode && this.thresholds == thresholds && this.counter == counter
      ensures counter.count == 0
    {
      this.env := env;
      this.data := data;
      this.compressor := compressor;
      this.mode := mode;
      this.thresholds := thresholds;
      this.counter := counter;
      new;
      counter.count := 0;
    }

    /** `get_metrics_from_parameter`: one evaluation. */
    method MetricsFromParameter(p: real) returns (r: Result<Dict<real>>)
      modifies counter
      ensures counter.count == old(counter.count) + 1
      ensures r == MetricsAt(env, compressor, mode, thresholds, data, p)
    {
      counter.count := counter.count + 1;
      var reconstructed := env.emulator.reconstruct(compressor, mode, p, data);
      var reference := new Value[|data|](i requires 0 <= i < |data| => data[i]);
      var target := new Value[|reconstructed|](i requires 0 <= i < |reconstructed| => reconstructed[i]);
      assert reference[..] == data && target[..] == reconstructed;
      var metrics := GetMetrics(env.scores, reference, target, Keys(thresholds));
      if metrics.Err? {
        return Err(metrics.error);
      }
      r := Ok(Put(metrics.value, CompressionRatio, env.emulator.ratio(compressor, mode, p, data)));
    }

    /** `function_to_nullify`: one evaluation, then the margin. */
    method FunctionToNullify(p: real) returns (r: Result<real>)
      modifies counter
      ensures counter.count == old(counter.count) + 1
      ensures r == ObjectiveAt(env, compressor, mode, thresholds, data, p)
    {
      var metrics := MetricsFromParameter(p);
      if metrics.Err? {
        return Err(metrics.error);
      }
      r := Margin(metrics.value, thresholds);
    }

    /** `constrain`: one evaluation; true when every threshold is met. */
    method Constrain(p: real) returns (r: Result<bool>)
      modifies counter
      ensures counter.count == old(counter.count) + 1
      ensures ObjectiveAt(env, compressor, mode, thresholds, data, p).Err? ==> r.Err?
      ensures ObjectiveAt(env, compressor, mode, thresholds, data, p).Ok? ==>
        r == Ok(ObjectiveAt(env, compressor, mode, thresholds, data, p).value >= 0.0)
    {
      var value := FunctionToNullify(p);
      if value.Err? {
        return Err(value.error);
      }
      r := Ok(value.value >= 0.0);
    }
  }


  /** `find_direct_relation` with the shared counter: the objective at 10% of the range, then at 90%. */
  method FindDirectRelationWith(functions: OptimizationFunctions, looser: real, tighter: real)
    returns (direct: Result<bool>)
    modifies functions.counter
    ensures var first := ObjectiveAt(functions.env, functions.compressor, functions.mode, functions.thresholds,
                                     functions.data, looser + (tighter - looser) / 10.0);
      && (first.Err? ==> direct == Err(first.error) && functions.counter.count == old(functions.counter.count) + 1)
      && (first.Ok? ==> (functions.counter.count == old(functions.counter.count) + 2
                         && direct == Ok(FindDirectRelation(looser, tighter, Nullify(functions.env, functions.compressor,
                                                              functions.mode, functions.thresholds, functions.data)))))
  {
    var first := looser + (tighter - looser) / 10.0;
    var third := looser + 9.0 * (tighter - looser) / 10.0;
    var firstValue := functions.FunctionToNullify(first);
    if firstValue.Err? {
      return Err(firstValue.error);
    }
    var thirdValue := functions.FunctionToNullify(third);
    ObjectiveFailsEverywhereOrNowhere(functions.env, functions.compressor, functions.mode, functions.thresholds,
                                      functions.data, first, third);
    direct := Ok(thirdValue.value > firstValue.value);
  }

  /** The search phase with the shared counter. */
  method SearchParameter(functions: OptimizationFunctions) returns (outcome: Result<Scalar>)
    requires !HasNaN(functions.data)
    modifies functions.counter
    ensures var s := SearchStep(functions.env, functions.compressor, functions.mode, functions.thresholds, functions.data);
      outcome == s.outcome && functions.counter.count == old(functions.counter.count) + s.counter
  {
    var range := GetParameterRange(functions.mode, Reals(functions.data), functions.env.table);
    if range.Err? {
      return Err(range.error);
    }
    outcome := SearchOnRangeWith(functions, range.value);
  }

  /** The search phase on a known range: the two probes are evaluations, then the search's. */
  method SearchOnRangeWith(functions: OptimizationFunctions, range: ParameterRange) returns (outcome: Result<Scalar>)
    modifies functions.counter
    ensures var s := SearchOnRange(functions.env, functions.compressor, functions.mode, functions.thresholds,
                                   functions.data, range);
      outcome == s.outcome && functions.counter.count == old(functions.counter.count) + s.counter
  {
    ghost var expected := SearchOnRange(functions.env, functions.compressor, functions.mode, functions.thresholds,
                                        functions.data, range);
    if range.looser.Other? || range.tighter.Other? {
      assert expected == Searched(Err(TypeError), 0);
      return Err(TypeError);
    }
    var looser := AsReal(range.looser);
    var tighter := AsReal(range.tighter);
    var relation := FindDirectRelationWith(functions, looser, tighter);
    if relation.Err? {
      assert expected == Searched(Err(relation.error), 1);
      return Err(relation.error);
    }
    var direct := relation.value;
    var f := Nullify(functions.env, functions.compressor, functions.mode, functions.thresholds, functions.data);
    SearchOnRangeProbed(functions.env, functions.compressor, functions.mode, functions.thresholds, functions.data, range);
    var search := BisectionMethod(range, f, 0, DefaultMaxDepth, None, DefaultRetries, DefaultThreshold, direct);
    assert expected == SearchWith(range, f);
    functions.counter.count := functions.counter.count + search.evaluations;
    outcome := search.outcome;
  }

  /** The thresholds of the diagnostic recomputation, one diagnostic at a time. */
  method AddDiagnostics(thresholds: Dict<real>) returns (r: Dict<real>)
    ensures r == WithDiagnostics(thresholds)
  {
    r := thresholds;
    for i := 0 to |DiagnosticMetrics|
      invariant r == SetAll(thresholds, DiagnosticMetrics[..i], 1.0)
    {
      assert DiagnosticMetrics[..i + 1][..i] == DiagnosticMetrics[..i];
      r := Put(r, DiagnosticMetrics[i], 1.0);
    }
    assert DiagnosticMetrics[..|DiagnosticMetrics|] == DiagnosticMetrics;
  }

  /** The report phase with the shared counter. */
  method ReportParameter(functions: OptimizationFunctions, parameter: Scalar, evaluations: nat)
    returns (r: Result<Analysis>)
    requires !parameter.Other? && functions.counter.count == evaluations
    modifies functions.counter
    ensures functions.counter.count == (if CompressionRatio in Keys(functions.thresholds) then 1 else evaluations + 1)
    ensures r == Report(functions.env, functions.compressor, functions.mode, functions.thresholds,
                              functions.data, parameter, evaluations).result
  {
    var env, thresholds := functions.env, functions.thresholds;
    ReportResult(env, functions.compressor, functions.mode, thresholds, functions.data, parameter, evaluations);
    var metrics: Result<Dict<real>>;
    if CompressionRatio !in Keys(thresholds) {
      metrics := functions.MetricsFromParameter(AsReal(parameter));
    } else {
      var newThresholds := AddDiagnostics(thresholds);
      var recompute := new OptimizationFunctions(env, functions.data, functions.compressor, functions.mode,
                                                 newThresholds, functions.counter);
      metrics := recompute.MetricsFromParameter(AsReal(parameter));
    }
    if metrics.Err? {
      return Err(metrics.error);
    }
    r := Ok(Lossy(parameter, Specification(env, functions.compressor, functions.mode, parameter), metrics.value));
  }

  /**
   * `analyze_data_array`, with the evaluation counter as shared state. The searches themselves
   * are pure; the counter is advanced by the number of evaluations they report.
   */
  method AnalyzeDataArrayMethod(env: Environment, grid: Grid, compressor: string, mode: string,
                                thresholds: Dict<real>, counter: EvaluationCounter)
    returns (r: Result<(string, Dict<real>)>)
    modifies counter
    ensures var run := Analyze(env, grid, compressor, mode, thresholds);
      && (run.result.Ok? ==> r == Ok(AsPair(run.result.value)))
      && (run.result.Err? ==> r == Err(run.result.error))
      && (run.counter.Some? ==> counter.count == run.counter.value)
      && (run.counter.None? ==> counter.count == old(counter.count))
  {
    var selected := LastTimeStep(grid);
    if selected.Err? {
      return Err(selected.error);
    }
    var data := selected.value;
    if HasNaN(data) {
      return Ok(("lossless", NanMetrics));
    }
    r := AnalyzeStepMethod(env, compressor, mode, thresholds, data, counter);
  }

  /** The analysis of a NaN-free step: the search, then the report, both on the shared counter. */
  method AnalyzeStepMethod(env: Environment, compressor: string, mode: string, thresholds: Dict<real>,
                           data: seq<Value>, counter: EvaluationCounter)
    returns (r: Result<(string, Dict<real>)>)
    requires !HasNaN(data)
    modifies counter
    ensures var run := AnalyzeStep(env, compressor, mode, thresholds, data);
      && (run.result.Ok? ==> r == Ok(AsPair(run.result.value)))
      && (run.result.Err? ==> r == Err(run.result.error))
      && run.counter.Some? && counter.count == run.counter.value
  {
    var functions := new OptimizationFunctions(env, data, compressor, mode, thresholds, counter);
    var outcome := SearchParameter(functions);
    if outcome.Err? {
      return Err(outcome.error);
    }
    var analysis := ReportParameter(functions, outcome.value, counter.count);
    if analysis.Err? {
      return Err(analysis.error);
    }
    r := Ok(AsPair(analysis.value));
  }
}
