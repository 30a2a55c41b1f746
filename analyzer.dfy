/**
 * The dataset level of the analysis: every data variable is analysed for every (compressor, mode)
 * combination, and one encoding per variable is then selected, by the highest compression ratio
 * when quality thresholds were the target, or by the diagnostic quality metrics when a
 * compression ratio was the target.
 *
 * Encodings and metrics are nested insertion-ordered dictionaries: combination, then variable,
 * then (for metrics) the metric name.
 */
module Analyzer {
  import opened Wrappers
  import opened DataModel
  import opened Dicts
  import opened AnalyzerUtils
  import opened AnalyzeDataArray
  import Legacy = LegacyAnalysisOptions

  /** The metrics of one variable under one combination. */
  type Record = Dict<real>

  /** combination -> variable -> specification string. */
  type Encodings = Dict<Dict<string>>

  /** combination -> variable -> metrics record. */
  type MetricsTable = Dict<Dict<Record>>

  /** The selected specification and metrics record of every variable that got a winner. */
  datatype Selection = Selection(encodings: Dict<string>, metrics: Dict<Record>)

  /** `[*encodings[combinations[0]]]`: the variables of the first combination. */
  function VariablesOf(encodings: Encodings): (r: Result<seq<string>>)
    ensures r.Err? <==> |encodings| == 0
    ensures r.Err? ==> r.error == IndexError
  {
    if |encodings| == 0 then Err(IndexError) else Ok(Keys(encodings[0].1))
  }

  /** `metrics[combination][variable]`, each subscript raising KeyError. */
  function RecordOf(metrics: MetricsTable, combination: string, variable: string): (r: Result<Record>)
    ensures r.Ok? <==> combination in Keys(metrics) && variable in Keys(Get(metrics, combination).value)
    ensures r.Ok? ==> Get(Get(metrics, combination).value, variable) == Some(r.value)
  {
    var byVariable :- Lookup(metrics, combination);
    Lookup(byVariable, variable)
  }

  /** `metrics[combination][variable]["compression_ratio"]`. */
  function RatioOf(metrics: MetricsTable, combination: string, variable: string): (r: Result<real>)
    ensures r.Ok? <==> RecordOf(metrics, combination, variable).Ok?
                       && CompressionRatio in Keys(RecordOf(metrics, combination, variable).value)
    ensures r.Ok? ==> Get(RecordOf(metrics, combination, variable).value, CompressionRatio) == Some(r.value)
  {
    var record :- RecordOf(metrics, combination, variable);
    Lookup(record, CompressionRatio)
  }

  // ---------------------------------------------------------------------------------------------
  // Selection by compression ratio

  /** The running best ratio of one variable and the combination that holds it. */
  datatype Best = Best(ratio: real, winner: Option<string>)

  /**
   * The inner loop of the ratio selection: the best ratio starts at 0 and a combination replaces
   * the winner only when its ratio is strictly greater.
   */
  function RatioScan(metrics: MetricsTable, combinations: seq<string>, variable: string): (r: Result<Best>)
    ensures r.Ok? <==> forall i :: 0 <= i < |combinations| ==> RatioOf(metrics, combinations[i], variable).Ok?
    ensures r.Ok? ==> r.value.ratio >= 0.0 && (r.value.winner.None? <==> r.value.ratio == 0.0)
    decreases |combinations|
  {
    if |combinations| == 0 then Ok(Best(0.0, None))
    else
      var init := combinations[..|combinations| - 1];
      var combination := combinations[|combinations| - 1];
      assert forall i :: 0 <= i < |init| ==> init[i] == combinations[i];
      var best :- RatioScan(metrics, init, variable);
      var ratio :- RatioOf(metrics, combination, variable);
      if ratio > best.ratio then Ok(Best(ratio, Some(combination))) else Ok(best)
  }

  /** The best ratio is at least the ratio of every combination scanned. */
  lemma {:induction false} RatioIsMaximum(metrics: MetricsTable, combinations: seq<string>, variable: string)
    requires RatioScan(metrics, combinations, variable).Ok?
    ensures forall i :: 0 <= i < |combinations| ==>
      RatioOf(metrics, combinations[i], variable).value <= RatioScan(metrics, combinations, variable).value.ratio
    decreases |combinations|
  {
    if |combinations| > 0 {
      var init := combinations[..|combinations| - 1];
      assert forall i :: 0 <= i < |init| ==> init[i] == combinations[i];
      RatioIsMaximum(metrics, init, variable);
    }
  }

  /** A variable gets no winner exactly when none of its ratios is positive. */
  lemma NoRatioWinnerIffNonePositive(metrics: MetricsTable, combinations: seq<string>, variable: string)
    requires RatioScan(metrics, combinations, variable).Ok?
    ensures RatioScan(metrics, combinations, variable).value.winner.None? <==>
      forall i :: 0 <= i < |combinations| ==> RatioOf(metrics, combinations[i], variable).value <= 0.0
  {
    RatioIsMaximum(metrics, combinations, variable);
    if RatioScan(metrics, combinations, variable).value.winner.Some? {
      RatioWinnerIsFirst(metrics, combinations, variable);
    }
  }

  /** Combination `k` holds the best ratio, and every earlier combination a strictly smaller one. */
  predicate FirstWithRatio(metrics: MetricsTable, combinations: seq<string>, variable: string, k: nat, best: Best)
  {
    && k < |combinations| && Some(combinations[k]) == best.winner
    && RatioOf(metrics, combinations[k], variable) == Ok(best.ratio)
    && forall j :: 0 <= j < k ==> RatioOf(metrics, combinations[j], variable).Ok?
                                  && RatioOf(metrics, combinations[j], variable).value < best.ratio
  }

  /**
   * The winner is the first combination whose ratio equals the best one: every earlier
   * combination has a strictly smaller ratio, so ties keep the earlier combination.
   */
  lemma {:induction false} RatioWinnerIsFirst(metrics: MetricsTable, combinations: seq<string>, variable: string)
    requires RatioScan(metrics, combinations, variable).Ok?
    requires RatioScan(metrics, combinations, variable).value.winner.Some?
    ensures exists k: nat :: FirstWithRatio(metrics, combinations, variable, k, RatioScan(metrics, combinations, variable).value)
    decreases |combinations|
  {
    var init := combinations[..|combinations| - 1];
    var combination := combinations[|combinations| - 1];
    RatioScanLast(metrics, combinations, variable);
    var before := RatioScan(metrics, init, variable).value;
    var best := RatioScan(metrics, combinations, variable).value;
    var ratio := RatioOf(metrics, combination, variable).value;
    if ratio > before.ratio {
      RatioIsMaximum(metrics, init, variable);
      var k := |combinations| - 1;
      forall j | 0 <= j < k
        ensures RatioOf(metrics, combinations[j], variable).Ok? && RatioOf(metrics, combinations[j], variable).value < best.ratio
      {
        assert combinations[j] == init[j];
      }
      assert FirstWithRatio(metrics, combinations, variable, k, best);
    } else {
      RatioWinnerIsFirst(metrics, init, variable);
      var k: nat :| FirstWithRatio(metrics, init, variable, k, before);
      forall j | 0 <= j < k
        ensures RatioOf(metrics, combinations[j], variable).Ok? && RatioOf(metrics, combinations[j], variable).value < best.ratio
      {
        assert combinations[j] == init[j];
      }
      assert combinations[k] == init[k];
      assert FirstWithRatio(metrics, combinations, variable, k, best);
    }
  }

  /** The scan of a non-empty list is the scan of all but the last combination, then one comparison. */
  lemma RatioScanLast(metrics: MetricsTable, combinations: seq<string>, variable: string)
    requires |combinations| > 0 && RatioScan(metrics, combinations, variable).Ok?
    ensures var last := combinations[|combinations| - 1];
      var before := RatioScan(metrics, combinations[..|combinations| - 1], variable);
      before.Ok? && RatioOf(metrics, last, variable).Ok?
      && RatioScan(metrics, combinations, variable).value
         == if RatioOf(metrics, last, variable).value > before.value.ratio
            then Best(RatioOf(metrics, last, variable).value, Some(last)) else before.value
  {
  }

  /** The winner of one variable under the ratio rule. */
  function RatioWinner(metrics: MetricsTable, combinations: seq<string>, variable: string): Result<Option<string>>
  {
    var scan :- RatioScan(metrics, combinations, variable);
    Ok(scan.winner)
  }

  /** The ratio rule as the winner function of `BestCombination`. */
  function RatioWinners(metrics: MetricsTable, combinations: seq<string>): string -> Result<Option<string>>
  {
    v => RatioWinner(metrics, combinations, v)
  }

  /**
   * `best_combination` after the first variables, for either selection rule: every variable that
   * has a winner maps to it; the first failing variable aborts.
   */
  function BestCombination(winnerOf: string -> Result<Option<string>>, variables: seq<string>)
    : (r: Result<Dict<string>>)
    ensures r.Ok? ==> Distinct(r.value)
    ensures r.Ok? ==> forall i :: 0 <= i < |r.value| ==> r.value[i].0 in variables
    decreases |variables|
  {
    if |variables| == 0 then Ok([])
    else
      var init := variables[..|variables| - 1];
      var variable := variables[|variables| - 1];
      var best :- BestCombination(winnerOf, init);
      var winner :- winnerOf(variable);
      match winner
      case None => Ok(best)
      case Some(combination) => Ok(Put(best, variable, combination))
  }

  /** Every variable of the list is mapped to its own winner, or is absent when it has none. */
  lemma {:induction false} BestCombinationPicksWinner(winnerOf: string -> Result<Option<string>>,
                                                      variables: seq<string>, variable: string)
    requires BestCombination(winnerOf, variables).Ok? && variable in variables
    ensures winnerOf(variable).Ok?
    ensures Get(BestCombination(winnerOf, variables).value, variable) == winnerOf(variable).value
    decreases |variables|
  {
    var init := variables[..|variables| - 1];
    var last := variables[|variables| - 1];
    var before := BestCombination(winnerOf, init).value;
    assert variables == init + [last];
    if variable in init {
      BestCombinationPicksWinner(winnerOf, init, variable);
    } else {
      assert variable == last;
      assert variable !in Keys(before);
    }
  }

  /** Once a prefix of the variables fails, the whole fold fails the same way. */
  lemma {:induction false} BestCombinationFailurePersists(winnerOf: string -> Result<Option<string>>,
                                                          variables: seq<string>, n: nat)
    requires n <= |variables| && BestCombination(winnerOf, variables[..n]).Err?
    ensures BestCombination(winnerOf, variables) == BestCombination(winnerOf, variables[..n])
    decreases |variables|
  {
    if n < |variables| {
      var init := variables[..|variables| - 1];
      assert init[..n] == variables[..n];
      BestCombinationFailurePersists(winnerOf, init, n);
    } else {
      assert variables[..n] == variables;
    }
  }

  /**
   * The re-indexing comprehension `{variable: table[combination][variable] for variable,
   * combination in best_combination.items()}`.
   */
  function Pick<V>(table: Dict<Dict<V>>, best: Dict<string>): (r: Result<Dict<V>>)
    ensures r.Ok? <==> forall i :: 0 <= i < |best| ==>
      best[i].1 in Keys(table) && best[i].0 in Keys(Get(table, best[i].1).value)
    decreases |best|
  {
    if |best| == 0 then Ok([])
    else
      var init := best[..|best| - 1];
      var entry := best[|best| - 1];
      assert forall i :: 0 <= i < |init| ==> init[i] == best[i];
      var acc :- Pick(table, init);
      var byVariable :- Lookup(table, entry.1);
      var value :- Lookup(byVariable, entry.0);
      Ok(Put(acc, entry.0, value))
  }

  /** One more winner: its entry is read from its table and stored after the earlier ones. */
  lemma PickLast<V>(table: Dict<Dict<V>>, best: Dict<string>)
    requires |best| > 0 && Pick(table, best).Ok?
    ensures var init := best[..|best| - 1];
      var entry := best[|best| - 1];
      && Pick(table, init).Ok?
      && entry.1 in Keys(table) && Get(Get(table, entry.1).value, entry.0).Some?
      && Pick(table, best).value == Put(Pick(table, init).value, entry.0, Get(Get(table, entry.1).value, entry.0).value)
  {
  }

  /** With distinct variables, the result has exactly the variables as keys, in order. */
  lemma {:induction false} PickKeys<V>(table: Dict<Dict<V>>, best: Dict<string>)
    requires Pick(table, best).Ok? && Distinct(best)
    ensures Keys(Pick(table, best).value) == Keys(best)
    decreases |best|
  {
    if |best| > 0 {
      var init := best[..|best| - 1];
      var entry := best[|best| - 1];
      PickLast(table, best);
      NewKey(best);
      PickKeys(table, init);
      KeysLast(best);
      var acc := Pick(table, init).value;
      var value := Get(Get(table, entry.1).value, entry.0).value;
      assert Keys(acc) == Keys(init);
      assert Keys(Put(acc, entry.0, value)) == Keys(acc) + [entry.0];
    }
  }

  /** The keys of a dict are the keys of all but its last entry, then the last key. */
  lemma KeysLast<V>(d: Dict<V>)
    requires |d| > 0
    ensures Keys(d) == Keys(d[..|d| - 1]) + [d[|d| - 1].0]
  {
  }

  /** Entry `i` of the result is the winner's own entry for variable `i`. */
  lemma {:induction false} PickReadsWinnerAt<V>(table: Dict<Dict<V>>, best: Dict<string>, i: nat)
    requires Pick(table, best).Ok? && Distinct(best) && i < |best|
    ensures var r := Pick(table, best).value;
      i < |r| && r[i].0 == best[i].0 && Get(Get(table, best[i].1).value, best[i].0) == Some(r[i].1)
    decreases |best|
  {
    var init := best[..|best| - 1];
    var entry := best[|best| - 1];
    PickLast(table, best);
    NewKey(best);
    PickKeys(table, init);
    var acc := Pick(table, init).value;
    var value := Get(Get(table, entry.1).value, entry.0).value;
    assert Keys(acc) == Keys(init);
    PutAppends(acc, entry.0, value);
    var r := Pick(table, best).value;
    assert r == acc + [(entry.0, value)];
    if i < |init| {
      PickReadsWinnerAt(table, init, i);
      assert r[i] == acc[i] && best[i] == init[i];
    } else {
      assert r[i] == (entry.0, value) && best[i] == entry;
    }
  }

  /** Nothing is fabricated: every entry of the result is the winner's own entry for its variable. */
  lemma PickReadsWinners<V>(table: Dict<Dict<V>>, best: Dict<string>)
    requires Pick(table, best).Ok? && Distinct(best)
    ensures var r := Pick(table, best).value;
      && |r| == |best|
      && forall i :: 0 <= i < |best| ==>
        r[i].0 == best[i].0 && Get(Get(table, best[i].1).value, best[i].0) == Some(r[i].1)
  {
    PickKeys(table, best);
    forall i | 0 <= i < |best|
      ensures Pick(table, best).value[i].0 == best[i].0
      ensures Get(Get(table, best[i].1).value, best[i].0) == Some(Pick(table, best).value[i].1)
    {
      PickReadsWinnerAt(table, best, i);
    }
  }

  /**
   * The end of both selections: the encodings and the metrics re-indexed by the best combination
   * of each variable, the encodings first.
   */
  function SelectBest(encodings: Encodings, metrics: MetricsTable, best: Dict<string>): Result<Selection>
  {
    var selectedEncodings :- Pick(encodings, best);
    var selectedMetrics :- Pick(metrics, best);
    Ok(Selection(selectedEncodings, selectedMetrics))
  }

  /** `select_optimal_encoding_based_on_compression_ratio`. */
  function SelectByRatio(encodings: Encodings, metrics: MetricsTable): Result<Selection>
  {
    var variables :- VariablesOf(encodings);
    var best :- BestCombination(RatioWinners(metrics, Keys(encodings)), variables);
    SelectBest(encodings, metrics, best)
  }

  /**
   * The selection by compression ratio, end to end: each selected record is a variable's record
   * under some combination, its ratio is positive, and no combination has a greater ratio.
   */
  lemma SelectedRatioIsMaximal(encodings: Encodings, metrics: MetricsTable, i: nat)
    requires SelectByRatio(encodings, metrics).Ok?
    requires i < |SelectByRatio(encodings, metrics).value.metrics|
    ensures |encodings| > 0
    ensures var (variable, record) := SelectByRatio(encodings, metrics).value.metrics[i];
      && variable in Keys(encodings[0].1)
      && Get(record, CompressionRatio).Some? && Get(record, CompressionRatio).value > 0.0
      && (exists k :: 0 <= k < |encodings| && RecordOf(metrics, encodings[k].0, variable) == Ok(record))
      && forall k :: 0 <= k < |encodings| ==>
        RatioOf(metrics, encodings[k].0, variable).Ok?
        && RatioOf(metrics, encodings[k].0, variable).value <= Get(record, CompressionRatio).value
  {
    var combinations := Keys(encodings);
    var variables := Keys(encodings[0].1);
    var winnerOf := RatioWinners(metrics, combinations);
    var best := BestCombination(winnerOf, variables).value;
    var selected := Pick(metrics, best).value;
    assert selected == SelectByRatio(encodings, metrics).value.metrics;
    PickReadsWinners(metrics, best);
    var (variable, record) := selected[i];
    var winner := best[i].1;
    assert variable == best[i].0 && variable in variables;
    BestCombinationPicksWinner(winnerOf, variables, variable);
    GetAt(best, i);
    var scan := RatioScan(metrics, combinations, variable).value;
    assert scan.winner == Some(winner);
    RatioWinnerIsFirst(metrics, combinations, variable);
    RatioIsMaximum(metrics, combinations, variable);
    var k: nat :| FirstWithRatio(metrics, combinations, variable, k, scan);
    assert RecordOf(metrics, encodings[k].0, variable) == Ok(record);
  }

  /** Once the scan of a prefix of the combinations fails, the whole scan fails the same way. */
  lemma {:induction false} RatioScanFailurePersists(metrics: MetricsTable, combinations: seq<string>, variable: string, n: nat)
    requires n <= |combinations| && RatioScan(metrics, combinations[..n], variable).Err?
    ensures RatioScan(metrics, combinations, variable) == RatioScan(metrics, combinations[..n], variable)
    decreases |combinations|
  {
    if n < |combinations| {
      var init := combinations[..|combinations| - 1];
      assert init[..n] == combinations[..n];
      RatioScanFailurePersists(metrics, init, variable, n);
    } else {
      assert combinations[..n] == combinations;
    }
  }

  /**
   * The inner loop of `select_optimal_encoding_based_on_compression_ratio` for one variable: it
   * records each strict improvement of the ratio in `best_combination` as it goes.
   */
  method ScanRatiosMethod(metrics: MetricsTable, combinations: seq<string>, variable: string,
                          before: Dict<string>)
    returns (r: Result<Dict<string>>)
    ensures var scan := RatioScan(metrics, combinations, variable);
      && (scan.Err? ==> r == Err(scan.error))
      && (scan.Ok? ==> r == Ok(if scan.value.winner.Some? then Put(before, variable, scan.value.winner.value) else before))
  {
    var bestCombination := before;
    var bestRatio := 0.0;
    ghost var winner: Option<string> := None;
    for j := 0 to |combinations|
      invariant RatioScan(metrics, combinations[..j], variable) == Ok(Best(bestRatio, winner))
      invariant bestCombination == if winner.Some? then Put(before, variable, winner.value) else before
    {
      assert combinations[..j + 1][..j] == combinations[..j];
      var ratio := RatioOf(metrics, combinations[j], variable);
      if ratio.Err? {
        RatioScanFailurePersists(metrics, combinations, variable, j + 1);
        return Err(ratio.error);
      }
      if ratio.value > bestRatio {
        if winner.Some? {
          PutTwice(before, variable, winner.value, combinations[j]);
        }
        bestRatio := ratio.value;
        winner := Some(combinations[j]);
        bestCombination := Put(bestCombination, variable, combinations[j]);
      }
    }
    assert combinations[..|combinations|] == combinations;
    r := Ok(bestCombination);
  }

  /** `select_optimal_encoding_based_on_compression_ratio`, with its two nested loops. */
  method SelectOptimalEncodingBasedOnCompressionRatio(encodings: Encodings, metrics: MetricsTable)
    returns (r: Result<Selection>)
    ensures r == SelectByRatio(encodings, metrics)
  {
    if |encodings| == 0 {
      return Err(IndexError);
    }
    var combinations := Keys(encodings);
    var variables := Keys(encodings[0].1);
    var bestCombination: Dict<string> := [];
    for i := 0 to |variables|
      invariant BestCombination(RatioWinners(metrics, combinations), variables[..i]) == Ok(bestCombination)
    {
      assert variables[..i + 1][..i] == variables[..i];
      var next := ScanRatiosMethod(metrics, combinations, variables[i], bestCombination);
      if next.Err? {
        BestCombinationFailurePersists(RatioWinners(metrics, combinations), variables, i + 1);
        return Err(next.error);
      }
      bestCombination := next.value;
    }
    assert variables[..|variables|] == variables;
    r := SelectBest(encodings, metrics, bestCombination);
  }

  // ---------------------------------------------------------------------------------------------
  // Selection by quality

  /**
   * The running best of each diagnostic metric, position by position with the list of diagnostic
   * names (which holds no repeats), and the combination that last improved one of them.
   */
  datatype Quality = Quality(bests: seq<real>, winner: Option<string>)

  /** `{met: -1.0 for met in ANALYSIS_DIAGNOSTIC_METRICS}`, with no winner yet. */
  function InitialQuality(diagnostics: seq<string>): (q: Quality)
    ensures |q.bests| == |diagnostics| && q.winner.None?
    ensures forall i :: 0 <= i < |q.bests| ==> q.bests[i] == -1.0
  {
    Quality(seq(|diagnostics|, _ => -1.0), None)
  }

  /**
   * The innermost loop for one combination's record, over the first `n` diagnostics: a metric
   * missing from the record is skipped, and any strict improvement makes the combination the winner.
   * Either nothing changes, or the combination wins holding the new best of some diagnostic.
   */
  function QualityStep(q: Quality, record: Record, combination: string, diagnostics: seq<string>, n: nat)
    : (r: Quality)
    requires n <= |diagnostics| == |q.bests|
    ensures |r.bests| == |q.bests|
    ensures forall i :: 0 <= i < |q.bests| ==> r.bests[i] >= q.bests[i]
    ensures forall i :: 0 <= i < n && Get(record, diagnostics[i]).Some? ==>
      r.bests[i] >= Get(record, diagnostics[i]).value
    decreases n
  {
    if n == 0 then q
    else
      var prev := QualityStep(q, record, combination, diagnostics, n - 1);
      match Get(record, diagnostics[n - 1])
      case None => prev
      case Some(value) =>
        if value > prev.bests[n - 1] then Quality(prev.bests[n - 1 := value], Some(combination)) else prev
  }

  /**
   * A pass over one record either changes nothing or makes its combination the winner, and then
   * some diagnostic of the record strictly raised its best to the record's value.
   */
  lemma {:induction false} QualityStepRaises(q: Quality, record: Record, combination: string,
                                             diagnostics: seq<string>, n: nat)
    requires n <= |diagnostics| == |q.bests|
    ensures var r := QualityStep(q, record, combination, diagnostics, n);
      r == q || (r.winner == Some(combination)
        && exists i :: 0 <= i < n && Get(record, diagnostics[i]) == Some(r.bests[i]) && r.bests[i] > q.bests[i])
    decreases n
  {
    if n > 0 {
      QualityStepRaises(q, record, combination, diagnostics, n - 1);
      var prev := QualityStep(q, record, combination, diagnostics, n - 1);
      var r := QualityStep(q, record, combination, diagnostics, n);
      var value := Get(record, diagnostics[n - 1]);
      if value.Some? && value.value > prev.bests[n - 1] {
        assert Get(record, diagnostics[n - 1]) == Some(r.bests[n - 1]) && r.bests[n - 1] > q.bests[n - 1];
      } else if prev != q {
        var i :| 0 <= i < n - 1 && Get(record, diagnostics[i]) == Some(prev.bests[i]) && prev.bests[i] > q.bests[i];
        assert Get(record, diagnostics[i]) == Some(r.bests[i]) && r.bests[i] > q.bests[i];
      }
    }
  }

  /** One more diagnostic: the step keeps the running quality unless the value strictly improves it. */
  lemma QualityStepLast(q: Quality, record: Record, combination: string, diagnostics: seq<string>, n: nat)
    requires n < |diagnostics| == |q.bests|
    ensures var prev := QualityStep(q, record, combination, diagnostics, n);
      var value := Get(record, diagnostics[n]);
      QualityStep(q, record, combination, diagnostics, n + 1)
      == if value.Some? && value.value > prev.bests[n] then Quality(prev.bests[n := value.value], Some(combination))
         else prev
  {
  }

  /** The inner loops of the quality selection for one variable, over the first combinations. */
  function QualityScan(metrics: MetricsTable, combinations: seq<string>, variable: string, diagnostics: seq<string>)
    : (r: Result<Quality>)
    ensures r.Ok? <==> forall k :: 0 <= k < |combinations| ==> RecordOf(metrics, combinations[k], variable).Ok?
    ensures r.Ok? ==> |r.value.bests| == |diagnostics|
    decreases |combinations|
  {
    if |combinations| == 0 then Ok(InitialQuality(diagnostics))
    else
      var init := combinations[..|combinations| - 1];
      var combination := combinations[|combinations| - 1];
      assert forall k :: 0 <= k < |init| ==> init[k] == combinations[k];
      var q :- QualityScan(metrics, init, variable, diagnostics);
      var record :- RecordOf(metrics, combination, variable);
      Ok(QualityStep(q, record, combination, diagnostics, |diagnostics|))
  }

  /** The running bests never fall below -1, and there is no winner exactly while all of them are -1. */
  lemma {:induction false} QualityScanBounds(metrics: MetricsTable, combinations: seq<string>, variable: string,
                                             diagnostics: seq<string>)
    requires QualityScan(metrics, combinations, variable, diagnostics).Ok?
    ensures var q := QualityScan(metrics, combinations, variable, diagnostics).value;
      forall i :: 0 <= i < |q.bests| ==> q.bests[i] >= -1.0
    ensures var q := QualityScan(metrics, combinations, variable, diagnostics).value;
      q.winner.None? <==> forall i :: 0 <= i < |q.bests| ==> q.bests[i] == -1.0
    decreases |combinations|
  {
    if |combinations| > 0 {
      var init := combinations[..|combinations| - 1];
      assert forall k :: 0 <= k < |init| ==> init[k] == combinations[k];
      QualityScanBounds(metrics, init, variable, diagnostics);
      var before := QualityScan(metrics, init, variable, diagnostics).value;
      var record := RecordOf(metrics, combinations[|combinations| - 1], variable).value;
      QualityStepRaises(before, record, combinations[|combinations| - 1], diagnostics, |diagnostics|);
    }
  }

  /** Each running best is at least every value of that diagnostic in the records scanned. */
  lemma {:induction false} QualityIsMaximum(metrics: MetricsTable, combinations: seq<string>, variable: string,
                                            diagnostics: seq<string>, k: nat, i: nat)
    requires QualityScan(metrics, combinations, variable, diagnostics).Ok?
    requires k < |combinations| && i < |diagnostics|
    requires Get(RecordOf(metrics, combinations[k], variable).value, diagnostics[i]).Some?
    ensures Get(RecordOf(metrics, combinations[k], variable).value, diagnostics[i]).value
            <= QualityScan(metrics, combinations, variable, diagnostics).value.bests[i]
    decreases |combinations|
  {
    var init := combinations[..|combinations| - 1];
    if k < |init| {
      assert init[k] == combinations[k];
      QualityIsMaximum(metrics, init, variable, diagnostics, k, i);
    }
  }

  /**
   * A variable gets no winner exactly when no record of it holds a diagnostic above -1; in
   * particular a variable whose records hold only the compression ratio (the lossless fallbacks)
   * never gets one.
   */
  lemma NoQualityWinnerIff(metrics: MetricsTable, combinations: seq<string>, variable: string, diagnostics: seq<string>)
    requires QualityScan(metrics, combinations, variable, diagnostics).Ok?
    ensures QualityScan(metrics, combinations, variable, diagnostics).value.winner.None? <==>
      forall k, i :: (0 <= k < |combinations| && 0 <= i < |diagnostics|
                      && Get(RecordOf(metrics, combinations[k], variable).value, diagnostics[i]).Some?) ==>
        Get(RecordOf(metrics, combinations[k], variable).value, diagnostics[i]).value <= -1.0
  {
    var q := QualityScan(metrics, combinations, variable, diagnostics).value;
    QualityScanBounds(metrics, combinations, variable, diagnostics);
    if q.winner.None? {
      forall k, i | 0 <= k < |combinations| && 0 <= i < |diagnostics|
        && Get(RecordOf(metrics, combinations[k], variable).value, diagnostics[i]).Some?
        ensures Get(RecordOf(metrics, combinations[k], variable).value, diagnostics[i]).value <= -1.0
      {
        QualityIsMaximum(metrics, combinations, variable, diagnostics, k, i);
      }
    } else {
      QualityWinnerHoldsBest(metrics, combinations, variable, diagnostics);
    }
  }

  /**
   * The winner is a scanned combination whose record holds the final best of some diagnostic:
   * the last combination to improve any metric wins, whichever metric that was.
   */
  lemma {:induction false} QualityWinnerHoldsBest(metrics: MetricsTable, combinations: seq<string>, variable: string,
                                                  diagnostics: seq<string>)
    requires QualityScan(metrics, combinations, variable, diagnostics).Ok?
    requires QualityScan(metrics, combinations, variable, diagnostics).value.winner.Some?
    ensures var q := QualityScan(metrics, combinations, variable, diagnostics).value;
      exists k, i :: 0 <= k < |combinations| && 0 <= i < |diagnostics| && combinations[k] == q.winner.value
        && Get(RecordOf(metrics, combinations[k], variable).value, diagnostics[i]) == Some(q.bests[i])
        && q.bests[i] > -1.0
    decreases |combinations|
  {
    var init := combinations[..|combinations| - 1];
    var combination := combinations[|combinations| - 1];
    assert forall k :: 0 <= k < |init| ==> init[k] == combinations[k];
    var before := QualityScan(metrics, init, variable, diagnostics).value;
    var record := RecordOf(metrics, combination, variable).value;
    var q := QualityScan(metrics, combinations, variable, diagnostics).value;
    assert q == QualityStep(before, record, combination, diagnostics, |diagnostics|);
    QualityStepRaises(before, record, combination, diagnostics, |diagnostics|);
    QualityScanBounds(metrics, init, variable, diagnostics);
    if q == before {
      QualityWinnerHoldsBest(metrics, init, variable, diagnostics);
      var k, i :| 0 <= k < |init| && 0 <= i < |diagnostics| && init[k] == before.winner.value
        && Get(RecordOf(metrics, init[k], variable).value, diagnostics[i]) == Some(before.bests[i])
        && before.bests[i] > -1.0;
      assert combinations[k] == init[k];
    } else {
      var i :| 0 <= i < |diagnostics| && Get(record, diagnostics[i]) == Some(q.bests[i]) && q.bests[i] > before.bests[i];
      assert combinations[|combinations| - 1] == combination;
    }
  }

  /** The records of the example below: A has the better correlation, B the better structural similarity. */
  const ExampleA: Record := [("correlation_I", 0.9), ("ssim_I", 0.5)]
  const ExampleB: Record := [("correlation_I", 0.8), ("ssim_I", 0.6)]
  const ExampleMetrics: MetricsTable := [("A", [("v", ExampleA)]), ("B", [("v", ExampleB)])]

  /**
   * The quality rule does not weigh the metrics against each other: a later combination that
   * improves only the structural similarity wins over one with the better correlation.
   */
  lemma LastImprovementWins()
    ensures QualityScan(ExampleMetrics, ["A", "B"], "v", DiagnosticMetrics) == Ok(Quality([0.9, 0.6], Some("B")))
  {
    assert ["A", "B"][..1] == ["A"];
    assert ["A"][..0] == [];
    ExampleRecords();
    ExampleStepA();
    ExampleStepB();
  }

  /** Both example records are found, and each holds its two diagnostics. */
  lemma ExampleRecords()
    ensures RecordOf(ExampleMetrics, "A", "v") == Ok(ExampleA) && RecordOf(ExampleMetrics, "B", "v") == Ok(ExampleB)
  {
    IndexOfUnique(ExampleMetrics, "A", 0);
    IndexOfUnique(ExampleMetrics[0].1, "v", 0);
    IndexOfUnique(ExampleMetrics, "B", 1);
    IndexOfUnique(ExampleMetrics[1].1, "v", 0);
  }

  /** Combination A improves both diagnostics from their initial -1. */
  lemma ExampleStepA()
    ensures QualityStep(InitialQuality(DiagnosticMetrics), ExampleA, "A", DiagnosticMetrics, 2)
            == Quality([0.9, 0.5], Some("A"))
  {
    var diagnostics := DiagnosticMetrics;
    assert diagnostics[0] == "correlation_I" && diagnostics[1] == "ssim_I";
    assert Get(ExampleA, "correlation_I") == Some(0.9) by { IndexOfUnique(ExampleA, "correlation_I", 0); }
    assert Get(ExampleA, "ssim_I") == Some(0.5) by { IndexOfUnique(ExampleA, "ssim_I", 1); }
    var q0 := InitialQuality(diagnostics);
    assert q0.bests == [-1.0, -1.0];
    assert QualityStep(q0, ExampleA, "A", diagnostics, 0) == q0;
    var a1 := QualityStep(q0, ExampleA, "A", diagnostics, 1);
    assert a1 == Quality(q0.bests[0 := 0.9], Some("A"));
    assert a1.bests == [0.9, -1.0];
    assert QualityStep(q0, ExampleA, "A", diagnostics, 2) == Quality(a1.bests[1 := 0.5], Some("A"));
  }

  /** Combination B improves only the structural similarity, and still becomes the winner. */
  lemma ExampleStepB()
    ensures QualityStep(Quality([0.9, 0.5], Some("A")), ExampleB, "B", DiagnosticMetrics, 2)
            == Quality([0.9, 0.6], Some("B"))
  {
    var diagnostics := DiagnosticMetrics;
    assert diagnostics[0] == "correlation_I" && diagnostics[1] == "ssim_I";
    assert Get(ExampleB, "correlation_I") == Some(0.8) by { IndexOfUnique(ExampleB, "correlation_I", 0); }
    assert Get(ExampleB, "ssim_I") == Some(0.6) by { IndexOfUnique(ExampleB, "ssim_I", 1); }
    var q1 := Quality([0.9, 0.5], Some("A"));
    assert QualityStep(q1, ExampleB, "B", diagnostics, 0) == q1;
    assert QualityStep(q1, ExampleB, "B", diagnostics, 1) == q1;
    assert QualityStep(q1, ExampleB, "B", diagnostics, 2) == Quality(q1.bests[1 := 0.6], Some("B"));
  }

  /** Once the scan of a prefix of the combinations fails, the whole scan fails the same way. */
  lemma {:induction false} QualityScanFailurePersists(metrics: MetricsTable, combinations: seq<string>, variable: string,
                                                      diagnostics: seq<string>, n: nat)
    requires n <= |combinations| && QualityScan(metrics, combinations[..n], variable, diagnostics).Err?
    ensures QualityScan(metrics, combinations, variable, diagnostics)
            == QualityScan(metrics, combinations[..n], variable, diagnostics)
    decreases |combinations|
  {
    if n < |combinations| {
      var init := combinations[..|combinations| - 1];
      assert init[..n] == combinations[..n];
      QualityScanFailurePersists(metrics, init, variable, diagnostics, n);
    } else {
      assert combinations[..n] == combinations;
    }
  }

  /** The winner of one variable under the quality rule. */
  function QualityWinner(metrics: MetricsTable, combinations: seq<string>, diagnostics: seq<string>, variable: string)
    : Result<Option<string>>
  {
    var scan :- QualityScan(metrics, combinations, variable, diagnostics);
    Ok(scan.winner)
  }

  /** The quality rule as the winner function of `BestCombination`. */
  function QualityWinners(metrics: MetricsTable, combinations: seq<string>, diagnostics: seq<string>)
    : string -> Result<Option<string>>
  {
    v => QualityWinner(metrics, combinations, diagnostics, v)
  }

  /** `select_optimal_encoding_based_on_quality_metrics`. */
  function SelectByQuality(encodings: Encodings, metrics: MetricsTable): Result<Selection>
  {
    var variables :- VariablesOf(encodings);
    var best :- BestCombination(QualityWinners(metrics, Keys(encodings), DiagnosticMetrics), variables);
    SelectBest(encodings, metrics, best)
  }

  /** `select_optimal_encoding_based_on_quality_metrics`, with its three nested loops. */
  method SelectOptimalEncodingBasedOnQualityMetrics(encodings: Encodings, metrics: MetricsTable)
    returns (r: Result<Selection>)
    ensures r == SelectByQuality(encodings, metrics)
  {
    if |encodings| == 0 {
      return Err(IndexError);
    }
    var combinations := Keys(encodings);
    var variables := Keys(encodings[0].1);
    var bestCombination: Dict<string> := [];
    for i := 0 to |variables|
      invariant BestCombination(QualityWinners(metrics, combinations, DiagnosticMetrics), variables[..i])
                == Ok(bestCombination)
    {
      assert variables[..i + 1][..i] == variables[..i];
      var variable := variables[i];
      var variableBest := ScanQuality(metrics, combinations, variable, DiagnosticMetrics, bestCombination);
      if variableBest.Err? {
        BestCombinationFailurePersists(QualityWinners(metrics, combinations, DiagnosticMetrics), variables, i + 1);
        return Err(variableBest.error);
      }
      bestCombination := variableBest.value;
    }
    assert variables[..|variables|] == variables;
    r := SelectBest(encodings, metrics, bestCombination);
  }

  /**
   * The selection by quality, end to end: each selected record is a variable's record under some
   * combination, and it holds, for some diagnostic metric above -1, the greatest value of that
   * metric over all combinations.
   */
  lemma SelectedQualityHoldsMaximum(encodings: Encodings, metrics: MetricsTable, i: nat)
    requires SelectByQuality(encodings, metrics).Ok?
    requires i < |SelectByQuality(encodings, metrics).value.metrics|
    ensures |encodings| > 0
    ensures var (variable, record) := SelectByQuality(encodings, metrics).value.metrics[i];
      && variable in Keys(encodings[0].1)
      && exists k, d :: (0 <= k < |encodings| && 0 <= d < |DiagnosticMetrics|
        && RecordOf(metrics, encodings[k].0, variable) == Ok(record)
        && Get(record, DiagnosticMetrics[d]).Some? && Get(record, DiagnosticMetrics[d]).value > -1.0
        && MaximalIn(metrics, Keys(encodings), variable, DiagnosticMetrics[d], Get(record, DiagnosticMetrics[d]).value))
  {
    var combinations := Keys(encodings);
    var variables := Keys(encodings[0].1);
    var winnerOf := QualityWinners(metrics, combinations, DiagnosticMetrics);
    var best := BestCombination(winnerOf, variables).value;
    var selected := Pick(metrics, best).value;
    assert selected == SelectByQuality(encodings, metrics).value.metrics;
    PickReadsWinners(metrics, best);
    var (variable, record) := selected[i];
    var winner := best[i].1;
    assert variable == best[i].0 && variable in variables;
    BestCombinationPicksWinner(winnerOf, variables, variable);
    GetAt(best, i);
    var scan := QualityScan(metrics, combinations, variable, DiagnosticMetrics).value;
    assert scan.winner == Some(winner);
    QualityWinnerHoldsBest(metrics, combinations, variable, DiagnosticMetrics);
    var k, d :| 0 <= k < |combinations| && 0 <= d < |DiagnosticMetrics| && combinations[k] == winner
      && Get(RecordOf(metrics, combinations[k], variable).value, DiagnosticMetrics[d]) == Some(scan.bests[d])
      && scan.bests[d] > -1.0;
    assert RecordOf(metrics, encodings[k].0, variable) == Ok(record);
    QualityBestIsMaximal(metrics, combinations, variable, DiagnosticMetrics, d);
  }

  /** No record of the variable holds a greater value of the metric. */
  predicate MaximalIn(metrics: MetricsTable, combinations: seq<string>, variable: string, metric: string, value: real)
  {
    forall j :: (0 <= j < |combinations| && RecordOf(metrics, combinations[j], variable).Ok?
                 && Get(RecordOf(metrics, combinations[j], variable).value, metric).Some?) ==>
      Get(RecordOf(metrics, combinations[j], variable).value, metric).value <= value
  }

  /** Each final best of the quality scan is maximal among the variable's records. */
  lemma QualityBestIsMaximal(metrics: MetricsTable, combinations: seq<string>, variable: string,
                             diagnostics: seq<string>, d: nat)
    requires QualityScan(metrics, combinations, variable, diagnostics).Ok? && d < |diagnostics|
    ensures MaximalIn(metrics, combinations, variable, diagnostics[d],
                      QualityScan(metrics, combinations, variable, diagnostics).value.bests[d])
  {
    forall j | 0 <= j < |combinations| && RecordOf(metrics, combinations[j], variable).Ok?
      && Get(RecordOf(metrics, combinations[j], variable).value, diagnostics[d]).Some?
      ensures Get(RecordOf(metrics, combinations[j], variable).value, diagnostics[d]).value
              <= QualityScan(metrics, combinations, variable, diagnostics).value.bests[d]
    {
      QualityIsMaximum(metrics, combinations, variable, diagnostics, j, d);
    }
  }

  /**
   * The loops over the combinations and the diagnostics for one variable: `best_combination` gets
   * the variable's winner, or stays as it was when there is none.
   */
  method ScanQuality(metrics: MetricsTable, combinations: seq<string>, variable: string, diagnostics: seq<string>,
                     bestCombination: Dict<string>)
    returns (r: Result<Dict<string>>)
    ensures QualityScan(metrics, combinations, variable, diagnostics).Err? ==>
      r == Err(QualityScan(metrics, combinations, variable, diagnostics).error)
    ensures QualityScan(metrics, combinations, variable, diagnostics).Ok? ==>
      var winner := QualityScan(metrics, combinations, variable, diagnostics).value.winner;
      r == Ok(if winner.Some? then Put(bestCombination, variable, winner.value) else bestCombination)
  {
    var best := bestCombination;
    var bests := InitialQuality(diagnostics).bests;
    ghost var winner: Option<string> := None;
    for j := 0 to |combinations|
      invariant QualityScan(metrics, combinations[..j], variable, diagnostics) == Ok(Quality(bests, winner))
      invariant best == if winner.Some? then Put(bestCombination, variable, winner.value) else bestCombination
    {
      assert combinations[..j + 1][..j] == combinations[..j];
      var combination := combinations[j];
      var record := RecordOf(metrics, combination, variable);
      if record.Err? {
        QualityScanFailurePersists(metrics, combinations, variable, diagnostics, j + 1);
        return Err(record.error);
      }
      bests, best, winner := ScanRecord(record.value, combination, diagnostics, bests, winner, variable,
                                        bestCombination, best);
    }
    assert combinations[..|combinations|] == combinations;
    r := Ok(best);
  }

  /**
   * The innermost loop, over the diagnostics of one combination's record: every strict
   * improvement records the combination as the variable's best.
   */
  method ScanRecord(record: Record, combination: string, diagnostics: seq<string>, bests: seq<real>,
                    ghost winner: Option<string>, variable: string, ghost bestCombination: Dict<string>,
                    best: Dict<string>)
    returns (newBests: seq<real>, newBest: Dict<string>, ghost newWinner: Option<string>)
    requires |bests| == |diagnostics|
    requires best == if winner.Some? then Put(bestCombination, variable, winner.value) else bestCombination
    ensures Quality(newBests, newWinner)
            == QualityStep(Quality(bests, winner), record, combination, diagnostics, |diagnostics|)
    ensures newBest == if newWinner.Some? then Put(bestCombination, variable, newWinner.value) else bestCombination
  {
    newBests, newBest, newWinner := bests, best, winner;
    for d := 0 to |diagnostics|
      invariant |newBests| == |diagnostics|
      invariant QualityStep(Quality(bests, winner), record, combination, diagnostics, d) == Quality(newBests, newWinner)
      invariant newBest == if newWinner.Some? then Put(bestCombination, variable, newWinner.value) else bestCombination
    {
      var value := Get(record, diagnostics[d]);
      ghost var prevBests, prevWinner := newBests, newWinner;
      if value.Some? && value.value > newBests[d] {
        if newWinner.Some? {
          PutTwice(bestCombination, variable, newWinner.value, combination);
        }
        newBests := newBests[d := value.value];
        newWinner := Some(combination);
        newBest := Put(newBest, variable, combination);
      }
      assert QualityStep(Quality(bests, winner), record, combination, diagnostics, d + 1) == Quality(newBests, newWinner) by {
        QualityStepLast(Quality(bests, winner), record, combination, diagnostics, d);
      }
    }
  }

  // ---------------------------------------------------------------------------------------------
  // select_optimal_encoding

  /** `select_optimal_encoding`: the quality rule exactly when a compression ratio is a threshold. */
  function OptimalEncoding(encodings: Encodings, metrics: MetricsTable, options: Legacy.Options): Result<Selection>
  {
    if CompressionRatio in Keys(options.thresholds) then SelectByQuality(encodings, metrics)
    else SelectByRatio(encodings, metrics)
  }

  /** The dispatch is on the presence of the compression ratio among the thresholds, and on nothing else. */
  lemma OptimalEncodingDispatch(encodings: Encodings, metrics: MetricsTable, options: Legacy.Options)
    ensures Get(options.thresholds, CompressionRatio).Some? ==>
      OptimalEncoding(encodings, metrics, options) == SelectByQuality(encodings, metrics)
    ensures Get(options.thresholds, CompressionRatio).None? ==>
      OptimalEncoding(encodings, metrics, options) == SelectByRatio(encodings, metrics)
  {
  }

  method SelectOptimalEncoding(encodings: Encodings, metrics: MetricsTable, options: Legacy.Options)
    returns (r: Result<Selection>)
    ensures r == OptimalEncoding(encodings, metrics, options)
  {
    if CompressionRatio in Keys(options.thresholds) {
      r := SelectOptimalEncodingBasedOnQualityMetrics(encodings, metrics);
    } else {
      r := SelectOptimalEncodingBasedOnCompressionRatio(encodings, metrics);
    }
  }

  // ---------------------------------------------------------------------------------------------
  // find_encodings_for_all_combinations

  /** A data variable: its name, its values, and whether its dtype is a floating type. */
  datatype Variable = Variable(name: string, grid: Grid, floating: bool)

  /** The data variables of a dataset, and the names of its coordinates. */
  datatype Dataset = Dataset(variables: seq<Variable>, coords: seq<string>)

  function Names(variables: seq<Variable>): (r: seq<string>)
    ensures |r| == |variables|
    ensures forall i :: 0 <= i < |variables| ==> r[i] == variables[i].name
  {
    seq(|variables|, i requires 0 <= i < |variables| => variables[i].name)
  }

  /** Variable names in a dataset are unique. */
  predicate DistinctNames(variables: seq<Variable>)
  {
    forall i, j :: 0 <= i < j < |variables| ==> variables[i].name != variables[j].name
  }

  /** Arrays with fewer elements than this are stored losslessly. */
  const SmallArraySize: nat := 10000

  /** The metrics recorded for a variable stored losslessly without analysis. */
  const LosslessRecord: Record := [(CompressionRatio, 1.0)]

  /** Coordinates, small arrays and non-floating variables are stored losslessly without analysis. */
  predicate ShortCircuit(dataset: Dataset, v: Variable)
  {
    v.name in dataset.coords || Size(v.grid) < SmallArraySize || !v.floating
  }

  /** What the dataset-level analysis takes from its caller and from the packages around it. */
  datatype Context = Context(
    env: Environment,
    options: Legacy.Options,
    naming: Legacy.Naming,
    render: real -> string,
    parse: string -> Result<real>)

  /**
   * One variable under one combination: the lossless short-circuit, or `analyze_data_array` with
   * fresh options built from the combination and the caller's thresholds.
   */
  function AnalyzeVariable(ctx: Context, dataset: Dataset, c: Legacy.Compressor, m: Legacy.Mode, v: Variable)
    : (r: Run)
    ensures ShortCircuit(dataset, v) ==> r == Run(Ok(Lossless(LosslessRecord)), None)
    ensures !ShortCircuit(dataset, v) && |ctx.options.thresholds| == 0 ==> r.result.Err? && r.result.error.AssertionError?
    ensures !ShortCircuit(dataset, v) && |ctx.options.thresholds| > 0 ==>
      r == Analyze(ctx.env, v.grid, ctx.naming.compressor(c), ctx.naming.mode(m), ctx.options.thresholds)
  {
    if ShortCircuit(dataset, v) then Run(Ok(Lossless(LosslessRecord)), None)
    else
      match Legacy.Create(Legacy.Member(c), Legacy.Member(m), None, Some(ctx.options.thresholds), ctx.render, ctx.parse)
      case Err(e) => Run(Err(e), None)
      case Ok(options) =>
        Analyze(ctx.env, v.grid, ctx.naming.compressor(c), ctx.naming.mode(m), options.thresholds)
  }

  /** A result together with the evaluation counter after producing it. */
  datatype Filled<T> = Filled(result: Result<T>, counter: nat)

  /** The counter after a run: the run's own count when it set one. */
  function Latest(counter: nat, run: Run): nat
  {
    if run.counter.Some? then run.counter.value else counter
  }

  /** The analysis of every variable under every combination, as the run functions of `FillAll`. */
  function Runs(ctx: Context, dataset: Dataset): (Legacy.Compressor, Legacy.Mode) -> Variable -> Run
  {
    (c, m) => v => AnalyzeVariable(ctx, dataset, c, m, v)
  }

  /**
   * The loop over the variables for one combination, over the first variables: each outcome is
   * stored under the variable's name, and the first error ends the loop.
   */
  function FillCombination(runOf: Variable -> Run, variables: seq<Variable>, counter: nat)
    : Filled<(Dict<string>, Dict<Record>)>
    decreases |variables|
  {
    if |variables| == 0 then Filled(Ok(([], [])), counter)
    else
      var init := variables[..|variables| - 1];
      var v := variables[|variables| - 1];
      var prev := FillCombination(runOf, init, counter);
      if prev.result.Err? then prev
      else Enter(prev.result.value, v.name, runOf(v), prev.counter)
  }

  /** Every variable's run succeeds. */
  predicate AllSucceed(runOf: Variable -> Run, variables: seq<Variable>)
  {
    forall i :: 0 <= i < |variables| ==> runOf(variables[i]).result.Ok?
  }

  lemma AllSucceedLast(runOf: Variable -> Run, variables: seq<Variable>)
    requires |variables| > 0
    ensures AllSucceed(runOf, variables) <==>
      AllSucceed(runOf, variables[..|variables| - 1]) && runOf(variables[|variables| - 1]).result.Ok?
  {
    assert forall i :: 0 <= i < |variables| - 1 ==> variables[..|variables| - 1][i] == variables[i];
  }

  /** The loop over the variables gets through exactly when every variable's analysis succeeds. */
  lemma {:induction false} FillCombinationOk(runOf: Variable -> Run, variables: seq<Variable>, counter: nat)
    ensures FillCombination(runOf, variables, counter).result.Ok? <==> AllSucceed(runOf, variables)
    decreases |variables|
  {
    if |variables| > 0 {
      FillCombinationOk(runOf, variables[..|variables| - 1], counter);
      AllSucceedLast(runOf, variables);
    }
  }

  /** Storing the outcome of one variable's run under its name, or stopping at its error. */
  function Enter(entries: (Dict<string>, Dict<Record>), name: string, run: Run, counter: nat)
    : (r: Filled<(Dict<string>, Dict<Record>)>)
    ensures r.result.Ok? <==> run.result.Ok?
    ensures r.counter == Latest(counter, run)
  {
    match run.result
    case Err(e) => Filled(Err(e), Latest(counter, run))
    case Ok(analysis) =>
      var pair := AsPair(analysis);
      Filled(Ok((Put(entries.0, name, pair.0), Put(entries.1, name, pair.1))), Latest(counter, run))
  }


  /** The loop over the combinations, over the first combinations. */
  function FillAll(runsOf: (Legacy.Compressor, Legacy.Mode) -> Variable -> Run, variables: seq<Variable>,
                   combinations: Dict<(Legacy.Compressor, Legacy.Mode)>, counter: nat)
    : Filled<(Encodings, MetricsTable)>
    decreases |combinations|
  {
    if |combinations| == 0 then Filled(Ok(([], [])), counter)
    else
      var init := combinations[..|combinations| - 1];
      var (key, pair) := combinations[|combinations| - 1];
      var prev := FillAll(runsOf, variables, init, counter);
      if prev.result.Err? then prev
      else Store(prev.result.value, key, FillCombination(runsOf(pair.0, pair.1), variables, prev.counter))
  }

  /** Every combination's runs all succeed. */
  predicate AllCombinationsSucceed(runsOf: (Legacy.Compressor, Legacy.Mode) -> Variable -> Run, variables: seq<Variable>,
                                   combinations: Dict<(Legacy.Compressor, Legacy.Mode)>)
  {
    forall k :: 0 <= k < |combinations| ==> AllSucceed(runsOf(combinations[k].1.0, combinations[k].1.1), variables)
  }

  lemma AllCombinationsSucceedLast(runsOf: (Legacy.Compressor, Legacy.Mode) -> Variable -> Run,
                                   variables: seq<Variable>, combinations: Dict<(Legacy.Compressor, Legacy.Mode)>)
    requires |combinations| > 0
    ensures var last := combinations[|combinations| - 1];
      AllCombinationsSucceed(runsOf, variables, combinations) <==>
        AllCombinationsSucceed(runsOf, variables, combinations[..|combinations| - 1])
        && AllSucceed(runsOf(last.1.0, last.1.1), variables)
  {
    assert forall k :: 0 <= k < |combinations| - 1 ==> combinations[..|combinations| - 1][k] == combinations[k];
  }

  /** The loop over the combinations gets through exactly when every analysis of every combination succeeds. */
  lemma {:induction false} FillAllOk(runsOf: (Legacy.Compressor, Legacy.Mode) -> Variable -> Run,
                                     variables: seq<Variable>, combinations: Dict<(Legacy.Compressor, Legacy.Mode)>,
                                     counter: nat)
    ensures FillAll(runsOf, variables, combinations, counter).result.Ok? <==>
      AllCombinationsSucceed(runsOf, variables, combinations)
    decreases |combinations|
  {
    if |combinations| > 0 {
      var init := combinations[..|combinations| - 1];
      FillAllOk(runsOf, variables, init, counter);
      AllCombinationsSucceedLast(runsOf, variables, combinations);
      var prev := FillAll(runsOf, variables, init, counter);
      if prev.result.Ok? {
        var last := combinations[|combinations| - 1];
        FillCombinationOk(runsOf(last.1.0, last.1.1), variables, prev.counter);
      }
    }
  }

  /** Storing the entries of one combination under its key, or stopping at its error. */
  function Store(tables: (Encodings, MetricsTable), key: string, filled: Filled<(Dict<string>, Dict<Record>)>)
    : (r: Filled<(Encodings, MetricsTable)>)
    ensures r.result.Ok? <==> filled.result.Ok?
    ensures r.counter == filled.counter
  {
    match filled.result
    case Err(e) => Filled(Err(e), filled.counter)
    case Ok(entries) =>
      Filled(Ok((Put(tables.0, key, entries.0), Put(tables.1, key, entries.1))), filled.counter)
  }

  /** `find_encodings_for_all_combinations`, starting from a counter value. */
  function FindEncodings(ctx: Context, libpressio: bool, dataset: Dataset, counter: nat)
    : Filled<(Encodings, MetricsTable)>
  {
    match Legacy.Combinations(ctx.options, libpressio, ctx.naming)
    case Err(e) => Filled(Err(e), counter)
    case Ok(combinations) => FillAll(Runs(ctx, dataset), dataset.variables, combinations, counter)
  }

  // ---------------------------------------------------------------------------------------------
  // What the loops of find_encodings_for_all_combinations fill in

  /** One more variable: its run's outcome is entered into the entries of the earlier ones. */
  lemma FillCombinationStep(runOf: Variable -> Run, variables: seq<Variable>, counter: nat, i: nat)
    requires i < |variables| && FillCombination(runOf, variables[..i], counter).result.Ok?
    ensures var prev := FillCombination(runOf, variables[..i], counter);
      FillCombination(runOf, variables[..i + 1], counter)
      == Enter(prev.result.value, variables[i].name, runOf(variables[i]), prev.counter)
  {
    assert variables[..i + 1][..i] == variables[..i];
  }

  /** One more combination: its loop over the variables runs on the counter left by the previous ones, and is stored. */
  lemma FillAllStep(runsOf: (Legacy.Compressor, Legacy.Mode) -> Variable -> Run, variables: seq<Variable>,
                    combinations: Dict<(Legacy.Compressor, Legacy.Mode)>, counter: nat, k: nat)
    requires k < |combinations| && FillAll(runsOf, variables, combinations[..k], counter).result.Ok?
    ensures var prev := FillAll(runsOf, variables, combinations[..k], counter);
      var (key, pair) := combinations[k];
      FillAll(runsOf, variables, combinations[..k + 1], counter)
      == Store(prev.result.value, key, FillCombination(runsOf(pair.0, pair.1), variables, prev.counter))
  {
    assert combinations[..k + 1][..k] == combinations[..k];
  }

  /** The counter threaded through the loop does not influence what the loop stores. */
  lemma {:induction false} FillCombinationIgnoresCounter(runOf: Variable -> Run, variables: seq<Variable>, a: nat, b: nat)
    ensures FillCombination(runOf, variables, a).result == FillCombination(runOf, variables, b).result
    decreases |variables|
  {
    if |variables| > 0 {
      FillCombinationIgnoresCounter(runOf, variables[..|variables| - 1], a, b);
    }
  }

  /** With unique variable names, a combination gets exactly one entry per variable, in dataset order. */
  lemma {:induction false} FillCombinationKeys(runOf: Variable -> Run, variables: seq<Variable>, counter: nat)
    requires DistinctNames(variables)
    requires FillCombination(runOf, variables, counter).result.Ok?
    ensures var entries := FillCombination(runOf, variables, counter).result.value;
      Keys(entries.0) == Names(variables) && Keys(entries.1) == Names(variables)
    decreases |variables|
  {
    if |variables| > 0 {
      var init := variables[..|variables| - 1];
      var v := variables[|variables| - 1];
      assert forall i :: 0 <= i < |init| ==> init[i] == variables[i];
      FillCombinationKeys(runOf, init, counter);
      var prev := FillCombination(runOf, init, counter);
      NewName(variables);
      EnterAppends(prev.result.value, v.name, runOf(v), prev.counter);
      NamesLast(variables);
    }
  }

  /** In a dataset with unique names, the last variable's name is not among the earlier ones. */
  lemma NewName(variables: seq<Variable>)
    requires DistinctNames(variables) && |variables| > 0
    ensures variables[|variables| - 1].name !in Names(variables[..|variables| - 1])
    ensures DistinctNames(variables[..|variables| - 1])
  {
    var init := variables[..|variables| - 1];
    assert forall j :: 0 <= j < |init| ==> Names(init)[j] == variables[j].name;
  }

  lemma NamesLast(variables: seq<Variable>)
    requires |variables| > 0
    ensures Names(variables) == Names(variables[..|variables| - 1]) + [variables[|variables| - 1].name]
  {
  }

  /** Entering a new name appends it to the keys of both dicts. */
  lemma EnterAppends(entries: (Dict<string>, Dict<Record>), name: string, run: Run, counter: nat)
    requires run.result.Ok? && name !in Keys(entries.0) && name !in Keys(entries.1)
    ensures var r := Enter(entries, name, run, counter).result.value;
      Keys(r.0) == Keys(entries.0) + [name] && Keys(r.1) == Keys(entries.1) + [name]
  {
  }

  /** With unique variable names, each variable's entries are the outcome of its own run. */
  lemma {:induction false} FillCombinationEntries(runOf: Variable -> Run, variables: seq<Variable>, counter: nat, i: nat)
    requires DistinctNames(variables)
    requires FillCombination(runOf, variables, counter).result.Ok?
    requires i < |variables|
    ensures runOf(variables[i]).result.Ok?
    ensures var entries := FillCombination(runOf, variables, counter).result.value;
      var pair := AsPair(runOf(variables[i]).result.value);
      Get(entries.0, variables[i].name) == Some(pair.0) && Get(entries.1, variables[i].name) == Some(pair.1)
    decreases |variables|
  {
    var init := variables[..|variables| - 1];
    var v := variables[|variables| - 1];
    if i < |init| {
      assert forall j :: 0 <= j < |init| ==> init[j] == variables[j];
      FillCombinationEntries(runOf, init, counter, i);
      assert variables[i].name != v.name;
    }
  }

  /** With unique combination keys, the tables get exactly one entry per combination, in order. */
  lemma {:induction false} FillAllKeys(runsOf: (Legacy.Compressor, Legacy.Mode) -> Variable -> Run,
                                       variables: seq<Variable>, combinations: Dict<(Legacy.Compressor, Legacy.Mode)>,
                                       counter: nat)
    requires Distinct(combinations)
    requires FillAll(runsOf, variables, combinations, counter).result.Ok?
    ensures var tables := FillAll(runsOf, variables, combinations, counter).result.value;
      Keys(tables.0) == Keys(combinations) && Keys(tables.1) == Keys(combinations)
    decreases |combinations|
  {
    if |combinations| > 0 {
      var init := combinations[..|combinations| - 1];
      var last := combinations[|combinations| - 1];
      FillAllLast(runsOf, variables, combinations, counter);
      var prev := FillAll(runsOf, variables, init, counter);
      NewKey(combinations);
      FillAllKeys(runsOf, variables, init, counter);
      KeysLast(combinations);
      StoreAppends(prev.result.value, last.0, FillCombination(runsOf(last.1.0, last.1.1), variables, prev.counter));
    }
  }

  /** The last combination of a successful fill is stored on top of the fill of the others. */
  lemma FillAllLast(runsOf: (Legacy.Compressor, Legacy.Mode) -> Variable -> Run,
                    variables: seq<Variable>, combinations: Dict<(Legacy.Compressor, Legacy.Mode)>, counter: nat)
    requires |combinations| > 0
    requires FillAll(runsOf, variables, combinations, counter).result.Ok?
    ensures var last := combinations[|combinations| - 1];
      var prev := FillAll(runsOf, variables, combinations[..|combinations| - 1], counter);
      prev.result.Ok?
      && FillAll(runsOf, variables, combinations, counter)
         == Store(prev.result.value, last.0, FillCombination(runsOf(last.1.0, last.1.1), variables, prev.counter))
  {
  }

  /** Storing under a new key appends it to the keys of both tables. */
  lemma StoreAppends(tables: (Encodings, MetricsTable), key: string, filled: Filled<(Dict<string>, Dict<Record>)>)
    requires filled.result.Ok? && key !in Keys(tables.0) && key !in Keys(tables.1)
    ensures var r := Store(tables, key, filled).result.value;
      Keys(r.0) == Keys(tables.0) + [key] && Keys(r.1) == Keys(tables.1) + [key]
  {
  }

  /** With unique combination keys, each combination's entries are what its own loop over the variables stores. */
  lemma {:induction false} FillAllEntries(runsOf: (Legacy.Compressor, Legacy.Mode) -> Variable -> Run,
                                          variables: seq<Variable>, combinations: Dict<(Legacy.Compressor, Legacy.Mode)>,
                                          counter: nat, k: nat)
    requires Distinct(combinations)
    requires FillAll(runsOf, variables, combinations, counter).result.Ok?
    requires k < |combinations|
    ensures var tables := FillAll(runsOf, variables, combinations, counter).result.value;
      var (key, pair) := combinations[k];
      && Get(tables.0, key).Some? && Get(tables.1, key).Some?
      && FillCombination(runsOf(pair.0, pair.1), variables, 0).result == Ok((Get(tables.0, key).value, Get(tables.1, key).value))
    decreases |combinations|
  {
    var init := combinations[..|combinations| - 1];
    var last := combinations[|combinations| - 1];
    var prev := FillAll(runsOf, variables, init, counter);
    if k < |init| {
      assert forall j :: 0 <= j < |init| ==> init[j] == combinations[j];
      FillAllEntries(runsOf, variables, init, counter, k);
      assert combinations[k].0 != last.0;
    } else {
      FillCombinationIgnoresCounter(runsOf(last.1.0, last.1.1), variables, prev.counter, 0);
    }
  }

  /** Once the loop over a prefix of the variables fails, the whole loop fails the same way, counter included. */
  lemma {:induction false} FillCombinationFailurePersists(runOf: Variable -> Run, variables: seq<Variable>, counter: nat,
                                                          n: nat)
    requires n <= |variables| && FillCombination(runOf, variables[..n], counter).result.Err?
    ensures FillCombination(runOf, variables, counter) == FillCombination(runOf, variables[..n], counter)
    decreases |variables|
  {
    if n < |variables| {
      var init := variables[..|variables| - 1];
      assert init[..n] == variables[..n];
      FillCombinationFailurePersists(runOf, init, counter, n);
    } else {
      assert variables[..n] == variables;
    }
  }

  /** Once the loop over a prefix of the combinations fails, the whole loop fails the same way, counter included. */
  lemma {:induction false} FillAllFailurePersists(runsOf: (Legacy.Compressor, Legacy.Mode) -> Variable -> Run,
                                                  variables: seq<Variable>,
                                                  combinations: Dict<(Legacy.Compressor, Legacy.Mode)>, counter: nat, n: nat)
    requires n <= |combinations| && FillAll(runsOf, variables, combinations[..n], counter).result.Err?
    ensures FillAll(runsOf, variables, combinations, counter) == FillAll(runsOf, variables, combinations[..n], counter)
    decreases |combinations|
  {
    if n < |combinations| {
      var init := combinations[..|combinations| - 1];
      assert init[..n] == combinations[..n];
      FillAllFailurePersists(runsOf, variables, init, counter, n);
    } else {
      assert combinations[..n] == combinations;
    }
  }

  /**
   * `find_encodings_for_all_combinations` succeeds exactly when the combinations can be enumerated
   * and every variable's analysis under every combination succeeds.
   */
  lemma FindEncodingsOk(ctx: Context, libpressio: bool, dataset: Dataset, counter: nat)
    ensures FindEncodings(ctx, libpressio, dataset, counter).result.Ok? <==>
      && Legacy.Combinations(ctx.options, libpressio, ctx.naming).Ok?
      && AllCombinationsSucceed(Runs(ctx, dataset), dataset.variables,
                                Legacy.Combinations(ctx.options, libpressio, ctx.naming).value)
  {
    var combinations := Legacy.Combinations(ctx.options, libpressio, ctx.naming);
    if combinations.Ok? {
      FillAllOk(Runs(ctx, dataset), dataset.variables, combinations.value, counter);
    }
  }

  /** The enumerated combinations never repeat a key. */
  lemma CombinationsDistinct(options: Legacy.Options, libpressio: bool, naming: Legacy.Naming)
    requires Legacy.Combinations(options, libpressio, naming).Ok?
    ensures Distinct(Legacy.Combinations(options, libpressio, naming).value)
  {
  }

  /**
   * Every combination receives one encoding and one metrics record per data variable, and each is
   * the outcome of that variable's own analysis under that combination.
   */
  lemma EveryCombinationEveryVariable(ctx: Context, libpressio: bool, dataset: Dataset, counter: nat, k: nat, i: nat)
    requires DistinctNames(dataset.variables)
    requires FindEncodings(ctx, libpressio, dataset, counter).result.Ok?
    requires Legacy.Combinations(ctx.options, libpressio, ctx.naming).Ok?
    requires k < |Legacy.Combinations(ctx.options, libpressio, ctx.naming).value| && i < |dataset.variables|
    ensures var combinations := Legacy.Combinations(ctx.options, libpressio, ctx.naming).value;
      var tables := FindEncodings(ctx, libpressio, dataset, counter).result.value;
      var key := combinations[k].0;
      && Keys(tables.0) == Keys(combinations) && Keys(tables.1) == Keys(combinations)
      && Get(tables.0, key).Some? && Get(tables.1, key).Some?
      && Keys(Get(tables.0, key).value) == Names(dataset.variables)
      && Keys(Get(tables.1, key).value) == Names(dataset.variables)
    ensures var combinations := Legacy.Combinations(ctx.options, libpressio, ctx.naming).value;
      var tables := FindEncodings(ctx, libpressio, dataset, counter).result.value;
      var (key, pair) := combinations[k];
      var v := dataset.variables[i];
      var run := AnalyzeVariable(ctx, dataset, pair.0, pair.1, v);
      && Get(tables.0, key).Some? && Get(tables.1, key).Some?
      && run.result.Ok?
      && Get(Get(tables.0, key).value, v.name) == Some(AsPair(run.result.value).0)
      && Get(Get(tables.1, key).value, v.name) == Some(AsPair(run.result.value).1)
  {
    var combinations := Legacy.Combinations(ctx.options, libpressio, ctx.naming).value;
    var pair := combinations[k].1;
    CombinationsDistinct(ctx.options, libpressio, ctx.naming);
    FillAllKeys(Runs(ctx, dataset), dataset.variables, combinations, counter);
    FillAllEntries(Runs(ctx, dataset), dataset.variables, combinations, counter, k);
    FillCombinationKeys(Runs(ctx, dataset)(pair.0, pair.1), dataset.variables, 0);
    FillCombinationEntries(Runs(ctx, dataset)(pair.0, pair.1), dataset.variables, 0, i);
  }

  /**
   * Coordinates, arrays of fewer than 10000 elements and non-floating variables are stored as
   * "lossless" with a compression ratio of 1 under every combination, without any analysis.
   */
  lemma ShortCircuitEntries(ctx: Context, libpressio: bool, dataset: Dataset, counter: nat, k: nat, i: nat)
    requires DistinctNames(dataset.variables)
    requires FindEncodings(ctx, libpressio, dataset, counter).result.Ok?
    requires Legacy.Combinations(ctx.options, libpressio, ctx.naming).Ok?
    requires k < |Legacy.Combinations(ctx.options, libpressio, ctx.naming).value| && i < |dataset.variables|
    requires ShortCircuit(dataset, dataset.variables[i])
    ensures var key := Legacy.Combinations(ctx.options, libpressio, ctx.naming).value[k].0;
      var tables := FindEncodings(ctx, libpressio, dataset, counter).result.value;
      var name := dataset.variables[i].name;
      && Get(tables.0, key).Some? && Get(tables.1, key).Some?
      && Get(Get(tables.0, key).value, name) == Some("lossless")
      && Get(Get(tables.1, key).value, name) == Some(LosslessRecord)
  {
    EveryCombinationEveryVariable(ctx, libpressio, dataset, counter, k, i);
  }

  /** `find_encodings_for_all_combinations`, with the shared evaluation counter. */
  method FindEncodingsForAllCombinations(ctx: Context, libpressio: bool, dataset: Dataset, counter: EvaluationCounter)
    returns (r: Result<(Encodings, MetricsTable)>)
    modifies counter
    ensures var filled := FindEncodings(ctx, libpressio, dataset, old(counter.count));
      r == filled.result && counter.count == filled.counter
  {
    var combinations := Legacy.GetCompressorModeCombinations(ctx.options, libpressio, ctx.naming);
    if combinations.Err? {
      return Err(combinations.error);
    }
    var pairs := combinations.value;
    ghost var start := counter.count;
    var encodings: Encodings := [];
    var metrics: MetricsTable := [];
    for k := 0 to |pairs|
      invariant FillAll(Runs(ctx, dataset), dataset.variables, pairs[..k], start)
                == Filled(Ok((encodings, metrics)), counter.count)
    {
      FillAllStep(Runs(ctx, dataset), dataset.variables, pairs, start, k);
      var (key, pair) := pairs[k];
      var entries := AnalyzeCombination(ctx, dataset, pair.0, pair.1, counter);
      if entries.Err? {
        FillAllFailurePersists(Runs(ctx, dataset), dataset.variables, pairs, start, k + 1);
        return Err(entries.error);
      }
      encodings := Put(encodings, key, entries.value.0);
      metrics := Put(metrics, key, entries.value.1);
    }
    assert pairs[..|pairs|] == pairs;
    r := Ok((encodings, metrics));
  }

  /** The loop over the variables of `find_encodings_for_all_combinations` for one combination. */
  method AnalyzeCombination(ctx: Context, dataset: Dataset, c: Legacy.Compressor, m: Legacy.Mode,
                            counter: EvaluationCounter)
    returns (r: Result<(Dict<string>, Dict<Record>)>)
    modifies counter
    ensures var filled := FillCombination(Runs(ctx, dataset)(c, m), dataset.variables, old(counter.count));
      r == filled.result && counter.count == filled.counter
  {
    var variables := dataset.variables;
    ghost var runOf := Runs(ctx, dataset)(c, m);
    ghost var start := counter.count;
    var encodings: Dict<string> := [];
    var metrics: Dict<Record> := [];
    for i := 0 to |variables|
      invariant FillCombination(runOf, variables[..i], start) == Filled(Ok((encodings, metrics)), counter.count)
    {
      var v := variables[i];
      FillCombinationStep(runOf, variables, start, i);
      var outcome := AnalyzeVariableMethod(ctx, dataset, c, m, v, counter);
      assert runOf(v) == AnalyzeVariable(ctx, dataset, c, m, v);
      if outcome.Err? {
        FillCombinationFailurePersists(runOf, variables, start, i + 1);
        return Err(outcome.error);
      }
      encodings := Put(encodings, v.name, outcome.value.0);
      metrics := Put(metrics, v.name, outcome.value.1);
    }
    assert variables[..|variables|] == variables;
    r := Ok((encodings, metrics));
  }

  /** The body of the loop over the variables: the lossless short-circuits, then `analyze_data_array`. */
  method AnalyzeVariableMethod(ctx: Context, dataset: Dataset, c: Legacy.Compressor, m: Legacy.Mode, v: Variable,
                               counter: EvaluationCounter)
    returns (r: Result<(string, Record)>)
    modifies counter
    ensures var run := AnalyzeVariable(ctx, dataset, c, m, v);
      && (run.result.Ok? ==> r == Ok(AsPair(run.result.value)))
      && (run.result.Err? ==> r == Err(run.result.error))
      && counter.count == Latest(old(counter.count), run)
  {
    if v.name in dataset.coords {
      return Ok(("lossless", LosslessRecord));
    }
    if Size(v.grid) < SmallArraySize {
      return Ok(("lossless", LosslessRecord));
    }
    if !v.floating {
      return Ok(("lossless", LosslessRecord));
    }
    var options := Legacy.Create(Legacy.Member(c), Legacy.Member(m), None, Some(ctx.options.thresholds),
                                 ctx.render, ctx.parse);
    if options.Err? {
      return Err(options.error);
    }
    r := AnalyzeDataArrayMethod(ctx.env, v.grid, ctx.naming.compressor(c), ctx.naming.mode(m),
                                options.value.thresholds, counter);
  }
}
