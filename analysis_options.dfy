/**
 * The options of an analysis: compressor, mode and the constraints, given either as a
 * "name:value,name:value" string or as a dictionary of thresholds, and the enumeration of the
 * (compressor, mode) combinations to analyse.
 *
 * Python's `float()` parsing and the `repr` of a float are not modelled: they enter the CSV codec
 * as the functions `parse` and `render`. The table of lossy compressors and their modes belongs
 * to the encoding package and is a parameter.
 */
module AnalysisOptions {
  import opened Wrappers
  import opened Dicts
  import opened Strings

  // ---------------------------------------------------------------------------------------------
  // The CSV codec

  /** The "key:value" entries of a threshold dictionary, in order. */
  function Entries(d: Dict<real>, render: real -> string): (r: seq<string>)
    ensures |r| == |d|
    ensures forall i :: 0 <= i < |d| ==> r[i] == d[i].0 + ":" + render(d[i].1)
  {
    seq(|d|, i requires 0 <= i < |d| => d[i].0 + ":" + render(d[i].1))
  }

  /** `from_dict_to_csv`. */
  function FromDictToCsv(d: Dict<real>, render: real -> string): string
  {
    Join(Entries(d, render), ',')
  }

  /** One "key:value" entry: exactly two parts around ':', and a value that parses. */
  function ParseEntry(entry: string, parse: string -> Result<real>): (r: Result<(string, real)>)
    ensures |Split(entry, ':')| != 2 ==> r == Err(ValueError)
    ensures r.Ok? ==> (|Split(entry, ':')| == 2 && r.value.0 == Split(entry, ':')[0]
                       && parse(Split(entry, ':')[1]) == Ok(r.value.1))
  {
    var parts := Split(entry, ':');
    if |parts| != 2 then Err(ValueError)
    else
      var value :- parse(parts[1]);
      Ok((parts[0], value))
  }

  /** The entries of a CSV, parsed in order into a dictionary; a repeated key keeps its first place and its last value. */
  function ParseEntries(entries: seq<string>, parse: string -> Result<real>): (r: Result<Dict<real>>)
    ensures r.Ok? ==> Distinct(r.value)
    ensures r.Ok? <==> forall i :: 0 <= i < |entries| ==> ParseEntry(entries[i], parse).Ok?
    ensures r.Ok? ==> forall i :: 0 <= i < |entries| ==> ParseEntry(entries[i], parse).value.0 in Keys(r.value)
    decreases |entries|
  {
    if |entries| == 0 then Ok([])
    else
      var init := entries[..|entries| - 1];
      assert forall i :: 0 <= i < |init| ==> init[i] == entries[i];
      var d :- ParseEntries(init, parse);
      var entry :- ParseEntry(entries[|entries| - 1], parse);
      Ok(Put(d, entry.0, entry.1))
  }

  /** `from_csv_to_dict`. */
  function FromCsvToDict(csv: string, parse: string -> Result<real>): Result<Dict<real>>
  {
    ParseEntries(Split(csv, ','), parse)
  }

  /** `from_csv_to_dict`, entry by entry. */
  method FromCsvToDictMethod(csv: string, parse: string -> Result<real>) returns (r: Result<Dict<real>>)
    ensures r == FromCsvToDict(csv, parse)
  {
    var entries := Split(csv, ',');
    var toReturn: Dict<real> := [];
    for i := 0 to |entries|
      invariant ParseEntries(entries[..i], parse) == Ok(toReturn)
    {
      assert entries[..i + 1][..i] == entries[..i];
      var parts := Split(entries[i], ':');
      if |parts| != 2 {
        MissingEntryPersists(entries, parse, i + 1);
        return Err(ValueError);
      }
      var value := parse(parts[1]);
      if value.Err? {
        MissingEntryPersists(entries, parse, i + 1);
        return Err(value.error);
      }
      toReturn := Put(toReturn, parts[0], value.value);
    }
    assert entries[..|entries|] == entries;
    r := Ok(toReturn);
  }

  /** Once a prefix of the entries fails, the whole CSV fails with the same error. */
  lemma {:induction false} MissingEntryPersists(entries: seq<string>, parse: string -> Result<real>, k: nat)
    requires k <= |entries|
    requires ParseEntries(entries[..k], parse).Err?
    ensures ParseEntries(entries, parse) == ParseEntries(entries[..k], parse)
    decreases |entries|
  {
    if k < |entries| {
      var init := entries[..|entries| - 1];
      assert init[..k] == entries[..k];
      MissingEntryPersists(init, parse, k);
    } else {
      assert entries[..k] == entries;
    }
  }

  /** An empty constraint string is not a CSV of entries: ValueError. */
  lemma EmptyCsvFails(parse: string -> Result<real>)
    ensures FromCsvToDict("", parse) == Err(ValueError)
  {
    assert Split("", ',') == [""];
    assert Split("", ':') == [""];
  }

  /** A later entry for a key already seen overwrites the value and keeps the key's place. */
  lemma LaterDuplicateOverwrites(first: string, second: string, key: string, v: real, w: real,
                                 parse: string -> Result<real>)
    requires ParseEntry(first, parse) == Ok((key, v)) && ParseEntry(second, parse) == Ok((key, w))
    ensures ParseEntries([first, second], parse) == Ok([(key, w)])
  {
    assert [first, second][..1] == [first];
    assert [first][..0] == [];
    assert ParseEntries([first], parse) == Ok(Put([], key, v));
    var entries := [first, second];
    assert entries[..|entries| - 1] == [first];
    assert ParseEntries(entries, parse) == Ok(Put(Put([], key, v), key, w));
    var empty: Dict<real> := [];
    PutTwice(empty, key, v, w);
    PutAppends(empty, key, w);
    assert empty + [(key, w)] == [(key, w)];
  }

  /** A "key:value" string whose two halves hold no ':' splits into them. */
  lemma SplitPair(key: string, value: string)
    requires ':' !in key && ':' !in value
    ensures Split(key + ":" + value, ':') == [key, value]
  {
    assert Join([key, value], ':') == key + ":" + value;
    SplitJoin([key, value], ':');
  }

  /**
   * Round trip: a non-empty threshold dictionary whose keys and rendered values hold neither ','
   * nor ':', and whose rendered values parse back, comes back from its CSV unchanged.
   */
  lemma CsvRoundTrip(d: Dict<real>, render: real -> string, parse: string -> Result<real>)
    requires |d| > 0 && Distinct(d)
    requires forall i :: 0 <= i < |d| ==> ',' !in d[i].0 && ':' !in d[i].0
    requires forall i :: 0 <= i < |d| ==> ',' !in render(d[i].1) && ':' !in render(d[i].1)
    requires forall i :: 0 <= i < |d| ==> parse(render(d[i].1)) == Ok(d[i].1)
    ensures FromCsvToDict(FromDictToCsv(d, render), parse) == Ok(d)
  {
    var entries := Entries(d, render);
    forall i | 0 <= i < |entries| ensures ',' !in entries[i] {
      assert entries[i] == d[i].0 + [':'] + render(d[i].1);
    }
    SplitJoin(entries, ',');
    ParsePrefix(d, render, parse, |d|);
    assert d[..|d|] == d;
    assert entries[..|d|] == entries;
  }

  /** The prefix case of the round trip. */
  lemma {:induction false} ParsePrefix(d: Dict<real>, render: real -> string, parse: string -> Result<real>, k: nat)
    requires k <= |d| && Distinct(d)
    requires forall i :: 0 <= i < |d| ==> ':' !in d[i].0 && ':' !in render(d[i].1)
    requires forall i :: 0 <= i < |d| ==> parse(render(d[i].1)) == Ok(d[i].1)
    ensures ParseEntries(Entries(d, render)[..k], parse) == Ok(d[..k])
  {
    if k > 0 {
      var entries := Entries(d, render)[..k];
      var prev := d[..k - 1];
      var last := d[k - 1];
      assert d[..k] == prev + [last];
      ParsePrefix(d, render, parse, k - 1);
      assert entries[..k - 1] == Entries(d, render)[..k - 1];
      SplitPair(last.0, render(last.1));
      assert ParseEntry(entries[k - 1], parse) == Ok(last);
      assert last.0 !in Keys(prev) by {
        forall j | 0 <= j < |prev| ensures Keys(prev)[j] != last.0 {
          assert prev[j] == d[j];
        }
      }
      PutAppends(prev, last.0, last.1);
    }
  }

  // ---------------------------------------------------------------------------------------------
  // AnalysisOptions

  datatype Options = Options(compressor: string, mode: string, constrains: string, thresholds: Dict<real>)

  /** `str()` of an optional name: None renders as "None". */
  function Str(s: Option<string>): string
  {
    match s
    case None => "None"
    case Some(x) => x
  }

  /** Python truthiness of the two constraint arguments. */
  predicate GivenCsv(constrains: Option<string>)
  {
    constrains.Some? && |constrains.value| > 0
  }

  predicate GivenThresholds(thresholds: Option<Dict<real>>)
  {
    thresholds.Some? && |thresholds.value| > 0
  }

  /**
   * `AnalysisOptions(compressor, mode, constrains, thresholds)`: exactly one of the two
   * constraint arguments must be given (non-empty); the other form is derived from it.
   */
  function Create(compressor: Option<string>, mode: Option<string>, constrains: Option<string>,
                  thresholds: Option<Dict<real>>, render: real -> string, parse: string -> Result<real>)
    : (r: Result<Options>)
    ensures GivenCsv(constrains) == GivenThresholds(thresholds) ==> r.Err? && r.error.AssertionError?
    ensures r.Ok? ==> r.value.compressor == Str(compressor) && r.value.mode == Str(mode)
    ensures GivenThresholds(thresholds) && !GivenCsv(constrains) ==>
      r == Ok(Options(Str(compressor), Str(mode), FromDictToCsv(thresholds.value, render), thresholds.value))
    ensures GivenCsv(constrains) && !GivenThresholds(thresholds) ==>
      (r.Ok? <==> FromCsvToDict(constrains.value, parse).Ok?)
      && (r.Ok? ==> r.value.constrains == constrains.value
                    && r.value.thresholds == FromCsvToDict(constrains.value, parse).value)
  {
    if GivenCsv(constrains) && !GivenThresholds(thresholds) then
      var parsed :- FromCsvToDict(constrains.value, parse);
      Ok(Options(Str(compressor), Str(mode), constrains.value, parsed))
    else if !GivenCsv(constrains) && GivenThresholds(thresholds) then
      Ok(Options(Str(compressor), Str(mode), FromDictToCsv(thresholds.value, render), thresholds.value))
    else Err(AssertionError("Only one of the two arguments should be provided."))
  }

  // ---------------------------------------------------------------------------------------------
  // AnalysisParameters

  /** Modes the enumeration skips. */
  const SkippedModes: seq<string> := ["norm2", "psnr"]

  /** `multi_mode`: the mode was not given, or is "all". */
  predicate MultiMode(options: Options)
  {
    options.mode in ["None", "all"]
  }

  /** `compressors`: every compressor of the table when none or "all" was asked for, else the one named. */
  function Compressors(options: Options, table: Dict<seq<string>>): (r: seq<string>)
    ensures options.compressor in ["None", "all"] ==> r == Keys(table)
    ensures options.compressor !in ["None", "all"] ==> r == [options.compressor]
  {
    if options.compressor in ["None", "all"] then Keys(table) else [options.compressor]
  }

  /** The key of a combination. */
  function CombinationKey(compressor: string, mode: string): string
  {
    compressor + ":" + mode
  }

  /** A combination the enumeration may produce: a mode of the compressor's table entry that is not skipped, under its key. */
  predicate Listed(key: string, combination: (string, string), table: Dict<seq<string>>)
  {
    && key == CombinationKey(combination.0, combination.1)
    && combination.0 in Keys(table)
    && combination.1 in Get(table, combination.0).value
    && combination.1 !in SkippedModes
  }

  /** The inner loop: the modes of one compressor added in order, the skipped ones left out. */
  function AddModes(d: Dict<(string, string)>, compressor: string, modes: seq<string>): (r: Dict<(string, string)>)
    ensures Distinct(d) ==> Distinct(r)
    ensures forall key :: key in Keys(d) ==> key in Keys(r)
    ensures forall i :: 0 <= i < |modes| && modes[i] !in SkippedModes ==> CombinationKey(compressor, modes[i]) in Keys(r)
    ensures forall key :: key in Keys(r) && key !in Keys(d) ==>
      exists i :: 0 <= i < |modes| && modes[i] !in SkippedModes && Get(r, key) == Some((compressor, modes[i]))
        && key == CombinationKey(compressor, modes[i])
    ensures forall key :: key in Keys(d) && Get(r, key) != Get(d, key) ==>
      exists i :: 0 <= i < |modes| && modes[i] !in SkippedModes && Get(r, key) == Some((compressor, modes[i]))
        && key == CombinationKey(compressor, modes[i])
    decreases |modes|
  {
    if |modes| == 0 then d
    else
      var init := modes[..|modes| - 1];
      var mode := modes[|modes| - 1];
      assert forall i :: 0 <= i < |init| ==> init[i] == modes[i];
      var rest := AddModes(d, compressor, init);
      if mode in SkippedModes then rest
      else Put(rest, CombinationKey(compressor, mode), (compressor, mode))
  }

  /** The outer loop over the compressors; a compressor missing from the table is a KeyError. */
  function CombinationsOf(compressors: seq<string>, table: Dict<seq<string>>): (r: Result<Dict<(string, string)>>)
    ensures r.Ok? <==> forall i :: 0 <= i < |compressors| ==> compressors[i] in Keys(table)
    ensures r.Ok? ==> Distinct(r.value)
    decreases |compressors|
  {
    if |compressors| == 0 then Ok([])
    else
      var init := compressors[..|compressors| - 1];
      var compressor := compressors[|compressors| - 1];
      assert forall i :: 0 <= i < |init| ==> init[i] == compressors[i];
      var d :- CombinationsOf(init, table);
      var modes :- Lookup(table, compressor);
      Ok(AddModes(d, compressor, modes))
  }

  /** `get_compressor_mode_combinations`. */
  function Combinations(options: Options, table: Dict<seq<string>>): Result<Dict<(string, string)>>
  {
    if !MultiMode(options) then
      Ok([(CombinationKey(options.compressor, options.mode), (options.compressor, options.mode))])
    else CombinationsOf(Compressors(options, table), table)
  }

  /** Every combination the enumeration produces is listed in the table and keyed by its names. */
  lemma {:induction false} CombinationsAreListed(compressors: seq<string>, table: Dict<seq<string>>)
    requires CombinationsOf(compressors, table).Ok?
    ensures var r := CombinationsOf(compressors, table).value;
      forall i :: 0 <= i < |r| ==> r[i].1.0 in compressors && Listed(r[i].0, r[i].1, table)
    decreases |compressors|
  {
    var r := CombinationsOf(compressors, table).value;
    if |compressors| > 0 {
      var init := compressors[..|compressors| - 1];
      var compressor := compressors[|compressors| - 1];
      assert forall i :: 0 <= i < |init| ==> init[i] == compressors[i];
      CombinationsAreListed(init, table);
      var d := CombinationsOf(init, table).value;
      var modes := Get(table, compressor).value;
      assert r == AddModes(d, compressor, modes);
      forall i | 0 <= i < |r| ensures r[i].1.0 in compressors && Listed(r[i].0, r[i].1, table) {
        GetAt(r, i);
        if r[i].0 in Keys(d) && Get(r, r[i].0) == Get(d, r[i].0) {
          var j :| 0 <= j < |d| && d[j].0 == r[i].0;
          GetAt(d, j);
        }
      }
    }
  }

  /** Every listed, non-skipped mode of every enumerated compressor gets a combination. */
  lemma {:induction false} CombinationsAreComplete(compressors: seq<string>, table: Dict<seq<string>>,
                                                   c: nat, m: nat)
    requires CombinationsOf(compressors, table).Ok?
    requires c < |compressors| && compressors[c] in Keys(table)
    requires m < |Get(table, compressors[c]).value| && Get(table, compressors[c]).value[m] !in SkippedModes
    ensures CombinationKey(compressors[c], Get(table, compressors[c]).value[m]) in Keys(CombinationsOf(compressors, table).value)
    decreases |compressors|
  {
    var init := compressors[..|compressors| - 1];
    assert forall i :: 0 <= i < |init| ==> init[i] == compressors[i];
    if c < |compressors| - 1 {
      CombinationsAreComplete(init, table, c, m);
    }
  }

  /** Not in multi-mode, the one combination named by the options. */
  lemma SingleCombination(options: Options, table: Dict<seq<string>>)
    requires !MultiMode(options)
    ensures Combinations(options, table)
            == Ok([(options.compressor + ":" + options.mode, (options.compressor, options.mode))])
  {
  }

  /** `get_compressor_mode_combinations`, filling the dictionary loop by loop. */
  method GetCompressorModeCombinations(options: Options, table: Dict<seq<string>>)
    returns (r: Result<Dict<(string, string)>>)
    ensures r == Combinations(options, table)
  {
    if !MultiMode(options) {
      return Ok([(CombinationKey(options.compressor, options.mode), (options.compressor, options.mode))]);
    }
    var compressors := Compressors(options, table);
    var combinations: Dict<(string, string)> := [];
    for i := 0 to |compressors|
      invariant CombinationsOf(compressors[..i], table) == Ok(combinations)
    {
      assert compressors[..i + 1][..i] == compressors[..i];
      var compressor := compressors[i];
      var modes := Lookup(table, compressor);
      if modes.Err? {
        return Err(modes.error);
      }
      ghost var before := combinations;
      for j := 0 to |modes.value|
        invariant combinations == AddModes(before, compressor, modes.value[..j])
      {
        assert modes.value[..j + 1][..j] == modes.value[..j];
        var mode := modes.value[j];
        if mode !in SkippedModes {
          combinations := Put(combinations, CombinationKey(compressor, mode), (compressor, mode));
        }
      }
      assert modes.value[..|modes.value|] == modes.value;
    }
    assert compressors[..|compressors|] == compressors;
    r := Ok(combinations);
  }
}
