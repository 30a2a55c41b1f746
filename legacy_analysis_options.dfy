/**
 * The older, enumeration-based analysis options that the dataset analysis uses: compressors and
 * modes are members of the encoding package's enumerations, names are looked up after upper-casing,
 * and the table of modes per compressor is fixed.
 *
 * Only the members the analysis refers to are modelled. How a member renders with `str()` belongs
 * to the encoding package and enters as a `Naming`. The constraint codec is the one of the
 * `AnalysisOptions` module: both source files define it identically.
 */
module LegacyAnalysisOptions {
  import opened Wrappers
  import opened Dicts
  import Codec = AnalysisOptions

  datatype Compressor = NoneCompressor | AllCompressors | Zfp | Sz

  datatype Mode = AllModes | Accuracy | Rate | Precision | Abs | Rel | PwRel

  /** The `str()` rendering of the members. */
  datatype Naming = Naming(compressor: Compressor -> string, mode: Mode -> string)

  /** The member names, as `Compressors[...]` looks them up. */
  function CompressorName(c: Compressor): string
  {
    match c
    case NoneCompressor => "NONE"
    case AllCompressors => "ALL"
    case Zfp => "ZFP"
    case Sz => "SZ"
  }

  function ModeName(m: Mode): string
  {
    match m
    case AllModes => "ALL"
    case Accuracy => "ACCURACY"
    case Rate => "RATE"
    case Precision => "PRECISION"
    case Abs => "ABS"
    case Rel => "REL"
    case PwRel => "PW_REL"
  }

  /** `str.upper()` on ASCII letters. */
  function UpperChar(c: char): (r: char)
    ensures 'a' <= c <= 'z' ==> r as int == c as int - 32
    ensures !('a' <= c <= 'z') ==> r == c
  {
    if 'a' <= c <= 'z' then (c as int - 32) as char else c
  }

  function Upper(s: string): (r: string)
    ensures |r| == |s|
    ensures forall i :: 0 <= i < |s| ==> r[i] == UpperChar(s[i])
  {
    seq(|s|, i requires 0 <= i < |s| => UpperChar(s[i]))
  }

  /** `Compressors[name.upper()]`. */
  function CompressorByName(name: string): (r: Result<Compressor>)
    ensures r.Ok? <==> Upper(name) in ["NONE", "ALL", "ZFP", "SZ"]
    ensures r.Ok? ==> CompressorName(r.value) == Upper(name)
    ensures r.Err? ==> r.error == KeyError(Upper(name))
  {
    var key := Upper(name);
    if key == "NONE" then Ok(NoneCompressor)
    else if key == "ALL" then Ok(AllCompressors)
    else if key == "ZFP" then Ok(Zfp)
    else if key == "SZ" then Ok(Sz)
    else Err(KeyError(key))
  }

  /** `CompressionModes[name.upper()]`. */
  function ModeByName(name: string): (r: Result<Mode>)
    ensures r.Ok? <==> Upper(name) in ["ALL", "ACCURACY", "RATE", "PRECISION", "ABS", "REL", "PW_REL"]
    ensures r.Ok? ==> ModeName(r.value) == Upper(name)
    ensures r.Err? ==> r.error == KeyError(Upper(name))
  {
    var key := Upper(name);
    if key == "ALL" then Ok(AllModes)
    else if key == "ACCURACY" then Ok(Accuracy)
    else if key == "RATE" then Ok(Rate)
    else if key == "PRECISION" then Ok(Precision)
    else if key == "ABS" then Ok(Abs)
    else if key == "REL" then Ok(Rel)
    else if key == "PW_REL" then Ok(PwRel)
    else Err(KeyError(key))
  }

  /** Lower-case compressor names find their members: "zfp" is ZFP, "sz" is SZ. */
  lemma LowerCaseCompressorNamesResolve()
    ensures CompressorByName("zfp") == Ok(Zfp) && CompressorByName("sz") == Ok(Sz)
  {
    assert Upper("zfp") == "ZFP";
    assert Upper("sz") == "SZ";
  }

  /** Lower-case mode names find their members: "pw_rel" is PW_REL, "rate" is RATE. */
  lemma LowerCaseModeNamesResolve()
    ensures ModeByName("pw_rel") == Ok(PwRel) && ModeByName("rate") == Ok(Rate)
  {
    assert Upper("pw_rel") == "PW_REL";
    assert Upper("rate") == "RATE";
  }

  /** A dictionary keyed by compressor, in insertion order. */
  type ModeTable = seq<(Compressor, seq<Mode>)>

  /** `compression_modes`: the modes of ZFP and of SZ; the other members are not keys. */
  const CompressionModesTable: ModeTable := [(Zfp, [Accuracy, Rate, Precision]), (Sz, [Abs, Rel, PwRel])]

  /** `c` is a key of the table. */
  predicate HasModes(table: ModeTable, c: Compressor)
  {
    exists i :: 0 <= i < |table| && table[i].0 == c
  }

  /** `table[c]`: the modes stored under `c`, or KeyError when `c` is not a key. */
  function ModesOf(table: ModeTable, c: Compressor): (r: Result<seq<Mode>>)
    ensures r.Ok? <==> HasModes(table, c)
    ensures r.Ok? ==> exists i :: 0 <= i < |table| && table[i] == (c, r.value)
    ensures r.Err? ==> r.error == KeyError(CompressorName(c))
  {
    if |table| == 0 then Err(KeyError(CompressorName(c)))
    else if table[0].0 == c then Ok(table[0].1)
    else
      var r := ModesOf(table[1..], c);
      assert forall i :: 0 <= i < |table| - 1 ==> table[1..][i] == table[i + 1];
      assert HasModes(table, c) ==> HasModes(table[1..], c);
      r
  }

  /** The fixed table: ZFP and SZ have three modes each, the other members fail the lookup. */
  lemma CompressionModesOfTable(c: Compressor)
    ensures c == Zfp ==> ModesOf(CompressionModesTable, c) == Ok([Accuracy, Rate, Precision])
    ensures c == Sz ==> ModesOf(CompressionModesTable, c) == Ok([Abs, Rel, PwRel])
    ensures c != Zfp && c != Sz ==> ModesOf(CompressionModesTable, c) == Err(KeyError(CompressorName(c)))
  {
    var rest := CompressionModesTable[1..];
    assert rest == [(Sz, [Abs, Rel, PwRel])];
    assert rest[1..] == [];
  }

  /** A constructor argument: not given, a member, or a name to look up. */
  datatype Arg<E> = Missing | Member(member: E) | Name(name: string)

  function ResolveCompressor(a: Arg<Compressor>): (r: Result<Compressor>)
    ensures a.Missing? ==> r == Ok(NoneCompressor)
    ensures a.Member? ==> r == Ok(a.member)
    ensures a.Name? ==> r == CompressorByName(a.name)
  {
    match a
    case Missing => Ok(NoneCompressor)
    case Member(c) => Ok(c)
    case Name(n) => CompressorByName(n)
  }

  function ResolveMode(a: Arg<Mode>): (r: Result<Mode>)
    ensures a.Missing? ==> r == Ok(AllModes)
    ensures a.Member? ==> r == Ok(a.member)
    ensures a.Name? ==> r == ModeByName(a.name)
  {
    match a
    case Missing => Ok(AllModes)
    case Member(m) => Ok(m)
    case Name(n) => ModeByName(n)
  }

  datatype Options = Options(compressor: Compressor, mode: Mode, constrains: string, thresholds: Dict<real>)

  /**
   * `AnalysisOptions(compressor, mode, constrains, thresholds)`: the members are resolved first,
   * then exactly one of the two constraint arguments must be given.
   */
  function Create(compressor: Arg<Compressor>, mode: Arg<Mode>, constrains: Option<string>,
                  thresholds: Option<Dict<real>>, render: real -> string, parse: string -> Result<real>)
    : (r: Result<Options>)
    ensures ResolveCompressor(compressor).Err? ==> r == Err(ResolveCompressor(compressor).error)
    ensures ResolveCompressor(compressor).Ok? && ResolveMode(mode).Err? ==> r == Err(ResolveMode(mode).error)
    ensures ResolveCompressor(compressor).Ok? && ResolveMode(mode).Ok?
            && Codec.GivenCsv(constrains) == Codec.GivenThresholds(thresholds) ==>
      r.Err? && r.error.AssertionError?
    ensures r.Ok? ==> Ok(r.value.compressor) == ResolveCompressor(compressor) && Ok(r.value.mode) == ResolveMode(mode)
    ensures r.Ok? && Codec.GivenThresholds(thresholds) ==>
      r.value.thresholds == thresholds.value && r.value.constrains == Codec.FromDictToCsv(thresholds.value, render)
    ensures r.Ok? && Codec.GivenCsv(constrains) ==>
      Codec.FromCsvToDict(constrains.value, parse) == Ok(r.value.thresholds) && r.value.constrains == constrains.value
  {
    var c :- ResolveCompressor(compressor);
    var m :- ResolveMode(mode);
    if Codec.GivenCsv(constrains) && !Codec.GivenThresholds(thresholds) then
      var parsed :- Codec.FromCsvToDict(constrains.value, parse);
      Ok(Options(c, m, constrains.value, parsed))
    else if !Codec.GivenCsv(constrains) && Codec.GivenThresholds(thresholds) then
      Ok(Options(c, m, Codec.FromDictToCsv(thresholds.value, render), thresholds.value))
    else Err(AssertionError("Only one of the two arguments should be provided."))
  }

  /** `multi_mode`: the mode is ALL (a missing mode resolves to ALL). */
  predicate MultiMode(options: Options)
  {
    options.mode == AllModes
  }

  /**
   * `compressors`: with libpressio, both concrete compressors for NONE or ALL and the named one
   * otherwise; without it, ZFP only, and naming anything but NONE or ZFP fails the assertion.
   */
  function Compressors(options: Options, libpressio: bool): (r: Result<seq<Compressor>>)
    ensures libpressio && options.compressor in {NoneCompressor, AllCompressors} ==> r == Ok([Zfp, Sz])
    ensures libpressio && options.compressor !in {NoneCompressor, AllCompressors} ==> r == Ok([options.compressor])
    ensures !libpressio ==> (r.Ok? <==> options.compressor in {NoneCompressor, Zfp})
    ensures !libpressio && r.Ok? ==> r.value == [Zfp]
    ensures r.Err? ==> r.error.AssertionError?
  {
    if libpressio then
      if options.compressor == NoneCompressor || options.compressor == AllCompressors then Ok([Zfp, Sz])
      else Ok([options.compressor])
    else if options.compressor != NoneCompressor && options.compressor != Zfp then
      Err(AssertionError("The only available option without libpressio is 'zfp'."))
    else Ok([Zfp])
  }

  /** The key of a combination. */
  function CombinationKey(naming: Naming, c: Compressor, m: Mode): string
  {
    naming.compressor(c) + ":" + naming.mode(m)
  }

  /** The modes of one compressor added in order. */
  function AddModes(d: Dict<(Compressor, Mode)>, naming: Naming, c: Compressor, modes: seq<Mode>)
    : (r: Dict<(Compressor, Mode)>)
    ensures Distinct(d) ==> Distinct(r)
    ensures forall key :: key in Keys(d) ==> key in Keys(r)
    ensures forall i :: 0 <= i < |r| ==> r[i] in d || (r[i].1.0 == c && r[i].1.1 in modes)
    decreases |modes|
  {
    if |modes| == 0 then d
    else
      var init := modes[..|modes| - 1];
      assert forall i :: 0 <= i < |init| ==> init[i] == modes[i];
      var rest := AddModes(d, naming, c, init);
      Put(rest, CombinationKey(naming, c, modes[|modes| - 1]), (c, modes[|modes| - 1]))
  }

  /** Every given mode has its key in the result. */
  lemma {:induction false} AddModesCovers(d: Dict<(Compressor, Mode)>, naming: Naming, c: Compressor, modes: seq<Mode>,
                                          i: nat)
    requires i < |modes|
    ensures CombinationKey(naming, c, modes[i]) in Keys(AddModes(d, naming, c, modes))
    decreases |modes|
  {
    var init := modes[..|modes| - 1];
    var last := modes[|modes| - 1];
    var rest := AddModes(d, naming, c, init);
    PutKeys(rest, CombinationKey(naming, c, last), (c, last), CombinationKey(naming, c, modes[i]));
    if i < |init| {
      assert init[i] == modes[i];
      AddModesCovers(d, naming, c, init, i);
    }
  }

  /** A given mode among them gets its key. */
  lemma AddModesCoversMode(d: Dict<(Compressor, Mode)>, naming: Naming, c: Compressor, modes: seq<Mode>, m: Mode)
    requires m in modes
    ensures CombinationKey(naming, c, m) in Keys(AddModes(d, naming, c, modes))
  {
    var j :| 0 <= j < |modes| && modes[j] == m;
    AddModesCovers(d, naming, c, modes, j);
  }

  /** The loop over the compressors; a compressor that is not a key of the table fails the lookup. */
  function CombinationsOf(compressors: seq<Compressor>, naming: Naming, table: ModeTable)
    : (r: Result<Dict<(Compressor, Mode)>>)
    ensures r.Ok? <==> forall i :: 0 <= i < |compressors| ==> HasModes(table, compressors[i])
    ensures r.Ok? ==> Distinct(r.value)
    decreases |compressors|
  {
    if |compressors| == 0 then Ok([])
    else
      var init := compressors[..|compressors| - 1];
      var c := compressors[|compressors| - 1];
      assert forall i :: 0 <= i < |init| ==> init[i] == compressors[i];
      var d :- CombinationsOf(init, naming, table);
      var modes :- ModesOf(table, c);
      Ok(AddModes(d, naming, c, modes))
  }

  /** A failed enumeration reports the KeyError of the first compressor that is not a key. */
  lemma {:induction false} CombinationsOfFails(compressors: seq<Compressor>, naming: Naming, table: ModeTable)
    requires CombinationsOf(compressors, naming, table).Err?
    ensures exists i :: (0 <= i < |compressors| && !HasModes(table, compressors[i])
      && (forall j :: 0 <= j < i ==> HasModes(table, compressors[j]))
      && CombinationsOf(compressors, naming, table).error == KeyError(CompressorName(compressors[i])))
    decreases |compressors|
  {
    var init := compressors[..|compressors| - 1];
    var c := compressors[|compressors| - 1];
    assert forall i :: 0 <= i < |init| ==> init[i] == compressors[i];
    var rest := CombinationsOf(init, naming, table);
    if rest.Err? {
      CombinationsOfFails(init, naming, table);
      var i :| 0 <= i < |init| && !HasModes(table, init[i])
        && (forall j :: 0 <= j < i ==> HasModes(table, init[j]))
        && rest.error == KeyError(CompressorName(init[i]));
      assert compressors[i] == init[i];
    } else {
      assert !HasModes(table, c);
    }
  }

  /** Once a prefix of the compressors fails, the whole enumeration fails with the same error. */
  lemma {:induction false} FailurePersists(compressors: seq<Compressor>, naming: Naming, table: ModeTable, n: nat)
    requires n <= |compressors| && CombinationsOf(compressors[..n], naming, table).Err?
    ensures CombinationsOf(compressors, naming, table) == CombinationsOf(compressors[..n], naming, table)
    decreases |compressors|
  {
    if n < |compressors| {
      var init := compressors[..|compressors| - 1];
      assert init[..n] == compressors[..n];
      FailurePersists(init, naming, table, n);
    } else {
      assert compressors[..n] == compressors;
    }
  }

  /** Every enumerated pair is a compressor of the list with one of the modes the table gives it. */
  lemma {:induction false} CombinationsListed(compressors: seq<Compressor>, naming: Naming, table: ModeTable, i: nat)
    requires CombinationsOf(compressors, naming, table).Ok? && i < |CombinationsOf(compressors, naming, table).value|
    ensures var p := CombinationsOf(compressors, naming, table).value[i].1;
      p.0 in compressors && ModesOf(table, p.0).Ok? && p.1 in ModesOf(table, p.0).value
    decreases |compressors|
  {
    var init := compressors[..|compressors| - 1];
    var c := compressors[|compressors| - 1];
    var rest := CombinationsOf(init, naming, table).value;
    var r := CombinationsOf(compressors, naming, table).value;
    assert r == AddModes(rest, naming, c, ModesOf(table, c).value);
    if r[i] in rest {
      var j :| 0 <= j < |rest| && rest[j] == r[i];
      CombinationsListed(init, naming, table, j);
      assert r[i].1.0 in init;
    }
  }

  /** A successful enumeration is the enumeration of all but the last compressor, extended by the last one's modes. */
  lemma CombinationsOfLast(compressors: seq<Compressor>, naming: Naming, table: ModeTable)
    requires |compressors| > 0 && CombinationsOf(compressors, naming, table).Ok?
    ensures var init := compressors[..|compressors| - 1];
      var c := compressors[|compressors| - 1];
      && CombinationsOf(init, naming, table).Ok? && ModesOf(table, c).Ok?
      && CombinationsOf(compressors, naming, table).value
         == AddModes(CombinationsOf(init, naming, table).value, naming, c, ModesOf(table, c).value)
  {
  }

  /** Every mode of every listed compressor has its key in the enumeration. */
  lemma {:induction false} CombinationsComplete(compressors: seq<Compressor>, naming: Naming, table: ModeTable, k: nat, m: Mode)
    requires CombinationsOf(compressors, naming, table).Ok? && k < |compressors|
    requires m in ModesOf(table, compressors[k]).value
    ensures CombinationKey(naming, compressors[k], m) in Keys(CombinationsOf(compressors, naming, table).value)
    decreases |compressors|
  {
    var init := compressors[..|compressors| - 1];
    var c := compressors[|compressors| - 1];
    var earlier := k < |init|;
    assert earlier ==> init[k] == compressors[k];
    assert !earlier ==> k == |compressors| - 1;
    assert !earlier ==> compressors[k] == c;
    CombinationsOfLast(compressors, naming, table);
    var rest := CombinationsOf(init, naming, table).value;
    var modes := ModesOf(table, c).value;
    var key := CombinationKey(naming, compressors[k], m);
    if earlier {
      CombinationsComplete(init, naming, table, k, m);
      assert key in Keys(rest);
    } else {
      AddModesCoversMode(rest, naming, c, modes, m);
    }
    assert key in Keys(AddModes(rest, naming, c, modes));
  }

  /** `get_compressor_mode_combinations`. */
  function Combinations(options: Options, libpressio: bool, naming: Naming): Result<Dict<(Compressor, Mode)>>
  {
    if !MultiMode(options) then
      Ok([(CombinationKey(naming, options.compressor, options.mode), (options.compressor, options.mode))])
    else
      var compressors :- Compressors(options, libpressio);
      CombinationsOf(compressors, naming, CompressionModesTable)
  }

  /**
   * Once the compressors are known the enumeration succeeds, and every pair is the one named pair
   * (not in multi-mode) or a pair of the fixed table.
   */
  lemma CombinationsFromTable(options: Options, libpressio: bool, naming: Naming, i: nat)
    requires Compressors(options, libpressio).Ok?
    ensures Combinations(options, libpressio, naming).Ok?
    ensures var r := Combinations(options, libpressio, naming).value;
      i < |r| ==>
        (!MultiMode(options) && r[i].1 == (options.compressor, options.mode))
        || (MultiMode(options) && ModesOf(CompressionModesTable, r[i].1.0).Ok?
            && r[i].1.1 in ModesOf(CompressionModesTable, r[i].1.0).value)
  {
    var compressors := Compressors(options, libpressio).value;
    if MultiMode(options) {
      forall k | 0 <= k < |compressors| ensures HasModes(CompressionModesTable, compressors[k]) {
        CompressionModesOfTable(compressors[k]);
      }
      var r := CombinationsOf(compressors, naming, CompressionModesTable);
      if i < |r.value| {
        CombinationsListed(compressors, naming, CompressionModesTable, i);
      }
    }
  }

  /** With libpressio and neither compressor nor mode named, both compressors with all their modes. */
  lemma EveryModeOfBothCompressors(options: Options, naming: Naming, c: Compressor, m: Mode)
    requires options.compressor == NoneCompressor && options.mode == AllModes
    requires ModesOf(CompressionModesTable, c).Ok? && m in ModesOf(CompressionModesTable, c).value
    ensures Combinations(options, true, naming).Ok?
    ensures CombinationKey(naming, c, m) in Keys(Combinations(options, true, naming).value)
  {
    var compressors := [Zfp, Sz];
    CompressionModesOfTable(Zfp);
    CompressionModesOfTable(Sz);
    CompressionModesOfTable(c);
    assert HasModes(CompressionModesTable, compressors[0]) && HasModes(CompressionModesTable, compressors[1]);
    var k := if c == Zfp then 0 else 1;
    CombinationsComplete(compressors, naming, CompressionModesTable, k, m);
  }

  /** `get_compressor_mode_combinations`, filling the dictionary loop by loop. */
  method GetCompressorModeCombinations(options: Options, libpressio: bool, naming: Naming)
    returns (r: Result<Dict<(Compressor, Mode)>>)
    ensures r == Combinations(options, libpressio, naming)
  {
    if !MultiMode(options) {
      return Ok([(CombinationKey(naming, options.compressor, options.mode), (options.compressor, options.mode))]);
    }
    var compressors := Compressors(options, libpressio);
    if compressors.Err? {
      return Err(compressors.error);
    }
    r := EnumerateCombinations(compressors.value, naming, CompressionModesTable);
  }

  /** The two nested loops of `get_compressor_mode_combinations`. */
  method EnumerateCombinations(compressors: seq<Compressor>, naming: Naming, table: ModeTable)
    returns (r: Result<Dict<(Compressor, Mode)>>)
    ensures r == CombinationsOf(compressors, naming, table)
  {
    var combinations: Dict<(Compressor, Mode)> := [];
    for i := 0 to |compressors|
      invariant CombinationsOf(compressors[..i], naming, table) == Ok(combinations)
    {
      assert compressors[..i + 1][..i] == compressors[..i];
      var c := compressors[i];
      var modes := ModesOf(table, c);
      if modes.Err? {
        FailurePersists(compressors, naming, table, i + 1);
        return Err(modes.error);
      }
      ghost var before := combinations;
      for j := 0 to |modes.value|
        invariant combinations == AddModes(before, naming, c, modes.value[..j])
      {
        assert modes.value[..j + 1][..j] == modes.value[..j];
        combinations := Put(combinations, CombinationKey(naming, c, modes.value[j]), (c, modes.value[j]));
      }
      assert modes.value[..|modes.value|] == modes.value;
    }
    assert compressors[..|compressors|] == compressors;
    r := Ok(combinations);
  }
}
