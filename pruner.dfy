/**
 * Bit pruning: every float word keeps its leading significant bits and loses the rest, after
 * the first discarded bit has optionally been ORed into the last kept one. A dataset is pruned
 * variable by variable, each variable's values replaced in place.
 */
module Pruner {
  import opened Wrappers
  import opened Dicts
  import opened SignificantBits

  /**
   * `prune_numpy_array(array, significant_bits, round_to_nearest)`: when rounding, the bit at
   * position `significant_bits` is masked out, shifted one place up and ORed in; then the array
   * is masked with `significant_bits` leading ones.
   */
  function PruneNumpyArray(itemBits: nat, words: seq<Word>, significantBits: int, roundToNearest: bool)
    : (r: Result<seq<Word>>)
    requires Uniform(words, itemBits)
    ensures r.Ok? <==> UIntTypeByBitLength(itemBits).Ok?
    ensures r.Err? ==> r.error == NotImplementedError
    ensures r.Ok? ==> |r.value| == |words| && Uniform(r.value, itemBits)
  {
    var _ :- UIntTypeByBitLength(itemBits);
    var rounded :=
      if roundToNearest then
        var nextBitValue := ApplyMask(itemBits, words, SingleBitMask(significantBits, itemBits).value).value;
        seq(|words|, i requires 0 <= i < |words| => Or(words[i], ShiftLeftOne(nextBitValue[i])))
      else words;
    ApplyMask(itemBits, rounded, MaskOf(itemBits, significantBits).value)
  }

  /** What pruning does to one word of type `t`. */
  function PruneWord(t: UInt, w: Word, significantBits: int, roundToNearest: bool): (r: Word)
    requires |w| == Bits(t)
    ensures |r| == Bits(t)
  {
    var rounded := if roundToNearest then Or(w, ShiftLeftOne(And(w, SingleBit(t, significantBits)))) else w;
    And(rounded, LeadingOnes(t, significantBits))
  }

  /** The array is pruned element by element. */
  lemma PruneNumpyArrayWords(itemBits: nat, words: seq<Word>, significantBits: int, roundToNearest: bool)
    requires Uniform(words, itemBits)
    requires PruneNumpyArray(itemBits, words, significantBits, roundToNearest).Ok?
    ensures forall i :: 0 <= i < |words| ==>
      PruneNumpyArray(itemBits, words, significantBits, roundToNearest).value[i]
        == PruneWord(UIntTypeByBitLength(itemBits).value, words[i], significantBits, roundToNearest)
  {
    var t := UIntTypeByBitLength(itemBits).value;
    var r := PruneNumpyArray(itemBits, words, significantBits, roundToNearest).value;
    forall i | 0 <= i < |words|
      ensures r[i] == PruneWord(t, words[i], significantBits, roundToNearest)
    {
      var expected := PruneWord(t, words[i], significantBits, roundToNearest);
      assert forall p :: 0 <= p < itemBits ==> r[i][p] == expected[p];
    }
  }

  /**
   * Bit `p` of a pruned word: a position before `significantBits` keeps its bit, ORed with the
   * first discarded bit when it is the last kept position and rounding is on; every later
   * position is cleared.
   */
  lemma PruneWordBits(t: UInt, w: Word, significantBits: int, roundToNearest: bool, p: nat)
    requires |w| == Bits(t) && p < Bits(t)
    ensures PruneWord(t, w, significantBits, roundToNearest)[p]
      == (p < significantBits
          && (w[p] || (roundToNearest && p + 1 == significantBits < Bits(t) && w[significantBits])))
  {
  }

  /** Pruning a pruned word again with the same settings changes nothing. */
  lemma PruneWordIdempotent(t: UInt, w: Word, significantBits: int, roundToNearest: bool)
    requires |w| == Bits(t)
    ensures var once := PruneWord(t, w, significantBits, roundToNearest);
      PruneWord(t, once, significantBits, roundToNearest) == once
  {
    var once := PruneWord(t, w, significantBits, roundToNearest);
    var twice := PruneWord(t, once, significantBits, roundToNearest);
    forall p | 0 <= p < Bits(t) ensures twice[p] == once[p] {
      PruneWordBits(t, w, significantBits, roundToNearest, p);
      PruneWordBits(t, once, significantBits, roundToNearest, p);
      if roundToNearest && p + 1 == significantBits < Bits(t) {
        PruneWordBits(t, w, significantBits, roundToNearest, significantBits);
      }
    }
  }

  /** With no significant bits the word becomes 0. */
  lemma PruneWordNoSignificantBits(t: UInt, w: Word, significantBits: int, roundToNearest: bool)
    requires |w| == Bits(t) && significantBits <= 0
    ensures Value(PruneWord(t, w, significantBits, roundToNearest)) == 0
  {
    ValueOfZero(PruneWord(t, w, significantBits, roundToNearest));
  }

  /** Keeping every bit of the type leaves the word as it was. */
  lemma PruneWordAllBits(t: UInt, w: Word, significantBits: int, roundToNearest: bool)
    requires |w| == Bits(t) && significantBits >= Bits(t)
    ensures PruneWord(t, w, significantBits, roundToNearest) == w
  {
    var r := PruneWord(t, w, significantBits, roundToNearest);
    forall p | 0 <= p < Bits(t) ensures r[p] == w[p] {
      PruneWordBits(t, w, significantBits, roundToNearest, p);
    }
  }

  /** A variable of a dataset: its name, the bit size of its items, and its values. */
  class DataArray {
    const name: string
    const itemBits: nat
    var values: seq<Word>

    predicate Valid()
      reads this
    {
      Uniform(values, itemBits)
    }

    constructor (name: string, itemBits: nat, values: seq<Word>)
      requires Uniform(values, itemBits)
      ensures this.name == name && this.itemBits == itemBits && this.values == values
      ensures Valid()
    {
      this.name := name;
      this.itemBits := itemBits;
      this.values := values;
    }
  }

  /** `prune_data_array(data_array, significant_bits)`: the values replaced, with rounding on. */
  method PruneDataArray(dataArray: DataArray, significantBits: int) returns (r: Result<()>)
    requires dataArray.Valid()
    modifies dataArray
    ensures dataArray.Valid()
    ensures r.Ok? <==> UIntTypeByBitLength(dataArray.itemBits).Ok?
    ensures r.Err? ==> r.error == NotImplementedError && dataArray.values == old(dataArray.values)
    ensures r.Ok? ==> (dataArray.values
      == PruneNumpyArray(dataArray.itemBits, old(dataArray.values), significantBits, true).value)
  {
    var pruned := PruneNumpyArray(dataArray.itemBits, dataArray.values, significantBits, true);
    if pruned.Err? {
      return Err(pruned.error);
    }
    dataArray.values := pruned.value;
    r := Ok(());
  }

  /** The variables `prune_dataset` prunes: not a coordinate, and given a number of bits. */
  predicate Targeted(name: string, coords: seq<string>, significantBits: Dict<int>)
  {
    name !in coords && name in Keys(significantBits)
  }

  /** The values a variable holds after `prune_dataset`. */
  function PrunedValues(values: seq<Word>, itemBits: nat, name: string, coords: seq<string>,
                        significantBits: Dict<int>): seq<Word>
    requires Uniform(values, itemBits)
  {
    if Targeted(name, coords, significantBits) && UIntTypeByBitLength(itemBits).Ok? then
      PruneNumpyArray(itemBits, values, Get(significantBits, name).value, true).value
    else values
  }

  /**
   * `prune_dataset(dataset, significant_bits_dictionary)`: every variable that is not a
   * coordinate and has an entry in the dictionary is pruned in place; the others are skipped.
   * An unsupported item size stops the loop there, with the variables before it already pruned.
   */
  method PruneDataset(variables: seq<DataArray>, coords: seq<string>, significantBits: Dict<int>)
    returns (r: Result<()>)
    requires forall i, j :: 0 <= i < j < |variables| ==> variables[i] != variables[j]
    requires forall i :: 0 <= i < |variables| ==> Uniform(variables[i].values, variables[i].itemBits)
    modifies set i | 0 <= i < |variables| :: variables[i]
    ensures forall i :: 0 <= i < |variables| ==> variables[i].Valid()
    ensures r.Ok? <==> forall i :: (0 <= i < |variables| && Targeted(variables[i].name, coords, significantBits)
      ==> UIntTypeByBitLength(variables[i].itemBits).Ok?)
    ensures r.Ok? ==> forall i :: 0 <= i < |variables| ==> (variables[i].values
      == PrunedValues(old(variables[i].values), variables[i].itemBits, variables[i].name, coords, significantBits))
    ensures r.Err? ==> r.error == NotImplementedError && exists k :: (0 <= k < |variables|
      && Targeted(variables[k].name, coords, significantBits)
      && UIntTypeByBitLength(variables[k].itemBits).Err?
      && (forall i :: 0 <= i < k ==> variables[i].values == PrunedValues(old(variables[i].values),
            variables[i].itemBits, variables[i].name, coords, significantBits))
      && (forall i :: k <= i < |variables| ==> variables[i].values == old(variables[i].values)))
  {
    for k := 0 to |variables|
      invariant forall i :: 0 <= i < |variables| ==> variables[i].Valid()
      invariant forall i :: (0 <= i < k && Targeted(variables[i].name, coords, significantBits)
        ==> UIntTypeByBitLength(variables[i].itemBits).Ok?)
      invariant forall i :: 0 <= i < k ==> (variables[i].values == PrunedValues(old(variables[i].values),
        variables[i].itemBits, variables[i].name, coords, significantBits))
      invariant forall i :: k <= i < |variables| ==> variables[i].values == old(variables[i].values)
    {
      var variable := variables[k];
      if variable.name in coords || variable.name !in Keys(significantBits) {
        continue;
      }
      var bits := Get(significantBits, variable.name).value;
      label before:
      var pruned := PruneDataArray(variable, bits);
      assert forall i :: 0 <= i < |variables| && i != k ==> variables[i].values == old@before(variables[i].values);
      if pruned.Err? {
        return Err(pruned.error);
      }
    }
    r := Ok(());
  }
}
