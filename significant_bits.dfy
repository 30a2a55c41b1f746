/**
 * Bit-level helpers for finding and keeping the significant bits of floating-point data: masks
 * over unsigned words of 8, 16, 32 or 64 bits, bit extraction, the conditional count of a bit
 * stream with its circular predecessor, the removal of repeated values, and the index logic of
 * the mutual-information report.
 *
 * A word of an n-bit unsigned type is the sequence of its n bits, most significant first, so
 * that the index of a bit is its position as the source counts it (position 0 is the sign bit
 * of a float). `Value` gives the number the word denotes. Bitwise and/or act bit by bit, and a
 * left shift by one inside the type drops the first bit and appends a zero.
 */
module SignificantBits {
  import opened Wrappers

  type Word = seq<bool>

  /** The unsigned integer types a float array can be viewed as. */
  datatype UInt = UInt8 | UInt16 | UInt32 | UInt64

  function Bits(t: UInt): nat
  {
    match t
    case UInt8 => 8
    case UInt16 => 16
    case UInt32 => 32
    case UInt64 => 64
  }

  /** `get_uint_type_by_bit_length`: only 8, 16, 32 and 64 bits are supported. */
  function UIntTypeByBitLength(bits: int): (r: Result<UInt>)
    ensures r.Ok? <==> bits == 8 || bits == 16 || bits == 32 || bits == 64
    ensures r.Ok? ==> Bits(r.value) == bits
    ensures r.Err? ==> r.error == NotImplementedError
  {
    if bits == 8 then Ok(UInt8)
    else if bits == 16 then Ok(UInt16)
    else if bits == 32 then Ok(UInt32)
    else if bits == 64 then Ok(UInt64)
    else Err(NotImplementedError)
  }

  // ---------------------------------------------------------------------------------------------
  // Words

  function Pow2(n: nat): (p: nat)
    ensures p >= 1
  {
    if n == 0 then 1 else 2 * Pow2(n - 1)
  }

  /** The unsigned number a word denotes, its first bit the most significant. */
  function Value(w: Word): (v: nat)
    ensures v < Pow2(|w|)
  {
    if |w| == 0 then 0 else 2 * Value(w[..|w| - 1]) + (if w[|w| - 1] then 1 else 0)
  }

  function Or(a: Word, b: Word): (r: Word)
    requires |a| == |b|
    ensures |r| == |a| && forall i :: 0 <= i < |a| ==> r[i] == (a[i] || b[i])
  {
    seq(|a|, i requires 0 <= i < |a| => a[i] || b[i])
  }

  function And(a: Word, b: Word): (r: Word)
    requires |a| == |b|
    ensures |r| == |a| && forall i :: 0 <= i < |a| ==> r[i] == (a[i] && b[i])
  {
    seq(|a|, i requires 0 <= i < |a| => a[i] && b[i])
  }

  /** `np.left_shift(w, 1)` in the word's own type: the top bit is lost, a zero comes in. */
  function ShiftLeftOne(w: Word): (r: Word)
    ensures |r| == |w|
    ensures forall i :: 0 <= i < |w| - 1 ==> r[i] == w[i + 1]
    ensures |w| > 0 ==> !r[|w| - 1]
  {
    if |w| == 0 then w else w[1..] + [false]
  }

  lemma ValueSplitLast(w: Word)
    requires |w| > 0
    ensures Value(w) == 2 * Value(w[..|w| - 1]) + (if w[|w| - 1] then 1 else 0)
  {
  }

  /** The first bit of a word weighs `2^(n-1)`. */
  lemma {:induction false} ValueSplitFirst(w: Word)
    requires |w| > 0
    ensures Value(w) == (if w[0] then Pow2(|w| - 1) else 0) + Value(w[1..])
    decreases |w|
  {
    if |w| > 1 {
      var init := w[..|w| - 1];
      ValueSplitFirst(init);
      assert init[1..] == w[1..][..|w| - 2];
      assert init[0] == w[0];
    } else {
      assert w[1..] == [];
    }
  }

  /** Position `p` of a word is set in the word denoting `2^(n-1-p)` and in no other. */
  lemma {:induction false} ValueOfOneHot(w: Word, p: nat)
    requires p < |w|
    requires forall i :: 0 <= i < |w| ==> w[i] == (i == p)
    ensures Value(w) == Pow2(|w| - 1 - p)
    decreases |w|
  {
    ValueSplitFirst(w);
    if p == 0 {
      ValueOfZero(w[1..]);
    } else {
      ValueOfOneHot(w[1..], p - 1);
    }
  }

  lemma {:induction false} ValueOfZero(w: Word)
    requires forall i :: 0 <= i < |w| ==> !w[i]
    ensures Value(w) == 0
    decreases |w|
  {
    if |w| > 0 {
      ValueOfZero(w[..|w| - 1]);
    }
  }

  // ---------------------------------------------------------------------------------------------
  // single_bit_mask and mask_generator

  /**
   * `1 << (bits - position - 1)` in the type. A position outside the word makes the shift
   * amount, cast to the unsigned type, the width or more, and numpy shifts the one out.
   */
  function SingleBit(t: UInt, position: int): (r: Word)
    ensures |r| == Bits(t)
  {
    seq(Bits(t), i requires 0 <= i < Bits(t) => i == position)
  }

  /** The single-bit mask is `2^(bits - position - 1)`, and 0 outside the word. */
  lemma SingleBitValue(t: UInt, position: int)
    ensures 0 <= position < Bits(t) ==> Value(SingleBit(t, position)) == Pow2(Bits(t) - 1 - position)
    ensures !(0 <= position < Bits(t)) ==> Value(SingleBit(t, position)) == 0
  {
    if 0 <= position < Bits(t) {
      ValueOfOneHot(SingleBit(t, position), position);
    } else {
      ValueOfZero(SingleBit(t, position));
    }
  }

  /** `single_bit_mask(position, bits)`. */
  function SingleBitMask(position: int, bits: int): (r: Result<Word>)
    ensures r.Ok? <==> UIntTypeByBitLength(bits).Ok?
    ensures r.Err? ==> r.error == NotImplementedError
    ensures r.Ok? ==> |r.value| == bits
    ensures r.Ok? ==> forall i :: 0 <= i < bits ==> r.value[i] == (i == position)
  {
    var t :- UIntTypeByBitLength(bits);
    Ok(SingleBit(t, position))
  }

  /** The top `n` bits set and the others clear. */
  function LeadingOnes(t: UInt, n: int): (r: Word)
    ensures |r| == Bits(t)
  {
    seq(Bits(t), i requires 0 <= i < Bits(t) => i < n)
  }

  /** The leading-ones mask denotes `2^bits - 2^(bits - n)`. */
  lemma LeadingOnesValue(t: UInt, n: nat)
    requires n <= Bits(t)
    ensures Value(LeadingOnes(t, n)) == Pow2(Bits(t)) - Pow2(Bits(t) - n)
  {
    PrefixOnesValue(LeadingOnes(t, n), n);
  }

  lemma {:induction false} PrefixOnesValue(w: Word, n: nat)
    requires n <= |w|
    requires forall i :: 0 <= i < |w| ==> w[i] == (i < n)
    ensures Value(w) == Pow2(|w|) - Pow2(|w| - n)
    decreases n
  {
    if n == 0 {
      ValueOfZero(w);
    } else {
      ValueSplitFirst(w);
      PrefixOnesValue(w[1..], n - 1);
    }
  }

  /** `mask_generator(bits, ones)`: the OR of the single-bit masks of `range(ones)`. */
  function MaskOf(bits: int, ones: int): (r: Result<Word>)
    ensures r.Ok? <==> UIntTypeByBitLength(bits).Ok?
    ensures r.Err? ==> r.error == NotImplementedError
    ensures r.Ok? ==> |r.value| == bits
  {
    var t :- UIntTypeByBitLength(bits);
    Ok(LeadingOnes(t, ones))
  }

  lemma {:induction false} Pow2Add(a: nat, b: nat)
    ensures Pow2(a + b) == Pow2(a) * Pow2(b)
    decreases a
  {
    if a > 0 {
      Pow2Add(a - 1, b);
    }
  }

  lemma Pow2Constants()
    ensures Pow2(22) == 0x40_0000 && Pow2(32) == 0x1_0000_0000
  {
    Pow2Add(5, 5);
    Pow2Add(10, 10);
    Pow2Add(2, 20);
    Pow2Add(10, 22);
    assert Pow2(2) == 4 && Pow2(5) == 32;
  }

  /** The documented example: ten ones followed by 22 zeros. */
  lemma MaskGeneratorExample()
    ensures MaskOf(32, 10).Ok? && Value(MaskOf(32, 10).value) == 0xFFC0_0000
  {
    LeadingOnesValue(UInt32, 10);
    Pow2Constants();
  }

  /** `mask_generator`, OR-ing the single-bit masks one by one. */
  method MaskGenerator(bits: int, ones: int) returns (r: Result<Word>)
    ensures r == MaskOf(bits, ones)
  {
    var maskType := UIntTypeByBitLength(bits);
    if maskType.Err? {
      return Err(maskType.error);
    }
    var t := maskType.value;
    var mask := LeadingOnes(t, 0);
    var count := if ones < 0 then 0 else ones;
    for i := 0 to count
      invariant mask == LeadingOnes(t, i)
    {
      mask := Or(mask, SingleBit(t, i));
    }
    assert LeadingOnes(t, ones) == LeadingOnes(t, count);
    r := Ok(mask);
  }

  // ---------------------------------------------------------------------------------------------
  // apply_mask and extract_bit_at_position

  /** Every element of an array of `itemBits`-bit items is a word of that width. */
  predicate Uniform(words: seq<Word>, itemBits: nat)
  {
    forall i :: 0 <= i < |words| ==> |words[i]| == itemBits
  }

  /** `apply_mask(array, mask)`: the array viewed as unsigned words, ANDed with the mask. */
  function ApplyMask(itemBits: nat, words: seq<Word>, mask: Word): (r: Result<seq<Word>>)
    requires Uniform(words, itemBits) && |mask| == itemBits
    ensures r.Ok? <==> UIntTypeByBitLength(itemBits).Ok?
    ensures r.Err? ==> r.error == NotImplementedError
    ensures r.Ok? ==> |r.value| == |words| && Uniform(r.value, itemBits)
    ensures r.Ok? ==> forall i, p :: 0 <= i < |words| && 0 <= p < itemBits ==>
      r.value[i][p] == (words[i][p] && mask[p])
  {
    var _ :- UIntTypeByBitLength(itemBits);
    var masked := seq(|words|, i requires 0 <= i < |words| => And(words[i], mask));
    assert forall i :: 0 <= i < |words| ==> masked[i] == And(words[i], mask);
    Ok(masked)
  }

  /** Masking twice with the same mask is masking once. */
  lemma ApplyMaskIdempotent(itemBits: nat, words: seq<Word>, mask: Word)
    requires Uniform(words, itemBits) && |mask| == itemBits
    requires ApplyMask(itemBits, words, mask).Ok?
    ensures ApplyMask(itemBits, ApplyMask(itemBits, words, mask).value, mask)
      == ApplyMask(itemBits, words, mask)
  {
    var once := ApplyMask(itemBits, words, mask).value;
    var twice := ApplyMask(itemBits, once, mask).value;
    forall i | 0 <= i < |words| ensures twice[i] == once[i] {
      assert forall p :: 0 <= p < itemBits ==> twice[i][p] == once[i][p];
    }
    assert twice == once;
  }

  /**
   * The word masked with the single bit of `position` and shifted right by
   * `bits - position - 1`; outside the word the mask is empty and the result 0.
   */
  function ExtractedBit(t: UInt, w: Word, position: int): (b: nat)
    requires |w| == Bits(t)
  {
    if 0 <= position < Bits(t) then
      var masked := And(w, SingleBit(t, position));
      var shift: nat := Bits(t) - position - 1;
      ShiftRight(Value(masked), shift)
    else 0
  }

  /** The masked and shifted word is the bit at the position, counted from the top. */
  lemma ExtractedBitIsBit(t: UInt, w: Word, position: int)
    requires |w| == Bits(t)
    ensures ExtractedBit(t, w, position) == if 0 <= position < Bits(t) && w[position] then 1 else 0
  {
    if 0 <= position < Bits(t) {
      var masked := And(w, SingleBit(t, position));
      var shift := Bits(t) - position - 1;
      if w[position] {
        assert forall i :: 0 <= i < |masked| ==> masked[i] == (i == position);
        ValueOfOneHot(masked, position);
        QuotientIsNat(Pow2(shift), Pow2(shift));
        assert ShiftRight(Pow2(shift), shift) == 1;
      } else {
        assert forall i :: 0 <= i < |masked| ==> !masked[i];
        ValueOfZero(masked);
      }
    }
  }

  /** `np.right_shift(v, shift)` on an unsigned value. */
  function ShiftRight(v: nat, shift: nat): nat
  {
    var divisor := Pow2(shift);
    QuotientIsNat(v, divisor);
    v / divisor
  }

  /** Euclidean division of a natural number by a positive one gives a natural number. */
  lemma QuotientIsNat(v: nat, d: nat)
    requires d > 0
    ensures v / d >= 0 && d / d == 1
  {
  }

  /**
   * `extract_bit_at_position(array, position)` on a one-dimensional array: each element's bit
   * at the position as a `uint8` 0 or 1.
   */
  function ExtractBitAtPosition(itemBits: nat, words: seq<Word>, position: int): (r: Result<seq<nat>>)
    requires Uniform(words, itemBits)
    ensures r.Ok? <==> UIntTypeByBitLength(itemBits).Ok?
    ensures r.Err? ==> r.error == NotImplementedError
  {
    var t :- UIntTypeByBitLength(itemBits);
    Ok(seq(|words|, i requires 0 <= i < |words| => ExtractedBit(t, words[i], position)))
  }

  /** The extracted array has one 0 or 1 per element: the element's bit at `position`. */
  lemma ExtractBitAtPositionBits(itemBits: nat, words: seq<Word>, position: int)
    requires Uniform(words, itemBits)
    requires ExtractBitAtPosition(itemBits, words, position).Ok?
    ensures |ExtractBitAtPosition(itemBits, words, position).value| == |words|
    ensures forall i :: 0 <= i < |words| ==>
      ExtractBitAtPosition(itemBits, words, position).value[i]
        == if 0 <= position < itemBits && words[i][position] then 1 else 0
  {
    var t := UIntTypeByBitLength(itemBits).value;
    forall i | 0 <= i < |words|
      ensures ExtractedBit(t, words[i], position) == if 0 <= position < itemBits && words[i][position] then 1 else 0
    {
      ExtractedBitIsBit(t, words[i], position);
    }
  }

  // ---------------------------------------------------------------------------------------------
  // bit_conditional_count

  /** `np.roll(a, 1)[i]`: the circular predecessor. */
  function Prev<T>(a: seq<T>, i: nat): T
    requires i < |a|
  {
    if i == 0 then a[|a| - 1] else a[i - 1]
  }

  /** The counts of (bit, previous bit) pairs, indexed as `count_matrix[bit, previous]`. */
  datatype CountMatrix = CountMatrix(zeroZero: nat, zeroOne: nat, oneZero: nat, oneOne: nat)

  /** How many of the first `k` positions hold `bit` after a position holding `previous`. */
  function PairCount(a: seq<nat>, bit: bool, previous: bool, k: nat): (c: nat)
    requires k <= |a|
    ensures c <= k
  {
    if k == 0 then 0
    else PairCount(a, bit, previous, k - 1) + (if (a[k - 1] != 0) == bit && (Prev(a, k - 1) != 0) == previous then 1 else 0)
  }

  /** `bit_conditional_count(array)`, with `astype(bool)` reading any non-zero as a one. */
  function BitConditionalCount(a: seq<nat>): (m: CountMatrix)
    ensures m.zeroZero <= |a| && m.zeroOne <= |a| && m.oneZero <= |a| && m.oneOne <= |a|
  {
    CountMatrix(
      PairCount(a, false, false, |a|),
      PairCount(a, false, true, |a|),
      PairCount(a, true, false, |a|),
      PairCount(a, true, true, |a|))
  }

  /** Every position falls in exactly one cell, the first one paired with the last. */
  lemma {:induction false} PairCountsPartition(a: seq<nat>, k: nat)
    requires k <= |a|
    ensures PairCount(a, false, false, k) + PairCount(a, false, true, k)
      + PairCount(a, true, false, k) + PairCount(a, true, true, k) == k
  {
    if k > 0 {
      PairCountsPartition(a, k - 1);
    }
  }

  /** The four cells of the count matrix add up to the length of the array. */
  lemma CountMatrixSum(a: seq<nat>)
    ensures var m := BitConditionalCount(a); m.zeroZero + m.zeroOne + m.oneZero + m.oneOne == |a|
  {
    PairCountsPartition(a, |a|);
  }

  // ---------------------------------------------------------------------------------------------
  // fix_repetition

  /** The elements among the first `k` that differ from their circular predecessor. */
  function Kept<T(==)>(a: seq<T>, k: nat): (r: seq<T>)
    requires k <= |a|
    ensures |r| <= k
  {
    if k == 0 then []
    else Kept(a, k - 1) + (if a[k - 1] != Prev(a, k - 1) then [a[k - 1]] else [])
  }

  /** The positions `Kept` selects, in increasing order. */
  function KeptIndices<T(==)>(a: seq<T>, k: nat): (r: seq<nat>)
    requires k <= |a|
    ensures |r| == |Kept(a, k)|
    ensures forall j :: 0 <= j < |r| ==> r[j] < k
  {
    if k == 0 then []
    else KeptIndices(a, k - 1) + (if a[k - 1] != Prev(a, k - 1) then [k - 1] else [])
  }

  /** `fix_repetition(array)`: `array[array != np.roll(array, 1)]`. */
  function FixRepetition<T(==)>(a: seq<T>): (r: seq<T>)
    ensures |r| <= |a|
  {
    Kept(a, |a|)
  }

  /** Each kept element is the element of `a` at the corresponding kept position. */
  lemma {:induction false} KeptAtIndices<T>(a: seq<T>, k: nat)
    requires k <= |a|
    ensures forall j :: 0 <= j < |KeptIndices(a, k)| ==> Kept(a, k)[j] == a[KeptIndices(a, k)[j]]
  {
    if k > 0 {
      KeptAtIndices(a, k - 1);
    }
  }

  /** The kept positions are strictly increasing. */
  lemma {:induction false} KeptIndicesIncrease<T>(a: seq<T>, k: nat)
    requires k <= |a|
    ensures forall j, l :: 0 <= j < l < |KeptIndices(a, k)| ==> KeptIndices(a, k)[j] < KeptIndices(a, k)[l]
  {
    if k > 0 {
      KeptIndicesIncrease(a, k - 1);
    }
  }

  /** A position is kept exactly when its element differs from its circular predecessor. */
  lemma {:induction false} KeptIndexSelect<T>(a: seq<T>, k: nat, i: nat)
    requires i < k <= |a|
    ensures i in KeptIndices(a, k) <==> a[i] != Prev(a, i)
  {
    var before := KeptIndices(a, k - 1);
    var step: seq<nat> := if a[k - 1] != Prev(a, k - 1) then [k - 1] else [];
    assert KeptIndices(a, k) == before + step;
    if i < k - 1 {
      KeptIndexSelect(a, k - 1, i);
      assert i !in step;
    } else {
      assert i !in before;
    }
  }

  /**
   * `fix_repetition` returns the subsequence of `a` at strictly increasing positions, and a
   * position is selected exactly when its element differs from its circular predecessor.
   */
  lemma FixRepetitionIsSubsequence<T>(a: seq<T>)
    ensures var idx := KeptIndices(a, |a|);
      (forall j :: 0 <= j < |idx| ==> FixRepetition(a)[j] == a[idx[j]])
      && (forall j, l :: 0 <= j < l < |idx| ==> idx[j] < idx[l])
      && (forall i :: 0 <= i < |a| ==> (i in idx <==> a[i] != Prev(a, i)))
  {
    KeptAtIndices(a, |a|);
    KeptIndicesIncrease(a, |a|);
    forall i | 0 <= i < |a| ensures i in KeptIndices(a, |a|) <==> a[i] != Prev(a, i) {
      KeptIndexSelect(a, |a|, i);
    }
  }

  /** An array holding a single value throughout comes out empty. */
  lemma {:induction false} KeptOfConstant<T>(a: seq<T>, k: nat)
    requires k <= |a|
    requires forall i :: 0 <= i < |a| ==> a[i] == a[0]
    ensures Kept(a, k) == []
  {
    if k > 0 {
      KeptOfConstant(a, k - 1);
      assert a[k - 1] == a[0] && Prev(a, k - 1) == a[0];
    }
  }

  lemma FixRepetitionOfConstant<T>(a: seq<T>)
    requires forall i :: 0 <= i < |a| ==> a[i] == a[0]
    ensures FixRepetition(a) == []
  {
    KeptOfConstant(a, |a|);
  }

  // ---------------------------------------------------------------------------------------------
  // filter_insignificant_values

  /**
   * `filter_insignificant_values`: values not above the threshold become 0.0. The threshold,
   * the binomial-confidence entropy of a random bit, is a parameter.
   */
  function FilterInsignificantValues(values: seq<real>, threshold: real): (r: seq<real>)
    ensures |r| == |values|
    ensures forall i :: 0 <= i < |values| ==>
      r[i] == if values[i] > threshold then values[i] else 0.0
  {
    seq(|values|, i requires 0 <= i < |values| => if values[i] > threshold then values[i] else 0.0)
  }

  /** Filtering an already filtered list changes nothing. */
  lemma FilterIdempotent(values: seq<real>, threshold: real)
    ensures FilterInsignificantValues(FilterInsignificantValues(values, threshold), threshold)
      == FilterInsignificantValues(values, threshold)
  {
  }

  /** After filtering, every value is above the threshold or exactly 0.0. */
  lemma FilterKeepsSignificant(values: seq<real>, threshold: real, i: nat)
    requires i < |values|
    ensures var r := FilterInsignificantValues(values, threshold);
      r[i] > threshold || r[i] == 0.0
  {
  }

  // ---------------------------------------------------------------------------------------------
  // array_mutual_information

  /**
   * `array_mutual_information`: for every bit position, the mutual information of the extracted
   * bit stream, then the insignificant values filtered out. The information of one bit stream
   * and the threshold are parameters.
   */
  method ArrayMutualInformation(itemBits: nat, words: seq<Word>, information: seq<nat> -> real,
                                threshold: real)
    returns (r: Result<seq<real>>)
    requires Uniform(words, itemBits)
    ensures r.Ok? <==> UIntTypeByBitLength(itemBits).Ok?
    ensures r.Err? ==> r.error == NotImplementedError
    ensures r.Ok? ==> r.value == FilterInsignificantValues(
      seq(itemBits, p requires 0 <= p < itemBits => information(ExtractBitAtPosition(itemBits, words, p).value)),
      threshold)
  {
    if UIntTypeByBitLength(itemBits).Err? {
      return Err(NotImplementedError);
    }
    var mutualInformation := seq(itemBits, _ => 0.0);
    for position := 0 to itemBits
      invariant |mutualInformation| == itemBits
      invariant forall p :: 0 <= p < position ==>
        mutualInformation[p] == information(ExtractBitAtPosition(itemBits, words, p).value)
    {
      var bits := ExtractBitAtPosition(itemBits, words, position).value;
      mutualInformation := mutualInformation[position := information(bits)];
    }
    r := Ok(FilterInsignificantValues(mutualInformation, threshold));
  }

  // ---------------------------------------------------------------------------------------------
  // mutual_information_report

  function Sum(s: seq<real>): real
  {
    if |s| == 0 then 0.0 else Sum(s[..|s| - 1]) + s[|s| - 1]
  }

  /** The first mantissa bit of a 32-bit or 64-bit float; other widths are not implemented. */
  function FirstMantissaBit(bits: int): (r: Result<nat>)
    ensures r.Ok? <==> bits == 32 || bits == 64
    ensures r.Ok? ==> 0 < r.value < bits
    ensures r.Err? ==> r.error == NotImplementedError
  {
    if bits == 32 then Ok(10)
    else if bits == 64 then Ok(12)
    else Err(NotImplementedError)
  }

  /** The running sums of a list: entry `i` adds up the first `i + 1` values. */
  function Accumulated(s: seq<real>): (acc: seq<real>)
    ensures |acc| == |s|
    ensures forall i :: 0 <= i < |s| ==> acc[i] == Sum(s[..i + 1])
  {
    seq(|s|, i requires 0 <= i < |s| => Sum(s[..i + 1]))
  }

  /** Appending a value appends its sum with everything before it. */
  lemma AccumulatedAppend(s: seq<real>, x: real)
    ensures Accumulated(s + [x]) == Accumulated(s) + [Sum(s) + x]
  {
    var t := s + [x];
    forall j | 0 <= j < |s| ensures Accumulated(t)[j] == Accumulated(s)[j] {
      assert t[..j + 1] == s[..j + 1];
    }
    assert t[..|s| + 1] == t && t[..|t| - 1] == s;
  }

  /** The accumulation loop of the report, appending the previous sum plus the next value. */
  method RunningSums(s: seq<real>) returns (acc: seq<real>)
    requires |s| > 0
    ensures acc == Accumulated(s)
  {
    acc := [s[0]];
    AccumulatedAppend([], s[0]);
    assert s[..1] == [] + [s[0]];
    for i := 1 to |s|
      invariant acc == Accumulated(s[..i])
    {
      assert s[..i][..i] == s[..i];
      AccumulatedAppend(s[..i], s[i]);
      assert s[..i + 1] == s[..i] + [s[i]];
      acc := acc + [acc[i - 1] + s[i]];
    }
    assert s[..|s|] == s;
  }

  /** `list.index(True)` on the flags `acc[i] > bound`: ValueError when no sum exceeds it. */
  function FirstAbove(acc: seq<real>, bound: real): (r: Result<nat>)
    ensures r.Ok? ==> r.value < |acc| && acc[r.value] > bound
    ensures r.Ok? ==> forall j :: 0 <= j < r.value ==> acc[j] <= bound
    ensures r.Err? ==> r.error == ValueError && forall j :: 0 <= j < |acc| ==> acc[j] <= bound
  {
    if |acc| == 0 then Err(ValueError)
    else if acc[0] > bound then Ok(0)
    else
      match FirstAbove(acc[1..], bound)
      case Ok(i) => Ok(i + 1)
      case Err(e) => Err(e)
  }

  /** Share of the mantissa information the significant bits must hold. */
  const PreservedInformation: real := 0.99

  /** The three results of the report. */
  datatype Report = Report(exponentInformation: real, mantissaInformation: real, significantBits: nat)

  /** The mantissa information with the values below the threshold set to 0.0. */
  function MantissaBits(information: seq<real>, first: nat, threshold: real): (m: seq<real>)
    requires first <= |information|
    ensures |m| == |information| - first
  {
    seq(|information| - first, i requires 0 <= i < |information| - first =>
      if information[first + i] >= threshold then information[first + i] else 0.0)
  }

  /**
   * `mutual_information_report(information, n)`. `threshold` stands for
   * `minimum_meaningful_value(n)`.
   */
  function MutualInformationReport(information: seq<real>, threshold: real): (r: Result<Report>)
    ensures r.Err? ==> r.error == NotImplementedError || r.error == ValueError
    ensures r.Err? && r.error == NotImplementedError <==> |information| != 32 && |information| != 64
  {
    var first :- FirstMantissaBit(|information|);
    var exponent := Sum(information[1..first]);
    var mantissa := MantissaBits(information, first, threshold);
    var total := Sum(mantissa);
    var index :- FirstAbove(Accumulated(mantissa), total * PreservedInformation);
    Ok(Report(exponent, total, first + index))
  }

  /**
   * The number of significant bits lies between the first mantissa bit and the width, and is
   * the first mantissa bit plus the first index whose running sum exceeds 99 % of the total.
   */
  lemma ReportSignificantBits(information: seq<real>, threshold: real)
    requires MutualInformationReport(information, threshold).Ok?
    ensures var first := FirstMantissaBit(|information|).value;
      var r := MutualInformationReport(information, threshold).value;
      var acc := Accumulated(MantissaBits(information, first, threshold));
      first <= r.significantBits < |information|
      && acc[r.significantBits - first] > r.mantissaInformation * PreservedInformation
      && forall j :: 0 <= j < r.significantBits - first ==> acc[j] <= r.mantissaInformation * PreservedInformation
  {
  }

  /** A positive total is always exceeded by the last running sum, so the report succeeds. */
  lemma ReportSucceedsOnPositiveTotal(information: seq<real>, threshold: real)
    requires |information| == 32 || |information| == 64
    requires Sum(MantissaBits(information, FirstMantissaBit(|information|).value, threshold)) > 0.0
    ensures MutualInformationReport(information, threshold).Ok?
  {
    var first := FirstMantissaBit(|information|).value;
    var mantissa := MantissaBits(information, first, threshold);
    var acc := Accumulated(mantissa);
    assert mantissa[..|mantissa|] == mantissa;
    assert acc[|acc| - 1] == Sum(mantissa);
    assert acc[|acc| - 1] > Sum(mantissa) * PreservedInformation;
  }

  lemma {:induction false} SumOfZeros(s: seq<real>)
    requires forall i :: 0 <= i < |s| ==> s[i] == 0.0
    ensures Sum(s) == 0.0
  {
    if |s| > 0 {
      SumOfZeros(s[..|s| - 1]);
    }
  }

  lemma AccumulatedOfZeros(s: seq<real>)
    requires forall i :: 0 <= i < |s| ==> s[i] == 0.0
    ensures forall i :: 0 <= i < |s| ==> Accumulated(s)[i] == 0.0
  {
    forall i | 0 <= i < |s| ensures Accumulated(s)[i] == 0.0 {
      SumOfZeros(s[..i + 1]);
    }
  }

  /** When no mantissa bit reaches the threshold, every running sum is 0 and `index` fails. */
  lemma ReportFailsWithoutSignificantMantissa(information: seq<real>, threshold: real)
    requires |information| == 32 || |information| == 64
    requires forall i :: FirstMantissaBit(|information|).value <= i < |information| ==> information[i] < threshold
    ensures MutualInformationReport(information, threshold) == Err(ValueError)
  {
    var first := FirstMantissaBit(|information|).value;
    var mantissa := MantissaBits(information, first, threshold);
    SumOfZeros(mantissa);
    AccumulatedOfZeros(mantissa);
  }

  /** The report as the source computes it, with the running sums built by the loop. */
  method MutualInformationReportMethod(information: seq<real>, threshold: real) returns (r: Result<Report>)
    ensures r == MutualInformationReport(information, threshold)
  {
    var firstResult := FirstMantissaBit(|information|);
    if firstResult.Err? {
      return Err(firstResult.error);
    }
    var first := firstResult.value;
    var exponent := Sum(information[1..first]);
    var mantissa := MantissaBits(information, first, threshold);
    var total := Sum(mantissa);
    var accumulated := RunningSums(mantissa);
    var index := FirstAbove(accumulated, total * PreservedInformation);
    if index.Err? {
      return Err(index.error);
    }
    r := Ok(Report(exponent, total, first + index.value));
  }
}
