/**
 * The values the analyzer works on.
 *
 * A data array holds floating-point values, any of which may be NaN. A variable with a
 * time dimension is a sequence of time steps, each flattened to one sequence of values.
 * Compression parameters and parameter ranges are Python scalars: a float, an int, or
 * anything else that came out of the external compressor/mode table.
 */
module DataModel {
  import opened Wrappers

  datatype Value = Num(x: real) | NaN

  /** The fill value `DataArrayMetrics.fix_nan` writes over NaN entries. */
  const FillValue: real := -1000.0

  predicate HasNaN(s: seq<Value>)
  {
    exists i :: 0 <= i < |s| && s[i].NaN?
  }

  /** One value after the NaN fill. */
  function FixNanValue(v: Value): Value
  {
    if v.NaN? then Num(FillValue) else v
  }

  /** Every NaN replaced by the fill value; every number kept where it was. */
  function FixNanValues(s: seq<Value>): (r: seq<Value>)
    ensures |r| == |s|
    ensures !HasNaN(r)
    ensures forall i :: 0 <= i < |s| && s[i].Num? ==> r[i] == s[i]
    ensures forall i :: 0 <= i < |s| && s[i].NaN? ==> r[i] == Num(FillValue)
  {
    seq(|s|, i requires 0 <= i < |s| => FixNanValue(s[i]))
  }

  /** Filling twice is filling once: the fill leaves nothing to fill. */
  lemma FixNanIdempotent(s: seq<Value>)
    ensures FixNanValues(FixNanValues(s)) == FixNanValues(s)
  {
    var once := FixNanValues(s);
    assert forall i :: 0 <= i < |once| ==> once[i].Num?;
  }

  /** The numbers of an array that has no NaN. */
  function Reals(s: seq<Value>): (r: seq<real>)
    requires !HasNaN(s)
    ensures |r| == |s|
    ensures forall i :: 0 <= i < |s| ==> s[i] == Num(r[i])
  {
    seq(|s|, i requires 0 <= i < |s| => s[i].x)
  }

  /** A variable's values: either a sequence of time steps or a single field. */
  datatype Grid = Timed(steps: seq<seq<Value>>) | Untimed(values: seq<Value>)

  /** `data_array.isel(time=-1)` when there is a time dimension, the array itself otherwise. */
  function LastTimeStep(g: Grid): (r: Result<seq<Value>>)
    ensures g.Untimed? ==> r == Ok(g.values)
    ensures g.Timed? && |g.steps| > 0 ==> r == Ok(g.steps[|g.steps| - 1])
    ensures r.Err? <==> g.Timed? && |g.steps| == 0
  {
    match g
    case Untimed(values) => Ok(values)
    case Timed(steps) => if |steps| == 0 then Err(IndexError) else Ok(steps[|steps| - 1])
  }

  function TotalLength(steps: seq<seq<Value>>): nat
  {
    if |steps| == 0 then 0 else TotalLength(steps[..|steps| - 1]) + |steps[|steps| - 1]|
  }

  /** Number of elements of the whole array (`DataArray.size`). */
  function Size(g: Grid): nat
  {
    match g
    case Untimed(values) => |values|
    case Timed(steps) => TotalLength(steps)
  }

  /** A Python scalar as it appears in a parameter range. */
  datatype Scalar = Float(r: real) | Int(i: int) | Other

  /** `(looser, tighter)`: the first bound is the loosest parameter, the second the tightest. */
  datatype ParameterRange = ParameterRange(looser: Scalar, tighter: Scalar)

  /** The numeric value of a float or int scalar. */
  function AsReal(s: Scalar): real
    requires !s.Other?
  {
    match s
    case Float(r) => r
    case Int(i) => i as real
  }

  function Max(s: seq<real>): (m: real)
    requires |s| > 0
    ensures forall i :: 0 <= i < |s| ==> s[i] <= m
    ensures exists i :: 0 <= i < |s| && s[i] == m
  {
    if |s| == 1 then s[0]
    else
      var rest := Max(s[..|s| - 1]);
      assert forall i :: 0 <= i < |s| - 1 ==> s[..|s| - 1][i] == s[i];
      if s[|s| - 1] > rest then s[|s| - 1] else rest
  }

  function Min(s: seq<real>): (m: real)
    requires |s| > 0
    ensures forall i :: 0 <= i < |s| ==> m <= s[i]
    ensures exists i :: 0 <= i < |s| && s[i] == m
  {
    if |s| == 1 then s[0]
    else
      var rest := Min(s[..|s| - 1]);
      assert forall i :: 0 <= i < |s| - 1 ==> s[..|s| - 1][i] == s[i];
      if s[|s| - 1] < rest then s[|s| - 1] else rest
  }
}
