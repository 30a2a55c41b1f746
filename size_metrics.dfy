/**
 * Human-readable byte sizes and compression ratios. A size is shown in the largest binary unit
 * (powers of 1024) that does not exceed it; a ratio is the original size over the compressed one.
 */
module SizeMetrics {
  import opened Wrappers

  /** The unit labels, indexed by the power of 1024 they stand for. */
  const SizeNames: seq<string> := ["B", "KB", "MB", "GB", "TB", "PB", "EB", "ZB", "YB"]

  function Pow1024(k: nat): (r: nat)
    ensures r >= 1
  {
    if k == 0 then 1 else 1024 * Pow1024(k - 1)
  }

  lemma {:induction false} Pow1024Monotonic(j: nat, k: nat)
    requires j <= k
    ensures Pow1024(j) <= Pow1024(k)
    decreases k
  {
    if j < k {
      Pow1024Monotonic(j, k - 1);
    }
  }

  /** `floor(log(size, 1024))` for a positive size: the largest `k` with `1024^k <= size`. */
  function UnitIndex(size: nat): (k: nat)
    requires size >= 1
    ensures Pow1024(k) <= size < Pow1024(k + 1)
    decreases size
  {
    if size < 1024 then 0 else 1 + UnitIndex(size / 1024)
  }

  /** Only one power of 1024 brackets a size, so the index is the floor of the logarithm. */
  lemma UnitIndexUnique(size: nat, k: nat)
    requires size >= 1 && Pow1024(k) <= size < Pow1024(k + 1)
    ensures k == UnitIndex(size)
  {
    var u := UnitIndex(size);
    if k < u {
      Pow1024Monotonic(k + 1, u);
    } else if u < k {
      Pow1024Monotonic(u + 1, k);
    }
  }

  /** The number shown before the unit, before rounding: the size in units of `1024^index`. */
  function Scaled(size: nat): (q: real)
    requires size >= 1
    ensures 1.0 <= q < 1024.0
  {
    var p := Pow1024(UnitIndex(size));
    assert Pow1024(UnitIndex(size) + 1) == 1024 * p;
    QuotientBounds(size as real, p as real);
    size as real / p as real
  }

  lemma QuotientBounds(n: real, p: real)
    requires 0.0 < p <= n < 1024.0 * p
    ensures 1.0 <= n / p < 1024.0
  {
    var q := n / p;
    assert q * p == n;
    ScaleByPositive(q, 1.0, p);
    ScaleByPositive(q, 1024.0, p);
  }

  lemma ScaleByPositive(a: real, b: real, p: real)
    requires p > 0.0
    ensures a < b <==> a * p < b * p
  {
  }

  /**
   * `convert_size(size_bytes)`: `"0B"` for zero; otherwise the scaled number, rendered by
   * `render` (which stands for `round(..., 2)` and float formatting), a space and the unit
   * label. The logarithm of a negative size is a math domain error, and a size of `1024^9` or
   * more indexes past the nine labels.
   */
  function ConvertSize(sizeBytes: int, render: real -> string): (r: Result<string>)
    ensures sizeBytes == 0 ==> r == Ok("0B")
    ensures sizeBytes < 0 ==> r == Err(ValueError)
    ensures sizeBytes > 0 ==> (r.Ok? <==> sizeBytes < Pow1024(|SizeNames|))
    ensures sizeBytes >= Pow1024(|SizeNames|) ==> r == Err(IndexError)
    ensures r.Ok? && sizeBytes > 0 ==> exists k :: (0 <= k < |SizeNames|
      && Pow1024(k) <= sizeBytes < Pow1024(k + 1)
      && r.value == render(sizeBytes as real / Pow1024(k) as real) + " " + SizeNames[k])
  {
    if sizeBytes == 0 then Ok("0B")
    else if sizeBytes < 0 then Err(ValueError)
    else
      var index := UnitIndex(sizeBytes);
      if index >= |SizeNames| then
        Pow1024Monotonic(|SizeNames|, index);
        Err(IndexError)
      else
        Pow1024Monotonic(index + 1, |SizeNames|);
        Ok(render(Scaled(sizeBytes)) + " " + SizeNames[index])
  }

  /** Sizes from 1 byte up to 1023 are shown in bytes. */
  lemma ConvertSizeBytes(size: int, render: real -> string)
    requires 1 <= size < 1024
    ensures ConvertSize(size, render) == Ok(render(size as real) + " " + "B")
  {
    assert UnitIndex(size) == 0;
    assert Scaled(size) == size as real;
  }

  /** 1024 bytes are shown as one kilobyte. */
  lemma ConvertSizeKilobyte(render: real -> string)
    ensures ConvertSize(1024, render) == Ok(render(1.0) + " " + "KB")
  {
    assert UnitIndex(1) == 0;
    assert UnitIndex(1024) == 1;
    assert Pow1024(1) == 1024;
    assert Scaled(1024) == 1.0;
  }

  /**
   * `readable_size(file_path)`: the file's size, read from the file system and given here as a
   * natural number, converted. A size is never negative, so only the label lookup can fail.
   */
  function ReadableSize(fileSize: nat, render: real -> string): (r: Result<string>)
    ensures r.Err? <==> fileSize >= Pow1024(|SizeNames|)
    ensures r.Err? ==> r.error == IndexError
  {
    ConvertSize(fileSize, render)
  }

  /**
   * `compression_ratio(original, compressed)`: the original byte size over the compressed byte
   * size; an empty compressed file is a division by zero.
   */
  function CompressionRatio(originalSize: nat, compressedSize: nat): (r: Result<real>)
    ensures r.Err? <==> compressedSize == 0
    ensures r.Err? ==> r.error == ZeroDivisionError
    ensures r.Ok? ==> r.value * compressedSize as real == originalSize as real && r.value >= 0.0
  {
    if compressedSize == 0 then Err(ZeroDivisionError)
    else Ok(originalSize as real / compressedSize as real)
  }

  /** The ratio exceeds 1 exactly when the compressed file is smaller. */
  lemma CompressionRatioAboveOne(originalSize: nat, compressedSize: nat)
    requires compressedSize > 0
    ensures CompressionRatio(originalSize, compressedSize).value > 1.0 <==> originalSize > compressedSize
  {
    var q := CompressionRatio(originalSize, compressedSize).value;
    assert q * compressedSize as real == originalSize as real;
    if q > 1.0 {
      assert q * compressedSize as real > 1.0 * compressedSize as real;
    } else {
      assert q * compressedSize as real <= 1.0 * compressedSize as real;
    }
  }
}
