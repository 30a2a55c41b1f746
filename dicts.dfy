/**
 * Python dictionaries keep insertion order, and the analyzer depends on it: the first
 * combination wins ties, the constraint string lists thresholds in order. A `Dict` is the
 * list of (key, value) entries in insertion order.
 */
module Dicts {
  import opened Wrappers

  type Dict<V> = seq<(string, V)>

  function Keys<V>(d: Dict<V>): (ks: seq<string>)
    ensures |ks| == |d|
    ensures forall i :: 0 <= i < |d| ==> ks[i] == d[i].0
  {
    seq(|d|, i requires 0 <= i < |d| => d[i].0)
  }

  /** No key occurs twice: what a Python dict always satisfies. */
  predicate Distinct<V>(d: Dict<V>)
  {
    forall i, j :: 0 <= i < j < |d| ==> d[i].0 != d[j].0
  }

  /** Position of the first entry with key `k`. */
  function IndexOf<V>(d: Dict<V>, k: string): (i: nat)
    requires k in Keys(d)
    ensures i < |d| && d[i].0 == k
    ensures forall j :: 0 <= j < i ==> d[j].0 != k
  {
    if d[0].0 == k then 0
    else
      assert Keys(d)[1..] == Keys(d[1..]);
      1 + IndexOf(d[1..], k)
  }

  /** `d.get(k)`. */
  function Get<V>(d: Dict<V>, k: string): (r: Option<V>)
    ensures r.Some? <==> k in Keys(d)
  {
    if k in Keys(d) then Some(d[IndexOf(d, k)].1) else None
  }

  /** `d[k] = v`: an existing key keeps its position, a new key goes last. */
  function Put<V>(d: Dict<V>, k: string, v: V): (r: Dict<V>)
    ensures k in Keys(d) ==> Keys(r) == Keys(d)
    ensures k !in Keys(d) ==> Keys(r) == Keys(d) + [k]
    ensures Distinct(d) ==> Distinct(r)
    ensures Get(r, k) == Some(v)
    ensures forall k' :: k' != k ==> Get(r, k') == Get(d, k')
    ensures forall e :: e in r ==> e in d || e == (k, v)
  {
    if k in Keys(d) then
      var i := IndexOf(d, k);
      var r := d[i := (k, v)];
      assert Keys(r) == Keys(d);
      IndexOfUnique(r, k, i);
      forall k' | k' != k && k' in Keys(d) ensures IndexOf(r, k') == IndexOf(d, k') {
        IndexOfUnique(r, k', IndexOf(d, k'));
      }
      r
    else
      var r := d + [(k, v)];
      assert Keys(r) == Keys(d) + [k];
      IndexOfUnique(r, k, |d|);
      forall k' | k' != k && k' in Keys(d) ensures IndexOf(r, k') == IndexOf(d, k') {
        IndexOfUnique(r, k', IndexOf(d, k'));
      }
      r
  }

  /** `d[k]`: the value, or KeyError when `k` is missing. */
  function Lookup<V>(d: Dict<V>, k: string): (r: Result<V>)
    ensures r.Ok? <==> k in Keys(d)
    ensures r.Ok? ==> Get(d, k) == Some(r.value)
    ensures r.Err? ==> r.error == KeyError(k)
  {
    match Get(d, k)
    case None => Err(KeyError(k))
    case Some(v) => Ok(v)
  }

  /** A new key is appended at the end. */
  lemma PutAppends<V>(d: Dict<V>, k: string, v: V)
    requires k !in Keys(d)
    ensures Put(d, k, v) == d + [(k, v)]
  {
  }

  /** After `d[k] = v` the keys are those of `d` and `k`, and no others. */
  lemma PutKeys<V>(d: Dict<V>, k: string, v: V, k': string)
    ensures k' in Keys(Put(d, k, v)) <==> k' in Keys(d) || k' == k
  {
    if k !in Keys(d) {
      assert Keys(Put(d, k, v))[|d|] == k;
    }
  }

  /** Storing twice under one key is storing the second value once. */
  lemma PutTwice<V>(d: Dict<V>, k: string, v: V, w: V)
    ensures Put(Put(d, k, v), k, w) == Put(d, k, w)
  {
    if k !in Keys(d) {
      var once := d + [(k, v)];
      IndexOfUnique(once, k, |d|);
    }
  }

  /** The first position holding `k` is the only one `IndexOf` can return. */
  lemma IndexOfUnique<V>(d: Dict<V>, k: string, i: nat)
    requires i < |d| && d[i].0 == k
    requires forall j :: 0 <= j < i ==> d[j].0 != k
    ensures k in Keys(d) && IndexOf(d, k) == i
  {
    assert Keys(d)[i] == k;
  }

  /** In a dict without repeated keys, the entry at position `i` is what `Get` finds. */
  lemma GetAt<V>(d: Dict<V>, i: nat)
    requires Distinct(d) && i < |d|
    ensures d[i].0 in Keys(d) && IndexOf(d, d[i].0) == i
    ensures Get(d, d[i].0) == Some(d[i].1)
  {
    assert Keys(d)[i] == d[i].0;
  }

  /** In a dict with unique keys, the last key is not among the earlier ones. */
  lemma NewKey<V>(d: Dict<V>)
    requires Distinct(d) && |d| > 0
    ensures d[|d| - 1].0 !in Keys(d[..|d| - 1])
    ensures Distinct(d[..|d| - 1])
  {
    var init := d[..|d| - 1];
    assert forall j :: 0 <= j < |init| ==> Keys(init)[j] == d[j].0;
  }
}
