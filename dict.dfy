/** A Python `dict` with string keys, as the sequence of its entries in insertion
    order. Lookup finds the entry whose key matches; assignment to a key that is
    present overwrites that entry in place, and to a new key appends an entry. */
module Dict {
  import opened Common

  type Dict<V> = seq<(string, V)>

  /** The keys, in insertion order (`list(d)`). */
  function Keys<V>(d: Dict<V>): seq<string> {
    seq(|d|, i requires 0 <= i < |d| => d[i].0)
  }

  /** No string occurs twice. */
  predicate Distinct(s: seq<string>) {
    forall i, j :: 0 <= i < j < |s| ==> s[i] != s[j]
  }

  lemma KeysAppend<V>(d: Dict<V>, e: Dict<V>)
    ensures Keys(d + e) == Keys(d) + Keys(e)
  {
  }

  /** A dict never holds one key twice. */
  predicate DistinctKeys<V>(d: Dict<V>) {
    forall i, j :: 0 <= i < j < |d| ==> d[i].0 != d[j].0
  }

  /** The position of the first entry with key `k`, or -1 when there is none. */
  function IndexOf<V>(d: Dict<V>, k: string): (i: int)
    ensures -1 <= i < |d|
    ensures i == -1 <==> forall j :: 0 <= j < |d| ==> d[j].0 != k
    ensures 0 <= i ==> d[i].0 == k && forall j :: 0 <= j < i ==> d[j].0 != k
  {
    if |d| == 0 then -1
    else if d[0].0 == k then 0
    else
      var j := IndexOf(d[1..], k);
      if j == -1 then -1 else j + 1
  }

  /** `k in d`. */
  predicate Contains<V>(d: Dict<V>, k: string) {
    IndexOf(d, k) >= 0
  }

  /** `d.get(k)`. */
  function Get<V>(d: Dict<V>, k: string): (r: Option<V>)
    ensures r.None? <==> forall j :: 0 <= j < |d| ==> d[j].0 != k
    ensures r.Some? ==> exists j :: 0 <= j < |d| && d[j] == (k, r.value)
  {
    var i := IndexOf(d, k);
    if i < 0 then None else Some(d[i].1)
  }

  /** `d[k] = v`. */
  function Put<V>(d: Dict<V>, k: string, v: V): (r: Dict<V>)
    ensures Get(r, k) == Some(v)
    ensures forall k' :: k' != k ==> Get(r, k') == Get(d, k')
    ensures !Contains(d, k) ==> r == d + [(k, v)]
    ensures Contains(d, k) ==> |r| == |d| && Keys(r) == Keys(d)
    ensures DistinctKeys(d) ==> DistinctKeys(r)
  {
    var i := IndexOf(d, k);
    if i < 0 then
      assert forall k' :: Get(d + [(k, v)], k') == if Contains(d, k') then Get(d, k') else Get([(k, v)], k') by {
        forall k' { GetAppend(d, [(k, v)], k'); }
      }
      d + [(k, v)]
    else
      var r := d[i := (k, v)];
      assert forall k' :: IndexOf(r, k') == IndexOf(d, k') by {
        forall k' ensures IndexOf(r, k') == IndexOf(d, k') { IndexOfSameKeys(r, d, k'); }
      }
      r
  }

  /** Two dicts whose keys agree position by position find every key at the same place. */
  lemma IndexOfSameKeys<V, W>(d: Dict<V>, e: Dict<W>, k: string)
    requires |d| == |e|
    requires forall j :: 0 <= j < |d| ==> d[j].0 == e[j].0
    ensures IndexOf(d, k) == IndexOf(e, k)
  {
  }

  /** Looking a key up in `d + e` finds it in `d` first. */
  lemma {:induction false} GetAppend<V>(d: Dict<V>, e: Dict<V>, k: string)
    ensures Get(d + e, k) == if Contains(d, k) then Get(d, k) else Get(e, k)
  {
    var i := IndexOf(d, k);
    var j := IndexOf(e, k);
    var n := IndexOf(d + e, k);
    if i >= 0 {
      assert (d + e)[i].0 == k;
      assert forall m :: 0 <= m < i ==> (d + e)[m].0 != k;
      assert n == i;
    } else if j >= 0 {
      assert (d + e)[|d| + j].0 == k;
      assert forall m :: 0 <= m < |d| + j ==> (d + e)[m].0 != k by {
        forall m | 0 <= m < |d| + j ensures (d + e)[m].0 != k {
          if m >= |d| { assert (d + e)[m] == e[m - |d|]; }
        }
      }
      assert n == |d| + j;
    } else {
      assert forall m :: 0 <= m < |d + e| ==> (d + e)[m].0 != k by {
        forall m | 0 <= m < |d + e| ensures (d + e)[m].0 != k {
          if m >= |d| { assert (d + e)[m] == e[m - |d|]; }
        }
      }
    }
  }
}
