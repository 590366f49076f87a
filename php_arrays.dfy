/**
 * PHP's ordered associative arrays with string keys, as the profile code
 * builds and reads them: a list of (key, value) pairs in insertion order.
 */
module PhpArrays {

  datatype Option<+T> = None | Some(value: T)

  type Assoc<V> = seq<(string, V)>

  /** Every key occurs at most once, as in any array PHP has built. */
  predicate DistinctKeys<V>(m: Assoc<V>) {
    forall i, j :: 0 <= i < j < |m| ==> m[i].0 != m[j].0
  }

  /** The keys in insertion order (`array_keys`). */
  function Keys<V>(m: Assoc<V>): seq<string> {
    seq(|m|, i requires 0 <= i < |m| => m[i].0)
  }

  /**
   * `$m[$k]`: None when k is not a key; otherwise the value of the LAST pair
   * with key k, which is what a PHP array written as a list of pairs keeps.
   */
  function Get<V>(m: Assoc<V>, k: string): (r: Option<V>)
    ensures r.None? <==> forall i :: 0 <= i < |m| ==> m[i].0 != k
    ensures r.Some? ==> exists i :: 0 <= i < |m| && m[i] == (k, r.value)
    ensures r.Some? && DistinctKeys(m) ==> forall i :: 0 <= i < |m| && m[i].0 == k ==> m[i].1 == r.value
  {
    if m == [] then None
    else if m[|m| - 1].0 == k then Some(m[|m| - 1].1)
    else Get(m[..|m| - 1], k)
  }

  /** `JArrayHelper::getValue($m, $k, $default)`: the value of k, or the fallback. */
  function GetOr<V>(m: Assoc<V>, k: string, fallback: V): V {
    match Get(m, k)
    case Some(v) => v
    case None => fallback
  }

  /** Position of key k in an array that holds it. */
  function IndexOf<V>(m: Assoc<V>, k: string): (i: nat)
    requires Get(m, k).Some?
    ensures i < |m| && m[i].0 == k
  {
    if m[|m| - 1].0 == k then |m| - 1 else IndexOf(m[..|m| - 1], k)
  }

  /**
   * `$m[$k] = $v`: overwrites the value of an existing key in place, or
   * appends a new pair at the end.
   */
  function Put<V>(m: Assoc<V>, k: string, v: V): (r: Assoc<V>)
    requires DistinctKeys(m)
    ensures DistinctKeys(r)
    ensures Get(r, k) == Some(v)
    ensures forall k' :: k' != k ==> Get(r, k') == Get(m, k')
    ensures Get(m, k).None? ==> r == m + [(k, v)]
    ensures Get(m, k).Some? ==> |r| == |m| && forall i :: 0 <= i < |m| ==> r[i].0 == m[i].0
  {
    if Get(m, k).None? then m + [(k, v)]
    else
      var i := IndexOf(m, k);
      var r := m[i := (k, v)];
      assert DistinctKeys(r) by {
        assert forall j :: 0 <= j < |r| ==> r[j].0 == m[j].0;
      }
      GetDistinct(r, i);
      forall k' | k' != k ensures Get(r, k') == Get(m, k') {
        if j :| 0 <= j < |m| && m[j].0 == k' {
          GetDistinct(r, j);
          GetDistinct(m, j);
        }
      }
      r
  }

  /** In an array with distinct keys, Get finds the value stored at each position. */
  lemma GetDistinct<V>(m: Assoc<V>, i: nat)
    requires DistinctKeys(m) && i < |m|
    ensures Get(m, m[i].0) == Some(m[i].1)
  {
  }

  /** A key is listed by Keys exactly when Get finds it. */
  lemma {:induction false} KeysListed<V>(m: Assoc<V>, k: string)
    ensures k in Keys(m) <==> Get(m, k).Some?
  {
    if Get(m, k).Some? {
      var i :| 0 <= i < |m| && m[i] == (k, Get(m, k).value);
      assert Keys(m)[i] == k;
    } else {
      assert forall i :: 0 <= i < |m| ==> Keys(m)[i] != k;
    }
  }
}
