/**
 * PHP arrays are ordered dictionaries. The configuration arrays of the
 * component (`states`, `transitions` and each event's origin map) are
 * modelled as association lists that keep declaration order.
 */
module Assoc {
  import opened Options

  /** A PHP array literal never holds the same key twice. */
  ghost predicate UniqueKeys<V>(a: seq<(string, V)>)
  {
    forall i, j | 0 <= i < j < |a| :: a[i].0 != a[j].0
  }

  /** `array_keys($a)`: the keys in declaration order. */
  function Keys<V>(a: seq<(string, V)>): (ks: seq<string>)
    ensures |ks| == |a|
    ensures forall i | 0 <= i < |a| :: ks[i] == a[i].0
  {
    if a == [] then [] else [a[0].0] + Keys(a[1..])
  }

  /** `$a[$k]`, with `None` where `isset($a[$k])` is false. */
  function Lookup<V>(a: seq<(string, V)>, k: string): Option<V>
  {
    if a == [] then None
    else if a[0].0 == k then Some(a[0].1)
    else Lookup(a[1..], k)
  }

  /** PHP casts a `null` array key to the empty string. */
  function ArrayKey(k: Option<string>): string
  {
    match k
    case None => ""
    case Some(s) => s
  }

  /** `isset($a[$k])` holds exactly for the keys that `array_keys` lists. */
  lemma {:induction false} LookupDefinedIffKey<V>(a: seq<(string, V)>, k: string)
    ensures Lookup(a, k).Some? <==> k in Keys(a)
  {
    if a != [] {
      LookupDefinedIffKey(a[1..], k);
      assert Keys(a) == [a[0].0] + Keys(a[1..]);
    }
  }

  /** A lookup finds the value stored under its key, at the first position with that key. */
  lemma {:induction false} LookupFindsEntry<V>(a: seq<(string, V)>, k: string)
    ensures Lookup(a, k).Some? ==>
      exists i | 0 <= i < |a| :: a[i] == (k, Lookup(a, k).value) && forall j | 0 <= j < i :: a[j].0 != k
    ensures Lookup(a, k).None? ==> forall i | 0 <= i < |a| :: a[i].0 != k
  {
    if a != [] && a[0].0 != k {
      LookupFindsEntry(a[1..], k);
      if Lookup(a, k).Some? {
        var i :| 0 <= i < |a[1..]| && a[1..][i] == (k, Lookup(a, k).value) && forall j | 0 <= j < i :: a[1..][j].0 != k;
        assert a[i + 1] == (k, Lookup(a, k).value);
        assert forall j | 0 <= j < i + 1 :: a[j].0 != k by {
          forall j | 0 <= j < i + 1 ensures a[j].0 != k {
            if j > 0 { assert a[j] == a[1..][j - 1]; }
          }
        }
      } else {
        forall i | 0 <= i < |a| ensures a[i].0 != k {
          if i > 0 { assert a[i] == a[1..][i - 1]; }
        }
      }
    } else if a != [] {
      assert a[0] == (k, Lookup(a, k).value);
    }
  }

  lemma LookupDefinedIffAll<V>(a: seq<(string, V)>)
    ensures forall k :: Lookup(a, k).Some? <==> k in Keys(a)
  {
    forall k ensures Lookup(a, k).Some? <==> k in Keys(a) {
      LookupDefinedIffKey(a, k);
    }
  }
}
