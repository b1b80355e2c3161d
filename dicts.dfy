/** The Python dicts the scraper builds from literals: string keys in
    insertion order, each with a string value. */
module Dicts {

  type Dict = seq<(string, string)>

  /** The keys of `d`, in the order a dict literal lists them. */
  function Keys(d: Dict): (ks: seq<string>)
    ensures |ks| == |d| && forall i :: 0 <= i < |d| ==> ks[i] == d[i].0
  {
    seq(|d|, i requires 0 <= i < |d| => d[i].0)
  }

  /** No key of `d` occurs twice. */
  predicate DistinctKeys(d: Dict) {
    forall i, j :: 0 <= i < j < |d| ==> d[i].0 != d[j].0
  }

  /** `d.get(key, default)`. */
  function Get(d: Dict, key: string, default: string): string
    decreases |d|
  {
    if d == [] then default
    else if d[0].0 == key then d[0].1
    else Get(d[1..], key, default)
  }

  /** `get` falls back to the default exactly for a key that is absent. */
  lemma {:induction false} GetAbsent(d: Dict, key: string, default: string)
    requires key !in Keys(d)
    ensures Get(d, key, default) == default
    decreases |d|
  {
    if d != [] {
      assert Keys(d) == [d[0].0] + Keys(d[1..]);
      GetAbsent(d[1..], key, default);
    }
  }

  /** In a dict whose keys are distinct, `get` returns the value stored under
      a key that is present, whatever the default. */
  lemma {:induction false} GetPresent(d: Dict, i: nat, default: string)
    requires DistinctKeys(d) && i < |d|
    ensures Get(d, d[i].0, default) == d[i].1
    decreases i
  {
    if i > 0 {
      var t := d[1..];
      assert t[i - 1] == d[i];
      assert DistinctKeys(t) by {
        forall a, b | 0 <= a < b < |t| ensures t[a].0 != t[b].0 {
          assert t[a] == d[a + 1] && t[b] == d[b + 1];
        }
      }
      GetPresent(t, i - 1, default);
    }
  }
}
