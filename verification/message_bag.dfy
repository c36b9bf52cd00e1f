/** The component's error bag: field path -> messages. Merging appends, key by key,
    the other bag's messages after this bag's own. */
module MessageBags {

  type Bag = map<string, seq<string>>

  /** The messages a bag holds for `key` (none when the key is absent). */
  function Messages(b: Bag, key: string): seq<string> {
    if key in b then b[key] else []
  }

  /** `$bag->merge($other)`: keys of either, with `b`'s messages after `a`'s. */
  function Merge(a: Bag, b: Bag): (r: Bag)
    ensures r.Keys == a.Keys + b.Keys
    ensures forall k :: k in a ==> a[k] <= r[k]
    ensures forall k, m :: k in b && m in b[k] ==> m in r[k]
    ensures forall k :: k in r ==> |r[k]| == |Messages(a, k)| + |Messages(b, k)|
    ensures forall k, m :: k in r && m in r[k] ==> m in Messages(a, k) || m in Messages(b, k)
  {
    map k | k in a.Keys + b.Keys :: Messages(a, k) + Messages(b, k)
  }

  /** Merging an empty bag changes nothing. */
  lemma MergeEmpty(a: Bag)
    ensures Merge(a, map[]) == a
  {
    var r := Merge(a, map[]);
    forall k | k in a ensures r[k] == a[k] {
      assert r[k] == a[k] + [];
    }
  }

  /** Merging a bag into an empty one copies it. */
  lemma MergeIntoEmpty(b: Bag)
    ensures Merge(map[], b) == b
  {
    var r := Merge(map[], b);
    forall k | k in b ensures r[k] == b[k] {
      assert r[k] == [] + b[k];
    }
  }
}
