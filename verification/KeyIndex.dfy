/** Dictionaries filled in a loop under keys that must not collide. */
module KeyIndex {
  import opened Collections

  /** The dictionary holds exactly the listed pairs. */
  ghost predicate Indexes<V>(d: map<string, V>, keys: seq<string>, values: seq<V>) {
    && |keys| == |values|
    && (forall i :: 0 <= i < |keys| ==> keys[i] in d && d[keys[i]] == values[i])
    && (forall k :: k in d ==> k in keys)
  }

  lemma Extend<V>(d: map<string, V>, keys: seq<string>, values: seq<V>, key: string, value: V)
    requires Indexes(d, keys, values) && Distinct(keys) && key !in d
    ensures Indexes(d[key := value], keys + [key], values + [value])
    ensures Distinct(keys + [key])
  {
  }

  lemma CollidesAt(keys: seq<string>, i: nat)
    requires i < |keys| && keys[i] in keys[..i]
    ensures !Distinct(keys)
  {
  }

  /** The first position of a key, or the length. */
  function Find(keys: seq<string>, key: string): (i: nat)
    ensures i <= |keys|
    ensures i < |keys| ==> keys[i] == key
    ensures i < |keys| <==> key in keys
  {
    if keys == [] then 0
    else if keys[0] == key then 0
    else
      assert key in keys ==> key in keys[1..];
      1 + Find(keys[1..], key)
  }

  lemma FindDistinct(keys: seq<string>, i: nat)
    requires Distinct(keys) && i < |keys|
    ensures Find(keys, keys[i]) == i
  {
  }

  ghost function KeySet(keys: seq<string>): set<string> {
    set k | k in keys
  }

  lemma {:induction false} KeySetCount(keys: seq<string>)
    requires Distinct(keys)
    ensures |KeySet(keys)| == |keys|
  {
    if keys != [] {
      var n := |keys| - 1;
      KeySetCount(keys[..n]);
      assert keys == keys[..n] + [keys[n]];
      assert KeySet(keys) == KeySet(keys[..n]) + {keys[n]};
    } else {
      assert KeySet(keys) == {};
    }
  }

  lemma IndexKeys<V>(d: map<string, V>, keys: seq<string>, values: seq<V>)
    requires Indexes(d, keys, values)
    ensures d.Keys == KeySet(keys)
    ensures forall k :: k in d <==> k in keys
  {
  }
}
