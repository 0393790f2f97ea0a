/** Counting facts about sequences, sets and maps. */
module Collections {

  ghost predicate Distinct<T>(s: seq<T>) {
    forall i, j :: 0 <= i < j < |s| ==> s[i] != s[j]
  }

  ghost predicate Injective<K, V>(f: map<K, V>) {
    forall u, v :: u in f && v in f && f[u] == f[v] ==> u == v
  }

  ghost function Image<K, V>(f: map<K, V>, s: set<K>): set<V>
    requires s <= f.Keys
  {
    set v | v in s :: f[v]
  }

  lemma {:induction false} ImageCount<K, V>(f: map<K, V>, s: set<K>)
    requires s <= f.Keys && Injective(f)
    ensures |Image(f, s)| == |s|
  {
    if s == {} {
      assert Image(f, s) == {};
    } else {
      var v :| v in s;
      ImageCount(f, s - {v});
      assert Image(f, s) == Image(f, s - {v}) + {f[v]};
      assert f[v] !in Image(f, s - {v});
    }
  }

  lemma {:induction false} SubsetCount<T>(a: set<T>, b: set<T>)
    requires a <= b
    ensures |a| <= |b|
    ensures |a| == |b| ==> a == b
  {
    if a != {} {
      var x :| x in a;
      SubsetCount(a - {x}, b - {x});
    }
  }

  // ---- chains ----

  ghost predicate LinkAt<T>(s: seq<T>, k: nat, link: (T, T) -> bool)
    requires k + 1 < |s|
  {
    link(s[k], s[k + 1])
  }

  /** Every element is linked to the next. */
  ghost predicate Chain<T>(s: seq<T>, link: (T, T) -> bool) {
    forall k: nat :: k + 1 < |s| ==> LinkAt(s, k, link)
  }

  lemma ChainsJoin<T>(a: seq<T>, b: seq<T>, link: (T, T) -> bool)
    requires Chain(a, link) && Chain(b, link)
    requires a != [] && b != [] && link(a[|a| - 1], b[0])
    ensures Chain(a + b, link)
  {
    forall k: nat | k + 1 < |a + b| ensures LinkAt(a + b, k, link) {
      if k + 1 < |a| {
        assert LinkAt(a, k, link);
      } else if k >= |a| {
        assert LinkAt(b, k - |a|, link);
      }
    }
  }

  lemma ChainTail<T>(s: seq<T>, link: (T, T) -> bool)
    requires Chain(s, link) && s != []
    ensures Chain(s[1..], link)
    ensures |s| > 1 ==> link(s[0], s[1])
  {
    forall k: nat | k + 1 < |s[1..]| ensures LinkAt(s[1..], k, link) {
      assert LinkAt(s, k + 1, link);
    }
    if |s| > 1 {
      assert LinkAt(s, 0, link);
    }
  }
}
