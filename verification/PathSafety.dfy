/** Overlap of canonical paths (preflight.py, _within and _paths_overlap). */
module PathSafety {

  function Prefix(outer: string): string {
    if outer != "" && outer[|outer| - 1] == '/' then outer else outer + "/"
  }

  predicate StartsWith(s: string, prefix: string) {
    prefix <= s
  }

  /** `inner` is `outer` itself or lies below it. */
  predicate Within(inner: string, outer: string) {
    inner == outer || StartsWith(inner, Prefix(outer))
  }

  predicate Overlaps(a: string, b: string) {
    Within(a, b) || Within(b, a)
  }

  predicate PathsOverlap(source: string, output: string, vault: string) {
    Overlaps(source, output) || Overlaps(source, vault) || Overlaps(output, vault)
  }

  lemma WithinIsTransitive(p: string, q: string, r: string)
    requires Within(p, q) && Within(q, r)
    ensures Within(p, r)
  {
    if p != q && q != r {
      assert Prefix(r) <= q <= Prefix(q) <= p;
    }
  }

  /** A path below two roots makes one root lie below the other. */
  lemma SharedPathOrders(p: string, x: string, y: string)
    requires Within(p, x) && Within(p, y)
    ensures Overlaps(x, y)
  {
    if p != x && p != y {
      if |Prefix(x)| <= |Prefix(y)| {
        PrefixesOrder(p, x, y);
      } else {
        PrefixesOrder(p, y, x);
      }
    }
  }

  lemma PrefixesOrder(p: string, x: string, y: string)
    requires Prefix(x) <= p && Prefix(y) <= p && |Prefix(x)| <= |Prefix(y)|
    ensures Overlaps(x, y)
  {
    assert Prefix(x) == p[..|Prefix(x)|] && Prefix(y) == p[..|Prefix(y)|];
    assert Prefix(x) <= Prefix(y);
    if Prefix(x) == Prefix(y) {
      assert x <= Prefix(x) && y <= Prefix(y);
      if |x| == |y| {
        assert x == y;
      } else if |x| < |y| {
        assert y == Prefix(y) == Prefix(x);
      } else {
        assert x == Prefix(x) == Prefix(y);
      }
    } else {
      assert |Prefix(x)| <= |y|;
      assert y == Prefix(y)[..|y|];
      assert Prefix(x) <= y;
    }
  }

  /** Two roots overlap exactly when some path lies in both subtrees. */
  lemma OverlapIffShared(x: string, y: string)
    ensures Overlaps(x, y) <==> exists p :: Within(p, x) && Within(p, y)
  {
    if Overlaps(x, y) {
      assert Within(x, x) && Within(y, y);
    }
    if p :| Within(p, x) && Within(p, y) {
      SharedPathOrders(p, x, y);
    }
  }

  /** Refusing overlap is exactly the disjointness of the three subtrees. */
  lemma NoOverlapIffDisjoint(source: string, output: string, vault: string)
    ensures !PathsOverlap(source, output, vault) <==>
            forall p ::
              && !(Within(p, source) && Within(p, output))
              && !(Within(p, source) && Within(p, vault))
              && !(Within(p, output) && Within(p, vault))
  {
    OverlapIffShared(source, output);
    OverlapIffShared(source, vault);
    OverlapIffShared(output, vault);
  }

  // ---- paths by their components ----

  /** Directory components: non-empty and without a slash. */
  ghost predicate Components(xs: seq<string>) {
    forall i :: 0 <= i < |xs| ==> xs[i] != "" && '/' !in xs[i]
  }

  /** Every component closed by a slash. */
  function Closed(xs: seq<string>): string {
    if xs == [] then "" else xs[0] + "/" + Closed(xs[1..])
  }

  /** The canonical path below a root that ends in a slash; the root itself has no component. */
  function PathOf(root: string, xs: seq<string>): string
    requires root != "" && root[|root| - 1] == '/'
  {
    root + if xs == [] then "" else Closed(xs)[..|Closed(xs)| - 1]
  }

  lemma {:induction false} ClosedEnds(xs: seq<string>)
    ensures xs != [] ==> |Closed(xs)| > 0 && Closed(xs)[|Closed(xs)| - 1] == '/'
    ensures xs != [] && Components(xs) ==> |Closed(xs)| > 1 && Closed(xs)[|Closed(xs)| - 2] != '/'
  {
    if |xs| > 1 {
      ClosedEnds(xs[1..]);
    } else if |xs| == 1 {
      assert Closed(xs) == xs[0] + "/";
      assert Components(xs) ==> xs[0][|xs[0]| - 1] in xs[0];
    }
  }

  /** A component ends at the first slash. */
  lemma FirstComponent(x: string, u: string, y: string, v: string)
    requires '/' !in x && '/' !in y && y + "/" + v <= x + "/" + u
    ensures x == y && v <= u
  {
    var s, t := x + "/" + u, y + "/" + v;
    assert s[|x|] == '/' && t[|y|] == '/';
    assert forall k :: 0 <= k < |x| ==> s[k] == x[k] && x[k] in x;
    assert forall k :: 0 <= k < |y| ==> t[k] == y[k] && y[k] in y;
    assert |x| == |y|;
    assert t[..|y|] == y && s[..|y|] == t[..|y|];
    assert s[|x| + 1..] == u && t[|y| + 1..] == v;
  }

  lemma {:induction false} ClosedPrefix(xs: seq<string>, ys: seq<string>)
    requires Components(xs) && Components(ys)
    ensures Closed(ys) <= Closed(xs) <==> ys <= xs
  {
    if xs != [] && ys != [] {
      ClosedPrefix(xs[1..], ys[1..]);
      if Closed(ys) <= Closed(xs) {
        FirstComponent(xs[0], Closed(xs[1..]), ys[0], Closed(ys[1..]));
        assert xs == [xs[0]] + xs[1..] && ys == [ys[0]] + ys[1..];
      }
      if ys <= xs {
        assert ys[1..] <= xs[1..];
      }
    }
  }

  lemma PrefixIsClosed(root: string, xs: seq<string>)
    requires root != "" && root[|root| - 1] == '/' && Components(xs)
    ensures Prefix(PathOf(root, xs)) == root + Closed(xs)
  {
    ClosedEnds(xs);
    if xs != [] {
      var path := PathOf(root, xs);
      assert path[|path| - 1] == Closed(xs)[|Closed(xs)| - 2];
      assert Closed(xs) == Closed(xs)[..|Closed(xs)| - 1] + "/";
    }
  }

  /** A path lies within another exactly when its components start with the other's. */
  lemma WithinIffComponents(root: string, xs: seq<string>, ys: seq<string>)
    requires root != "" && root[|root| - 1] == '/' && Components(xs) && Components(ys)
    ensures Within(PathOf(root, xs), PathOf(root, ys)) <==> ys <= xs
  {
    PrefixIsClosed(root, xs);
    PrefixIsClosed(root, ys);
    WithinIffPrefix(PathOf(root, xs), PathOf(root, ys));
    SamePrefix(root, Closed(ys), Closed(xs));
    ClosedPrefix(xs, ys);
    ClosedPrefix(ys, xs);
    if Closed(xs) == Closed(ys) {
      assert xs == ys;
    }
  }

  lemma SamePrefix(root: string, a: string, b: string)
    ensures root + a <= root + b <==> a <= b
  {
    if root + a <= root + b {
      assert (root + a)[|root|..] == a && (root + b)[|root|..] == b;
    }
  }

  lemma WithinIffPrefix(inner: string, outer: string)
    ensures Within(inner, outer) ==> Prefix(outer) <= Prefix(inner)
    ensures Prefix(outer) <= Prefix(inner) ==> Within(inner, outer) || Prefix(outer) == Prefix(inner)
  {
    if Prefix(outer) <= Prefix(inner) && |Prefix(outer)| <= |inner| {
      assert Prefix(outer) == Prefix(inner)[..|Prefix(outer)|];
    }
  }

  /** Roots overlap exactly when one's components start with another's; in particular a name
      that merely continues another name is outside. */
  lemma OverlapIffComponents(root: string, source: seq<string>, output: seq<string>, vault: seq<string>)
    requires root != "" && root[|root| - 1] == '/'
    requires Components(source) && Components(output) && Components(vault)
    ensures PathsOverlap(PathOf(root, source), PathOf(root, output), PathOf(root, vault)) <==>
              || source <= output || output <= source
              || source <= vault || vault <= source
              || output <= vault || vault <= output
  {
    WithinIffComponents(root, source, output);
    WithinIffComponents(root, output, source);
    WithinIffComponents(root, source, vault);
    WithinIffComponents(root, vault, source);
    WithinIffComponents(root, output, vault);
    WithinIffComponents(root, vault, output);
  }

  lemma SiblingIsOutside(root: string, xs: seq<string>, name: string, more: string)
    requires root != "" && root[|root| - 1] == '/' && Components(xs + [name]) && '/' !in more && more != ""
    ensures !Overlaps(PathOf(root, xs + [name]), PathOf(root, xs + [name + more]))
  {
    var a, b := xs + [name], xs + [name + more];
    assert a[|xs|] == name && name != "" && '/' !in name;
    forall i | 0 <= i < |b| ensures b[i] != "" && '/' !in b[i] {
      if i < |xs| { assert b[i] == a[i]; }
    }
    WithinIffComponents(root, a, b);
    WithinIffComponents(root, b, a);
    assert a[|xs|] != b[|xs|];
  }
}
