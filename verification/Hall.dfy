/** Exact feasibility of the global text domain: Hall's condition over the nested
    token pools, plus the one way in which self-exclusion can still fail. */
module Hall {
  import opened Collections
  import opened TextTokens

  /** The originals whose strictest width is at most `w`. */
  ghost function AtMost(m: map<string, nat>, w: nat): set<string> {
    set v | v in m && m[v] <= w
  }

  ghost predicate HallCondition(m: map<string, nat>, base: nat) {
    forall w: nat :: |AtMost(m, w)| <= TokenSpace(w, base)
  }

  /** `f` gives every original its own pseudonym: a token that fits the strictest
      width and differs from the original. */
  ghost predicate Allocation(m: map<string, nat>, alphabet: string, f: map<string, string>) {
    && f.Keys == m.Keys
    && Injective(f)
    && forall v :: v in m ==> IsToken(f[v], alphabet, m[v]) && f[v] != v
  }

  ghost predicate Feasible(m: map<string, nat>, alphabet: string) {
    exists f :: Allocation(m, alphabet, f)
  }

  /** With a one-letter alphabet there is one token per length, so an original that is
      the token of its own full width is stuck once the narrower originals take all
      shorter tokens. */
  ghost predicate RigidAt(m: map<string, nat>, alphabet: string, v: string) {
    && |alphabet| == 1
    && v in m && m[v] >= 1
    && |v| == m[v] && OverAlphabet(v, alphabet)
    && |AtMost(m, m[v] - 1)| == m[v] - 1
  }

  ghost predicate Rigid(m: map<string, nat>, alphabet: string) {
    exists v :: RigidAt(m, alphabet, v)
  }

  // ---- counting helpers ----

  lemma {:induction false} WidestOriginal(m: map<string, nat>) returns (v: string)
    requires |m| > 0
    ensures v in m && forall u :: u in m ==> m[u] <= m[v]
    decreases |m|
  {
    v :| v in m;
    var rest := m - {v};
    assert rest.Keys == m.Keys - {v};
    if |rest| > 0 {
      var u := WidestOriginal(rest);
      assert forall x :: x in m ==> x == v || x in rest;
      v := if m[u] > m[v] then u else v;
    } else {
      assert forall x :: x in m ==> x == v || x in rest.Keys;
    }
  }

  // ---- sufficiency ----

  lemma WithoutWidest(m: map<string, nat>, alphabet: string, v: string)
    requires v in m && forall u :: u in m ==> m[u] <= m[v]
    ensures HallCondition(m, |alphabet|) ==> HallCondition(m - {v}, |alphabet|)
    ensures Rigid(m - {v}, alphabet) ==> Rigid(m, alphabet)
  {
    var rest := m - {v};
    forall w: nat ensures |AtMost(rest, w)| <= |AtMost(m, w)| {
      SubsetCount(AtMost(rest, w), AtMost(m, w));
    }
    forall u | RigidAt(rest, alphabet, u) ensures RigidAt(m, alphabet, u) {
      assert AtMost(rest, m[u] - 1) == AtMost(m, m[u] - 1);
    }
  }

  /** If the widest original's own value is the only token left and nobody else can
      hold a token that long, the original is rigid. */
  lemma LastTokenIsOwn(m: map<string, nat>, alphabet: string, v: string)
    requires HallCondition(m, |alphabet|)
    requires v in m && IsToken(v, alphabet, m[v])
    requires TokenSpace(m[v], |alphabet|) == |m|
    requires forall x :: x in m && x != v ==> m[x] < |v|
    ensures RigidAt(m, alphabet, v)
  {
    var base, w, k := |alphabet|, m[v], |v| - 1;
    assert AtMost(m, k) == m.Keys - {v};
    assert |m| - 1 <= TokenSpace(k, base);
    TokenSpaceMonotone(k + 1, w, base);
    assert alphabet != [] by { assert v[0] in alphabet; }
    PowAtLeast(base, k + 1);
    assert base == 1;
    UnaryTokenSpace(w);
    UnaryTokenSpace(k);
  }

  lemma {:induction false} Allocate(m: map<string, nat>, alphabet: string)
    returns (f: map<string, string>)
    requires Distinct(alphabet)
    requires HallCondition(m, |alphabet|) && !Rigid(m, alphabet)
    ensures Allocation(m, alphabet, f)
    decreases |m|
  {
    if |m| == 0 {
      return map[];
    }
    var v := WidestOriginal(m);
    var rest := m - {v};
    assert rest.Keys == m.Keys - {v};
    WithoutWidest(m, alphabet, v);
    var g := Allocate(rest, alphabet);
    f := PlaceWidest(m, alphabet, v, g);
  }

  /** The tokens the widest original could still take. */
  ghost function FreeTokens(alphabet: string, w: nat, g: map<string, string>): set<string>
    requires Distinct(alphabet)
  {
    Pool(alphabet, w) - Image(g, g.Keys)
  }

  lemma SomeTokenIsFree(m: map<string, nat>, alphabet: string, v: string, g: map<string, string>)
    requires Distinct(alphabet) && HallCondition(m, |alphabet|)
    requires v in m && forall u :: u in m ==> m[u] <= m[v]
    requires Allocation(m - {v}, alphabet, g)
    ensures FreeTokens(alphabet, m[v], g) != {}
    ensures |FreeTokens(alphabet, m[v], g)| == 1 ==> TokenSpace(m[v], |alphabet|) == |m|
  {
    var w := m[v];
    var used, pool := Image(g, g.Keys), Pool(alphabet, w);
    assert g.Keys == m.Keys - {v};
    ImageCount(g, g.Keys);
    assert AtMost(m, w) == m.Keys;
    assert used <= pool;
    assert |pool - used| == |pool| - |used|;
  }

  lemma TakeFree(m: map<string, nat>, alphabet: string, v: string, g: map<string, string>, t: string)
    requires Distinct(alphabet) && v in m && Allocation(m - {v}, alphabet, g)
    requires t in FreeTokens(alphabet, m[v], g) && t != v
    ensures Allocation(m, alphabet, g[v := t])
  {
  }

  lemma SwapOwn(m: map<string, nat>, alphabet: string, v: string, g: map<string, string>, u: string)
    requires Distinct(alphabet) && v in m && Allocation(m - {v}, alphabet, g)
    requires v in FreeTokens(alphabet, m[v], g)
    requires u in m && u != v && |v| <= m[u] <= m[v]
    ensures Allocation(m, alphabet, g[u := v][v := g[u]])
  {
    assert g.Keys == m.Keys - {v};
    forall x | x in g ensures g[x] != v { assert g[x] in Image(g, g.Keys); }
  }

  lemma StuckIsRigid(m: map<string, nat>, alphabet: string, v: string, g: map<string, string>)
    requires Distinct(alphabet) && HallCondition(m, |alphabet|)
    requires v in m && forall u :: u in m && u != v ==> m[u] < |v|
    requires Allocation(m - {v}, alphabet, g)
    requires FreeTokens(alphabet, m[v], g) == {v}
    ensures RigidAt(m, alphabet, v)
  {
    SomeTokenIsFree(m, alphabet, v, g);
    LastTokenIsOwn(m, alphabet, v);
  }

  lemma PlaceWidest(m: map<string, nat>, alphabet: string, v: string, g: map<string, string>)
    returns (f: map<string, string>)
    requires Distinct(alphabet)
    requires HallCondition(m, |alphabet|) && !Rigid(m, alphabet)
    requires v in m && forall u :: u in m ==> m[u] <= m[v]
    requires Allocation(m - {v}, alphabet, g)
    ensures Allocation(m, alphabet, f)
  {
    var free := FreeTokens(alphabet, m[v], g);
    SomeTokenIsFree(m, alphabet, v, g);
    if t :| t in free && t != v {
      TakeFree(m, alphabet, v, g, t);
      f := g[v := t];
    } else if u :| u in m && u != v && m[u] >= |v| {
      SwapOwn(m, alphabet, v, g, u);
      f := g[u := v][v := g[u]];
    } else {
      assert free == {v};
      StuckIsRigid(m, alphabet, v, g);
      assert false;
    }
  }

  // ---- necessity ----

  lemma FeasibleNeedsHall(m: map<string, nat>, alphabet: string, f: map<string, string>, w: nat)
    requires Distinct(alphabet) && Allocation(m, alphabet, f)
    ensures |AtMost(m, w)| <= TokenSpace(w, |alphabet|)
    ensures Image(f, AtMost(m, w)) <= Pool(alphabet, w)
  {
    ImageCount(f, AtMost(m, w));
    SubsetCount(Image(f, AtMost(m, w)), Pool(alphabet, w));
  }

  lemma OneWordPerLength(alphabet: string, s: string, t: string)
    requires |alphabet| == 1 && |s| == |t|
    requires OverAlphabet(s, alphabet) && OverAlphabet(t, alphabet)
    ensures s == t
  {
  }

  /** A rigid original can only be given a token that a narrower original holds. */
  lemma RigidCollides(m: map<string, nat>, alphabet: string, f: map<string, string>, v: string)
    requires Distinct(alphabet) && RigidAt(m, alphabet, v) && f.Keys == m.Keys
    requires forall u :: u in m ==> IsToken(f[u], alphabet, m[u]) && f[u] != u
    requires |Image(f, AtMost(m, m[v] - 1))| == m[v] - 1
    ensures f[v] in Image(f, AtMost(m, m[v] - 1))
  {
    var w := m[v] - 1;
    var taken, pool := Image(f, AtMost(m, w)), Pool(alphabet, w);
    UnaryTokenSpace(w);
    assert taken <= pool;
    SubsetCount(taken, pool);
    if |f[v]| == |v| {
      OneWordPerLength(alphabet, f[v], v);
    }
  }

  lemma FeasibleIsNotRigid(m: map<string, nat>, alphabet: string, f: map<string, string>, v: string)
    requires Distinct(alphabet) && Allocation(m, alphabet, f)
    ensures !RigidAt(m, alphabet, v)
  {
    if RigidAt(m, alphabet, v) {
      ImageCount(f, AtMost(m, m[v] - 1));
      RigidCollides(m, alphabet, f, v);
      assert false;
    }
  }

  /** An allocation exists exactly when Hall's condition holds and no original is rigid. */
  lemma FeasibleIff(m: map<string, nat>, alphabet: string)
    requires Distinct(alphabet)
    ensures Feasible(m, alphabet) <==> HallCondition(m, |alphabet|) && !Rigid(m, alphabet)
  {
    if HallCondition(m, |alphabet|) && !Rigid(m, alphabet) {
      var f := Allocate(m, alphabet);
    }
    if f :| Allocation(m, alphabet, f) {
      forall w: nat ensures |AtMost(m, w)| <= TokenSpace(w, |alphabet|) {
        FeasibleNeedsHall(m, alphabet, f, w);
      }
      forall v ensures !RigidAt(m, alphabet, v) {
        FeasibleIsNotRigid(m, alphabet, f, v);
      }
    }
  }
}
