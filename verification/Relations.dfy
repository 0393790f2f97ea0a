/** Relationship evidence and its before/after comparison (engine/pass2.py,
    _observe_after_side and _compare_relations; engine/state.py, the spool queries). */
module Relations {
  import opened Wrappers
  import opened Records
  import opened CompositeIdentity

  /** The spool rows of one relation side and role: row and NULL counters plus the
      occurrence count of every distinct canonical key. */
  datatype Side = Side(rows: nat, nulls: nat, keys: seq<(string, nat)>)

  const EMPTY_SIDE := Side(0, 0, [])

  // ---- observing rows ----

  function FindKey(keys: seq<(string, nat)>, key: string): (i: nat)
    ensures i <= |keys|
    ensures i < |keys| ==> keys[i].0 == key
    ensures forall j :: 0 <= j < i ==> keys[j].0 != key
  {
    if keys == [] then 0 else if keys[0].0 == key then 0 else 1 + FindKey(keys[1..], key)
  }

  /** INSERT ... ON CONFLICT DO UPDATE occurrences + 1 */
  function Upsert(keys: seq<(string, nat)>, key: string): seq<(string, nat)> {
    var i := FindKey(keys, key);
    if i < |keys| then keys[i := (key, keys[i].1 + 1)] else keys + [(key, 1)]
  }

  /** One row: a NULL-containing tuple is counted, not keyed. */
  function AddRow(side: Side, row: Option<string>): Side {
    match row
    case None => Side(side.rows + 1, side.nulls + 1, side.keys)
    case Some(key) => Side(side.rows + 1, side.nulls, Upsert(side.keys, key))
  }

  function Observe(rows: seq<Option<string>>): Side {
    if rows == [] then EMPTY_SIDE else AddRow(Observe(rows[..|rows| - 1]), rows[|rows| - 1])
  }

  function ComponentOf(v: Value): Option<Component> {
    match v
    case Text(s) => Some(Txt(s))
    case Int(n) => Some(Num(n))
    case _ => None
  }

  ghost predicate HasNull(tuple: seq<Value>) {
    exists i :: 0 <= i < |tuple| && tuple[i] == Null
  }

  ghost predicate Keyable(tuple: seq<Value>) {
    forall i :: 0 <= i < |tuple| ==> tuple[i] == Null || ComponentOf(tuple[i]).Some?
  }

  function KeyOf(tuple: seq<Value>): Key {
    if tuple == [] then [] else
    var rest := KeyOf(tuple[..|tuple| - 1]);
    match ComponentOf(tuple[|tuple| - 1])
    case Some(c) => rest + [c]
    case None => rest
  }

  /** What one row contributes: nothing if any member is NULL, else its canonical key. */
  ghost function RowOf(tuple: seq<Value>): Option<string> {
    if HasNull(tuple) then None else Some(Encode(KeyOf(tuple)))
  }

  /** `_observe_after_side` for one record. */
  method ObserveSide(fields: seq<string>, values: Values, side: Side) returns (r: Fallible<Side>)
    ensures var tuple := TupleAt(fields, values);
            r == if Keyable(tuple) then Ok(AddRow(side, RowOf(tuple))) else Err(RelationMemberUnsupported)
  {
    var components: Key, nullTuple := [], false;
    ghost var tuple := TupleAt(fields, values);
    for i := 0 to |fields|
      invariant components == KeyOf(tuple[..i])
      invariant nullTuple <==> HasNull(tuple[..i])
      invariant Keyable(tuple[..i])
    {
      assert tuple[..i + 1][..i] == tuple[..i] && tuple[..i + 1][i] == tuple[i];
      var value := Get(values, fields[i]);
      if value == Null {
        nullTuple := true;
        assert HasNull(tuple[..i + 1]);
        continue;
      }
      var component := ComponentOf(value);
      if component.None? {
        return Err(RelationMemberUnsupported);
      }
      components := components + [component.value];
      NoNewNull(tuple, i);
    }
    assert tuple[..|fields|] == tuple;
    if nullTuple {
      r := Ok(AddRow(side, None));
    } else {
      r := Ok(AddRow(side, Some(Encode(components))));
    }
  }

  function TupleAt(fields: seq<string>, values: Values): (t: seq<Value>)
    ensures |t| == |fields|
    ensures forall i :: 0 <= i < |fields| ==> t[i] == Get(values, fields[i])
  {
    if fields == [] then [] else
    TupleAt(fields[..|fields| - 1], values) + [Get(values, fields[|fields| - 1])]
  }

  lemma NoNewNull(tuple: seq<Value>, i: nat)
    requires i < |tuple| && tuple[i] != Null
    ensures HasNull(tuple[..i + 1]) <==> HasNull(tuple[..i])
  {
  }

  // ---- the spool queries ----

  function Counts(keys: seq<(string, nat)>): (c: seq<nat>)
    ensures |c| == |keys| && forall i :: 0 <= i < |c| ==> c[i] == keys[i].1
  {
    seq(|keys|, i requires 0 <= i < |keys| => keys[i].1)
  }

  function Sum(counts: seq<nat>): nat {
    if counts == [] then 0 else Sum(counts[..|counts| - 1]) + counts[|counts| - 1]
  }

  predicate HasKey(keys: seq<(string, nat)>, key: string) {
    FindKey(keys, key) < |keys|
  }

  /** SUM of the foreign occurrences whose key exists on the parent side. */
  function MatchedCount(parent: seq<(string, nat)>, foreign: seq<(string, nat)>): nat {
    if foreign == [] then 0 else
    MatchedCount(parent, foreign[..|foreign| - 1]) +
    if HasKey(parent, foreign[|foreign| - 1].0) then foreign[|foreign| - 1].1 else 0
  }

  /** ORDER BY occurrences DESC */
  function InsertDescending(sorted: seq<nat>, n: nat): seq<nat> {
    if sorted == [] || sorted[0] <= n then [n] + sorted
    else [sorted[0]] + InsertDescending(sorted[1..], n)
  }

  function Descending(counts: seq<nat>): seq<nat> {
    if counts == [] then [] else
    InsertDescending(Descending(counts[..|counts| - 1]), counts[|counts| - 1])
  }

  /** `relation_profile_equal`: two ordered streams compared element by element. */
  method ProfileEqual(left: seq<(string, nat)>, right: seq<(string, nat)>) returns (equal: bool)
    ensures equal <==> multiset(Counts(left)) == multiset(Counts(right))
  {
    var l, r := Descending(Counts(left)), Descending(Counts(right));
    DescendingIsCanonical(Counts(left), Counts(right));
    var i := 0;
    while true
      invariant 0 <= i <= |l| && i <= |r|
      invariant l[..i] == r[..i]
      decreases |l| - i
    {
      if i == |l| && i == |r| {
        assert l == l[..i] && r == r[..i];
        return true;
      }
      if i == |l| || i == |r| {
        return false;
      }
      if l[i] != r[i] {
        return false;
      }
      i := i + 1;
    }
  }

  ghost predicate IsDescending(s: seq<nat>) {
    forall i, j :: 0 <= i < j < |s| ==> s[i] >= s[j]
  }

  lemma {:induction false} InsertedContents(sorted: seq<nat>, n: nat)
    ensures multiset(InsertDescending(sorted, n)) == multiset(sorted) + multiset{n}
  {
    if sorted != [] && sorted[0] > n {
      InsertedContents(sorted[1..], n);
      assert sorted == [sorted[0]] + sorted[1..];
    }
  }

  lemma {:induction false} InsertedSum(sorted: seq<nat>, n: nat)
    ensures Sum(InsertDescending(sorted, n)) == Sum(sorted) + n
  {
    if sorted == [] || sorted[0] <= n {
      SumAppend([n], sorted);
    } else {
      InsertedSum(sorted[1..], n);
      SumAppend([sorted[0]], sorted[1..]);
      SumAppend([sorted[0]], InsertDescending(sorted[1..], n));
      assert sorted == [sorted[0]] + sorted[1..];
    }
  }

  lemma {:induction false} InsertedIsDescending(sorted: seq<nat>, n: nat)
    requires IsDescending(sorted)
    ensures IsDescending(InsertDescending(sorted, n))
    ensures forall x :: x in InsertDescending(sorted, n) ==> x == n || x in sorted
  {
    if sorted != [] && sorted[0] > n {
      InsertedIsDescending(sorted[1..], n);
      var tail := InsertDescending(sorted[1..], n);
      forall i | 0 <= i < |tail| ensures tail[i] <= sorted[0] {
        assert tail[i] in tail;
      }
    }
  }

  lemma {:induction false} SumAppend(a: seq<nat>, b: seq<nat>)
    ensures Sum(a + b) == Sum(a) + Sum(b)
  {
    if b == [] {
      assert a + b == a;
    } else {
      SumAppend(a, b[..|b| - 1]);
      assert (a + b)[..|a + b| - 1] == a + b[..|b| - 1];
    }
  }

  lemma {:induction false} DescendingIsSorted(counts: seq<nat>)
    ensures IsDescending(Descending(counts))
  {
    if counts != [] {
      DescendingIsSorted(counts[..|counts| - 1]);
      InsertedIsDescending(Descending(counts[..|counts| - 1]), counts[|counts| - 1]);
    }
  }

  lemma {:induction false} DescendingContents(counts: seq<nat>)
    ensures multiset(Descending(counts)) == multiset(counts)
  {
    if counts != [] {
      var rest, last := counts[..|counts| - 1], counts[|counts| - 1];
      DescendingContents(rest);
      InsertedContents(Descending(rest), last);
      assert counts == rest + [last];
    }
  }

  lemma {:induction false} DescendingSum(counts: seq<nat>)
    ensures Sum(Descending(counts)) == Sum(counts)
  {
    if counts != [] {
      DescendingSum(counts[..|counts| - 1]);
      InsertedSum(Descending(counts[..|counts| - 1]), counts[|counts| - 1]);
    }
  }

  lemma DescendingFacts(counts: seq<nat>)
    ensures IsDescending(Descending(counts))
    ensures multiset(Descending(counts)) == multiset(counts)
    ensures Sum(Descending(counts)) == Sum(counts)
  {
    DescendingIsSorted(counts);
    DescendingContents(counts);
    DescendingSum(counts);
  }

  lemma {:induction false} DescendingIsUnique(s: seq<nat>, t: seq<nat>)
    requires IsDescending(s) && IsDescending(t) && multiset(s) == multiset(t)
    ensures s == t
  {
    assert |multiset(s)| == |s| && |multiset(t)| == |t|;
    if s != [] {
      LargestFirst(s, t);
      LargestFirst(t, s);
      assert s == [s[0]] + s[1..] && t == [t[0]] + t[1..];
      assert multiset(s[1..]) == multiset(s) - multiset{s[0]};
      assert multiset(t[1..]) == multiset(t) - multiset{t[0]};
      DescendingIsUnique(s[1..], t[1..]);
    }
  }

  lemma LargestFirst(s: seq<nat>, t: seq<nat>)
    requires s != [] && t != [] && IsDescending(t) && multiset(s) == multiset(t)
    ensures s[0] <= t[0]
  {
    assert s[0] in multiset(t);
    var i :| 0 <= i < |t| && t[i] == s[0];
  }

  lemma DescendingIsCanonical(a: seq<nat>, b: seq<nat>)
    ensures Descending(a) == Descending(b) <==> multiset(a) == multiset(b)
    ensures multiset(a) == multiset(b) ==> Sum(a) == Sum(b) && |a| == |b|
  {
    DescendingFacts(a);
    DescendingFacts(b);
    if multiset(a) == multiset(b) {
      DescendingIsUnique(Descending(a), Descending(b));
      assert |multiset(a)| == |a| && |multiset(b)| == |b|;
    }
  }

  // ---- the comparison ----

  datatype Evidence = Evidence(parent: Side, foreign: Side)

  datatype Summary = Summary(
    verified: bool, beforeRows: nat, afterRows: nat, beforeNulls: nat, afterNulls: nat,
    beforeUnique: nat, afterUnique: nat, matchedRows: nat, orphanCount: int,
    parentProfileEqual: bool, foreignProfileEqual: bool)

  function Matched(e: Evidence): nat {
    MatchedCount(e.parent.keys, e.foreign.keys)
  }

  function Orphans(e: Evidence): int {
    e.foreign.rows - e.foreign.nulls - Matched(e)
  }

  ghost predicate SameProfile(a: Side, b: Side) {
    multiset(Counts(a.keys)) == multiset(Counts(b.keys))
  }

  /** The one invariant rule. */
  ghost predicate Verified(before: Evidence, after: Evidence) {
    && SameProfile(before.parent, after.parent)
    && SameProfile(before.foreign, after.foreign)
    && Matched(before) == Matched(after)
    && Orphans(before) == Orphans(after)
    && before.parent.nulls == after.parent.nulls
    && before.foreign.nulls == after.foreign.nulls
  }

  ghost predicate SummaryFor(s: Summary, before: Evidence, after: Evidence) {
    && (s.verified <==> Verified(before, after))
    && s.beforeRows == before.parent.rows + before.foreign.rows
    && s.afterRows == after.parent.rows + after.foreign.rows
    && s.beforeUnique == |before.parent.keys|
    && s.afterUnique == |after.parent.keys|
    && s.beforeNulls == before.foreign.nulls
    && s.afterNulls == after.foreign.nulls
    && s.matchedRows == Matched(after)
    && s.orphanCount == Orphans(after)
    && (s.parentProfileEqual <==> SameProfile(before.parent, after.parent))
    && (s.foreignProfileEqual <==> SameProfile(before.foreign, after.foreign))
  }

  method CompareOne(before: Evidence, after: Evidence) returns (s: Summary)
    ensures SummaryFor(s, before, after)
  {
    var parentEqual := ProfileEqual(before.parent.keys, after.parent.keys);
    var foreignEqual := ProfileEqual(before.foreign.keys, after.foreign.keys);
    var verified := parentEqual && foreignEqual && Matched(before) == Matched(after) &&
                    Orphans(before) == Orphans(after) &&
                    before.parent.nulls == after.parent.nulls &&
                    before.foreign.nulls == after.foreign.nulls;
    s := Summary(verified,
                 before.parent.rows + before.foreign.rows, after.parent.rows + after.foreign.rows,
                 before.foreign.nulls, after.foreign.nulls,
                 |before.parent.keys|, |after.parent.keys|,
                 Matched(after), Orphans(after), parentEqual, foreignEqual);
  }

  /** `_compare_relations` over the evidence of every declared relation. */
  method CompareRelations(before: seq<Evidence>, after: seq<Evidence>) returns (summaries: seq<Summary>)
    requires |before| == |after|
    ensures |summaries| == |before|
    ensures forall i :: 0 <= i < |before| ==> SummaryFor(summaries[i], before[i], after[i])
  {
    summaries := [];
    for i := 0 to |before|
      invariant |summaries| == i
      invariant forall k :: 0 <= k < i ==> SummaryFor(summaries[k], before[k], after[k])
    {
      var summary := CompareOne(before[i], after[i]);
      summaries := summaries + [summary];
    }
  }

  // ---- conservation behind `verified` ----

  /** Every row was counted once, as a NULL tuple or under its key. */
  ghost predicate Balanced(side: Side) {
    side.rows == side.nulls + Sum(Counts(side.keys))
  }

  lemma {:induction false} SumUpdate(counts: seq<nat>, i: nat, n: nat)
    requires i < |counts|
    ensures Sum(counts[i := n]) == Sum(counts) - counts[i] + n
  {
    var last := |counts| - 1;
    if i < last {
      SumUpdate(counts[..last], i, n);
      assert counts[i := n][..last] == counts[..last][i := n];
    } else {
      assert counts[i := n][..last] == counts[..last];
    }
  }

  lemma UpsertAddsOne(keys: seq<(string, nat)>, key: string)
    ensures Sum(Counts(Upsert(keys, key))) == Sum(Counts(keys)) + 1
  {
    var i := FindKey(keys, key);
    if i < |keys| {
      SumUpdate(Counts(keys), i, keys[i].1 + 1);
      assert Counts(Upsert(keys, key)) == Counts(keys)[i := keys[i].1 + 1];
    } else {
      assert Counts(Upsert(keys, key)) == Counts(keys) + [1];
      assert (Counts(keys) + [1])[..|keys|] == Counts(keys);
    }
  }

  lemma {:induction false} ObservedIsBalanced(rows: seq<Option<string>>)
    ensures Balanced(Observe(rows)) && Observe(rows).rows == |rows|
  {
    if rows != [] {
      var last := |rows| - 1;
      ObservedIsBalanced(rows[..last]);
      if rows[last].Some? {
        UpsertAddsOne(Observe(rows[..last]).keys, rows[last].value);
      }
    }
  }

  /** `verified` conserves row totals and unique-parent counts although the rule compares
      neither, and its orphan comparison follows from the other terms. */
  lemma VerifiedConserves(before: Evidence, after: Evidence)
    requires Balanced(before.parent) && Balanced(before.foreign)
    requires Balanced(after.parent) && Balanced(after.foreign)
    ensures Verified(before, after) ==>
              before.parent.rows == after.parent.rows &&
              before.foreign.rows == after.foreign.rows &&
              |before.parent.keys| == |after.parent.keys| &&
              |before.foreign.keys| == |after.foreign.keys|
    ensures Verified(before, after) <==>
              SameProfile(before.parent, after.parent) &&
              SameProfile(before.foreign, after.foreign) &&
              Matched(before) == Matched(after) &&
              before.parent.nulls == after.parent.nulls &&
              before.foreign.nulls == after.foreign.nulls
  {
    DescendingIsCanonical(Counts(before.parent.keys), Counts(after.parent.keys));
    DescendingIsCanonical(Counts(before.foreign.keys), Counts(after.foreign.keys));
  }

  // ---- preservation ----

  /** The rows carry NULLs at the same places. */
  ghost predicate SameNulls(before: seq<Option<string>>, after: seq<Option<string>>) {
    |before| == |after| && forall i :: 0 <= i < |before| ==> (before[i].None? <==> after[i].None?)
  }

  /** Keys are equal after exactly when they were equal before, across two row lists. */
  ghost predicate SameMatches(xb: seq<Option<string>>, xa: seq<Option<string>>,
                              yb: seq<Option<string>>, ya: seq<Option<string>>)
  {
    && |xb| == |xa| && |yb| == |ya|
    && forall i, j :: 0 <= i < |xb| && 0 <= j < |yb| && xb[i].Some? && yb[j].Some? ==>
         (xb[i] == yb[j] <==> xa[i] == ya[j])
  }

  /** Both key tables list the keys of the same rows in the same order. */
  ghost predicate Parallel(kb: seq<(string, nat)>, ka: seq<(string, nat)>,
                           rb: seq<Option<string>>, ra: seq<Option<string>>)
  {
    && |kb| == |ka| && |rb| == |ra|
    && forall i :: 0 <= i < |kb| ==> kb[i].1 == ka[i].1 && HasWitness(kb[i].0, ka[i].0, rb, ra)
  }

  /** Some row carries key `b` before and key `a` after. */
  ghost predicate HasWitness(b: string, a: string, rb: seq<Option<string>>, ra: seq<Option<string>>)
    requires |rb| == |ra|
  {
    exists r :: 0 <= r < |rb| && rb[r] == Some(b) && ra[r] == Some(a)
  }

  lemma FindSame(kb: seq<(string, nat)>, ka: seq<(string, nat)>, b: string, a: string,
                 rb: seq<Option<string>>, ra: seq<Option<string>>,
                 sb: seq<Option<string>>, sa: seq<Option<string>>)
    requires Parallel(kb, ka, rb, ra) && SameMatches(rb, ra, sb, sa)
    requires |sb| == |sa| && HasWitness(b, a, sb, sa)
    ensures FindKey(kb, b) == FindKey(ka, a)
  {
  }

  lemma WitnessGrows(b: string, a: string, rb: seq<Option<string>>, ra: seq<Option<string>>, n: nat)
    requires |rb| == |ra| && n <= |rb|
    requires HasWitness(b, a, rb[..n], ra[..n])
    ensures HasWitness(b, a, rb, ra)
  {
  }

  lemma UpsertParallel(kb: seq<(string, nat)>, ka: seq<(string, nat)>, n: nat,
                       rb: seq<Option<string>>, ra: seq<Option<string>>)
    requires |rb| == |ra| == n + 1 && rb[n].Some? && ra[n].Some?
    requires SameMatches(rb, ra, rb, ra)
    requires Parallel(kb, ka, rb[..n], ra[..n])
    ensures Parallel(Upsert(kb, rb[n].value), Upsert(ka, ra[n].value), rb, ra)
  {
  }

  lemma {:induction false} ObserveParallel(rb: seq<Option<string>>, ra: seq<Option<string>>)
    requires SameNulls(rb, ra) && SameMatches(rb, ra, rb, ra)
    ensures Observe(rb).rows == Observe(ra).rows && Observe(rb).nulls == Observe(ra).nulls
    ensures Parallel(Observe(rb).keys, Observe(ra).keys, rb, ra)
  {
    if rb != [] {
      var n := |rb| - 1;
      ObserveParallel(rb[..n], ra[..n]);
      var kb, ka := Observe(rb[..n]).keys, Observe(ra[..n]).keys;
      if rb[n].Some? {
        UpsertParallel(kb, ka, n, rb, ra);
      } else {
        forall i | 0 <= i < |kb| ensures HasWitness(kb[i].0, ka[i].0, rb, ra) {
          WitnessGrows(kb[i].0, ka[i].0, rb, ra, n);
        }
      }
    }
  }

  lemma {:induction false} MatchedParallel(pb: seq<(string, nat)>, pa: seq<(string, nat)>,
                                           fb: seq<(string, nat)>, fa: seq<(string, nat)>,
                                           rb: seq<Option<string>>, ra: seq<Option<string>>,
                                           sb: seq<Option<string>>, sa: seq<Option<string>>)
    requires Parallel(pb, pa, rb, ra) && Parallel(fb, fa, sb, sa)
    requires SameMatches(rb, ra, sb, sa)
    ensures MatchedCount(pb, fb) == MatchedCount(pa, fa)
  {
    if fb != [] {
      var n := |fb| - 1;
      assert Parallel(fb[..n], fa[..n], sb, sa);
      MatchedParallel(pb, pa, fb[..n], fa[..n], rb, ra, sb, sa);
      FindSame(pb, pa, fb[n].0, fa[n].0, rb, ra, sb, sa);
    }
  }

  /** A transformation that keeps NULLs and the equality pattern of all keys verifies. */
  lemma SamePatternVerifies(pb: seq<Option<string>>, pa: seq<Option<string>>,
                            fb: seq<Option<string>>, fa: seq<Option<string>>)
    requires SameNulls(pb, pa) && SameNulls(fb, fa)
    requires SameMatches(pb, pa, pb, pa) && SameMatches(fb, fa, fb, fa)
    requires SameMatches(pb, pa, fb, fa)
    ensures Verified(Evidence(Observe(pb), Observe(fb)), Evidence(Observe(pa), Observe(fa)))
  {
    ObserveParallel(pb, pa);
    ObserveParallel(fb, fa);
    MatchedParallel(Observe(pb).keys, Observe(pa).keys, Observe(fb).keys, Observe(fa).keys, pb, pa, fb, fa);
    assert Counts(Observe(pb).keys) == Counts(Observe(pa).keys);
    assert Counts(Observe(fb).keys) == Counts(Observe(fa).keys);
  }

  // ---- component-wise injective maps ----

  ghost function RowsOf(tuples: seq<seq<Value>>): (rows: seq<Option<string>>)
    ensures |rows| == |tuples| && forall i :: 0 <= i < |rows| ==> rows[i] == RowOf(tuples[i])
  {
    seq(|tuples|, i requires 0 <= i < |tuples| => RowOf(tuples[i]))
  }

  /** Position by position, `after` is `before` under a map that keeps NULL and the
      supported types. */
  ghost predicate MappedTuple(before: seq<Value>, after: seq<Value>, g: (int, Value) -> Value) {
    && |before| == |after|
    && Keyable(before) && Keyable(after)
    && forall i :: 0 <= i < |before| ==>
         after[i] == g(i, before[i]) && (before[i] == Null <==> after[i] == Null)
  }

  ghost predicate MappedTuples(before: seq<seq<Value>>, after: seq<seq<Value>>, g: (int, Value) -> Value,
                               arity: nat)
  {
    && |before| == |after|
    && forall r :: 0 <= r < |before| ==> |before[r]| == arity && MappedTuple(before[r], after[r], g)
  }

  /** The map of each position is injective on the values observed there, on either side. */
  ghost predicate InjectiveOn(xs: seq<seq<Value>>, ys: seq<seq<Value>>, g: (int, Value) -> Value, arity: nat)
    requires forall r :: 0 <= r < |xs| ==> |xs[r]| == arity
    requires forall r :: 0 <= r < |ys| ==> |ys[r]| == arity
  {
    forall r, s, i :: 0 <= r < |xs| && 0 <= s < |ys| && 0 <= i < arity ==>
      (g(i, xs[r][i]) == g(i, ys[s][i]) ==> xs[r][i] == ys[s][i])
  }

  lemma {:induction false} KeyOfFull(tuple: seq<Value>)
    requires !HasNull(tuple) && Keyable(tuple)
    ensures |KeyOf(tuple)| == |tuple|
    ensures forall i :: 0 <= i < |tuple| ==> ComponentOf(tuple[i]) == Some(KeyOf(tuple)[i])
  {
    if tuple != [] {
      var n := |tuple| - 1;
      assert tuple[n] != Null;
      forall i | 0 <= i < n ensures tuple[..n][i] != Null {
        assert tuple[i] != Null;
      }
      KeyOfFull(tuple[..n]);
    }
  }

  lemma SameKeyIffSameTuple(x: seq<Value>, y: seq<Value>)
    requires |x| == |y| && !HasNull(x) && !HasNull(y) && Keyable(x) && Keyable(y)
    ensures RowOf(x) == RowOf(y) <==> x == y
  {
    KeyOfFull(x);
    KeyOfFull(y);
    EncodeInjective(KeyOf(x), KeyOf(y));
    if KeyOf(x) == KeyOf(y) {
      forall i | 0 <= i < |x| ensures x[i] == y[i] {
        assert ComponentOf(x[i]) == ComponentOf(y[i]) && ComponentOf(x[i]).Some?;
      }
    }
  }

  /** Text and integers can be part of a key, and NULL can stand in its place; nothing else
      can. A tuple with a NULL has no key. */
  lemma KeyableMeans(tuple: seq<Value>)
    ensures Keyable(tuple) <==>
            forall i :: 0 <= i < |tuple| ==> tuple[i] == Null || tuple[i].Text? || tuple[i].Int?
    ensures RowOf(tuple).None? <==> Null in tuple
  {
  }

  lemma NullsKept(before: seq<Value>, after: seq<Value>, g: (int, Value) -> Value)
    requires MappedTuple(before, after, g)
    ensures HasNull(before) <==> HasNull(after)
  {
  }

  lemma MatchesKept(xb: seq<seq<Value>>, xa: seq<seq<Value>>, yb: seq<seq<Value>>, ya: seq<seq<Value>>,
                    g: (int, Value) -> Value, arity: nat)
    requires MappedTuples(xb, xa, g, arity) && MappedTuples(yb, ya, g, arity)
    requires InjectiveOn(xb, yb, g, arity)
    ensures SameMatches(RowsOf(xb), RowsOf(xa), RowsOf(yb), RowsOf(ya))
  {
    forall r, s | 0 <= r < |xb| && 0 <= s < |yb| && RowOf(xb[r]).Some? && RowOf(yb[s]).Some?
      ensures RowOf(xb[r]) == RowOf(yb[s]) <==> RowOf(xa[r]) == RowOf(ya[s])
    {
      NullsKept(xb[r], xa[r], g);
      NullsKept(yb[s], ya[s], g);
      SameKeyIffSameTuple(xb[r], yb[s]);
      SameKeyIffSameTuple(xa[r], ya[s]);
      if xa[r] == ya[s] {
        forall i | 0 <= i < arity ensures xb[r][i] == yb[s][i] {
          assert g(i, xb[r][i]) == xa[r][i] && g(i, yb[s][i]) == ya[s][i];
        }
      }
    }
  }

  /** Relations of any arity verify when each key position is mapped by one injective,
      NULL-preserving map shared by the parent and the foreign field. The parent and the
      foreign rows may come from the same table. */
  lemma InjectiveMapVerifies(pb: seq<seq<Value>>, pa: seq<seq<Value>>,
                             fb: seq<seq<Value>>, fa: seq<seq<Value>>,
                             g: (int, Value) -> Value, arity: nat)
    requires MappedTuples(pb, pa, g, arity) && MappedTuples(fb, fa, g, arity)
    requires InjectiveOn(pb, pb, g, arity) && InjectiveOn(fb, fb, g, arity) && InjectiveOn(pb, fb, g, arity)
    ensures Verified(Evidence(Observe(RowsOf(pb)), Observe(RowsOf(fb))),
                     Evidence(Observe(RowsOf(pa)), Observe(RowsOf(fa))))
  {
    forall r | 0 <= r < |pb| ensures HasNull(pb[r]) <==> HasNull(pa[r]) { NullsKept(pb[r], pa[r], g); }
    forall r | 0 <= r < |fb| ensures HasNull(fb[r]) <==> HasNull(fa[r]) { NullsKept(fb[r], fa[r], g); }
    MatchesKept(pb, pa, pb, pa, g, arity);
    MatchesKept(fb, fa, fb, fa, g, arity);
    MatchesKept(pb, pa, fb, fa, g, arity);
    SamePatternVerifies(RowsOf(pb), RowsOf(pa), RowsOf(fb), RowsOf(fa));
  }

  // ---- whole tables ----

  function TuplesOf(fields: seq<string>, records: seq<Record>): (ts: seq<seq<Value>>)
    ensures |ts| == |records|
    ensures forall r :: 0 <= r < |records| ==> ts[r] == TupleAt(fields, records[r].values)
  {
    seq(|records|, r requires 0 <= r < |records| => TupleAt(fields, records[r].values))
  }

  /** The evidence of one side of a relation over a table's records. */
  ghost function TableEvidence(fields: seq<string>, records: seq<Record>): Side {
    Observe(RowsOf(TuplesOf(fields, records)))
  }

  /** One more record adds its row. */
  lemma EvidenceGrows(fields: seq<string>, records: seq<Record>, last: Record)
    ensures TableEvidence(fields, records + [last]) ==
            AddRow(TableEvidence(fields, records), RowOf(TupleAt(fields, last.values)))
  {
    var rows := RowsOf(TuplesOf(fields, records + [last]));
    assert rows == RowsOf(TuplesOf(fields, records)) + [RowOf(TupleAt(fields, last.values))];
    assert rows[..|records|] == RowsOf(TuplesOf(fields, records));
  }

  /** A shard holds the evidence of every observed side of a table. */
  ghost predicate ShardOf(shard: seq<Side>, sides: seq<seq<string>>, records: seq<Record>) {
    |shard| == |sides| && forall j :: 0 <= j < |sides| ==> shard[j] == TableEvidence(sides[j], records)
  }

  ghost predicate AllKeyable(sides: seq<seq<string>>, values: Values) {
    forall j :: 0 <= j < |sides| ==> Keyable(TupleAt(sides[j], values))
  }

  /** The relation loop of one record: every side that names the table observes it. */
  method ObserveSides(sides: seq<seq<string>>, values: Values, shard: seq<Side>) returns (r: Fallible<seq<Side>>)
    requires |shard| == |sides|
    ensures r.Ok? <==> AllKeyable(sides, values)
    ensures r.Err? ==> r.error == RelationMemberUnsupported
    ensures r.Ok? ==> |r.value| == |sides|
    ensures r.Ok? ==>
              forall j :: 0 <= j < |sides| ==> r.value[j] == AddRow(shard[j], RowOf(TupleAt(sides[j], values)))
  {
    var out: seq<Side> := [];
    ghost var tuples := seq(|sides|, j requires 0 <= j < |sides| => TupleAt(sides[j], values));
    for j := 0 to |sides|
      invariant |out| == j
      invariant forall l :: 0 <= l < j ==> Keyable(tuples[l]) && out[l] == AddRow(shard[l], RowOf(tuples[l]))
    {
      assert tuples[j] == TupleAt(sides[j], values);
      var side := ObserveSide(sides[j], values, shard[j]);
      if side.Err? {
        return Err(side.error);
      }
      out := out + [side.value];
    }
    assert forall l :: 0 <= l < |sides| ==> tuples[l] == TupleAt(sides[l], values);
    r := Ok(out);
  }
}
