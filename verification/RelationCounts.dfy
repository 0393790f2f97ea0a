/** What the relationship evidence counts, said of the rows themselves: the figures of a
    relation summary and its verdict depend on nothing but which rows are NULL, which are
    equal and which have a parent (engine/state.py, the spool queries; engine/pass2.py,
    _compare_relations). */
module RelationCounts {
  import opened Wrappers
  import opened Relations
  import opened EvidenceMerge

  // ---- the rows ----

  /** Some parent row carries the key of this foreign row. */
  ghost predicate HasParent(parents: seq<Row>, row: Row) {
    row.Some? && exists j :: 0 <= j < |parents| && parents[j] == row
  }

  ghost function NullAt(rows: seq<Row>): set<int> {
    set i | 0 <= i < |rows| && rows[i].None?
  }

  /** The positions of the foreign rows that have a parent. */
  ghost function MatchedAt(parents: seq<Row>, foreign: seq<Row>): set<int> {
    set i | 0 <= i < |foreign| && HasParent(parents, foreign[i])
  }

  /** The positions of the keyed foreign rows without a parent. */
  ghost function OrphanAt(parents: seq<Row>, foreign: seq<Row>): set<int> {
    set i | 0 <= i < |foreign| && foreign[i].Some? && !HasParent(parents, foreign[i])
  }

  ghost function DistinctKeys(rows: seq<Row>): set<Row> {
    set r | r in rows && r.Some?
  }

  /** The keys carried by exactly `n` rows. */
  ghost function KeysTimes(rows: seq<Row>, n: nat): set<Row> {
    set r | r in rows && r.Some? && multiset(rows)[r] == n
  }

  // ---- the matched query ----

  lemma {:induction false} MatchedUpdate(parent: seq<(string, nat)>, keys: seq<(string, nat)>, i: nat)
    requires i < |keys|
    ensures MatchedCount(parent, keys[i := (keys[i].0, keys[i].1 + 1)]) ==
            MatchedCount(parent, keys) + if HasKey(parent, keys[i].0) then 1 else 0
  {
    var n := |keys| - 1;
    var after := keys[i := (keys[i].0, keys[i].1 + 1)];
    if i < n {
      MatchedUpdate(parent, keys[..n], i);
      assert after[..n] == keys[..n][i := (keys[i].0, keys[i].1 + 1)];
    } else {
      assert after[..n] == keys[..n];
    }
  }

  lemma MatchedUpsert(parent: seq<(string, nat)>, keys: seq<(string, nat)>, key: string)
    ensures MatchedCount(parent, Upsert(keys, key)) ==
            MatchedCount(parent, keys) + if HasKey(parent, key) then 1 else 0
  {
    var i := FindKey(keys, key);
    if i < |keys| {
      MatchedUpdate(parent, keys, i);
    } else {
      assert (keys + [(key, 1)])[..|keys|] == keys;
    }
  }

  lemma KeyIffRow(side: Side, rows: seq<Row>, key: string)
    requires Holds(side, rows)
    ensures HasKey(side.keys, key) <==> Some(key) in rows
  {
    assert Some(key) in rows <==> multiset(rows)[Some(key)] > 0;
    assert Occurrences(side.keys, key) == multiset(rows)[Some(key)];
  }

  lemma LastMatched(parents: seq<Row>, foreign: seq<Row>, n: nat)
    requires |foreign| == n + 1
    ensures |MatchedAt(parents, foreign)| ==
            |MatchedAt(parents, foreign[..n])| + if HasParent(parents, foreign[n]) then 1 else 0
  {
    assert MatchedAt(parents, foreign) ==
           MatchedAt(parents, foreign[..n]) + if HasParent(parents, foreign[n]) then {n} else {};
  }

  lemma {:induction false} ObservedMatched(parent: Side, parents: seq<Row>, foreign: seq<Row>)
    requires Holds(parent, parents)
    ensures MatchedCount(parent.keys, Observe(foreign).keys) == |MatchedAt(parents, foreign)|
  {
    if foreign == [] {
      assert MatchedAt(parents, foreign) == {};
    } else {
      var n := |foreign| - 1;
      ObservedMatched(parent, parents, foreign[..n]);
      LastMatched(parents, foreign, n);
      if foreign[n].Some? {
        MatchedUpsert(parent.keys, Observe(foreign[..n]).keys, foreign[n].value);
        KeyIffRow(parent, parents, foreign[n].value);
      }
    }
  }

  lemma {:induction false} NullCount(rows: seq<Row>)
    ensures multiset(rows)[None] == |NullAt(rows)|
  {
    if rows == [] {
      assert NullAt(rows) == {};
    } else {
      var n := |rows| - 1;
      NullCount(rows[..n]);
      assert rows == rows[..n] + [rows[n]];
      assert NullAt(rows) == NullAt(rows[..n]) + if rows[n].None? then {n} else {};
    }
  }

  /** Every position is a NULL row, a matched row or an orphan. */
  lemma {:induction false} PositionsSplit(parents: seq<Row>, foreign: seq<Row>)
    ensures |foreign| == |NullAt(foreign)| + |MatchedAt(parents, foreign)| + |OrphanAt(parents, foreign)|
  {
    if foreign == [] {
      assert NullAt(foreign) == {} && MatchedAt(parents, foreign) == {} && OrphanAt(parents, foreign) == {};
    } else {
      var n := |foreign| - 1;
      PositionsSplit(parents, foreign[..n]);
      LastMatched(parents, foreign, n);
      LastNull(foreign, n);
      LastOrphan(parents, foreign, n);
    }
  }

  lemma LastNull(rows: seq<Row>, n: nat)
    requires |rows| == n + 1
    ensures |NullAt(rows)| == |NullAt(rows[..n])| + if rows[n].None? then 1 else 0
  {
    assert NullAt(rows) == NullAt(rows[..n]) + if rows[n].None? then {n} else {};
  }

  lemma LastOrphan(parents: seq<Row>, foreign: seq<Row>, n: nat)
    requires |foreign| == n + 1
    ensures |OrphanAt(parents, foreign)| ==
            |OrphanAt(parents, foreign[..n])| +
            if foreign[n].Some? && !HasParent(parents, foreign[n]) then 1 else 0
  {
    assert OrphanAt(parents, foreign) ==
           OrphanAt(parents, foreign[..n]) +
           if foreign[n].Some? && !HasParent(parents, foreign[n]) then {n} else {};
  }

  /** Evidence of parent rows and foreign rows, in whatever key order the spool lists it. */
  ghost predicate EvidenceOf(e: Evidence, parents: seq<Row>, foreign: seq<Row>) {
    Holds(e.parent, parents) && Holds(e.foreign, foreign)
  }

  /** The matched figure is the number of foreign rows some parent row equals, and the orphan
      figure the number of keyed foreign rows none does. */
  lemma MatchedIsRowsWithParent(e: Evidence, parents: seq<Row>, foreign: seq<Row>)
    requires EvidenceOf(e, parents, foreign)
    ensures Matched(e) == |MatchedAt(parents, foreign)|
    ensures Orphans(e) == |OrphanAt(parents, foreign)|
  {
    ObservedHolds(foreign);
    ObservedMatched(e.parent, parents, foreign);
    SameRowsCompareAlike(e, e, Evidence(e.parent, Observe(foreign)), parents, foreign);
    NullCount(foreign);
    PositionsSplit(parents, foreign);
  }

  // ---- the profile query ----

  /** The keys of a key table listed with exactly `n` occurrences. */
  ghost function ListedTimes(keys: seq<(string, nat)>, n: nat): set<Row> {
    set i | 0 <= i < |keys| && keys[i].1 == n :: Some(keys[i].0)
  }

  lemma {:induction false} CountsListed(keys: seq<(string, nat)>, n: nat)
    requires Proper(keys)
    ensures multiset(Counts(keys))[n] == |ListedTimes(keys, n)|
  {
    if keys == [] {
      assert ListedTimes(keys, n) == {};
    } else {
      var last := |keys| - 1;
      CountsListed(keys[..last], n);
      assert Counts(keys) == Counts(keys[..last]) + [keys[last].1];
      LastListed(keys, last, n);
    }
  }

  lemma LastListed(keys: seq<(string, nat)>, last: nat, n: nat)
    requires Proper(keys) && |keys| == last + 1
    ensures |ListedTimes(keys, n)| == |ListedTimes(keys[..last], n)| + if keys[last].1 == n then 1 else 0
  {
    assert ListedTimes(keys, n) ==
           ListedTimes(keys[..last], n) + if keys[last].1 == n then {Some(keys[last].0)} else {};
    assert Some(keys[last].0) !in ListedTimes(keys[..last], n);
  }

  lemma ListedIsOccurring(side: Side, rows: seq<Row>, n: nat)
    requires Holds(side, rows)
    ensures ListedTimes(side.keys, n) == KeysTimes(rows, n)
  {
    forall r: Row ensures r in ListedTimes(side.keys, n) <==> r in KeysTimes(rows, n) {
      if r.Some? {
        ListedIffOccurs(side, rows, r.value, n);
      }
    }
  }

  lemma ListedIffOccurs(side: Side, rows: seq<Row>, key: string, n: nat)
    requires Holds(side, rows)
    ensures Some(key) in ListedTimes(side.keys, n) <==> Some(key) in KeysTimes(rows, n)
  {
    KeyIffRow(side, rows, key);
    assert Occurrences(side.keys, key) == multiset(rows)[Some(key)];
    if i :| 0 <= i < |side.keys| && side.keys[i].0 == key {
      OccurrencesOf(side.keys, key, i);
    }
  }

  /** The two sides have the same profile exactly when, for every n, as many keys occur
      n times on one as on the other. */
  lemma ProfileIsMultiplicities(a: Side, b: Side, x: seq<Row>, y: seq<Row>)
    requires Holds(a, x) && Holds(b, y)
    ensures SameProfile(a, b) <==> forall n: nat :: |KeysTimes(x, n)| == |KeysTimes(y, n)|
  {
    forall n: nat
      ensures multiset(Counts(a.keys))[n] == |KeysTimes(x, n)|
      ensures multiset(Counts(b.keys))[n] == |KeysTimes(y, n)|
    {
      CountsListed(a.keys, n);
      CountsListed(b.keys, n);
      ListedIsOccurring(a, x, n);
      ListedIsOccurring(b, y, n);
    }
    SameCounts(a, b, x, y);
  }

  lemma SameCounts(a: Side, b: Side, x: seq<Row>, y: seq<Row>)
    requires forall n: nat :: multiset(Counts(a.keys))[n] == |KeysTimes(x, n)|
    requires forall n: nat :: multiset(Counts(b.keys))[n] == |KeysTimes(y, n)|
    ensures SameProfile(a, b) <==> forall n: nat :: |KeysTimes(x, n)| == |KeysTimes(y, n)|
  {
    if forall n: nat :: |KeysTimes(x, n)| == |KeysTimes(y, n)| {
      forall n: nat ensures multiset(Counts(a.keys))[n] == multiset(Counts(b.keys))[n] {
        assert |KeysTimes(x, n)| == |KeysTimes(y, n)|;
      }
      assert multiset(Counts(a.keys)) == multiset(Counts(b.keys));
    }
    if SameProfile(a, b) {
      forall n: nat ensures |KeysTimes(x, n)| == |KeysTimes(y, n)| {
        assert multiset(Counts(a.keys))[n] == multiset(Counts(b.keys))[n];
      }
    }
  }

  /** A key table has one row for every distinct key. */
  lemma UniqueIsDistinct(side: Side, rows: seq<Row>)
    requires Holds(side, rows)
    ensures |side.keys| == |DistinctKeys(rows)|
  {
    ListedCount(side.keys);
    forall r: Row ensures r in Listed(side.keys) <==> r in DistinctKeys(rows) {
      if r.Some? {
        KeyIffRow(side, rows, r.value);
      }
    }
    assert Listed(side.keys) == DistinctKeys(rows);
  }

  ghost function Listed(keys: seq<(string, nat)>): set<Row> {
    set i | 0 <= i < |keys| :: Some(keys[i].0)
  }

  lemma {:induction false} ListedCount(keys: seq<(string, nat)>)
    requires Proper(keys)
    ensures |Listed(keys)| == |keys|
  {
    if keys != [] {
      var n := |keys| - 1;
      ListedCount(keys[..n]);
      assert Listed(keys) == Listed(keys[..n]) + {Some(keys[n].0)};
      assert Some(keys[n].0) !in Listed(keys[..n]);
    }
  }

  // ---- the verdict ----

  /** As many keys occur n times in one list as in the other, for every n. */
  ghost predicate SameMultiplicities(x: seq<Row>, y: seq<Row>) {
    forall n: nat :: |KeysTimes(x, n)| == |KeysTimes(y, n)|
  }

  /** The rule on rows: equal multiplicities of parent and of foreign keys, equally many
      foreign rows with a parent, equally many NULL rows on each side. */
  ghost predicate RowsPreserved(pb: seq<Row>, fb: seq<Row>, pa: seq<Row>, fa: seq<Row>) {
    && SameMultiplicities(pb, pa) && SameMultiplicities(fb, fa)
    && |MatchedAt(pb, fb)| == |MatchedAt(pa, fa)|
    && |NullAt(pb)| == |NullAt(pa)| && |NullAt(fb)| == |NullAt(fa)|
  }

  /** Evidence of rows is balanced, and so is any evidence the comparison reads. */
  lemma HoldsIsBalanced(side: Side, rows: seq<Row>)
    requires Holds(side, rows)
    ensures Balanced(side)
  {
    ObservedHolds(rows);
    ObservedIsBalanced(rows);
    HoldsDetermines(side, Observe(rows), rows);
    QueriesIgnoreOrder([], side.keys, Observe(rows).keys);
    DescendingIsCanonical(Counts(side.keys), Counts(Observe(rows).keys));
  }

  /** The verdict says exactly that the rows were preserved, so it is negative whenever the
      number of foreign rows with a parent has changed. */
  lemma VerifiedIffRowsPreserved(before: Evidence, after: Evidence,
                                 pb: seq<Row>, fb: seq<Row>, pa: seq<Row>, fa: seq<Row>)
    requires EvidenceOf(before, pb, fb) && EvidenceOf(after, pa, fa)
    ensures Verified(before, after) <==> RowsPreserved(pb, fb, pa, fa)
  {
    HoldsIsBalanced(before.parent, pb);
    HoldsIsBalanced(before.foreign, fb);
    HoldsIsBalanced(after.parent, pa);
    HoldsIsBalanced(after.foreign, fa);
    VerifiedConserves(before, after);
    MatchedIsRowsWithParent(before, pb, fb);
    MatchedIsRowsWithParent(after, pa, fa);
    ProfileIsMultiplicities(before.parent, after.parent, pb, pa);
    ProfileIsMultiplicities(before.foreign, after.foreign, fb, fa);
    NullCount(pb);
    NullCount(pa);
    NullCount(fb);
    NullCount(fa);
  }

  /** Every figure of a summary, read off the rows before and after the transformation. */
  lemma SummaryCountsRows(s: Summary, before: Evidence, after: Evidence,
                          pb: seq<Row>, fb: seq<Row>, pa: seq<Row>, fa: seq<Row>)
    requires SummaryFor(s, before, after)
    requires EvidenceOf(before, pb, fb) && EvidenceOf(after, pa, fa)
    ensures s.verified <==> RowsPreserved(pb, fb, pa, fa)
    ensures |MatchedAt(pb, fb)| != |MatchedAt(pa, fa)| ==> !s.verified
    ensures s.beforeRows == |pb| + |fb| && s.afterRows == |pa| + |fa|
    ensures s.beforeNulls == |NullAt(fb)| && s.afterNulls == |NullAt(fa)|
    ensures s.beforeUnique == |DistinctKeys(pb)| && s.afterUnique == |DistinctKeys(pa)|
    ensures s.matchedRows == |MatchedAt(pa, fa)| && s.orphanCount == |OrphanAt(pa, fa)|
    ensures s.parentProfileEqual <==> SameMultiplicities(pb, pa)
    ensures s.foreignProfileEqual <==> SameMultiplicities(fb, fa)
  {
    VerifiedIffRowsPreserved(before, after, pb, fb, pa, fa);
    MatchedIsRowsWithParent(after, pa, fa);
    UniqueIsDistinct(before.parent, pb);
    UniqueIsDistinct(after.parent, pa);
    ProfileIsMultiplicities(before.parent, after.parent, pb, pa);
    ProfileIsMultiplicities(before.foreign, after.foreign, fb, fa);
    NullCount(fb);
    NullCount(fa);
  }
}
