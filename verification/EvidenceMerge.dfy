/** Worker-owned evidence shards and their merge into the spool (engine/state.py,
    RelationEvidenceShard and merge_relation_shard): the comparison sees the same evidence
    however the rows were split over shards and in whatever order keys are listed. */
module EvidenceMerge {
  import opened Wrappers
  import opened Relations
  import WorkerPool

  type Row = Option<string>

  /** A key table as its primary key allows it: no key twice, every count positive. */
  ghost predicate Proper(keys: seq<(string, nat)>) {
    && (forall i, j :: 0 <= i < j < |keys| ==> keys[i].0 != keys[j].0)
    && (forall i :: 0 <= i < |keys| ==> keys[i].1 > 0)
  }

  function Occurrences(keys: seq<(string, nat)>, key: string): nat {
    var i := FindKey(keys, key);
    if i < |keys| then keys[i].1 else 0
  }

  /** ON CONFLICT DO UPDATE occurrences + excluded.occurrences */
  function UpsertBy(keys: seq<(string, nat)>, key: string, n: nat): seq<(string, nat)> {
    var i := FindKey(keys, key);
    if i < |keys| then keys[i := (key, keys[i].1 + n)] else keys + [(key, n)]
  }

  /** `side` is the evidence of exactly these rows, in some key order. */
  ghost predicate Holds(side: Side, rows: seq<Row>) {
    && side.rows == |rows|
    && side.nulls == multiset(rows)[None]
    && Proper(side.keys)
    && forall key :: Occurrences(side.keys, key) == multiset(rows)[Some(key)]
  }

  lemma OccurrencesOf(keys: seq<(string, nat)>, key: string, i: nat)
    requires Proper(keys) && i < |keys|
    ensures keys[i].0 == key ==> FindKey(keys, key) == i
  {
  }

  lemma UpsertAdds(keys: seq<(string, nat)>, key: string, n: nat)
    requires Proper(keys) && n > 0
    ensures Proper(UpsertBy(keys, key, n))
    ensures forall k :: Occurrences(UpsertBy(keys, key, n), k) ==
                        Occurrences(keys, k) + if k == key then n else 0
  {
    var after, at := UpsertBy(keys, key, n), FindKey(keys, key);
    forall k ensures Occurrences(after, k) == Occurrences(keys, k) + if k == key then n else 0 {
      var i := FindKey(keys, k);
      var j := FindKey(after, k);
      if i < |keys| {
        OccurrencesOf(after, k, i);
      } else if k == key {
        OccurrencesOf(after, k, at);
      } else {
        assert forall l :: 0 <= l < |after| ==> after[l].0 != k;
      }
    }
  }

  /** What one pass over the rows records. */
  lemma {:induction false} ObservedHolds(rows: seq<Row>)
    ensures Holds(Observe(rows), rows)
  {
    if rows != [] {
      var n := |rows| - 1;
      var rest, last := rows[..n], rows[n];
      ObservedHolds(rest);
      assert rows == rest + [last];
      if last.Some? {
        UpsertAdds(Observe(rest).keys, last.value, 1);
        assert Observe(rows).keys == UpsertBy(Observe(rest).keys, last.value, 1);
      }
    } else {
      assert multiset(rows) == multiset{};
    }
  }

  lemma PrefixOccurrences(keys: seq<(string, nat)>, i: nat, key: string)
    requires Proper(keys) && i < |keys|
    ensures Occurrences(keys[..i + 1], key) ==
            Occurrences(keys[..i], key) + if key == keys[i].0 then keys[i].1 else 0
  {
  }

  method MergeKeys(spool: seq<(string, nat)>, shard: seq<(string, nat)>) returns (merged: seq<(string, nat)>)
    requires Proper(spool) && Proper(shard)
    ensures Proper(merged)
    ensures forall k :: Occurrences(merged, k) == Occurrences(spool, k) + Occurrences(shard, k)
  {
    merged := spool;
    for i := 0 to |shard|
      invariant Proper(merged)
      invariant forall k :: Occurrences(merged, k) == Occurrences(spool, k) + Occurrences(shard[..i], k)
    {
      UpsertAdds(merged, shard[i].0, shard[i].1);
      forall k ensures Occurrences(shard[..i + 1], k) ==
                       Occurrences(shard[..i], k) + if k == shard[i].0 then shard[i].1 else 0
      {
        PrefixOccurrences(shard, i, k);
      }
      merged := UpsertBy(merged, shard[i].0, shard[i].1);
    }
    assert shard[..|shard|] == shard;
  }

  /** `merge_relation_shard` for one relation side: the evidence of both row lists. */
  method MergeShard(spool: Side, shard: Side, ghost before: seq<Row>, ghost added: seq<Row>)
    returns (merged: Side)
    requires Holds(spool, before) && Holds(shard, added)
    ensures Holds(merged, before + added)
  {
    var keys := MergeKeys(spool.keys, shard.keys);
    merged := Side(spool.rows + shard.rows, spool.nulls + shard.nulls, keys);
    assert multiset(before + added) == multiset(before) + multiset(added);
  }

  ghost function Concat(tables: seq<seq<Row>>): seq<Row> {
    if tables == [] then [] else Concat(tables[..|tables| - 1]) + tables[|tables| - 1]
  }

  /** The shards of all accepted tables, merged in acceptance order. */
  method MergeAccepted(shards: seq<Side>, ghost tables: seq<seq<Row>>) returns (spool: Side)
    requires |shards| == |tables| && forall t :: 0 <= t < |shards| ==> Holds(shards[t], tables[t])
    ensures Holds(spool, Concat(tables))
  {
    spool := EMPTY_SIDE;
    ObservedHolds([]);
    for t := 0 to |shards|
      invariant Holds(spool, Concat(tables[..t]))
    {
      assert tables[..t + 1][..t] == tables[..t];
      spool := MergeShard(spool, shards[t], Concat(tables[..t]), tables[t]);
    }
    assert tables[..|shards|] == tables;
  }

  // ---- the key order is irrelevant ----

  lemma {:induction false} PairMultiplicity(keys: seq<(string, nat)>, key: string, n: nat)
    requires Proper(keys)
    ensures multiset(keys)[(key, n)] == if n > 0 && Occurrences(keys, key) == n then 1 else 0
  {
    if keys != [] {
      var last := |keys| - 1;
      assert keys == keys[..last] + [keys[last]];
      PairMultiplicity(keys[..last], key, n);
      PrefixOccurrences(keys, last, key);
      assert keys[..last + 1] == keys;
      if key == keys[last].0 {
        assert forall l :: 0 <= l < last ==> keys[..last][l].0 != key;
      }
    }
  }

  /** Two records of the same rows list the same keys with the same counts. */
  lemma HoldsDetermines(a: Side, b: Side, rows: seq<Row>)
    requires Holds(a, rows) && Holds(b, rows)
    ensures a.rows == b.rows && a.nulls == b.nulls && multiset(a.keys) == multiset(b.keys)
  {
    forall p: (string, nat) ensures multiset(a.keys)[p] == multiset(b.keys)[p] {
      PairMultiplicity(a.keys, p.0, p.1);
      PairMultiplicity(b.keys, p.0, p.1);
    }
  }

  lemma {:induction false} MatchedSplit(parent: seq<(string, nat)>, x: seq<(string, nat)>, y: seq<(string, nat)>)
    ensures MatchedCount(parent, x + y) == MatchedCount(parent, x) + MatchedCount(parent, y)
  {
    if y == [] {
      assert x + y == x;
    } else {
      var n := |y| - 1;
      MatchedSplit(parent, x, y[..n]);
      assert (x + y)[..|x + y| - 1] == x + y[..n];
    }
  }

  function Without(keys: seq<(string, nat)>, i: nat): seq<(string, nat)>
    requires i < |keys|
  {
    keys[..i] + keys[i + 1..]
  }

  lemma DropContents<T>(s: seq<T>, i: nat)
    requires i < |s|
    ensures multiset(s) == multiset(s[..i] + s[i + 1..]) + multiset{s[i]}
  {
    assert s == s[..i] + [s[i]] + s[i + 1..];
  }

  lemma DropCounts(keys: seq<(string, nat)>, i: nat)
    requires i < |keys|
    ensures multiset(Counts(keys)) == multiset(Counts(Without(keys, i))) + multiset{keys[i].1}
  {
    DropContents(Counts(keys), i);
    assert Counts(Without(keys, i)) == Counts(keys)[..i] + Counts(keys)[i + 1..];
  }

  lemma DropMatched(parent: seq<(string, nat)>, keys: seq<(string, nat)>, i: nat)
    requires i < |keys|
    ensures MatchedCount(parent, keys) == MatchedCount(parent, Without(keys, i)) + MatchedCount(parent, [keys[i]])
  {
    assert keys == keys[..i] + [keys[i]] + keys[i + 1..];
    MatchedSplit(parent, keys[..i] + [keys[i]], keys[i + 1..]);
    MatchedSplit(parent, keys[..i], [keys[i]]);
    MatchedSplit(parent, keys[..i], keys[i + 1..]);
  }

  /** Dropping one row of a key table. */
  lemma DropRow(parent: seq<(string, nat)>, keys: seq<(string, nat)>, i: nat) returns (rest: seq<(string, nat)>)
    requires i < |keys|
    ensures |rest| == |keys| - 1 && multiset(keys) == multiset(rest) + multiset{keys[i]}
    ensures multiset(Counts(keys)) == multiset(Counts(rest)) + multiset{keys[i].1}
    ensures MatchedCount(parent, keys) == MatchedCount(parent, rest) + MatchedCount(parent, [keys[i]])
  {
    rest := Without(keys, i);
    DropContents(keys, i);
    DropCounts(keys, i);
    DropMatched(parent, keys, i);
  }

  lemma CancelOne<T>(a: multiset<T>, b: multiset<T>, x: T)
    requires a + multiset{x} == b + multiset{x}
    ensures a == b
  {
    assert a == (a + multiset{x}) - multiset{x} && b == (b + multiset{x}) - multiset{x};
  }

  lemma {:induction false} QueriesIgnoreOrder(parent: seq<(string, nat)>, a: seq<(string, nat)>, b: seq<(string, nat)>)
    requires multiset(a) == multiset(b)
    ensures multiset(Counts(a)) == multiset(Counts(b)) && |a| == |b|
    ensures MatchedCount(parent, a) == MatchedCount(parent, b)
    decreases |a|
  {
    if a == [] {
      assert b == [];
    } else {
      assert a[0] in multiset(b);
      var i :| 0 <= i < |b| && b[i] == a[0];
      var rest := DropRow(parent, a, 0);
      var other := DropRow(parent, b, i);
      CancelOne(multiset(rest), multiset(other), a[0]);
      QueriesIgnoreOrder(parent, rest, other);
    }
  }

  lemma {:induction false} ParentsIgnoreOrder(a: seq<(string, nat)>, b: seq<(string, nat)>, foreign: seq<(string, nat)>)
    requires multiset(a) == multiset(b)
    ensures MatchedCount(a, foreign) == MatchedCount(b, foreign)
  {
    if foreign != [] {
      var n := |foreign| - 1;
      ParentsIgnoreOrder(a, b, foreign[..n]);
      KeyPresence(a, b, foreign[n].0);
      KeyPresence(b, a, foreign[n].0);
    }
  }

  lemma KeyPresence(a: seq<(string, nat)>, b: seq<(string, nat)>, key: string)
    requires multiset(a) == multiset(b)
    ensures HasKey(a, key) ==> HasKey(b, key)
  {
    if HasKey(a, key) {
      assert a[FindKey(a, key)] in multiset(b);
      var j :| 0 <= j < |b| && b[j] == a[FindKey(a, key)];
    }
  }

  /** Evidence of the same rows is compared alike. */
  lemma SameRowsCompareAlike(before: Evidence, x: Evidence, y: Evidence, parent: seq<Row>, foreign: seq<Row>)
    requires Holds(x.parent, parent) && Holds(y.parent, parent)
    requires Holds(x.foreign, foreign) && Holds(y.foreign, foreign)
    ensures Verified(before, x) <==> Verified(before, y)
    ensures Matched(x) == Matched(y) && Orphans(x) == Orphans(y) && |x.parent.keys| == |y.parent.keys|
  {
    HoldsDetermines(x.parent, y.parent, parent);
    HoldsDetermines(x.foreign, y.foreign, foreign);
    QueriesIgnoreOrder([], x.parent.keys, y.parent.keys);
    QueriesIgnoreOrder(x.parent.keys, x.foreign.keys, y.foreign.keys);
    ParentsIgnoreOrder(x.parent.keys, y.parent.keys, y.foreign.keys);
  }

  // ---- parallel and sequential evidence ----

  /** What a written record of table `t` adds to one relation side: nothing unless the
      relation names that table on that side. */
  type Contribution<!R> = (nat, R) -> seq<Row>

  function TableRows<R>(table: seq<R>, t: nat, row: Contribution<R>): seq<Row> {
    if table == [] then [] else TableRows(table[..|table| - 1], t, row) + row(t, table[|table| - 1])
  }

  /** The evidence rows of every written table. */
  function Contributions<R>(tables: seq<seq<R>>, row: Contribution<R>): (rows: seq<seq<Row>>)
    ensures |rows| == |tables| && forall t :: 0 <= t < |tables| ==> rows[t] == TableRows(tables[t], t, row)
  {
    seq(|tables|, t requires 0 <= t < |tables| => TableRows(tables[t], t, row))
  }

  /** After a successful run with any worker count, the spool into which the shards of the
      accepted tables were merged compares exactly as one sequential pass, for every relation:
      each side may be fed by one table, by several or by none, and by the same table as the
      other side. */
  lemma ParallelComparesAlike<R(!new)>(jobs: seq<WorkerPool.Job<R>>, width: nat, run: seq<WorkerPool.State<R>>, k: nat,
                                       tables: seq<seq<R>>, asParent: Contribution<R>, asForeign: Contribution<R>,
                                       before: Evidence, after: Evidence)
    requires WorkerPool.IsRun(jobs, width, run) && k < |run| && run[k].pc == WorkerPool.Succeeded
    requires |tables| == |jobs| && WorkerPool.SequentialPrefix(jobs, tables)
    requires Holds(after.parent, Concat(Contributions(run[k].accepted, asParent)))
    requires Holds(after.foreign, Concat(Contributions(run[k].accepted, asForeign)))
    ensures var sequential := Evidence(Observe(Concat(Contributions(tables, asParent))),
                                       Observe(Concat(Contributions(tables, asForeign))));
            (Verified(before, after) <==> Verified(before, sequential)) &&
            Matched(after) == Matched(sequential) && Orphans(after) == Orphans(sequential)
  {
    WorkerPool.ParallelRefinesSequential(jobs, width, run, k);
    var parent, foreign := Concat(Contributions(tables, asParent)), Concat(Contributions(tables, asForeign));
    ObservedHolds(parent);
    ObservedHolds(foreign);
    SameRowsCompareAlike(before, after, Evidence(Observe(parent), Observe(foreign)), parent, foreign);
  }

  /** The contribution of a relation side: the rows of its one table, in order. */
  function SideContribution<R>(table: nat, row: R -> Row): Contribution<R> {
    (t, r) => if t == table then [row(r)] else []
  }

  lemma {:induction false} OtherTableAddsNothing<R>(table: seq<R>, t: nat, named: nat, row: R -> Row)
    ensures t != named ==> TableRows(table, t, SideContribution(named, row)) == []
    ensures t == named ==> TableRows(table, t, SideContribution(named, row)) == RowsUnder(table, row)
  {
    if table != [] {
      OtherTableAddsNothing(table[..|table| - 1], t, named, row);
      assert t == named ==> RowsUnder(table, row) == RowsUnder(table[..|table| - 1], row) + [row(table[|table| - 1])];
    }
  }

  function RowsUnder<R>(table: seq<R>, row: R -> Row): (rows: seq<Row>)
    ensures |rows| == |table| && forall i :: 0 <= i < |table| ==> rows[i] == row(table[i])
  {
    seq(|table|, i requires 0 <= i < |table| => row(table[i]))
  }

  /** For a relation side that names one table, the rows of all tables are that table's rows. */
  lemma {:induction false} OneTableSide<R>(tables: seq<seq<R>>, named: nat, row: R -> Row)
    ensures Concat(Contributions(tables, SideContribution(named, row))) ==
            if named < |tables| then RowsUnder(tables[named], row) else []
    decreases |tables|
  {
    if tables != [] {
      var n, c := |tables| - 1, SideContribution(named, row);
      OneTableSide(tables[..n], named, row);
      OtherTableAddsNothing(tables[n], n, named, row);
      ConcatLast(tables, c);
    }
  }

  lemma ConcatLast<R>(tables: seq<seq<R>>, row: Contribution<R>)
    requires tables != []
    ensures var n := |tables| - 1;
            Concat(Contributions(tables, row)) == Concat(Contributions(tables[..n], row)) + TableRows(tables[n], n, row)
  {
    var n := |tables| - 1;
    assert Contributions(tables, row)[..n] == Contributions(tables[..n], row);
  }

  /** The relation of a parent and a foreign table, possibly the same: after any successful
      run, the merged evidence compares as that of the sequential tables. */
  lemma RelationComparesAlike<R(!new)>(jobs: seq<WorkerPool.Job<R>>, width: nat, run: seq<WorkerPool.State<R>>, k: nat,
                                       tables: seq<seq<R>>, parent: nat, foreign: nat,
                                       parentRow: R -> Row, foreignRow: R -> Row, before: Evidence, after: Evidence)
    requires WorkerPool.IsRun(jobs, width, run) && k < |run| && run[k].pc == WorkerPool.Succeeded
    requires |tables| == |jobs| && WorkerPool.SequentialPrefix(jobs, tables)
    requires parent < |jobs| && foreign < |jobs|
    requires Holds(after.parent, Concat(Contributions(run[k].accepted, SideContribution(parent, parentRow))))
    requires Holds(after.foreign, Concat(Contributions(run[k].accepted, SideContribution(foreign, foreignRow))))
    ensures Verified(before, after) <==>
            Verified(before, Evidence(Observe(RowsUnder(tables[parent], parentRow)),
                                      Observe(RowsUnder(tables[foreign], foreignRow))))
  {
    ParallelComparesAlike(jobs, width, run, k, tables, SideContribution(parent, parentRow),
                          SideContribution(foreign, foreignRow), before, after);
    OneTableSide(tables, parent, parentRow);
    OneTableSide(tables, foreign, foreignRow);
  }
}
