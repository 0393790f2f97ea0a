/** Pass 2 from end to end: the worker pool over the tables of a finalized plan, the evidence
    shards of its workers, their merge and the comparison of every declared relation
    (engine/pass2.py, run_pass_two). */
module EndToEnd {
  import opened Wrappers
  import opened Records
  import opened Pass2
  import opened Relations
  import opened RoundTrip
  import opened RelationPreservation
  import opened EvidenceMerge
  import opened WorkerPool
  import opened WorkerProgress

  /** A planned table and the relation sides that name it. */
  datatype Planned = Planned(run: TableRun, sides: seq<seq<string>>)

  /** The job of a table: what transforming and observing each of its records yields. */
  ghost predicate JobFor(ctx: Context, t: Planned, job: Job<Record>) {
    && |job| == |t.run.source|
    && forall i :: 0 <= i < |job| ==> OutcomeFor(ctx, t, i, job[i])
  }

  ghost predicate OutcomeFor(ctx: Context, t: Planned, i: nat, outcome: Outcome<Record>)
    requires i < |t.run.source|
  {
    match outcome
    case Row(record) =>
      TransformedRecord(ctx, t.run.schema, t.run.ds, t.run.source[i], record) && AllKeyable(t.sides, record.values)
    case Refusal(_) =>
      exists code :: RecordRefused(ctx, t.run.ds, t.sides, t.run.source[i].values - SystemNames(t.run.schema), code)
  }

  ghost predicate Jobs(ctx: Context, plan: seq<Planned>, jobs: seq<Job<Record>>) {
    |jobs| == |plan| && forall t :: 0 <= t < |plan| ==> JobFor(ctx, plan[t], jobs[t])
  }

  /** Every table is finalized and every side that names it can be keyed. */
  ghost predicate FinalizedPlan(ctx: Context, plan: seq<Planned>) {
    forall t :: 0 <= t < |plan| ==> FinalizedTable(ctx, plan[t])
  }

  ghost predicate FinalizedTable(ctx: Context, t: Planned) {
    && Finalized(ctx, t.run.schema, t.run.ds, t.run.ledger, t.run.tableId, t.run.source)
    && SidesKeyable(ctx, t.run.schema, t.run.ds, t.sides, t.run.source)
  }

  // ---- jobs of a finalized plan ----

  lemma RecordIsNotRefused(ctx: Context, t: Planned, i: nat, code: ErrorCode)
    requires FinalizedTable(ctx, t) && i < |t.run.source|
    ensures !RecordRefused(ctx, t.run.ds, t.sides, t.run.source[i].values - SystemNames(t.run.schema), code)
  {
    PassTwoIsTotal(ctx, t.run.schema, t.run.ds, t.run.ledger, t.run.tableId, t.run.source, i, code);
  }

  /** No table of a finalized plan refuses, and its rows are what the transform writes. */
  lemma FinalizedJobIsClean(ctx: Context, t: Planned, job: Job<Record>)
    requires FinalizedTable(ctx, t) && JobFor(ctx, t, job)
    ensures Clean(job) && TransformedTable(ctx, t.run.schema, t.run.ds, t.run.source, JobRows(job))
  {
    forall i | 0 <= i < |job|
      ensures job[i].Row? && TransformedRecord(ctx, t.run.schema, t.run.ds, t.run.source[i], job[i].row)
    {
      assert OutcomeFor(ctx, t, i, job[i]);
      if job[i].Refusal? {
        var code :| RecordRefused(ctx, t.run.ds, t.sides, t.run.source[i].values - SystemNames(t.run.schema), code);
        RecordIsNotRefused(ctx, t, i, code);
      }
    }
  }

  /** The job of a table is what the transform stream computes, record by record. */
  method JobOf(ctx: Context, t: Planned) returns (job: Job<Record>)
    requires DistinctNames(t.run.ds)
    ensures JobFor(ctx, t, job)
  {
    job := [];
    var shard := seq(|t.sides|, _ => EMPTY_SIDE);
    for i := 0 to |t.run.source|
      invariant |job| == i && forall k :: 0 <= k < i ==> OutcomeFor(ctx, t, k, job[k])
    {
      var source := t.run.source[i];
      var out := TransformRecord(ctx, t.run.ds, t.sides, source.values - SystemNames(t.run.schema), shard);
      match out {
        case Ok(pair) =>
          var record := Record(source.physicalIndex, source.deleted, pair.0);
          assert OutcomeFor(ctx, t, i, Row(record));
          job := job + [Row(record)];
        case Err(code) =>
          assert OutcomeFor(ctx, t, i, Refusal(0));
          job := job + [Refusal(0)];
      }
    }
  }

  // ---- accepted tables ----

  /** Every successful interleaving accepts, for each table of the plan in order, a transform
      of its source. */
  lemma PoolTransforms(ctx: Context, plan: seq<Planned>, jobs: seq<Job<Record>>, width: nat,
                       run: seq<State<Record>>, k: nat)
    requires FinalizedPlan(ctx, plan) && Jobs(ctx, plan, jobs)
    requires IsRun(jobs, width, run) && k < |run| && run[k].pc == Succeeded
    ensures |run[k].accepted| == |plan|
    ensures forall t :: 0 <= t < |plan| ==>
              Ran(ctx, plan[t].run.(written := run[k].accepted[t]))
  {
    ParallelRefinesSequential(jobs, width, run, k);
    forall t | 0 <= t < |plan| ensures Ran(ctx, plan[t].run.(written := run[k].accepted[t])) {
      assert JobFor(ctx, plan[t], jobs[t]) && FinalizedTable(ctx, plan[t]);
      FinalizedJobIsClean(ctx, plan[t], jobs[t]);
    }
  }

  /** And such a run exists: left alone, the pool succeeds on every finalized plan. */
  lemma FinalizedPlanSucceeds(ctx: Context, plan: seq<Planned>, jobs: seq<Job<Record>>, width: nat)
    returns (run: seq<State<Record>>)
    requires FinalizedPlan(ctx, plan) && Jobs(ctx, plan, jobs) && width >= 1
    ensures IsRun(jobs, width, run) && run[|run| - 1].pc == Succeeded
  {
    forall t | 0 <= t < |jobs| ensures Clean(jobs[t]) {
      assert JobFor(ctx, plan[t], jobs[t]) && FinalizedTable(ctx, plan[t]);
      FinalizedJobIsClean(ctx, plan[t], jobs[t]);
    }
    InitInv<Record>(jobs, width);
    run := LeftAloneItEnds(jobs, width, Init());
  }

  // ---- the relations ----

  /** A declared relation: two tables of the plan, possibly one, and their key fields. */
  datatype Declared = Declared(parent: nat, parentFields: seq<string>, foreign: nat, foreignFields: seq<string>)

  /** Both sides follow shared mappings, position by position. */
  ghost predicate Shares(ctx: Context, plan: seq<Planned>, r: Declared, ms: seq<Mapping>) {
    && r.parent < |plan| && r.foreign < |plan|
    && SideFollows(ctx, plan[r.parent].run, r.parentFields, ms)
    && SideFollows(ctx, plan[r.foreign].run, r.foreignFields, ms)
  }

  /** The shard of table `t` for a side that names table `named`. */
  ghost predicate ShardFor(shard: Side, t: nat, named: nat, fields: seq<string>, table: seq<Record>) {
    shard == if t == named then TableEvidence(fields, table) else EMPTY_SIDE
  }

  /** Merging the shards of one relation side gives the evidence of the table it names. */
  method MergeSide(shards: seq<Side>, named: nat, fields: seq<string>, ghost tables: seq<seq<Record>>)
    returns (spool: Side)
    requires |shards| == |tables| && named < |tables|
    requires forall t :: 0 <= t < |tables| ==> ShardFor(shards[t], t, named, fields, tables[t])
    ensures Holds(spool, RowsOf(TuplesOf(fields, tables[named])))
  {
    ghost var rows := SideRows(tables, named, fields);
    forall t | 0 <= t < |tables| ensures Holds(shards[t], rows[t]) {
      assert ShardFor(shards[t], t, named, fields, tables[t]);
      ObservedHolds(rows[t]);
      assert Observe([]) == EMPTY_SIDE;
    }
    spool := MergeAccepted(shards, rows);
    OnlyNamedRows(tables, named, fields);
  }

  ghost function SideRows(tables: seq<seq<Record>>, named: nat, fields: seq<string>): (rows: seq<seq<Option<string>>>)
    ensures |rows| == |tables|
    ensures forall t :: 0 <= t < |tables| ==>
              rows[t] == if t == named then RowsOf(TuplesOf(fields, tables[t])) else []
  {
    seq(|tables|, t requires 0 <= t < |tables| =>
          if t == named then RowsOf(TuplesOf(fields, tables[t])) else [])
  }

  lemma {:induction false} OnlyNamedRows(tables: seq<seq<Record>>, named: nat, fields: seq<string>)
    ensures Concat(SideRows(tables, named, fields)) ==
            if named < |tables| then RowsOf(TuplesOf(fields, tables[named])) else []
    decreases |tables|
  {
    if tables != [] {
      var n := |tables| - 1;
      OnlyNamedRows(tables[..n], named, fields);
      assert SideRows(tables, named, fields)[..n] == SideRows(tables[..n], named, fields);
    }
  }

  /** From end to end: for a finalized plan, after every successful interleaving of any number
      of workers, the merged shards of a declared relation with shared mappings compare as
      verified, with equal row totals and unique counts. */
  method RelationVerifies(ctx: Context, plan: seq<Planned>, ghost jobs: seq<Job<Record>>, ghost width: nat,
                          ghost run: seq<State<Record>>, ghost k: nat, r: Declared, ghost ms: seq<Mapping>,
                          parentShards: seq<Side>, foreignShards: seq<Side>, before: Evidence)
    returns (s: Summary)
    requires FinalizedPlan(ctx, plan) && Jobs(ctx, plan, jobs) && Shares(ctx, plan, r, ms)
    requires IsRun(jobs, width, run) && k < |run| && run[k].pc == Succeeded
    requires |parentShards| == |foreignShards| == |run[k].accepted|
    requires forall t :: 0 <= t < |run[k].accepted| ==>
               && ShardFor(parentShards[t], t, r.parent, r.parentFields, run[k].accepted[t])
               && ShardFor(foreignShards[t], t, r.foreign, r.foreignFields, run[k].accepted[t])
    requires before == Evidence(TableEvidence(r.parentFields, plan[r.parent].run.source),
                                TableEvidence(r.foreignFields, plan[r.foreign].run.source))
    ensures s.verified && s.afterRows == s.beforeRows && s.afterUnique == s.beforeUnique
  {
    ghost var tables := run[k].accepted;
    PoolTransforms(ctx, plan, jobs, width, run, k);
    var parent := MergeSide(parentShards, r.parent, r.parentFields, tables);
    var foreign := MergeSide(foreignShards, r.foreign, r.foreignFields, tables);
    var after := Evidence(parent, foreign);
    MergedVerifies(ctx, plan, tables, r, ms, before, after);
    s := CompareOne(before, after);
  }

  lemma MergedVerifies(ctx: Context, plan: seq<Planned>, tables: seq<seq<Record>>, r: Declared, ms: seq<Mapping>,
                       before: Evidence, after: Evidence)
    requires Shares(ctx, plan, r, ms) && |tables| == |plan|
    requires Ran(ctx, plan[r.parent].run.(written := tables[r.parent]))
    requires Ran(ctx, plan[r.foreign].run.(written := tables[r.foreign]))
    requires before == Evidence(TableEvidence(r.parentFields, plan[r.parent].run.source),
                                TableEvidence(r.foreignFields, plan[r.foreign].run.source))
    requires Holds(after.parent, RowsOf(TuplesOf(r.parentFields, tables[r.parent])))
    requires Holds(after.foreign, RowsOf(TuplesOf(r.foreignFields, tables[r.foreign])))
    ensures Verified(before, after)
    ensures before.parent.rows + before.foreign.rows == after.parent.rows + after.foreign.rows
    ensures |before.parent.keys| == |after.parent.keys|
  {
    var p, f := plan[r.parent].run.(written := tables[r.parent]), plan[r.foreign].run.(written := tables[r.foreign]);
    SameSide(ctx, plan[r.parent].run, p, r.parentFields, ms);
    SameSide(ctx, plan[r.foreign].run, f, r.foreignFields, ms);
    PassTwoPreservesRelation(ctx, p, f, r.parentFields, r.foreignFields, ms);
    var prows, frows := RowsOf(TuplesOf(r.parentFields, tables[r.parent])),
                        RowsOf(TuplesOf(r.foreignFields, tables[r.foreign]));
    var direct := Evidence(Observe(prows), Observe(frows));
    ObservedHolds(prows);
    ObservedHolds(frows);
    SameRowsCompareAlike(before, after, direct, prows, frows);
    SourceIsConserved(before, direct, p, f, r);
  }

  lemma SameSide(ctx: Context, t: TableRun, u: TableRun, fields: seq<string>, ms: seq<Mapping>)
    requires SideFollows(ctx, t, fields, ms) && u == t.(written := u.written)
    ensures SideFollows(ctx, u, fields, ms)
  {
    forall i | 0 <= i < |fields| ensures Member(ctx, u, fields[i], ms[i]) {
      assert Member(ctx, t, fields[i], ms[i]);
    }
  }

  lemma SourceIsConserved(before: Evidence, direct: Evidence, p: TableRun, f: TableRun, r: Declared)
    requires before == Evidence(TableEvidence(r.parentFields, p.source), TableEvidence(r.foreignFields, f.source))
    requires direct == Evidence(TableEvidence(r.parentFields, p.written), TableEvidence(r.foreignFields, f.written))
    requires Verified(before, direct)
    ensures before.parent.rows == direct.parent.rows && before.foreign.rows == direct.foreign.rows
    ensures |before.parent.keys| == |direct.parent.keys|
  {
    ObservedIsBalanced(RowsOf(TuplesOf(r.parentFields, p.source)));
    ObservedIsBalanced(RowsOf(TuplesOf(r.foreignFields, f.source)));
    ObservedIsBalanced(RowsOf(TuplesOf(r.parentFields, p.written)));
    ObservedIsBalanced(RowsOf(TuplesOf(r.foreignFields, f.written)));
    VerifiedConserves(before, direct);
  }
}
