/** The table workers of pass 2 and their coordinator as an interleaved step system
    (engine/pass2.py, run_pass_two, _write_table, _worker_checkpoint,
    _primary_worker_failure). One step is one observable action of one thread. */
module WorkerPool {
  import opened Wrappers

  /** Why a worker's future failed. Only `StopInduced` is a CancellationError. */
  datatype Failure = OwnFault(code: nat) | StopInduced | CleanupFault

  /** Transforming one record either yields its output row or refuses with a code. */
  datatype Outcome<R> = Row(row: R) | Refusal(code: nat)

  /** One planned table: the outcome of each of its records, in physical order. */
  type Job<R> = seq<Outcome<R>>

  datatype Phase<R> =
    | Queued
    | Running(written: seq<R>)
    | Raising(cause: Failure)          // the exception is in flight, the flag not yet set
    | Unwinding(cause: Failure)        // the flag is set, cleanup under way
    | Finished(table: seq<R>)
    | Failed(failure: Failure)
    | Dropped                          // cancelled before it started

  /** What run_pass_two raises. `ShutdownInterrupted` strikes while the executor block waits
      for its threads on the way out. */
  datatype Exn = WorkerFailure(failure: Failure) | CoordinatorFault(code: nat) | ShutdownInterrupted(code: nat)

  datatype Pc =
    | AtBatch                          // loop head of the batch loop
    | Waiting                          // in the wait loop
    | Draining                         // a failure was seen: flag set, queued futures cancelled
    | Aborting(fault: nat)             // the coordinator itself raised inside the wait loop
    | Accepting(k: nat)                // accepting results in submission order
    | Leaving(exn: Exn)                // leaving the executor block
    | Raised(exn: Exn)
    | Succeeded

  datatype State<R> = State(
    start: nat, stop: bool, workers: seq<Phase<R>>, pending: set<nat>, pc: Pc,
    accepted: seq<seq<R>>)

  predicate Terminal<R>(p: Phase<R>) {
    p.Finished? || p.Failed? || p.Dropped?
  }

  // ---- the sequential reference (workers == 1) ----

  ghost predicate Clean<R>(job: Job<R>) {
    forall i :: 0 <= i < |job| ==> job[i].Row?
  }

  function JobRows<R>(job: Job<R>): (rows: seq<R>)
    requires forall i :: 0 <= i < |job| ==> job[i].Row?
    ensures |rows| == |job| && forall i :: 0 <= i < |job| ==> rows[i] == job[i].row
  {
    seq(|job|, i requires 0 <= i < |job| => job[i].row)
  }

  /** `accepted` is the sequential result for the first tables of the plan. */
  ghost predicate SequentialPrefix<R>(jobs: seq<Job<R>>, accepted: seq<seq<R>>) {
    |accepted| <= |jobs| &&
    forall j :: 0 <= j < |accepted| ==> Clean(jobs[j]) && accepted[j] == JobRows(jobs[j])
  }

  function TotalRows<R>(accepted: seq<seq<R>>): nat {
    if accepted == [] then 0 else TotalRows(accepted[..|accepted| - 1]) + |accepted[|accepted| - 1]|
  }

  /** The places of all rows: table and position. */
  ghost function Places<R>(tables: seq<seq<R>>): set<(nat, nat)> {
    set j: nat, i: nat | j < |tables| && i < |tables[j]| :: (j, i)
  }

  ghost function PlacesIn(j: nat, n: nat): set<(nat, nat)> {
    set i: nat | i < n :: (j, i)
  }

  lemma {:induction false} PlacesInCount(j: nat, n: nat)
    ensures |PlacesIn(j, n)| == n
  {
    if n == 0 {
      assert PlacesIn(j, n) == {};
    } else {
      PlacesInCount(j, n - 1);
      assert PlacesIn(j, n) == PlacesIn(j, n - 1) + {(j, n - 1)};
    }
  }

  /** The total is the number of rows of all tables. */
  lemma {:induction false} TotalCountsRows<R>(tables: seq<seq<R>>)
    ensures TotalRows(tables) == |Places(tables)|
  {
    if tables == [] {
      assert Places(tables) == {};
    } else {
      var n := |tables| - 1;
      TotalCountsRows(tables[..n]);
      PlacesInCount(n, |tables[n]|);
      forall p: (nat, nat)
        ensures p in Places(tables) <==> p in Places(tables[..n]) || p in PlacesIn(n, |tables[n]|)
      {
        assert p.0 < n ==> tables[..n][p.0] == tables[p.0];
      }
      assert Places(tables) == Places(tables[..n]) + PlacesIn(n, |tables[n]|);
      assert Places(tables[..n]) !! PlacesIn(n, |tables[n]|);
    }
  }

  datatype SequentialResult<R> =
    | Completed(tables: seq<seq<R>>, records: nat)
    | Stopped(table: nat, code: nat)
    | Interrupted(table: nat, code: nat)

  ghost predicate AllClean<R>(jobs: seq<Job<R>>) {
    forall j :: 0 <= j < |jobs| ==> Clean(jobs[j])
  }

  /** No poll raises. */
  ghost predicate Quiet(polls: seq<Option<nat>>) {
    forall j :: 0 <= j < |polls| ==> polls[j] == None
  }

  /** The first record that is refused is refused with this code. */
  ghost predicate FirstRefusal<R>(job: Job<R>, code: nat) {
    exists i :: 0 <= i < |job| && job[i] == Refusal(code) && forall k :: 0 <= k < i ==> job[k].Row?
  }

  /** The `workers == 1` branch: one table after the other, stopping at the first refusal or
      at the first poll, before a table or after its acceptance, that raises. */
  method RunSequential<R>(jobs: seq<Job<R>>, polls: seq<Option<nat>>, accepts: seq<Option<nat>>)
    returns (r: SequentialResult<R>)
    requires |polls| == |accepts| == |jobs|
    ensures r.Completed? <==> AllClean(jobs) && Quiet(polls) && Quiet(accepts)
    ensures r.Completed? ==> |r.tables| == |jobs| && SequentialPrefix(jobs, r.tables) &&
                             r.records == TotalRows(r.tables) == |Places(r.tables)|
    // Everything before the table that stopped the run went well.
    ensures !r.Completed? ==> r.table < |jobs| && Quiet(polls[..r.table]) && Quiet(accepts[..r.table]) &&
                              forall j :: 0 <= j < r.table ==> Clean(jobs[j])
    ensures r.Stopped? ==> polls[r.table] == None && FirstRefusal(jobs[r.table], r.code)
    ensures r.Interrupted? ==>
              || polls[r.table] == Some(r.code)
              || (polls[r.table] == None && Clean(jobs[r.table]) && accepts[r.table] == Some(r.code))
  {
    var accepted: seq<seq<R>>, records := [], 0;
    for t := 0 to |jobs|
      invariant |accepted| == t && SequentialPrefix(jobs, accepted)
      invariant records == TotalRows(accepted)
      invariant Quiet(polls[..t]) && Quiet(accepts[..t])
    {
      if polls[t].Some? {
        return Interrupted(t, polls[t].value);
      }
      var table, refusal := RunTable(jobs[t]);
      if refusal.Some? {
        return Stopped(t, refusal.value);
      }
      AppendSequential(jobs, accepted, table);
      assert (accepted + [table])[..t] == accepted;
      accepted := accepted + [table];
      records := records + |table|;
      if accepts[t].Some? {
        return Interrupted(t, accepts[t].value);
      }
    }
    assert polls[..|jobs|] == polls && accepts[..|jobs|] == accepts;
    TotalCountsRows(accepted);
    r := Completed(accepted, records);
  }

  /** One table, row by row. */
  method RunTable<R>(job: Job<R>) returns (table: seq<R>, refusal: Option<nat>)
    ensures refusal.None? <==> Clean(job)
    ensures refusal.None? ==> table == JobRows(job)
    ensures refusal.Some? ==> FirstRefusal(job, refusal.value)
  {
    table, refusal := [], None;
    for i := 0 to |job|
      invariant |table| == i
      invariant forall k :: 0 <= k < i ==> job[k].Row? && table[k] == job[k].row
    {
      match job[i] {
        case Row(row) => table := table + [row];
        case Refusal(code) => return table, Some(code);
      }
    }
    assert table == JobRows(job);
  }

  // ---- primary failure ----

  function Failures<R>(workers: seq<Phase<R>>): seq<Failure> {
    if workers == [] then [] else
    var rest := Failures(workers[..|workers| - 1]);
    var last := workers[|workers| - 1];
    if last.Failed? then rest + [last.failure] else rest
  }

  lemma {:induction false} FailureIsListed<R>(workers: seq<Phase<R>>, i: nat)
    requires i < |workers| && workers[i].Failed?
    ensures workers[i].failure in Failures(workers)
  {
    if i < |workers| - 1 {
      FailureIsListed(workers[..|workers| - 1], i);
    }
  }

  lemma {:induction false} ListedHasFailed<R>(workers: seq<Phase<R>>, f: Failure)
    requires f in Failures(workers)
    ensures exists i :: 0 <= i < |workers| && workers[i] == Failed(f)
  {
    var n := |workers| - 1;
    if workers[n] != Failed(f) {
      ListedHasFailed(workers[..n], f);
      var i :| 0 <= i < n && workers[..n][i] == Failed(f);
      assert workers[i] == Failed(f);
    }
  }

  /** The first failure that is not a cancellation, else the first failure. */
  function Primary(fs: seq<Failure>): Failure
    requires fs != []
  {
    FirstGenuine(fs, fs[0])
  }

  function FirstGenuine(fs: seq<Failure>, fallback: Failure): Failure {
    if fs == [] then fallback
    else if fs[0] != StopInduced then fs[0]
    else FirstGenuine(fs[1..], fallback)
  }

  lemma {:induction false} GenuineAfter(fs: seq<Failure>, last: Failure, fallback: Failure)
    ensures FirstGenuine(fs + [last], fallback) ==
            if FirstGenuine(fs, StopInduced) != StopInduced then FirstGenuine(fs, StopInduced)
            else if last != StopInduced then last
            else fallback
  {
    if fs == [] {
      assert fs + [last] == [last] && [last][1..] == [];
    } else {
      GenuineAfter(fs[1..], last, fallback);
      assert (fs + [last])[1..] == fs[1..] + [last];
    }
  }

  lemma {:induction false} FallbackOnlyThen(fs: seq<Failure>, fallback: Failure)
    ensures FirstGenuine(fs, fallback) ==
            if FirstGenuine(fs, StopInduced) != StopInduced then FirstGenuine(fs, StopInduced) else fallback
  {
    if fs != [] {
      FallbackOnlyThen(fs[1..], fallback);
    }
  }

  /** Every failed future before this one was cancelled by the stop flag. */
  ghost predicate OnlyInducedBefore<R>(workers: seq<Phase<R>>, i: nat)
    requires i <= |workers|
  {
    forall j :: 0 <= j < i && workers[j].Failed? ==> workers[j].failure == StopInduced
  }

  /** `f` is the failure of the first future, in submission order, that failed for a reason of
      its own; only if there is none, every failure is an induced cancellation. */
  ghost predicate FirstToFail<R>(workers: seq<Phase<R>>, f: Failure) {
    if f == StopInduced then OnlyInducedBefore(workers, |workers|)
    else exists i :: 0 <= i < |workers| && workers[i] == Failed(f) && OnlyInducedBefore(workers, i)
  }

  lemma {:induction false} GenuineIsFirst<R>(workers: seq<Phase<R>>)
    ensures FirstToFail(workers, FirstGenuine(Failures(workers), StopInduced))
  {
    if workers != [] {
      var n := |workers| - 1;
      var rest, last := workers[..n], workers[n];
      GenuineIsFirst(rest);
      var f := FirstGenuine(Failures(rest), StopInduced);
      if last.Failed? {
        GenuineAfter(Failures(rest), last.failure, StopInduced);
      }
      if f != StopInduced {
        var i :| 0 <= i < |rest| && rest[i] == Failed(f) && OnlyInducedBefore(rest, i);
        EarlierIsSame(workers, n, i);
        assert workers[i] == Failed(f);
      } else {
        EarlierIsSame(workers, n, n);
      }
    }
  }

  lemma EarlierIsSame<R>(workers: seq<Phase<R>>, n: nat, i: nat)
    requires i <= n <= |workers| && OnlyInducedBefore(workers[..n], i)
    ensures OnlyInducedBefore(workers, i)
  {
    forall j | 0 <= j < i && workers[j].Failed? ensures workers[j].failure == StopInduced {
      assert workers[..n][j] == workers[j];
    }
  }

  lemma {:induction false} FoundOrFallback(fs: seq<Failure>, fallback: Failure)
    ensures FirstGenuine(fs, fallback) in fs || FirstGenuine(fs, fallback) == fallback
  {
    if fs != [] {
      FoundOrFallback(fs[1..], fallback);
    }
  }

  lemma PrimaryHasFailed<R>(workers: seq<Phase<R>>)
    requires Failures(workers) != []
    ensures exists i :: 0 <= i < |workers| && workers[i] == Failed(Primary(Failures(workers)))
  {
    FoundOrFallback(Failures(workers), Failures(workers)[0]);
    ListedHasFailed(workers, Primary(Failures(workers)));
  }

  /** The chosen failure is the first genuine one in submission order. */
  lemma PrimaryIsFirst<R>(workers: seq<Phase<R>>)
    requires Failures(workers) != []
    ensures FirstToFail(workers, Primary(Failures(workers)))
  {
    var fs := Failures(workers);
    GenuineIsFirst(workers);
    FallbackOnlyThen(fs, fs[0]);
    if FirstGenuine(fs, StopInduced) == StopInduced {
      ListedHasFailed(workers, fs[0]);
    }
  }

  /** `_primary_worker_failure` over the futures of one batch. */
  method PrimaryWorkerFailure<R>(workers: seq<Phase<R>>) returns (f: Failure)
    requires exists i :: 0 <= i < |workers| && workers[i].Failed?
    ensures Failures(workers) != [] && f == Primary(Failures(workers))
    ensures FirstToFail(workers, f) && exists i :: 0 <= i < |workers| && workers[i] == Failed(f)
  {
    var failures: seq<Failure> := [];
    for i := 0 to |workers|
      invariant failures == Failures(workers[..i])
    {
      assert workers[..i + 1][..i] == workers[..i];
      if workers[i].Failed? {
        failures := failures + [workers[i].failure];
      }
    }
    assert workers[..|workers|] == workers;
    ghost var i :| 0 <= i < |workers| && workers[i].Failed?;
    FailureIsListed(workers, i);
    PrimaryIsFirst(workers);
    PrimaryHasFailed(workers);
    f := failures[0];
    var k := 0;
    while k < |failures|
      invariant 0 <= k <= |failures|
      invariant f == failures[0]
      invariant FirstGenuine(failures, failures[0]) == FirstGenuine(failures[k..], failures[0])
    {
      if failures[k] != StopInduced {
        return failures[k];
      }
      k := k + 1;
    }
  }

  // ---- steps ----

  datatype Action =
    | Start(i: nat) | WriteRow(i: nat) | Refuse(i: nat) | Fault(i: nat, code: nat) | NoticeStop(i: nat)
    | SetFlag(i: nat) | Cleaned(i: nat, ok: bool) | Finish(i: nat)
    | Submit | SubmitFault(submitted: nat, code: nat) | BatchFault(code: nat) | AllBatchesDone
    | WaitReturns(done: set<nat>) | WaitFault(done: set<nat>, code: nat) | AllDone
    | Drained | DrainFault(code: nat) | Aborted | AbortInterrupted(code: nat)
    | Accept | AcceptFault(code: nat, appended: bool) | NextBatch
    | Exit | ExitInterrupted(code: nat)

  function BatchSize<R>(jobs: seq<Job<R>>, width: nat, start: nat): nat
    requires start <= |jobs|
  {
    if start + width <= |jobs| then width else |jobs| - start
  }

  /** The positions of a batch of `n` futures. */
  ghost predicate IsBatch(pending: set<nat>, n: nat) {
    forall i: nat :: i in pending <==> i < n
  }

  /** Future.cancel succeeds only on a future that has not started. */
  function CancelQueued<R>(workers: seq<Phase<R>>, pending: set<nat>): (w: seq<Phase<R>>)
    ensures |w| == |workers|
    ensures forall i :: 0 <= i < |w| ==>
              w[i] == if i in pending && workers[i].Queued? then Dropped else workers[i]
  {
    seq(|workers|, i requires 0 <= i < |workers| =>
          if i in pending && workers[i].Queued? then Dropped else workers[i])
  }

  function SetWorker<R>(s: State<R>, i: nat, p: Phase<R>): State<R>
    requires i < |s.workers|
  {
    s.(workers := s.workers[i := p])
  }

  /** One step of a table worker. */
  ghost predicate WorkerStep<R(!new)>(jobs: seq<Job<R>>, s: State<R>, a: Action, s': State<R>) {
    match a
    case Start(i) =>
      i < |s.workers| && s.workers[i].Queued? && s' == SetWorker(s, i, Running([]))
    case WriteRow(i) =>
      i < |s.workers| && s.workers[i].Running? && s.start + i < |jobs| &&
      var job, out := jobs[s.start + i], s.workers[i].written;
      |out| < |job| && job[|out|].Row? && s' == SetWorker(s, i, Running(out + [job[|out|].row]))
    case Refuse(i) =>
      i < |s.workers| && s.workers[i].Running? && s.start + i < |jobs| &&
      var job, out := jobs[s.start + i], s.workers[i].written;
      |out| < |job| && job[|out|].Refusal? && s' == SetWorker(s, i, Raising(OwnFault(job[|out|].code)))
    case Fault(i, code) =>
      i < |s.workers| && s.workers[i].Running? && s' == SetWorker(s, i, Raising(OwnFault(code)))
    case NoticeStop(i) =>
      i < |s.workers| && s.workers[i].Running? && s.stop && s' == SetWorker(s, i, Raising(StopInduced))
    case SetFlag(i) =>
      i < |s.workers| && s.workers[i].Raising? &&
      s' == SetWorker(s, i, Unwinding(s.workers[i].cause)).(stop := true)
    case Cleaned(i, ok) =>
      i < |s.workers| && s.workers[i].Unwinding? &&
      s' == SetWorker(s, i, Failed(if ok then s.workers[i].cause else CleanupFault))
    case Finish(i) =>
      i < |s.workers| && s.workers[i].Running? && s.start + i < |jobs| &&
      |s.workers[i].written| == |jobs[s.start + i]| &&
      s' == SetWorker(s, i, Finished(s.workers[i].written))
    case _ => false
  }

  ghost predicate AllTerminal<R>(s: State<R>, which: set<nat>) {
    forall i :: i in which && i < |s.workers| ==> Terminal(s.workers[i])
  }

  /** The futures `wait` reported as done: some finished ones among the pending. */
  ghost predicate Reported<R>(s: State<R>, done: set<nat>) {
    done <= s.pending && AllTerminal(s, done)
  }

  ghost predicate SawFailure<R>(s: State<R>, done: set<nat>) {
    exists i :: i in done && i < |s.workers| && s.workers[i].Failed?
  }

  /** Every worker is done: raise the primary failure. */
  ghost predicate DrainedStep<R>(s: State<R>, s': State<R>) {
    s.pc == Draining && AllTerminal(s, s.pending) && Failures(s.workers) != [] &&
    s' == s.(pc := Leaving(WorkerFailure(Primary(Failures(s.workers)))))
  }

  /** `wait` returned; on a failure set the flag and cancel what has not started. */
  ghost predicate WaitStep<R>(s: State<R>, done: set<nat>, s': State<R>) {
    s.pc == Waiting && s.pending != {} && Reported(s, done) &&
    if SawFailure(s, done) then
      s' == s.(stop := true, workers := CancelQueued(s.workers, s.pending - done),
               pending := s.pending - done, pc := Draining)
    else s' == s.(pending := s.pending - done)
  }

  /** One step of the coordinator inside its wait loop and its handlers. */
  ghost predicate WaitLoopStep<R(!new)>(s: State<R>, a: Action, s': State<R>) {
    match a
    case WaitReturns(done) =>
      WaitStep(s, done, s')
    case WaitFault(done, code) =>
      s.pc == Waiting && s.pending != {} && Reported(s, done) && !SawFailure(s, done) &&
      s' == s.(stop := true, workers := CancelQueued(s.workers, s.pending - done),
               pending := s.pending - done, pc := Aborting(code))
    case AllDone =>
      s.pc == Waiting && s.pending == {} && s' == s.(pc := Accepting(0))
    case Drained =>
      DrainedStep(s, s')
    case DrainFault(code) =>
      s.pc == Draining &&
      s' == s.(stop := true, workers := CancelQueued(s.workers, s.pending), pc := Aborting(code))
    case Aborted =>
      s.pc.Aborting? && AllTerminal(s, s.pending) && s' == s.(pc := Leaving(CoordinatorFault(s.pc.fault)))
    case AbortInterrupted(code) =>
      s.pc.Aborting? && s' == s.(pc := Leaving(CoordinatorFault(code)))
    case _ => false
  }

  /** One step of the coordinator around a batch. A failing submit leaves the futures already
      submitted to the executor's own shutdown. */
  ghost predicate BatchStep<R(!new)>(jobs: seq<Job<R>>, width: nat, s: State<R>, a: Action, s': State<R>) {
    match a
    case BatchFault(code) =>
      s.pc == AtBatch && s.start < |jobs| && s' == s.(pc := Leaving(CoordinatorFault(code)))
    case Submit =>
      s.pc == AtBatch && s.start < |jobs| &&
      var n := BatchSize(jobs, width, s.start);
      IsBatch(s'.pending, n) &&
      s' == s.(workers := seq(n, _ => Queued), pending := s'.pending, pc := Waiting)
    case SubmitFault(submitted, code) =>
      s.pc == AtBatch && s.start < |jobs| && submitted < BatchSize(jobs, width, s.start) &&
      s' == s.(workers := seq(submitted, _ => Queued), pending := {}, pc := Leaving(CoordinatorFault(code)))
    case AllBatchesDone =>
      s.pc == AtBatch && s.start >= |jobs| && s' == s.(pc := Succeeded)
    case Accept =>
      s.pc.Accepting? && s.pc.k < |s.workers| && s.workers[s.pc.k].Finished? &&
      s' == s.(accepted := s.accepted + [s.workers[s.pc.k].table], pc := Accepting(s.pc.k + 1))
    case AcceptFault(code, appended) =>
      s.pc.Accepting? && s.pc.k < |s.workers| && s.workers[s.pc.k].Finished? &&
      s' == s.(accepted := if appended then s.accepted + [s.workers[s.pc.k].table] else s.accepted,
               pc := Leaving(CoordinatorFault(code)))
    case NextBatch =>
      s.pc.Accepting? && s.pc.k == |s.workers| &&
      s' == s.(start := s.start + |s.workers|, workers := [], pending := {}, pc := AtBatch)
    case Exit =>
      s.pc.Leaving? && (forall i :: 0 <= i < |s.workers| ==> Terminal(s.workers[i])) &&
      s' == s.(pc := Raised(s.pc.exn))
    case ExitInterrupted(code) =>
      s.pc.Leaving? && s' == s.(pc := Raised(ShutdownInterrupted(code)))
    case _ => false
  }

  ghost predicate CoordinatorStep<R(!new)>(jobs: seq<Job<R>>, width: nat, s: State<R>, a: Action, s': State<R>) {
    WaitLoopStep(s, a, s') || BatchStep(jobs, width, s, a, s')
  }

  ghost predicate Next<R(!new)>(jobs: seq<Job<R>>, width: nat, s: State<R>, s': State<R>) {
    exists a :: WorkerStep(jobs, s, a, s') || CoordinatorStep(jobs, width, s, a, s')
  }

  function Init<R>(): State<R> {
    State(0, false, [], {}, AtBatch, [])
  }

  // ---- the invariant ----

  /** What a worker has written is the beginning of its table's sequential output. */
  ghost predicate Wrote<R>(job: Job<R>, out: seq<R>) {
    |out| <= |job| && forall i :: 0 <= i < |out| ==> job[i].Row? && out[i] == job[i].row
  }

  ghost predicate WorkerOk<R>(job: Job<R>, p: Phase<R>, stop: bool) {
    && (p.Running? ==> Wrote(job, p.written))
    && (p.Finished? ==> Wrote(job, p.table) && |p.table| == |job|)
    && ((p.Raising? && p.cause == StopInduced) || p.Unwinding? || p.Failed? || p.Dropped? ==> stop)
  }

  /** A worker whose own fault set the flag. */
  ghost predicate Culprit<R>(p: Phase<R>) {
    (p.Unwinding? && p.cause != StopInduced) || (p.Failed? && p.failure != StopInduced)
  }

  ghost predicate CoordinatorRaised(pc: Pc) {
    pc.Aborting? || ((pc.Leaving? || pc.Raised?) && !pc.exn.WorkerFailure?)
  }

  ghost predicate PcOk<R>(jobs: seq<Job<R>>, s: State<R>) {
    match s.pc
    case AtBatch => s.workers == [] && !s.stop && |s.accepted| == s.start
    case Waiting =>
      && |s.accepted| == s.start && (forall i :: i in s.pending ==> i < |s.workers|)
      && (forall i :: 0 <= i < |s.workers| && i !in s.pending ==> s.workers[i].Finished?)
      && (forall i :: 0 <= i < |s.workers| ==> !s.workers[i].Dropped?)
    case Draining =>
      && |s.accepted| == s.start && s.stop
      && (forall i :: 0 <= i < |s.workers| && i !in s.pending ==> Terminal(s.workers[i]))
      && (exists i :: 0 <= i < |s.workers| && s.workers[i].Failed?)
    case Aborting(_) => |s.accepted| == s.start && s.stop
    case Accepting(k) =>
      k <= |s.workers| && AllFinished(s) && |s.accepted| == s.start + k && !s.stop
    case Leaving(exn) => ExnOk(s, exn)
    case Raised(exn) =>
      ExnOk(s, exn) && (exn.ShutdownInterrupted? || forall i :: 0 <= i < |s.workers| ==> Terminal(s.workers[i]))
    case Succeeded => s.workers == [] && !s.stop && |s.accepted| == s.start == |jobs|
  }

  ghost predicate AllFinished<R>(s: State<R>) {
    forall i :: 0 <= i < |s.workers| ==> s.workers[i].Finished?
  }

  ghost predicate ExnOk<R>(s: State<R>, exn: Exn) {
    && (exn.WorkerFailure? ==>
          exn.failure != StopInduced && |s.accepted| == s.start &&
          (forall i :: 0 <= i < |s.workers| ==> Terminal(s.workers[i])) &&
          FirstToFail(s.workers, exn.failure))
    && (|s.accepted| > s.start ==> AllFinished(s))
  }

  ghost predicate Inv<R>(jobs: seq<Job<R>>, width: nat, s: State<R>) {
    && s.start <= |jobs| && s.start + |s.workers| <= |jobs|
    && SequentialPrefix(jobs, s.accepted)
    && (forall i :: 0 <= i < |s.workers| ==> WorkerOk(jobs[s.start + i], s.workers[i], s.stop))
    && (s.stop && !CoordinatorRaised(s.pc) ==>
          exists i :: 0 <= i < |s.workers| && Culprit(s.workers[i]))
    && PcOk(jobs, s)
  }

  lemma InitInv<R>(jobs: seq<Job<R>>, width: nat)
    ensures Inv(jobs, width, Init<R>())
  {
  }

  lemma FinishedIsSequential<R>(job: Job<R>, table: seq<R>)
    requires Wrote(job, table) && |table| == |job|
    ensures Clean(job) && table == JobRows(job)
  {
  }

  lemma WorkerKeepsInv<R(!new)>(jobs: seq<Job<R>>, width: nat, s: State<R>, a: Action, s': State<R>)
    requires Inv(jobs, width, s) && WorkerStep(jobs, s, a, s')
    ensures Inv(jobs, width, s')
  {
    WorkerMoves(jobs, s, a, s');
    WorkerKeepsCulprit(jobs, width, s, a, s');
    WorkerKeepsPc(jobs, width, s, a, s');
  }

  /** A worker step changes one unfinished worker, to a phase in keeping with its job. */
  lemma WorkerMoves<R(!new)>(jobs: seq<Job<R>>, s: State<R>, a: Action, s': State<R>)
    requires forall i :: 0 <= i < |s.workers| ==>
               s.start + i < |jobs| && WorkerOk(jobs[s.start + i], s.workers[i], s.stop)
    requires WorkerStep(jobs, s, a, s')
    ensures exists i :: 0 <= i < |s.workers| && s.start + i < |jobs| && Moved(jobs, s, i, s')
  {
    assert Moved(jobs, s, a.i, s');
  }

  ghost predicate Moved<R>(jobs: seq<Job<R>>, s: State<R>, i: nat, s': State<R>)
    requires i < |s.workers| && s.start + i < |jobs|
  {
    && !Terminal(s.workers[i])
    && s' == s.(workers := s'.workers, stop := s'.stop)
    && |s'.workers| == |s.workers|
    && s'.workers == s.workers[i := s'.workers[i]]
    && !s'.workers[i].Dropped?
    && (s.stop ==> s'.stop)
    && WorkerOk(jobs[s.start + i], s'.workers[i], s'.stop)
    && (Culprit(s.workers[i]) ==> Culprit(s'.workers[i]))
    && (s'.stop && !s.stop ==> Culprit(s'.workers[i]))
  }

  lemma WorkerKeepsCulprit<R(!new)>(jobs: seq<Job<R>>, width: nat, s: State<R>, a: Action, s': State<R>)
    requires Inv(jobs, width, s) && WorkerStep(jobs, s, a, s')
    ensures s'.stop && !CoordinatorRaised(s'.pc) ==>
              exists i :: 0 <= i < |s'.workers| && Culprit(s'.workers[i])
  {
    WorkerMoves(jobs, s, a, s');
    var i :| 0 <= i < |s.workers| && Moved(jobs, s, i, s');
    if s'.stop && !CoordinatorRaised(s'.pc) {
      if s.stop {
        var c :| 0 <= c < |s.workers| && Culprit(s.workers[c]);
        assert Culprit(s'.workers[c]);
      } else {
        assert Culprit(s'.workers[i]);
      }
    }
  }

  lemma WorkerKeepsPc<R(!new)>(jobs: seq<Job<R>>, width: nat, s: State<R>, a: Action, s': State<R>)
    requires Inv(jobs, width, s) && WorkerStep(jobs, s, a, s')
    ensures PcOk(jobs, s')
  {
    WorkerMoves(jobs, s, a, s');
    var i :| 0 <= i < |s.workers| && Moved(jobs, s, i, s');
    match s.pc
    case Draining =>
      var f :| 0 <= f < |s.workers| && s.workers[f].Failed?;
      assert s'.workers[f].Failed?;
    case _ =>
  }

  lemma CoordinatorKeepsInv<R(!new)>(jobs: seq<Job<R>>, width: nat, s: State<R>, a: Action, s': State<R>)
    requires Inv(jobs, width, s) && CoordinatorStep(jobs, width, s, a, s')
    ensures Inv(jobs, width, s')
  {
    if WaitLoopStep(s, a, s') {
      WaitLoopKeepsInv(jobs, width, s, a, s');
    } else {
      BatchKeepsInv(jobs, width, s, a, s');
    }
  }

  lemma WaitLoopKeepsInv<R(!new)>(jobs: seq<Job<R>>, width: nat, s: State<R>, a: Action, s': State<R>)
    requires Inv(jobs, width, s) && WaitLoopStep(s, a, s')
    ensures Inv(jobs, width, s')
  {
    match a
    case WaitReturns(done) =>
      if SawFailure(s, done) {
        FailureSeen(jobs, width, s, done, s');
      } else {
        NothingSeen(jobs, width, s, done, s');
      }
    case Drained => DrainedKeepsInv(jobs, width, s, s');
    case WaitFault(done, code) => AbortKeepsInv(jobs, width, s, a, s');
    case DrainFault(code) => AbortKeepsInv(jobs, width, s, a, s');
    case _ => WaitExitKeepsInv(jobs, width, s, a, s');
  }

  lemma AbortKeepsInv<R(!new)>(jobs: seq<Job<R>>, width: nat, s: State<R>, a: Action, s': State<R>)
    requires Inv(jobs, width, s) && WaitLoopStep(s, a, s') && (a.WaitFault? || a.DrainFault?)
    ensures Inv(jobs, width, s')
  {
    CancelKeepsWorkers(jobs, s, if a.WaitFault? then s.pending - a.done else s.pending);
  }

  lemma WaitExitKeepsInv<R(!new)>(jobs: seq<Job<R>>, width: nat, s: State<R>, a: Action, s': State<R>)
    requires Inv(jobs, width, s) && WaitLoopStep(s, a, s')
    requires a.AllDone? || a.Aborted? || a.AbortInterrupted?
    ensures Inv(jobs, width, s')
  {
    if a == AllDone {
      NoFlagWhenFinished(jobs, width, s);
    }
    PcOnly(jobs, width, s, s');
  }

  lemma BatchKeepsInv<R(!new)>(jobs: seq<Job<R>>, width: nat, s: State<R>, a: Action, s': State<R>)
    requires Inv(jobs, width, s) && BatchStep(jobs, width, s, a, s')
    ensures Inv(jobs, width, s')
  {
    if a.Accept? || a.AcceptFault? {
      AcceptKeepsInv(jobs, width, s, a, s');
    } else if a.BatchFault? || a.AllBatchesDone? || a.Exit? || a.ExitInterrupted? {
      PcOnly(jobs, width, s, s');
    }
  }

  /** A step that only moves the program counter. */
  lemma PcOnly<R>(jobs: seq<Job<R>>, width: nat, s: State<R>, s': State<R>)
    requires Inv(jobs, width, s) && s' == s.(pc := s'.pc) && PcOk(jobs, s')
    requires CoordinatorRaised(s.pc) ==> CoordinatorRaised(s'.pc)
    ensures Inv(jobs, width, s')
  {
  }

  lemma AcceptKeepsInv<R(!new)>(jobs: seq<Job<R>>, width: nat, s: State<R>, a: Action, s': State<R>)
    requires Inv(jobs, width, s) && BatchStep(jobs, width, s, a, s')
    requires a.Accept? || a.AcceptFault?
    ensures Inv(jobs, width, s')
  {
    var k := s.pc.k;
    assert WorkerOk(jobs[s.start + k], s.workers[k], s.stop);
    FinishedIsSequential(jobs[s.start + k], s.workers[k].table);
    AppendSequential(jobs, s.accepted, s.workers[k].table);
    var accepted := s.(accepted := s'.accepted);
    assert s' == accepted.(pc := s'.pc);
    assert PcOk(jobs, s');
  }

  lemma AppendSequential<R>(jobs: seq<Job<R>>, accepted: seq<seq<R>>, table: seq<R>)
    requires SequentialPrefix(jobs, accepted) && |accepted| < |jobs|
    requires Clean(jobs[|accepted|]) && table == JobRows(jobs[|accepted|])
    ensures SequentialPrefix(jobs, accepted + [table])
  {
  }

  lemma CancelKeepsWorkers<R>(jobs: seq<Job<R>>, s: State<R>, pending: set<nat>)
    requires s.start + |s.workers| <= |jobs|
    requires forall i :: 0 <= i < |s.workers| ==> WorkerOk(jobs[s.start + i], s.workers[i], s.stop)
    ensures forall i :: 0 <= i < |s.workers| ==>
              WorkerOk(jobs[s.start + i], CancelQueued(s.workers, pending)[i], true)
  {
  }

  /** When every worker of a batch finished, nobody set the flag. */
  lemma NoFlagWhenFinished<R>(jobs: seq<Job<R>>, width: nat, s: State<R>)
    requires Inv(jobs, width, s) && s.pc == Waiting && s.pending == {}
    ensures !s.stop && AllFinished(s)
  {
  }

  lemma NothingSeen<R(!new)>(jobs: seq<Job<R>>, width: nat, s: State<R>, done: set<nat>, s': State<R>)
    requires Inv(jobs, width, s) && WaitStep(s, done, s')
    requires !SawFailure(s, done)
    ensures Inv(jobs, width, s')
  {
  }

  lemma FailureSeen<R(!new)>(jobs: seq<Job<R>>, width: nat, s: State<R>, done: set<nat>, s': State<R>)
    requires Inv(jobs, width, s) && WaitStep(s, done, s')
    requires SawFailure(s, done)
    ensures Inv(jobs, width, s')
  {
  }

  /** The primary failure is never an induced cancellation: the culprit is among the failures. */
  lemma PrimaryIsGenuine<R>(workers: seq<Phase<R>>, c: nat)
    requires c < |workers| && Culprit(workers[c]) && Terminal(workers[c])
    ensures Failures(workers) != [] && Primary(Failures(workers)) != StopInduced
    ensures FirstToFail(workers, Primary(Failures(workers)))
  {
    FailureIsListed(workers, c);
    PrimaryIsFirst(workers);
  }

  lemma DrainedKeepsInv<R(!new)>(jobs: seq<Job<R>>, width: nat, s: State<R>, s': State<R>)
    requires Inv(jobs, width, s) && DrainedStep(s, s')
    ensures Inv(jobs, width, s')
  {
    forall i | 0 <= i < |s.workers| ensures Terminal(s.workers[i]) {
      assert i in s.pending || i !in s.pending;
    }
    var c :| 0 <= c < |s.workers| && Culprit(s.workers[c]);
    var failure := s'.pc.exn.failure;
    assert failure != StopInduced && FirstToFail(s.workers, failure) by {
      PrimaryIsGenuine(s.workers, c);
    }
    assert ExnOk(s', s'.pc.exn);
    PcOnly(jobs, width, s, s');
  }

  /** When the drain ends, a worker failure has been retained. */
  lemma FailureIsRetained<R>(jobs: seq<Job<R>>, width: nat, s: State<R>)
    requires Inv(jobs, width, s) && s.pc == Draining
    ensures Failures(s.workers) != []
  {
    var f :| 0 <= f < |s.workers| && s.workers[f].Failed?;
    FailureIsListed(s.workers, f);
  }

  // ---- runs ----

  /** A finite execution under any interleaving. */
  ghost predicate IsRun<R(!new)>(jobs: seq<Job<R>>, width: nat, run: seq<State<R>>) {
    && |run| > 0 && run[0] == Init<R>()
    && forall k :: 0 <= k < |run| - 1 ==> Next(jobs, width, run[k], run[k + 1])
  }

  lemma {:induction false} RunKeepsInv<R(!new)>(jobs: seq<Job<R>>, width: nat, run: seq<State<R>>, k: nat)
    requires IsRun(jobs, width, run) && k < |run|
    ensures Inv(jobs, width, run[k])
  {
    if k == 0 {
      InitInv<R>(jobs, width);
    } else {
      RunKeepsInv(jobs, width, run, k - 1);
      assert Next(jobs, width, run[k - 1], run[k]);
      var a :| WorkerStep(jobs, run[k - 1], a, run[k]) || CoordinatorStep(jobs, width, run[k - 1], a, run[k]);
      if WorkerStep(jobs, run[k - 1], a, run[k]) {
        WorkerKeepsInv(jobs, width, run[k - 1], a, run[k]);
      } else {
        CoordinatorKeepsInv(jobs, width, run[k - 1], a, run[k]);
      }
    }
  }

  /** For every worker count and every interleaving, a successful run accepted every table
      exactly once, in plan order, with the sequential contents and totals; in particular
      no table of the plan refuses. */
  lemma ParallelRefinesSequential<R(!new)>(jobs: seq<Job<R>>, width: nat, run: seq<State<R>>, k: nat)
    requires IsRun(jobs, width, run) && k < |run| && run[k].pc == Succeeded
    ensures |run[k].accepted| == |jobs| && SequentialPrefix(jobs, run[k].accepted)
    ensures forall j :: 0 <= j < |jobs| ==> Clean(jobs[j]) && run[k].accepted[j] == JobRows(jobs[j])
    ensures forall tables :: |tables| == |jobs| && SequentialPrefix(jobs, tables) ==>
              tables == run[k].accepted && TotalRows(tables) == TotalRows(run[k].accepted)
  {
    RunKeepsInv(jobs, width, run, k);
    forall tables | |tables| == |jobs| && SequentialPrefix(jobs, tables)
      ensures tables == run[k].accepted
    {
      forall j | 0 <= j < |jobs| ensures tables[j] == run[k].accepted[j] {}
    }
  }

  /** At every point of every run: nothing of a batch with a failing worker is accepted,
      accepted tables are sequential ones, no worker is still active after the exit unless the
      executor's own shutdown was interrupted, and a raised worker failure is that of the first
      worker in submission order that failed by itself, never an induced cancellation. */
  lemma PoolIsSafe<R(!new)>(jobs: seq<Job<R>>, width: nat, run: seq<State<R>>, k: nat)
    requires IsRun(jobs, width, run) && k < |run|
    ensures SequentialPrefix(jobs, run[k].accepted)
    ensures (exists i :: 0 <= i < |run[k].workers| && !run[k].workers[i].Finished?) ==>
              |run[k].accepted| <= run[k].start
    ensures (run[k].pc.Raised? && !run[k].pc.exn.ShutdownInterrupted?) || run[k].pc.Succeeded? ==>
              forall i :: 0 <= i < |run[k].workers| ==> Terminal(run[k].workers[i])
    ensures run[k].pc.Raised? && run[k].pc.exn.WorkerFailure? ==>
              run[k].pc.exn.failure != StopInduced && FirstToFail(run[k].workers, run[k].pc.exn.failure)
  {
    RunKeepsInv(jobs, width, run, k);
  }

  /** The interrupt the exit guarantee excepts: a submit fails after its first table, the worker
      starts, and the wait of the executor's shutdown is interrupted. */
  lemma ShutdownCanLeaveWorkers<R(!new)>(job: Job<R>) returns (run: seq<State<R>>)
    ensures IsRun([job, job], 2, run)
    ensures run[|run| - 1].pc == Raised(ShutdownInterrupted(1)) && run[|run| - 1].workers == [Running([])]
  {
    var jobs := [job, job];
    var s0: State<R> := Init();
    var s1 := s0.(workers := seq(1, _ => Queued), pc := Leaving(CoordinatorFault(0)));
    var s2 := SetWorker(s1, 0, Running([]));
    var s3 := s2.(pc := Raised(ShutdownInterrupted(1)));
    assert CoordinatorStep(jobs, 2, s0, SubmitFault(1, 0), s1);
    assert WorkerStep(jobs, s1, Start(0), s2);
    assert CoordinatorStep(jobs, 2, s2, ExitInterrupted(1), s3);
    assert Next(jobs, 2, s0, s1) && Next(jobs, 2, s1, s2) && Next(jobs, 2, s2, s3);
    run := [s0, s1, s2, s3];
  }
}
