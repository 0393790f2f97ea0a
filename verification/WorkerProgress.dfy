/** The table workers make progress: the coordinator never deadlocks, every step but an idle
    wait lowers a rank, and a clean plan left alone succeeds (engine/pass2.py). */
module WorkerProgress {
  import opened Collections
  import opened WorkerPool

  // ---- the rank ----

  /** What a worker still has to do on a table of `length` records. */
  function WorkerRank<R>(p: Phase<R>, length: nat): nat {
    match p
    case Queued => length + 5
    case Running(written) => if |written| <= length then length - |written| + 4 else 4
    case Raising(_) => 3
    case Unwinding(_) => 2
    case _ => 0
  }

  function WorkersRank<R>(jobs: seq<Job<R>>, start: nat, workers: seq<Phase<R>>): nat
    requires start + |workers| <= |jobs|
  {
    if workers == [] then 0 else
    var n := |workers| - 1;
    WorkersRank(jobs, start, workers[..n]) + WorkerRank(workers[n], |jobs[start + n]|)
  }

  /** The tables no worker has been started for. */
  function Backlog<R>(jobs: seq<Job<R>>, from: nat): nat
    decreases |jobs| - from
  {
    if from >= |jobs| then 0 else |jobs[from]| + 20 + Backlog(jobs, from + 1)
  }

  function PcRank<R>(s: State<R>): nat {
    match s.pc
    case AtBatch => 4
    case Waiting => 6 + |s.workers|
    case Accepting(k) => if k <= |s.workers| then 5 + |s.workers| - k else 5
    case Draining => 3
    case Aborting(_) => 2
    case Leaving(_) => 1
    case _ => 0
  }

  function Rank<R>(jobs: seq<Job<R>>, s: State<R>): nat
    requires s.start + |s.workers| <= |jobs|
  {
    Backlog(jobs, s.start + |s.workers|) + WorkersRank(jobs, s.start, s.workers) + |s.pending| + PcRank(s)
  }

  lemma {:induction false} RankAfterUpdate<R>(jobs: seq<Job<R>>, start: nat, workers: seq<Phase<R>>, i: nat,
                                              p: Phase<R>)
    requires start + |workers| <= |jobs| && i < |workers|
    ensures WorkersRank(jobs, start, workers[i := p]) + WorkerRank(workers[i], |jobs[start + i]|) ==
            WorkersRank(jobs, start, workers) + WorkerRank(p, |jobs[start + i]|)
    decreases |workers|
  {
    var n := |workers| - 1;
    if i < n {
      RankAfterUpdate(jobs, start, workers[..n], i, p);
      assert workers[i := p][..n] == workers[..n][i := p];
    } else {
      assert workers[i := p][..n] == workers[..n];
    }
  }

  lemma {:induction false} CancelLowersRank<R>(jobs: seq<Job<R>>, start: nat, workers: seq<Phase<R>>, pending: set<nat>)
    requires start + |workers| <= |jobs|
    ensures WorkersRank(jobs, start, CancelQueued(workers, pending)) <= WorkersRank(jobs, start, workers)
    decreases |workers|
  {
    if workers != [] {
      var n := |workers| - 1;
      CancelLowersRank(jobs, start, workers[..n], pending);
      assert CancelQueued(workers, pending)[..n] == CancelQueued(workers[..n], pending);
    }
  }

  /** Queueing `n` tables costs fifteen less per table than leaving them in the backlog. */
  lemma {:induction false} QueueLowersRank<R>(jobs: seq<Job<R>>, start: nat, n: nat)
    requires start + n <= |jobs|
    ensures Backlog(jobs, start + n) + WorkersRank(jobs, start, seq(n, _ => Queued)) + 15 * n == Backlog(jobs, start)
    decreases n
  {
    if n > 0 {
      QueueLowersRank(jobs, start, n - 1);
      var queued: seq<Phase<R>> := seq(n, _ => Queued);
      assert queued[..n - 1] == seq(n - 1, _ => Queued);
    }
  }

  /** The little the rank needs to know of the invariant. */
  ghost predicate Rooted<R>(jobs: seq<Job<R>>, s: State<R>) {
    s.start + |s.workers| <= |jobs| && (s.pc == AtBatch ==> s.workers == [])
  }

  lemma WorkerPhaseDescends<R(!new)>(jobs: seq<Job<R>>, s: State<R>, a: Action, s': State<R>) returns (i: nat)
    requires Rooted(jobs, s) && WorkerStep(jobs, s, a, s')
    ensures i < |s.workers| == |s'.workers| && s' == s.(workers := s.workers[i := s'.workers[i]], stop := s'.stop)
    ensures WorkerRank(s'.workers[i], |jobs[s.start + i]|) < WorkerRank(s.workers[i], |jobs[s.start + i]|)
  {
    i := a.i;
  }

  lemma WorkerDescends<R(!new)>(jobs: seq<Job<R>>, s: State<R>, a: Action, s': State<R>)
    requires Rooted(jobs, s) && WorkerStep(jobs, s, a, s')
    ensures s'.start + |s'.workers| <= |jobs| && Rank(jobs, s') < Rank(jobs, s)
  {
    var i := WorkerPhaseDescends(jobs, s, a, s');
    RankAfterUpdate(jobs, s.start, s.workers, i, s'.workers[i]);
  }

  predicate Idle(a: Action) {
    a == WaitReturns({})
  }

  lemma RemovedCount(pending: set<nat>, done: set<nat>)
    requires done <= pending
    ensures |pending - done| <= |pending| && (done != {} ==> |pending - done| < |pending|)
  {
    SubsetCount(pending - done, pending);
  }

  /** Taking reported futures off the pending ones. */
  lemma WaitDescends<R(!new)>(jobs: seq<Job<R>>, s: State<R>, done: set<nat>, s': State<R>)
    requires Rooted(jobs, s) && WaitStep(s, done, s') && done != {}
    ensures s'.start + |s'.workers| <= |jobs| && Rank(jobs, s') < Rank(jobs, s)
  {
    RemovedCount(s.pending, done);
    CancelLowersRank(jobs, s.start, s.workers, s.pending - done);
  }

  /** Cancelling what has not started lowers the rank with the program counter. */
  lemma CancelledRank<R>(jobs: seq<Job<R>>, s: State<R>, pending: set<nat>, s': State<R>)
    requires Rooted(jobs, s) && s' == s.(stop := true, workers := CancelQueued(s.workers, pending),
                                         pending := s'.pending, pc := s'.pc)
    requires |s'.pending| <= |s.pending| && PcRank(s') < PcRank(s)
    ensures s'.start + |s'.workers| <= |jobs| && Rank(jobs, s') < Rank(jobs, s)
  {
    CancelLowersRank(jobs, s.start, s.workers, pending);
  }

  /** Leaving the wait loop for a handler. */
  lemma CancelDescends<R(!new)>(jobs: seq<Job<R>>, s: State<R>, a: Action, s': State<R>)
    requires Rooted(jobs, s) && WaitLoopStep(s, a, s') && (a.WaitFault? || a.DrainFault?)
    ensures s'.start + |s'.workers| <= |jobs| && Rank(jobs, s') < Rank(jobs, s)
  {
    if a.WaitFault? {
      RemovedCount(s.pending, a.done);
      CancelledRank(jobs, s, s.pending - a.done, s');
    } else {
      CancelledRank(jobs, s, s.pending, s');
    }
  }

  lemma WaitLoopDescends<R(!new)>(jobs: seq<Job<R>>, s: State<R>, a: Action, s': State<R>)
    requires Rooted(jobs, s) && WaitLoopStep(s, a, s') && !Idle(a)
    ensures s'.start + |s'.workers| <= |jobs| && Rank(jobs, s') < Rank(jobs, s)
  {
    if a.WaitReturns? {
      WaitDescends(jobs, s, a.done, s');
    } else if a.WaitFault? || a.DrainFault? {
      CancelDescends(jobs, s, a, s');
    }
  }

  lemma {:induction false} BatchCount(pending: set<nat>, n: nat)
    requires IsBatch(pending, n)
    ensures |pending| == n
    decreases n
  {
    if n > 0 {
      BatchCount(pending - {n - 1}, n - 1);
    } else if i :| i in pending {
      assert false;
    }
  }

  lemma SubmitDescends<R(!new)>(jobs: seq<Job<R>>, width: nat, s: State<R>, a: Action, s': State<R>)
    requires Rooted(jobs, s) && BatchStep(jobs, width, s, a, s') && width >= 1 && (a.Submit? || a.SubmitFault?)
    ensures s'.start + |s'.workers| <= |jobs| && Rank(jobs, s') < Rank(jobs, s)
  {
    if a.Submit? {
      BatchCount(s'.pending, BatchSize(jobs, width, s.start));
    }
    QueueLowersRank(jobs, s.start, |s'.workers|);
    assert s'.workers == seq(|s'.workers|, _ => Queued);
  }

  lemma BatchDescends<R(!new)>(jobs: seq<Job<R>>, width: nat, s: State<R>, a: Action, s': State<R>)
    requires Rooted(jobs, s) && BatchStep(jobs, width, s, a, s') && width >= 1
    ensures s'.start + |s'.workers| <= |jobs| && Rank(jobs, s') < Rank(jobs, s)
  {
    if a.Submit? || a.SubmitFault? {
      SubmitDescends(jobs, width, s, a, s');
    }
  }

  lemma IdleIsStill<R(!new)>(s: State<R>, s': State<R>)
    requires WaitStep(s, {}, s')
    ensures s' == s
  {
    assert s.pending - {} == s.pending;
  }

  /** Every step but an idle wait lowers the rank. */
  lemma StepDescends<R(!new)>(jobs: seq<Job<R>>, width: nat, s: State<R>, s': State<R>)
    requires Rooted(jobs, s) && Next(jobs, width, s, s') && s' != s && width >= 1
    ensures s'.start + |s'.workers| <= |jobs| && Rank(jobs, s') < Rank(jobs, s)
  {
    var a :| WorkerStep(jobs, s, a, s') || CoordinatorStep(jobs, width, s, a, s');
    if WorkerStep(jobs, s, a, s') {
      WorkerDescends(jobs, s, a, s');
    } else if WaitLoopStep(s, a, s') {
      if Idle(a) {
        IdleIsStill(s, s');
      } else {
        WaitLoopDescends(jobs, s, a, s');
      }
    } else {
      BatchDescends(jobs, width, s, a, s');
    }
  }

  lemma RunIsRooted<R(!new)>(jobs: seq<Job<R>>, width: nat, run: seq<State<R>>, k: nat)
    requires IsRun(jobs, width, run) && k < |run|
    ensures Rooted(jobs, run[k])
    ensures k == 0 ==> Rank(jobs, run[k]) == Backlog(jobs, 0) + 4
  {
    RunKeepsInv(jobs, width, run, k);
  }

  /** A run that never idles ends: it has at most as many steps as the initial rank. */
  lemma {:induction false} RunsAreBounded<R(!new)>(jobs: seq<Job<R>>, width: nat, run: seq<State<R>>, k: nat)
    requires width >= 1 && IsRun(jobs, width, run) && k < |run|
    requires forall j :: 0 <= j < |run| - 1 ==> run[j] != run[j + 1]
    ensures Rooted(jobs, run[k])
    ensures k + Rank(jobs, run[k]) <= Backlog(jobs, 0) + 4
  {
    RunIsRooted(jobs, width, run, k);
    if k > 0 {
      RunsAreBounded(jobs, width, run, k - 1);
      assert run[k - 1] != run[k - 1 + 1] && Next(jobs, width, run[k - 1], run[k - 1 + 1]);
      StepDescends(jobs, width, run[k - 1], run[k]);
    }
  }

  // ---- no deadlock ----

  /** An action nothing goes wrong in: no fault of the environment, no failing cleanup. */
  predicate Smooth(a: Action) {
    match a
    case Fault(_, _) => false
    case Cleaned(_, ok) => ok
    case BatchFault(_) => false
    case SubmitFault(_, _) => false
    case WaitFault(_, _) => false
    case DrainFault(_) => false
    case AbortInterrupted(_) => false
    case AcceptFault(_, _) => false
    case ExitInterrupted(_) => false
    case _ => true
  }

  ghost predicate SmoothStep<R(!new)>(jobs: seq<Job<R>>, width: nat, s: State<R>, a: Action, s': State<R>) {
    Smooth(a) && s' != s && (WorkerStep(jobs, s, a, s') || CoordinatorStep(jobs, width, s, a, s'))
  }

  ghost predicate Ended<R>(s: State<R>) {
    s.pc.Raised? || s.pc.Succeeded?
  }

  /** A worker that is not done can move. */
  lemma WorkerCanMove<R(!new)>(jobs: seq<Job<R>>, width: nat, s: State<R>, i: nat) returns (a: Action, s': State<R>)
    requires Inv(jobs, width, s) && i < |s.workers| && !Terminal(s.workers[i])
    ensures SmoothStep(jobs, width, s, a, s')
  {
    var p, job := s.workers[i], jobs[s.start + i];
    assert WorkerOk(job, p, s.stop);
    match p {
      case Queued => a, s' := Start(i), SetWorker(s, i, Running([]));
      case Running(out) =>
        if |out| == |job| {
          a, s' := Finish(i), SetWorker(s, i, Finished(out));
        } else if job[|out|].Row? {
          a, s' := WriteRow(i), SetWorker(s, i, Running(out + [job[|out|].row]));
        } else {
          a, s' := Refuse(i), SetWorker(s, i, Raising(OwnFault(job[|out|].code)));
        }
      case Raising(cause) => a, s' := SetFlag(i), SetWorker(s, i, Unwinding(cause)).(stop := true);
      case Unwinding(cause) => a, s' := Cleaned(i, true), SetWorker(s, i, Failed(cause));
    }
    assert s'.workers[i] != s.workers[i];
  }

  lemma {:induction false} BatchSet(n: nat) returns (pending: set<nat>)
    ensures IsBatch(pending, n)
  {
    if n == 0 {
      pending := {};
    } else {
      pending := BatchSet(n - 1);
      pending := pending + {n - 1};
    }
  }

  lemma BatchCanMove<R(!new)>(jobs: seq<Job<R>>, width: nat, s: State<R>) returns (a: Action, s': State<R>)
    requires Inv(jobs, width, s) && (s.pc == AtBatch || s.pc.Accepting?)
    ensures SmoothStep(jobs, width, s, a, s')
  {
    if s.pc == AtBatch {
      if s.start < |jobs| {
        var n := BatchSize(jobs, width, s.start);
        var pending := BatchSet(n);
        a, s' := Submit, s.(workers := seq(n, _ => Queued), pending := pending, pc := Waiting);
      } else {
        a, s' := AllBatchesDone, s.(pc := Succeeded);
      }
    } else if s.pc.k < |s.workers| {
      a, s' := Accept, s.(accepted := s.accepted + [s.workers[s.pc.k].table], pc := Accepting(s.pc.k + 1));
    } else {
      a, s' := NextBatch, s.(start := s.start + |s.workers|, workers := [], pending := {}, pc := AtBatch);
    }
  }

  lemma WaitingCanMove<R(!new)>(jobs: seq<Job<R>>, width: nat, s: State<R>) returns (a: Action, s': State<R>)
    requires Inv(jobs, width, s) && s.pc == Waiting
    ensures SmoothStep(jobs, width, s, a, s')
  {
    if s.pending == {} {
      a, s' := AllDone, s.(pc := Accepting(0));
    } else {
      var i :| i in s.pending;
      if Terminal(s.workers[i]) {
        var done := {i};
        a := WaitReturns(done);
        s' := if SawFailure(s, done) then
                s.(stop := true, workers := CancelQueued(s.workers, s.pending - done),
                   pending := s.pending - done, pc := Draining)
              else s.(pending := s.pending - done);
        assert i !in s'.pending && WaitStep(s, done, s');
      } else {
        a, s' := WorkerCanMove(jobs, width, s, i);
      }
    }
  }

  lemma EndgameCanMove<R(!new)>(jobs: seq<Job<R>>, width: nat, s: State<R>) returns (a: Action, s': State<R>)
    requires Inv(jobs, width, s) && (s.pc == Draining || s.pc.Aborting? || s.pc.Leaving?)
    ensures SmoothStep(jobs, width, s, a, s')
  {
    if i :| 0 <= i < |s.workers| && !Terminal(s.workers[i]) {
      a, s' := WorkerCanMove(jobs, width, s, i);
    } else {
      assert AllTerminal(s, s.pending);
      match s.pc
      case Draining =>
        FailureIsRetained(jobs, width, s);
        a, s' := Drained, s.(pc := Leaving(WorkerFailure(Primary(Failures(s.workers)))));
      case Aborting(fault) => a, s' := Aborted, s.(pc := Leaving(CoordinatorFault(fault)));
      case Leaving(exn) => a, s' := Exit, s.(pc := Raised(exn));
    }
  }

  /** From every reachable state that has not ended, some step in which nothing goes wrong is
      enabled: no deadlock, whatever failed before. */
  lemma NeverStuck<R(!new)>(jobs: seq<Job<R>>, width: nat, s: State<R>) returns (a: Action, s': State<R>)
    requires Inv(jobs, width, s) && !Ended(s)
    ensures SmoothStep(jobs, width, s, a, s') && Inv(jobs, width, s')
  {
    match s.pc {
      case Waiting => a, s' := WaitingCanMove(jobs, width, s);
      case AtBatch => a, s' := BatchCanMove(jobs, width, s);
      case Accepting(_) => a, s' := BatchCanMove(jobs, width, s);
      case _ => a, s' := EndgameCanMove(jobs, width, s);
    }
    if WorkerStep(jobs, s, a, s') {
      WorkerKeepsInv(jobs, width, s, a, s');
    } else {
      CoordinatorKeepsInv(jobs, width, s, a, s');
    }
  }

  // ---- clean plans ----

  /** Nothing has gone wrong so far. */
  ghost predicate Untroubled<R>(s: State<R>) {
    && !s.stop && (s.pc == AtBatch || s.pc == Waiting || s.pc.Accepting? || s.pc == Succeeded)
    && forall i :: 0 <= i < |s.workers| ==> s.workers[i].Queued? || s.workers[i].Running? || s.workers[i].Finished?
  }

  /** On a clean plan a step in which nothing goes wrong causes no trouble. */
  lemma SmoothKeepsUntroubled<R(!new)>(jobs: seq<Job<R>>, width: nat, s: State<R>, a: Action, s': State<R>)
    requires Inv(jobs, width, s) && Untroubled(s) && AllClean(jobs) && SmoothStep(jobs, width, s, a, s')
    ensures Untroubled(s')
  {
    if WorkerStep(jobs, s, a, s') {
      var i := a.i;
      assert Clean(jobs[s.start + i]);
      assert s'.workers[i].Queued? || s'.workers[i].Running? || s'.workers[i].Finished?;
    }
  }

  /** Left alone, the pool ends from every reachable state; on a clean plan in which nothing
      has gone wrong it succeeds. */
  lemma {:induction false} LeftAloneItEnds<R(!new)>(jobs: seq<Job<R>>, width: nat, s: State<R>)
    returns (rest: seq<State<R>>)
    requires width >= 1 && Inv(jobs, width, s)
    ensures |rest| > 0 && rest[0] == s && Ended(rest[|rest| - 1])
    ensures forall k :: 0 <= k < |rest| - 1 ==> Next(jobs, width, rest[k], rest[k + 1])
    ensures AllClean(jobs) && Untroubled(s) ==> rest[|rest| - 1].pc == Succeeded
    decreases Rank(jobs, s)
  {
    if Ended(s) {
      rest := [s];
    } else {
      var a, s' := NeverStuck(jobs, width, s);
      assert Next(jobs, width, s, s');
      StepDescends(jobs, width, s, s');
      if AllClean(jobs) && Untroubled(s) {
        SmoothKeepsUntroubled(jobs, width, s, a, s');
      }
      var tail := LeftAloneItEnds(jobs, width, s');
      rest := [s] + tail;
    }
  }
}
