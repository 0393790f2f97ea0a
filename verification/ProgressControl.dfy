/** The progress and cancellation controller under adversarial callbacks (progress.py). */
module ProgressControl {
  import opened Wrappers

  /** What a user callback does: it returns a value, returns a value whose truth test raises,
      raises an Exception of any kind (CancellationError and CallbackError included), or
      raises beyond Exception. */
  datatype Reply = Returns(truthy: bool) | Untestable(kind: string) | Raises(kind: string) | Escapes(kind: string)

  datatype EventCode = Started | Progressed | Completed

  datatype Event = Event(operationId: string, phase: string, code: EventCode,
                         completed: int, total: Option<int>, table: Option<string>)

  datatype CallbackKind = ProgressCallback | CancelCheck

  /** How one controller call ends. */
  datatype Outcome =
    | Done
    | Cancelled(operationId: string)
    | CallbackFailed(callback: CallbackKind, operationId: string)
    | Propagated(kind: string)

  /** The fixed wiring of a controller. */
  datatype Wiring = Wiring(hasProgress: bool, hasCancelCheck: bool)

  /** The world's part in one call: both callbacks and the id generator. */
  datatype World = World(cancel: Reply, progress: Reply, nextId: string)

  datatype State = State(operationId: Option<string>, totals: map<string, Option<int>>,
                         counts: map<string, nat>, events: seq<Event>)

  datatype Call =
    | CheckCancelled
    | StartPhase(phase: string, total: Option<int>)
    | Bump(phase: string, table: Option<string>)
    | Progress(phase: string, completed: int, total: Option<int>, table: Option<string>)
    | Complete(completed: int, checkCancel: bool)

  const OPERATION := "OPERATION"

  // ---- the step function ----

  /** The lazily generated invocation id. */
  function IdOf(s: State, w: World): string {
    if s.operationId.Some? then s.operationId.value else w.nextId
  }

  function WithId(s: State, w: World): State {
    s.(operationId := Some(IdOf(s, w)))
  }

  function PollStep(x: Wiring, s: State, w: World): (State, Outcome) {
    if !x.hasCancelCheck then (s, Done) else
    match w.cancel
    case Returns(false) => (s, Done)
    case Returns(true) => (WithId(s, w), Cancelled(IdOf(s, w)))
    case Raises(_) => (WithId(s, w), CallbackFailed(CancelCheck, IdOf(s, w)))
    case Escapes(kind) => (s, Propagated(kind))
    case Untestable(kind) => (s, Propagated(kind))
  }

  function EmitStep(x: Wiring, s: State, w: World, code: EventCode, phase: string, completed: int,
                    total: Option<int>, table: Option<string>): (State, Outcome)
  {
    if !x.hasProgress then (s, Done) else
    var event := Event(IdOf(s, w), phase, code, completed, total, table);
    var s' := WithId(s, w).(events := s.events + [event]);
    match w.progress
    case Returns(_) => (s', Done)
    case Untestable(_) => (s', Done)
    case Raises(_) => (s', CallbackFailed(ProgressCallback, IdOf(s, w)))
    case Escapes(kind) => (s', Propagated(kind))
  }

  function Count(s: State, phase: string): nat {
    if phase in s.counts then s.counts[phase] else 0
  }

  function Total(s: State, phase: string): Option<int> {
    if phase in s.totals then s.totals[phase] else None
  }

  function Step(x: Wiring, s: State, call: Call, w: World): (State, Outcome) {
    match call
    case CheckCancelled => PollStep(x, s, w)
    case StartPhase(phase, total) =>
      var polled := PollStep(x, s, w);
      if polled.1 != Done then polled else
      var entered := s.(totals := s.totals[phase := total], counts := s.counts[phase := 0]);
      EmitStep(x, entered, w, Started, phase, 0, total, None)
    case Bump(phase, table) =>
      var counted := s.(counts := s.counts[phase := Count(s, phase) + 1]);
      EmitStep(x, counted, w, Progressed, phase, Count(counted, phase), Total(s, phase), table)
    case Progress(phase, completed, total, table) =>
      EmitStep(x, s, w, Progressed, phase, completed, total, table)
    case Complete(completed, checkCancel) =>
      var polled := if checkCancel then PollStep(x, s, w) else (s, Done);
      if polled.1 != Done then polled
      else EmitStep(x, s, w, Completed, OPERATION, completed, Some(completed), None)
  }

  // ---- the controller object ----

  class ProgressController {
    const wiring: Wiring
    var operationId: Option<string>
    var phaseTotals: map<string, Option<int>>
    var phaseCounts: map<string, nat>
    ghost var events: seq<Event>

    ghost function Snapshot(): State
      reads this
    {
      State(operationId, phaseTotals, phaseCounts, events)
    }

    constructor (wiring: Wiring, seed: Option<string>)
      ensures this.wiring == wiring && Snapshot() == State(seed, map[], map[], [])
    {
      this.wiring := wiring;
      operationId := seed;
      phaseTotals, phaseCounts, events := map[], map[], [];
    }

    method EnsureOperationId(w: World) returns (id: string)
      modifies this
      ensures id == IdOf(old(Snapshot()), w)
      ensures Snapshot() == WithId(old(Snapshot()), w)
    {
      if operationId.None? {
        operationId := Some(w.nextId);
      }
      id := operationId.value;
    }

    method CheckCancelled(w: World) returns (r: Outcome)
      modifies this
      ensures (Snapshot(), r) == PollStep(wiring, old(Snapshot()), w)
    {
      if !wiring.hasCancelCheck {
        return Done;
      }
      match w.cancel {
        case Raises(_) =>
          var id := EnsureOperationId(w);
          r := CallbackFailed(CancelCheck, id);
        case Escapes(kind) =>
          r := Propagated(kind);
        case Untestable(kind) =>
          r := Propagated(kind);      // the truth test stands outside the handler
        case Returns(requested) =>
          r := Done;
          if requested {
            var id := EnsureOperationId(w);
            r := Cancelled(id);
          }
      }
    }

    method Emit(w: World, code: EventCode, phase: string, completed: int, total: Option<int>,
                table: Option<string>)
      returns (r: Outcome)
      modifies this
      ensures (Snapshot(), r) ==
              EmitStep(wiring, old(Snapshot()), w, code, phase, completed, total, table)
    {
      if !wiring.hasProgress {
        return Done;
      }
      var id := EnsureOperationId(w);
      events := events + [Event(id, phase, code, completed, total, table)];
      match w.progress {
        case Returns(_) => r := Done;
        case Untestable(_) => r := Done;
        case Raises(_) => r := CallbackFailed(ProgressCallback, id);
        case Escapes(kind) => r := Propagated(kind);
      }
    }

    method StartPhase(w: World, phase: string, total: Option<int>) returns (r: Outcome)
      modifies this
      ensures (Snapshot(), r) == Step(wiring, old(Snapshot()), Call.StartPhase(phase, total), w)
    {
      r := CheckCancelled(w);
      if r != Done {
        return;
      }
      phaseTotals := phaseTotals[phase := total];
      phaseCounts := phaseCounts[phase := 0];
      r := Emit(w, Started, phase, 0, total, None);
    }

    method Bump(w: World, phase: string, table: Option<string>) returns (r: Outcome)
      modifies this
      ensures (Snapshot(), r) == Step(wiring, old(Snapshot()), Call.Bump(phase, table), w)
    {
      var count := if phase in phaseCounts then phaseCounts[phase] else 0;
      phaseCounts := phaseCounts[phase := count + 1];
      var total := if phase in phaseTotals then phaseTotals[phase] else None;
      r := Emit(w, Progressed, phase, phaseCounts[phase], total, table);
    }

    method Progress(w: World, phase: string, completed: int, total: Option<int>, table: Option<string>)
      returns (r: Outcome)
      modifies this
      ensures (Snapshot(), r) ==
              Step(wiring, old(Snapshot()), Call.Progress(phase, completed, total, table), w)
    {
      r := Emit(w, Progressed, phase, completed, total, table);
    }

    method Complete(w: World, completed: int, checkCancel: bool) returns (r: Outcome)
      modifies this
      ensures (Snapshot(), r) == Step(wiring, old(Snapshot()), Call.Complete(completed, checkCancel), w)
    {
      if checkCancel {
        r := CheckCancelled(w);
        if r != Done {
          return;
        }
      }
      r := Emit(w, Completed, OPERATION, completed, Some(completed), None);
    }
  }

  // ---- whole runs ----

  type History = seq<(Call, World)>

  function Run(x: Wiring, s: State, h: History): State {
    if h == [] then s else Step(x, Run(x, s, h[..|h| - 1]), h[|h| - 1].0, h[|h| - 1].1).0
  }

  function Fresh(seed: Option<string>): State {
    State(seed, map[], map[], [])
  }

  /** A poll lets the call through. */
  predicate Passes(x: Wiring, w: World) {
    !x.hasCancelCheck || w.cancel == Returns(false)
  }

  /** All events so far carry the id the controller holds. */
  ghost predicate OneId(s: State) {
    forall i :: 0 <= i < |s.events| ==> s.operationId == Some(s.events[i].operationId)
  }

  lemma StepKeepsId(x: Wiring, s: State, call: Call, w: World)
    requires OneId(s)
    ensures OneId(Step(x, s, call, w).0)
    ensures s.operationId.Some? ==> Step(x, s, call, w).0.operationId == s.operationId
  {
  }

  /** For every sequence of calls and every callback behaviour, all events of a controller
      carry one operation id; a seeded id is kept. */
  lemma {:induction false} RunHasOneId(x: Wiring, seed: Option<string>, h: History)
    ensures OneId(Run(x, Fresh(seed), h))
    ensures seed.Some? ==> Run(x, Fresh(seed), h).operationId == seed
  {
    if h != [] {
      var last := |h| - 1;
      RunHasOneId(x, seed, h[..last]);
      StepKeepsId(x, Run(x, Fresh(seed), h[..last]), h[last].0, h[last].1);
    }
  }

  lemma StepCounts(x: Wiring, s: State, call: Call, w: World, phase: string)
    ensures Count(Step(x, s, call, w).0, phase) ==
            if call.StartPhase? && call.phase == phase && Passes(x, w) then 0
            else if call.Bump? && call.phase == phase then Count(s, phase) + 1
            else Count(s, phase)
  {
  }

  /** The call enters the phase and its poll lets it through. */
  predicate Enters(x: Wiring, step: (Call, World), phase: string) {
    step.0.StartPhase? && step.0.phase == phase && Passes(x, step.1)
  }

  predicate Bumps(step: (Call, World), phase: string) {
    step.0.Bump? && step.0.phase == phase
  }

  /** The phase was last entered just before position `start`, or never if `start` is 0. */
  ghost predicate LastEntered(x: Wiring, h: History, phase: string, start: nat) {
    && start <= |h| && (start > 0 ==> Enters(x, h[start - 1], phase))
    && forall i :: start <= i < |h| ==> !Enters(x, h[i], phase)
  }

  ghost function BumpsAt(h: History, phase: string, start: nat): set<int> {
    set i | start <= i < |h| && Bumps(h[i], phase)
  }

  /** The total given at the last entry. */
  ghost function TotalAt(h: History, start: nat): Option<int>
    requires start <= |h| && (start > 0 ==> h[start - 1].0.StartPhase?)
  {
    if start == 0 then None else h[start - 1].0.total
  }

  lemma StepTotals(x: Wiring, s: State, call: Call, w: World, phase: string)
    ensures Total(Step(x, s, call, w).0, phase) ==
            if Enters(x, (call, w), phase) then call.total else Total(s, phase)
  {
  }

  lemma OneMoreBump(h: History, phase: string, start: nat)
    requires start < |h|
    ensures |BumpsAt(h, phase, start)| ==
            |BumpsAt(h[..|h| - 1], phase, start)| + if Bumps(h[|h| - 1], phase) then 1 else 0
  {
    var n := |h| - 1;
    assert BumpsAt(h, phase, start) ==
           BumpsAt(h[..n], phase, start) + if Bumps(h[n], phase) then {n} else {};
  }

  /** What the controller holds of a phase: the number of bumps since its last entry and the
      total given there. */
  lemma {:induction false} HoldsSinceEntry(x: Wiring, seed: Option<string>, h: History, phase: string, start: nat)
    requires LastEntered(x, h, phase, start)
    ensures Count(Run(x, Fresh(seed), h), phase) == |BumpsAt(h, phase, start)|
    ensures Total(Run(x, Fresh(seed), h), phase) == TotalAt(h, start)
  {
    if h == [] {
      assert BumpsAt(h, phase, start) == {};
    } else {
      var n := |h| - 1;
      var before := Run(x, Fresh(seed), h[..n]);
      StepCounts(x, before, h[n].0, h[n].1, phase);
      StepTotals(x, before, h[n].0, h[n].1, phase);
      if start == |h| {
        assert BumpsAt(h, phase, start) == {};
      } else {
        assert LastEntered(x, h[..n], phase, start);
        HoldsSinceEntry(x, seed, h[..n], phase, start);
        OneMoreBump(h, phase, start);
      }
    }
  }

  /** Bump events count 1, 2, 3, ... after each entry of their phase, whatever callbacks
      raised in between, and carry the total of that entry and the table given. */
  lemma BumpEventsCountUp(x: Wiring, seed: Option<string>, h: History, phase: string,
                          table: Option<string>, w: World, start: nat)
    requires x.hasProgress && LastEntered(x, h, phase, start)
    ensures var before, after := Run(x, Fresh(seed), h), Run(x, Fresh(seed), h + [(Bump(phase, table), w)]);
            && after.operationId.Some?
            && after.events == before.events +
                 [Event(after.operationId.value, phase, Progressed, |BumpsAt(h, phase, start)| + 1,
                        TotalAt(h, start), table)]
  {
    var h' := h + [(Bump(phase, table), w)];
    assert h'[..|h'| - 1] == h;
    HoldsSinceEntry(x, seed, h, phase, start);
  }

  /** The other events report what they were given: an entry its total at count 0, a progress
      report its figures, a completion its count as the total of the whole operation. */
  lemma EventsReportTheCall(x: Wiring, s: State, call: Call, w: World)
    requires x.hasProgress && !call.Bump?
    ensures var after := Step(x, s, call, w).0;
            if call.StartPhase? && Passes(x, w) then
              && after.operationId.Some?
              && after.events == s.events +
                   [Event(after.operationId.value, call.phase, Started, 0, call.total, None)]
            else if call.Progress? then
              && after.operationId.Some?
              && after.events == s.events +
                   [Event(after.operationId.value, call.phase, Progressed, call.completed, call.total, call.table)]
            else if call.Complete? && (!call.checkCancel || Passes(x, w)) then
              && after.operationId.Some?
              && after.events == s.events +
                   [Event(after.operationId.value, "OPERATION", Completed, call.completed, Some(call.completed), None)]
            else after.events == s.events
  {
  }

  /** A requested cancellation stops every call that polls before it has any effect. */
  lemma RequestStopsTheCall(x: Wiring, s: State, call: Call, w: World)
    requires x.hasCancelCheck && w.cancel == Returns(true)
    requires call.CheckCancelled? || call.StartPhase? || (call.Complete? && call.checkCancel)
    ensures var (after, r) := Step(x, s, call, w);
            && r.Cancelled? && Some(r.operationId) == after.operationId
            && (s.operationId.Some? ==> after.operationId == s.operationId)
            && after.events == s.events && after.counts == s.counts && after.totals == s.totals
  {
  }

  /** A cancellation outcome means the check returned true: a callback cannot manufacture
      one by raising. Every Exception a callback raises becomes a callback failure, whatever
      its kind. A raw exception escapes exactly when a callback raises beyond Exception or
      the truth test of a returned value raises. */
  lemma OutcomesAreContained(x: Wiring, s: State, call: Call, w: World)
    ensures Step(x, s, call, w).1.Cancelled? <==> Polls(call) && x.hasCancelCheck && w.cancel == Returns(true)
    ensures Step(x, s, call, w).1.CallbackFailed? ==> w.cancel.Raises? || w.progress.Raises?
    ensures x.hasCancelCheck && w.cancel.Raises? && Polls(call) ==>
              Step(x, s, call, w).1 == CallbackFailed(CancelCheck, IdOf(s, w)) &&
              Step(x, s, call, w).0.events == s.events
    ensures x.hasProgress && w.progress.Raises? && Emits(call) && (Polls(call) ==> Passes(x, w)) ==>
              Step(x, s, call, w).1 == CallbackFailed(ProgressCallback, IdOf(s, w))
    ensures Step(x, s, call, w).1.Propagated? <==> PollEscapes(x, call, w) || EmitEscapes(x, call, w)
  {
  }

  /** The poll of this call lets a raw exception through. */
  predicate PollEscapes(x: Wiring, call: Call, w: World) {
    Polls(call) && x.hasCancelCheck && (w.cancel.Escapes? || w.cancel.Untestable?)
  }

  predicate EmitEscapes(x: Wiring, call: Call, w: World) {
    Emits(call) && (Polls(call) ==> Passes(x, w)) && x.hasProgress && w.progress.Escapes?
  }

  /** The input behind the escape: a check that returns a value whose truth test raises a
      CancellationError passes for a cancellation nobody requested. */
  lemma TruthTestForgesCancellation(s: State, progress: Reply, nextId: string)
    ensures Step(Wiring(true, true), s, CheckCancelled, World(Untestable("CancellationError"), progress, nextId)) ==
            (s, Propagated("CancellationError"))
  {
  }

  predicate Polls(call: Call) {
    call.CheckCancelled? || call.StartPhase? || (call.Complete? && call.checkCancel)
  }

  predicate Emits(call: Call) {
    !call.CheckCancelled?
  }

  // ---- terminal events ----

  function CompletedEvents(events: seq<Event>): nat {
    if events == [] then 0 else
    CompletedEvents(events[..|events| - 1]) + if events[|events| - 1].code == Completed then 1 else 0
  }

  /** The `Complete` calls that were not stopped by their poll. */
  function Completions(x: Wiring, h: History): nat {
    if h == [] then 0 else
    var (call, w) := h[|h| - 1];
    Completions(x, h[..|h| - 1]) +
    if call.Complete? && (!call.checkCancel || Passes(x, w)) then 1 else 0
  }

  lemma EmitAdds(x: Wiring, s: State, w: World, code: EventCode, phase: string, completed: int, total: Option<int>,
                 table: Option<string>)
    requires x.hasProgress
    ensures CompletedEvents(EmitStep(x, s, w, code, phase, completed, total, table).0.events) ==
            CompletedEvents(s.events) + if code == Completed then 1 else 0
  {
    var event := Event(IdOf(s, w), phase, code, completed, total, table);
    assert (s.events + [event])[..|s.events|] == s.events;
  }

  lemma PollAddsNothing(x: Wiring, s: State, w: World)
    ensures PollStep(x, s, w).0.events == s.events && (PollStep(x, s, w).1 == Done <==> Passes(x, w))
  {
  }

  /** Entering a phase, counting and reporting add no terminal event. */
  lemma WorkAddsNone(x: Wiring, s: State, call: Call, w: World)
    requires x.hasProgress && (call.StartPhase? || call.Bump? || call.Progress?)
    ensures CompletedEvents(Step(x, s, call, w).0.events) == CompletedEvents(s.events)
  {
    match call
    case StartPhase(phase, total) =>
      var entered := s.(totals := s.totals[phase := total], counts := s.counts[phase := 0]);
      PollAddsNothing(x, s, w);
      EmitAdds(x, entered, w, Started, phase, 0, total, None);
    case Bump(phase, table) =>
      var counted := s.(counts := s.counts[phase := Count(s, phase) + 1]);
      EmitAdds(x, counted, w, Progressed, phase, Count(counted, phase), Total(s, phase), table);
    case Progress(phase, completed, total, table) =>
      EmitAdds(x, s, w, Progressed, phase, completed, total, table);
  }

  lemma CompleteAddsOne(x: Wiring, s: State, completed: int, checkCancel: bool, w: World)
    requires x.hasProgress
    ensures CompletedEvents(Step(x, s, Complete(completed, checkCancel), w).0.events) == CompletedEvents(s.events) +
              if !checkCancel || Passes(x, w) then 1 else 0
  {
    PollAddsNothing(x, s, w);
    EmitAdds(x, s, w, Completed, OPERATION, completed, Some(completed), None);
  }

  lemma StepAddsAtMostOne(x: Wiring, s: State, call: Call, w: World)
    requires x.hasProgress
    ensures CompletedEvents(Step(x, s, call, w).0.events) == CompletedEvents(s.events) +
              if call.Complete? && (!call.checkCancel || Passes(x, w)) then 1 else 0
  {
    match call
    case CheckCancelled => PollAddsNothing(x, s, w);
    case Complete(completed, checkCancel) => CompleteAddsOne(x, s, completed, checkCancel, w);
    case _ => WorkAddsNone(x, s, call, w);
  }

  /** Terminal events correspond one to one to completions that were let through: never to
      a cancelled or failed poll. */
  lemma {:induction false} TerminalEventsAreCompletions(x: Wiring, seed: Option<string>, h: History)
    requires x.hasProgress
    ensures CompletedEvents(Run(x, Fresh(seed), h).events) == Completions(x, h)
  {
    if h != [] {
      var last := |h| - 1;
      TerminalEventsAreCompletions(x, seed, h[..last]);
      StepAddsAtMostOne(x, Run(x, Fresh(seed), h[..last]), h[last].0, h[last].1);
    }
  }
}
