/** Publish-or-nothing: the staging object and the steps from a verified payload to the
    terminal event, shared by `recover` and transfer-bundle creation (engine/publication.py).
    The script of a run chooses the outcome of every step that can fail or be cancelled. */
module Publication {
  import opened Wrappers

  /** An exception; `ordinary` tells Exception from BaseException. */
  datatype Exn = Exn(code: nat, ordinary: bool)

  datatype Fault = Fine | Raise(exn: Exn)

  /** An interrupt after the rename is any exception that is neither the typed sync failure
      nor an operating-system error, such as KeyboardInterrupt during the directory sync. */
  datatype RenameFault = RenameOk | RenameFails | SyncFailsAfterRename | InterruptedAfterRename(exn: Exn)

  /** What lies at the destination: nothing, somebody else's tree, or our payload. */
  datatype Destination<P> = Absent | Foreign | Ours(payload: P)

  datatype Act<P> =
    | Polled                       // a cancellation poll
    | StagedVerified(payload: P) // the complete staged verification succeeded
    | Promoted(payload: P)       // the atomic rename happened
    | TerminalEvent                // the COMPLETED event was emitted

  const TARGET_EXISTS := Exn(1, true)
  const PROMOTION_FAILED := Exn(2, true)
  const POST_RENAME_FAILED := Exn(3, true)

  /** What the rename and the directory sync after it raise. */
  function RaisedBy(fault: RenameFault): Fault {
    match fault
    case RenameOk => Fine
    case RenameFails => Raise(PROMOTION_FAILED)
    case SyncFailsAfterRename => Raise(POST_RENAME_FAILED)
    case InterruptedAfterRename(exn) => Raise(exn)
  }

  datatype RunResult = Finished | Failed(exn: Exn, cleanupFailed: bool)

  // ---- traces ----

  ghost predicate Unpublished<P>(trace: seq<Act<P>>) {
    forall i :: 0 <= i < |trace| ==> !trace[i].Promoted? && !trace[i].TerminalEvent?
  }

  /** The rename happened at position `k`, after the staged payload was verified; no poll
      and no second rename follow. */
  ghost predicate PublishedAt<P>(trace: seq<Act<P>>, k: nat, payload: P) {
    && k < |trace| && trace[k] == Promoted(payload)
    && Unpublished(trace[..k]) && StagedVerified(payload) in trace[..k]
    && forall j :: k < j < |trace| ==> !trace[j].Polled? && !trace[j].Promoted?
  }

  ghost predicate Published<P>(trace: seq<Act<P>>, payload: P) {
    exists k: nat :: PublishedAt(trace, k, payload)
  }

  /** The promise about a finished or failed run. */
  ghost predicate PublishOrNothing<P>(trace: seq<Act<P>>, destination: Destination<P>) {
    && (destination.Ours? ==> Published(trace, destination.payload))
    && (!destination.Ours? ==> Unpublished(trace))
  }

  lemma ExtendPublished<P>(trace: seq<Act<P>>, a: Act<P>, payload: P)
    requires Published(trace, payload) && !a.Polled? && !a.Promoted?
    ensures Published(trace + [a], payload)
  {
    var k: nat :| PublishedAt(trace, k, payload);
    assert (trace + [a])[..k] == trace[..k];
    assert PublishedAt(trace + [a], k, payload);
  }

  lemma PromoteVerified<P>(trace: seq<Act<P>>, payload: P)
    requires Unpublished(trace) && StagedVerified(payload) in trace
    ensures Published(trace + [Promoted(payload)], payload)
  {
    var k := |trace|;
    assert (trace + [Promoted(payload)])[..k] == trace;
    assert PublishedAt(trace + [Promoted(payload)], k, payload);
  }

  // ---- the staging object ----

  /** `DatasetStaging` together with the destination it publishes to. */
  class Staging<P(==)> {
    var created: bool
    var renamed: bool
    var promoted: bool
    var rootExists: bool
    var payload: Option<P>
    var destination: Destination<P>
    ghost var trace: seq<Act<P>>

    constructor (destination: Destination<P>)
      ensures !created && !renamed && !promoted && !rootExists
      ensures this.destination == destination && trace == [] && payload == None
    {
      created, renamed, promoted, rootExists := false, false, false, false;
      payload := None;
      this.destination := destination;
      trace := [];
    }

    /** Nothing has been published through this object. */
    ghost predicate Before()
      reads this
    {
      !renamed && !promoted && !destination.Ours? && Unpublished(trace)
    }

    /** A phase of work with cancellation polls that ends fine or raises. */
    method Work(polls: nat, fault: Fault) returns (r: Fault)
      requires Before()
      modifies this`trace
      ensures r == fault && Before()
      ensures trace == old(trace) + seq(polls, _ => Polled)
      ensures forall a :: a in old(trace) ==> a in trace
    {
      for i := 0 to polls
        invariant Unpublished(trace)
        invariant trace == old(trace) + seq(i, _ => Polled)
      {
        trace := trace + [Polled];
      }
      r := fault;
    }

    /** create: a failure may leave a partial staging root behind. */
    method Create(fault: Fault, residue: bool) returns (r: Fault)
      requires Before()
      modifies this`created, this`rootExists
      ensures r == fault && Before()
      ensures r == Fine ==> created && rootExists
      ensures r != Fine ==> created == rootExists == residue
    {
      if fault != Fine {
        created, rootExists := residue, residue;
        return fault;
      }
      created, rootExists := true, true;
      r := Fine;
    }

    /** promote: refuses an existing target, then renames atomically. The rename is recorded
        before a sync failure propagates, but not when an interrupt strikes after it. */
    method Promote(fault: RenameFault) returns (r: Fault)
      requires Before() && payload.Some? && StagedVerified(payload.value) in trace
      modifies this`renamed, this`promoted, this`destination, this`trace
      ensures r == Fine <==> old(destination) == Absent && fault == RenameOk
      ensures r == if old(destination) != Absent then Raise(TARGET_EXISTS) else RaisedBy(fault)
      ensures destination.Ours? <==> old(destination) == Absent && fault != RenameFails
      ensures destination.Ours? ==> destination.payload == payload.value && Published(trace, payload.value)
      ensures renamed <==> destination.Ours? && !fault.InterruptedAfterRename?
      ensures promoted <==> r == Fine
      ensures trace == if destination.Ours? then old(trace) + [Promoted(payload.value)] else old(trace)
      ensures !destination.Ours? ==> destination == old(destination)
    {
      if destination != Absent {
        return Raise(TARGET_EXISTS);
      }
      if fault == RenameFails {
        return Raise(PROMOTION_FAILED);
      }
      PromoteVerified(trace, payload.value);
      destination := Ours(payload.value);
      trace := trace + [Promoted(payload.value)];
      if fault.InterruptedAfterRename? {
        return Raise(fault.exn);
      }
      renamed := true;
      if fault == SyncFailsAfterRename {
        return Raise(POST_RENAME_FAILED);
      }
      promoted := true;
      r := Fine;
    }

    /** remove_metadata_after_promotion */
    method RemoveMetadata(fault: Fault) returns (r: Fault)
      requires promoted
      modifies this`rootExists
      ensures r == fault
      ensures rootExists == if r == Fine then false else old(rootExists)
    {
      if fault == Fine {
        rootExists := false;
      }
      r := fault;
    }

    /** cleanup_owned: a no-op from the rename on. */
    method CleanupOwned(fails: bool) returns (failed: bool)
      modifies this`rootExists
      ensures renamed || !created ==> !failed && rootExists == old(rootExists)
      ensures !renamed && created ==> failed == fails && rootExists == (fails && old(rootExists))
    {
      if !created || renamed {
        return false;
      }
      if !fails {
        rootExists := false;
      }
      failed := fails;
    }

    /** The handler around the staged part: clean up, keep the primary failure. A failed
        cleanup is surfaced unless the primary is not an ordinary exception. */
    method Fail(exn: Exn, cleanupFails: bool) returns (r: RunResult)
      modifies this`rootExists
      ensures r.Failed? && r.exn == exn
      ensures renamed || !created ==> rootExists == old(rootExists)
      ensures !renamed && created ==> rootExists == (cleanupFails && old(rootExists))
      ensures r.cleanupFailed ==> exn.ordinary && cleanupFails
      ensures !renamed && created && cleanupFails && exn.ordinary ==> r.cleanupFailed
    {
      var failed := CleanupOwned(cleanupFails);
      r := Failed(exn, failed && exn.ordinary);
    }

    /** The single terminal event, emitted without a poll. */
    method EmitTerminal(fault: Fault) returns (r: Fault)
      requires destination.Ours? && Published(trace, destination.payload)
      modifies this`trace
      ensures r == fault && trace == old(trace) + [TerminalEvent]
      ensures Published(trace, destination.payload)
    {
      ExtendPublished(trace, TerminalEvent, destination.payload);
      trace := trace + [TerminalEvent];
      r := fault;
    }

    /** The promise every run keeps, whatever happened. */
    ghost predicate Kept(r: RunResult)
      reads this
    {
      && PublishOrNothing(trace, destination)
      && (promoted ==> renamed) && (renamed ==> destination.Ours?)
      && (TerminalEvent in trace ==> promoted)
      && (r == Finished ==> destination.Ours? && promoted && TerminalEvent in trace)
    }
  }

  // ---- from the verified payload to the terminal event ----

  /** `ready` and `markPromoted` are steps of bundle creation only. `closing` is the release of
      the lock and the closing of the vault reader, after success and after failure. */
  datatype PublishScript = PublishScript(
    ready: Fault, publication: Fault, lastPoll: Fault, intruder: bool, rename: RenameFault,
    markPromoted: Fault, metadata: Fault, cleanupFails: bool, closing: Fault, terminal: Fault)

  /** A failure while closing takes the place of the failure it interrupts. */
  function Close(r: RunResult, closing: Fault): RunResult {
    match closing
    case Fine => r
    case Raise(exn) => Failed(exn, r.Failed? && r.cleanupFailed)
  }

  predicate Renames(p: PublishScript) {
    p.ready == Fine && p.publication == Fine && p.lastPoll == Fine && !p.intruder && p.rename != RenameFails
  }

  /** Poll, poll, promote, and at most the terminal event. */
  ghost predicate ActsAre<P>(trace: seq<Act<P>>, before: seq<Act<P>>, payload: P) {
    || trace == before + [Polled, Polled, Promoted(payload)]
    || trace == before + [Polled, Polled, Promoted(payload), TerminalEvent]
  }

  /** The steps of the guarded part in order, a fault or none each. */
  function GuardedFaults(p: PublishScript): seq<Fault> {
    [p.ready, p.publication, p.lastPoll, if p.intruder then Raise(TARGET_EXISTS) else RaisedBy(p.rename),
     p.markPromoted, p.metadata]
  }

  /** The fault is the first of the list. */
  ghost predicate IsFirst(f: Fault, faults: seq<Fault>) {
    exists k :: 0 <= k < |faults| && faults[k] == f && f != Fine && forall j :: 0 <= j < k ==> faults[j] == Fine
  }

  /** The polls before the rename. */
  method Approach<P>(s: Staging<P>, p: PublishScript) returns (f: Fault)
    requires s.Before()
    modifies s`trace
    ensures s.Before()
    ensures f == Fine <==> p.ready == Fine && p.publication == Fine && p.lastPoll == Fine
    ensures f != Fine ==> IsFirst(f, GuardedFaults(p))
    ensures f == Fine ==> s.trace == old(s.trace) + [Polled, Polled]
    ensures TerminalEvent !in s.trace
  {
    f := s.Work(0, p.ready);
    if f == Fine { f := s.Work(1, p.publication); }
    if f == Fine { f := s.Work(1, p.lastPoll); }
    if f != Fine {
      assert GuardedFaults(p)[if p.ready != Fine then 0 else if p.publication != Fine then 1 else 2] == f;
    }
  }

  /** The guarded part: from the verified payload to the removal of the crash record. */
  method Attempt<P>(s: Staging<P>, p: PublishScript) returns (f: Fault)
    requires s.Before() && s.created && s.rootExists && s.destination == Absent
    requires s.payload.Some? && StagedVerified(s.payload.value) in s.trace
    modifies s
    ensures s.payload == old(s.payload) && s.created
    ensures PublishOrNothing(s.trace, s.destination) && TerminalEvent !in s.trace
    ensures s.destination.Ours? <==> Renames(p)
    ensures Renames(p) ==> s.destination.payload == s.payload.value &&
                           s.trace == old(s.trace) + [Polled, Polled, Promoted(s.payload.value)]
    ensures s.renamed <==> Renames(p) && !p.rename.InterruptedAfterRename?
    ensures s.promoted <==> Renames(p) && p.rename == RenameOk
    ensures f == Fine <==> Renames(p) && p.rename == RenameOk && p.markPromoted == Fine && p.metadata == Fine
    ensures f != Fine ==> IsFirst(f, GuardedFaults(p))
    ensures s.rootExists <==> f != Fine
  {
    f := Approach(s, p);
    if f != Fine {
      return;
    }
    if p.intruder { s.destination := Foreign; }
    f := s.Promote(p.rename);
    assert f == GuardedFaults(p)[3];
    if f == Fine { f := p.markPromoted; assert f == GuardedFaults(p)[4]; }
    if f == Fine { f := s.RemoveMetadata(p.metadata); assert f == GuardedFaults(p)[5]; }
  }

  method PublishVerified<P>(s: Staging<P>, p: PublishScript) returns (r: RunResult)
    requires s.Before() && s.created && s.rootExists && s.destination == Absent
    requires s.payload.Some? && StagedVerified(s.payload.value) in s.trace
    modifies s
    ensures s.Kept(r) && s.payload == old(s.payload)
    ensures s.destination.Ours? <==> Renames(p)
    ensures s.destination.Ours? ==> s.destination.payload == s.payload.value
    // The one way to be published without knowing it: an interrupt after the rename. The
    // handler then takes the staging root, and the crash record in it, for its own.
    ensures s.destination.Ours? && !s.renamed <==> Renames(p) && p.rename.InterruptedAfterRename?
    ensures s.destination.Ours? && !s.renamed ==> r.Failed? && (s.rootExists <==> p.cleanupFails)
    // A failure before the rename leaves no staging unless cleanup fails; a sync failure
    // after it leaves the crash record in place.
    ensures r.Failed? && !s.destination.Ours? && s.rootExists ==> p.cleanupFails
    ensures Renames(p) && p.rename == SyncFailsAfterRename ==> r.Failed? && s.renamed && s.rootExists
    ensures r == Finished ==> !s.rootExists
    // A failing lock release or reader close after promotion suppresses only the event.
    ensures r == Finished <==>
              Renames(p) && p.rename == RenameOk && p.markPromoted == Fine && p.metadata == Fine &&
              p.closing == Fine && p.terminal == Fine
    ensures p.closing != Fine ==> TerminalEvent !in s.trace
    // Two polls stand between the verified payload and the rename, the second right before it;
    // nothing but the terminal event follows.
    ensures Renames(p) ==> ActsAre(s.trace, old(s.trace), s.payload.value)
    // The failure that surfaces: that of closing, else the first one on the way.
    ensures r.Failed? ==>
              if p.closing != Fine then p.closing == Raise(r.exn)
              else IsFirst(Raise(r.exn), GuardedFaults(p) + [p.terminal])
  {
    var f := Attempt(s, p);
    if f != Fine {
      FirstStays(f, GuardedFaults(p), p.terminal);
      r := s.Fail(f.exn, p.cleanupFails);
      r := Close(r, p.closing);
      return;
    }
    if p.closing != Fine {
      return Failed(p.closing.exn, false);
    }
    f := s.EmitTerminal(p.terminal);
    TerminalIsLast(p);
    r := if f == Fine then Finished else Failed(f.exn, false);
  }

  lemma FirstStays(f: Fault, faults: seq<Fault>, last: Fault)
    requires IsFirst(f, faults)
    ensures IsFirst(f, faults + [last])
  {
    var k :| 0 <= k < |faults| && faults[k] == f && forall j :: 0 <= j < k ==> faults[j] == Fine;
    assert (faults + [last])[k] == f;
  }

  lemma TerminalIsLast(p: PublishScript)
    requires Renames(p) && p.rename == RenameOk && p.markPromoted == Fine && p.metadata == Fine
    ensures p.terminal != Fine ==> IsFirst(p.terminal, GuardedFaults(p) + [p.terminal])
  {
    assert (GuardedFaults(p) + [p.terminal])[6] == p.terminal;
  }

  const KEYBOARD_INTERRUPT := Exn(9, false)

  /** The input that loses the record: an undisturbed run struck by a keyboard interrupt during
      the directory sync after the rename. The destination is published, nothing says so, and
      the crash record is gone. */
  method InterruptLosesRecord<P(==)>(payload: P) returns (s: Staging<P>, r: RunResult)
    ensures s.destination == Ours(payload) && !s.renamed && !s.rootExists && r.Failed?
  {
    s := new Staging(Absent);
    var made := s.Create(Fine, false);
    s.payload := Some(payload);
    s.trace := [StagedVerified(payload)];
    r := PublishVerified(s, PublishScript(Fine, Fine, Fine, false, InterruptedAfterRename(KEYBOARD_INTERRUPT),
                                          Fine, Fine, false, Fine, Fine));
  }
}
