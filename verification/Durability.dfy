/** Durability primitives under crashes (durability.py). A disk keeps, besides the live
    directory, every directory state since the last completed directory sync; a crash may
    resolve each name to any of those states, and an unsynced file to arbitrary bytes. */
module Durability {
  import opened Wrappers
  import opened Collections

  type Name = string
  type Ino = nat
  type Content = seq<int>

  datatype File = File(data: Content, synced: bool)

  /** `next` is an inode number not yet in use. */
  datatype Disk = Disk(files: map<Ino, File>, dir: map<Name, Ino>, since: seq<map<Name, Ino>>, next: Ino)

  ghost predicate Valid(d: Disk) {
    && |d.since| > 0 && d.since[|d.since| - 1] == d.dir
    && (forall name :: name in d.dir ==> d.dir[name] in d.files)
    && (forall h, name :: h in d.since && name in h ==> h[name] in d.files)
    && (forall ino :: ino in d.files ==> ino < d.next)
  }

  function Live(d: Disk, name: Name): Option<Content>
    requires name in d.dir ==> d.dir[name] in d.files
  {
    if name in d.dir then Some(d.files[d.dir[name]].data) else None
  }

  /** After a crash, `name` may read as `content`. */
  ghost predicate MayRead(d: Disk, name: Name, content: Option<Content>) {
    exists h :: h in d.since && ReadsAs(d, h, name, content)
  }

  ghost predicate ReadsAs(d: Disk, h: map<Name, Ino>, name: Name, content: Option<Content>) {
    if name !in h then content == None
    else h[name] in d.files && content.Some? &&
         (d.files[h[name]].synced ==> content.value == d.files[h[name]].data)
  }

  /** Every crash image of the name is one of the allowed complete contents. */
  ghost predicate CrashIn(d: Disk, name: Name, allowed: set<Option<Content>>) {
    forall c :: MayRead(d, name, c) ==> c in allowed
  }

  /** After a crash the name reads as the complete old or the complete new content. */
  ghost predicate OldOrNew(d: Disk, name: Name, previous: Option<Content>, latest: Content) {
    forall c :: MayRead(d, name, c) ==> c == previous || c == Some(latest)
  }

  // ---- system calls ----

  function WithDir(d: Disk, dir: map<Name, Ino>): Disk {
    d.(dir := dir, since := d.since + [dir])
  }

  /** open(name, "wb"): truncate an existing file or create one. */
  function OpenForWrite(d: Disk, name: Name): Disk {
    if name in d.dir then d.(files := d.files[d.dir[name] := File([], false)])
    else WithDir(d.(files := d.files[d.next := File([], false)], next := d.next + 1), d.dir[name := d.next])
  }

  function Append(d: Disk, ino: Ino, bytes: Content): Disk
    requires ino in d.files
  {
    d.(files := d.files[ino := File(d.files[ino].data + bytes, false)])
  }

  function FsyncFile(d: Disk, ino: Ino): Disk
    requires ino in d.files
  {
    d.(files := d.files[ino := d.files[ino].(synced := true)])
  }

  /** os.replace: atomic, no partial effect. */
  function Rename(d: Disk, from: Name, to: Name): Disk
    requires from in d.dir
  {
    WithDir(d, d.dir[to := d.dir[from]] - {from})
  }

  function Unlink(d: Disk, name: Name): Disk {
    WithDir(d, d.dir - {name})
  }

  function FsyncDirectory(d: Disk): Disk {
    d.(since := [d.dir])
  }

  // ---- sync_directory ----

  datatype DirectoryFault = NoFault | OpenDenied | OpenFails | FsyncInvalid | FsyncFails

  datatype SyncOutcome = Synced | Unsupported | SyncFailed

  /** What the two system calls of a directory sync amount to. */
  function OutcomeOf(windows: bool, fault: DirectoryFault): SyncOutcome {
    match fault
    case NoFault => Synced
    case OpenDenied => if windows then Unsupported else SyncFailed
    case FsyncInvalid => Unsupported
    case _ => SyncFailed
  }

  method SyncDirectory(d: Disk, windows: bool, fault: DirectoryFault) returns (d': Disk, r: SyncOutcome)
    ensures r == OutcomeOf(windows, fault) && (r == Synced <==> fault == NoFault)
    ensures r == Unsupported <==> (fault == OpenDenied && windows) || fault == FsyncInvalid
    ensures r == SyncFailed <==> fault == OpenFails || fault == FsyncFails || (fault == OpenDenied && !windows)
    ensures d' == if r == Synced then FsyncDirectory(d) else d
  {
    d' := d;
    match fault {
      case OpenDenied => r := if windows then Unsupported else SyncFailed;
      case OpenFails => r := SyncFailed;
      case FsyncInvalid => r := Unsupported;
      case FsyncFails => r := SyncFailed;
      case NoFault =>
        d' := FsyncDirectory(d);
        r := Synced;
    }
  }

  // ---- write_durable_bytes ----

  /** Which system calls fail, and how many bytes a failing write managed to write. */
  datatype Faults = Faults(
    mkdir: bool, open: bool, write: Option<nat>, fsync: bool, rename: bool, unlink: bool,
    directory: DirectoryFault)

  datatype WriteOutcome = MkdirFailed | FileWriteFailed | DirectorySyncFailed | Returned(synced: bool)

  /** A target whose crash images are all allowed contents, and a temporary name that does
      not lead to a file any crash image of the target could lead to. Every outcome of a
      durable write leaves the disk in such a state again. */
  ghost predicate Ready(d: Disk, path: Name, temporary: Name, allowed: set<Option<Content>>) {
    && Valid(d) && path != temporary && CrashIn(d, path, allowed)
    && (temporary in d.dir ==> Apart(d, path, d.dir[temporary]))
  }

  /** No crash image of the name leads to this file. */
  ghost predicate Apart(d: Disk, path: Name, ino: Ino) {
    forall h :: h in d.since && path in h ==> h[path] != ino
  }

  /** What is live is one of the crash images. */
  lemma LiveIsAllowed(d: Disk, path: Name, allowed: set<Option<Content>>)
    requires Valid(d) && CrashIn(d, path, allowed)
    ensures Live(d, path) in allowed
  {
    assert d.dir in d.since;
    assert ReadsAs(d, d.dir, path, Live(d, path));
    assert MayRead(d, path, Live(d, path));
  }

  /** The temporary's file can change in any way without touching the target. */
  lemma OtherFileChanges(d: Disk, d': Disk, path: Name, ino: Ino, allowed: set<Option<Content>>)
    requires Valid(d) && Apart(d, path, ino) && CrashIn(d, path, allowed)
    requires d' == d.(files := d'.files) && ino in d.files && d'.files.Keys == d.files.Keys
    requires forall i :: i in d.files && i != ino ==> d'.files[i] == d.files[i]
    ensures Valid(d') && Apart(d', path, ino) && CrashIn(d', path, allowed) && Live(d', path) == Live(d, path)
  {
    assert d.dir in d.since;
    forall c | MayRead(d', path, c) ensures c in allowed {
      var h :| h in d'.since && ReadsAs(d', h, path, c);
      assert ReadsAs(d, h, path, c);
      assert MayRead(d, path, c);
    }
  }

  /** A directory change that keeps the target's entry keeps what a crash can show of it. */
  lemma OtherEntryChanges(d: Disk, dir: map<Name, Ino>, path: Name, allowed: set<Option<Content>>)
    requires Valid(d) && CrashIn(d, path, allowed)
    requires path in dir <==> path in d.dir
    requires path in dir ==> dir[path] == d.dir[path]
    ensures CrashIn(WithDir(d, dir), path, allowed)
    ensures forall ino :: Apart(d, path, ino) ==> Apart(WithDir(d, dir), path, ino)
  {
    var d' := WithDir(d, dir);
    assert d.dir in d.since;
    forall c | MayRead(d', path, c) ensures c in allowed {
      var h :| h in d'.since && ReadsAs(d', h, path, c);
      assert ReadsAs(d, if h in d.since then h else d.dir, path, c);
      assert MayRead(d, path, c);
    }
  }

  /** A file nobody refers to yet. */
  lemma NewFileIsApart(d: Disk, path: Name, allowed: set<Option<Content>>)
    requires Valid(d) && CrashIn(d, path, allowed)
    ensures var made := d.(files := d.files[d.next := File([], false)], next := d.next + 1);
            Valid(made) && Apart(made, path, d.next) && CrashIn(made, path, allowed)
  {
    var made := d.(files := d.files[d.next := File([], false)], next := d.next + 1);
    forall c | MayRead(made, path, c) ensures c in allowed {
      var h :| h in made.since && ReadsAs(made, h, path, c);
      assert ReadsAs(d, h, path, c);
      assert MayRead(d, path, c);
    }
  }

  /** Opening the temporary truncates or creates a file apart from the target. */
  lemma OpenKeepsReady(d: Disk, path: Name, temporary: Name, allowed: set<Option<Content>>)
    requires Ready(d, path, temporary, allowed)
    ensures var d' := OpenForWrite(d, temporary);
            && Ready(d', path, temporary, allowed) && Live(d', path) == Live(d, path)
            && temporary in d'.dir && d'.files[d'.dir[temporary]] == File([], false)
  {
    if temporary in d.dir {
      OtherFileChanges(d, OpenForWrite(d, temporary), path, d.dir[temporary], allowed);
    } else {
      NewFileIsApart(d, path, allowed);
      var made := d.(files := d.files[d.next := File([], false)], next := d.next + 1);
      OtherEntryChanges(made, d.dir[temporary := d.next], path, allowed);
    }
  }

  /** Once the temporary is complete and synced, renaming it exposes an allowed content or the
      new one, never a mix; a directory sync then leaves only the new one. */
  lemma RenameIsAtomic(d: Disk, path: Name, temporary: Name, allowed: set<Option<Content>>, latest: Content)
    requires Ready(d, path, temporary, allowed) && temporary in d.dir
    requires d.files[d.dir[temporary]] == File(latest, true)
    ensures var d' := Rename(d, temporary, path);
            && Ready(d', path, temporary, allowed + {Some(latest)})
            && Live(d', path) == Some(latest) && temporary !in d'.dir
            && Ready(FsyncDirectory(d'), path, temporary, {Some(latest)})
  {
    var d' := Rename(d, temporary, path);
    forall c | MayRead(d', path, c) ensures c in allowed + {Some(latest)} {
      var h :| h in d'.since && ReadsAs(d', h, path, c);
      if h in d.since {
        assert ReadsAs(d, h, path, c);
        assert MayRead(d, path, c);
      }
    }
  }

  lemma MoreAllowed(d: Disk, path: Name, temporary: Name, allowed: set<Option<Content>>, more: set<Option<Content>>)
    requires Ready(d, path, temporary, allowed) && allowed <= more
    ensures Ready(d, path, temporary, more)
  {
  }

  /** One system call of a durable write, or none. */
  ghost predicate OneCall(d: Disk, d': Disk, path: Name, temporary: Name) {
    || d' == d || d' == OpenForWrite(d, temporary) || d' == Unlink(d, temporary) || d' == FsyncDirectory(d)
    || (temporary in d.dir && d' == Rename(d, temporary, path))
    || (temporary in d.dir && d.dir[temporary] in d.files && FileCall(d, d', d.dir[temporary]))
  }

  ghost predicate FileCall(d: Disk, d': Disk, ino: Ino)
    requires ino in d.files
  {
    d' == FsyncFile(d, ino) || exists bytes :: d' == Append(d, ino, bytes)
  }

  ghost function Calls(path: Name, temporary: Name): (Disk, Disk) -> bool {
    (d, d') => OneCall(d, d', path, temporary)
  }

  /** The trace leads from one disk to the other and skips no system call. */
  ghost predicate Leads(trace: seq<Disk>, d: Disk, d': Disk, path: Name, temporary: Name) {
    && |trace| > 0 && trace[0] == d && trace[|trace| - 1] == d'
    && Chain(trace, Calls(path, temporary))
  }

  lemma LeadsOn(first: seq<Disk>, second: seq<Disk>, d: Disk, d': Disk, e: Disk, e': Disk, path: Name, temporary: Name)
    requires Leads(first, d, d', path, temporary) && OneCall(d', e, path, temporary)
    requires Leads(second, e, e', path, temporary)
    ensures Leads(first + second, d, e', path, temporary)
  {
    ChainsJoin(first, second, Calls(path, temporary));
  }

  lemma LeadsFurther(trace: seq<Disk>, d: Disk, d': Disk, d'': Disk, path: Name, temporary: Name)
    requires Leads(trace, d, d', path, temporary) && OneCall(d', d'', path, temporary)
    ensures Leads(trace + [d''], d, d'', path, temporary)
  {
    LeadsOn(trace, [d''], d, d', d'', d'', path, temporary);
  }

  ghost predicate AllReady(trace: seq<Disk>, path: Name, temporary: Name, allowed: set<Option<Content>>) {
    forall k :: 0 <= k < |trace| ==> Ready(trace[k], path, temporary, allowed)
  }

  /** The faults under which a write returns True. */
  predicate Flawless(faults: Faults) {
    && !faults.mkdir && !faults.open && faults.write == None && !faults.fsync
    && !faults.rename && faults.directory == NoFault
  }

  predicate WriteFailed(r: WriteOutcome) {
    r == MkdirFailed || r == FileWriteFailed
  }

  /** What a crash may show after a write with this outcome. */
  function AllowedBy(allowed: set<Option<Content>>, data: Content, r: WriteOutcome): set<Option<Content>> {
    if r == Returned(true) then {Some(data)}
    else if WriteFailed(r) then allowed
    else allowed + {Some(data)}
  }

  /** The crash-safe write. `trace` holds the disk after every system call. */
  method WriteDurableBytes(d: Disk, path: Name, temporary: Name, data: Content, windows: bool, faults: Faults,
                           ghost allowed: set<Option<Content>>)
    returns (d': Disk, r: WriteOutcome, ghost trace: seq<Disk>)
    requires Ready(d, path, temporary, allowed)
    // A crash after any step shows a complete content: one that was allowed before, or the
    // new one; and a write interrupted after any step can be followed by another.
    ensures Leads(trace, d, d', path, temporary) && AllReady(trace, path, temporary, allowed + {Some(data)})
    // The outcome narrows what a crash may show.
    ensures Ready(d', path, temporary, AllowedBy(allowed, data, r))
    ensures r == Returned(true) ==> CrashIn(d', path, {Some(data)})
    ensures r == MkdirFailed || r == FileWriteFailed ==> CrashIn(d', path, allowed)
    // A failed write leaves the old content live; every other outcome the new one.
    ensures Live(d', path) == if WriteFailed(r) then Live(d, path) else Some(data)
    ensures !WriteFailed(r) ==> temporary !in d'.dir
    ensures r == FileWriteFailed && !faults.unlink ==> temporary !in d'.dir
    // The faults decide the outcome.
    ensures r == MkdirFailed <==> faults.mkdir
    ensures r == FileWriteFailed <==>
              !faults.mkdir && (faults.open || faults.write.Some? || faults.fsync || faults.rename)
    ensures r == DirectorySyncFailed <==>
              && !faults.mkdir && !faults.open && faults.write.None? && !faults.fsync && !faults.rename
              && (faults.directory == OpenFails || faults.directory == FsyncFails ||
                  (faults.directory == OpenDenied && !windows))
    ensures r == Returned(false) <==>
              && !faults.mkdir && !faults.open && faults.write.None? && !faults.fsync && !faults.rename
              && (faults.directory == FsyncInvalid || (faults.directory == OpenDenied && windows))
    ensures r == Returned(true) <==> Flawless(faults)
  {
    d', trace := d, [d];
    MoreAllowed(d, path, temporary, allowed, allowed + {Some(data)});
    if faults.mkdir {
      return d, MkdirFailed, trace;
    }
    if faults.open {
      d', trace := AbandonTemporary(d, path, temporary, faults.unlink, allowed, data, d, trace);
      return d', FileWriteFailed, trace;
    }
    var bytes := if faults.write.Some? && faults.write.value < |data| then data[..faults.write.value] else data;
    d', trace := FillTemporary(d, path, temporary, bytes, allowed, data, trace);
    if faults.write.Some? || faults.fsync {
      d', trace := AbandonTemporary(d', path, temporary, faults.unlink, allowed, data, d, trace);
      return d', FileWriteFailed, trace;
    }
    d', r, trace := CommitTemporary(d', path, temporary, data, windows, faults, allowed, d, trace);
  }

  /** Open the temporary and write bytes to it. */
  method FillTemporary(d: Disk, path: Name, temporary: Name, bytes: Content,
                       ghost allowed: set<Option<Content>>, ghost latest: Content, ghost before: seq<Disk>)
    returns (d': Disk, ghost trace: seq<Disk>)
    requires Ready(d, path, temporary, allowed)
    requires Leads(before, d, d, path, temporary) && AllReady(before, path, temporary, allowed + {Some(latest)})
    ensures Ready(d', path, temporary, allowed) && Live(d', path) == Live(d, path)
    ensures temporary in d'.dir && d'.files[d'.dir[temporary]] == File(bytes, false)
    ensures Leads(trace, d, d', path, temporary) && AllReady(trace, path, temporary, allowed + {Some(latest)})
  {
    OpenKeepsReady(d, path, temporary, allowed);
    d' := OpenForWrite(d, temporary);
    ghost var created := d';
    MoreAllowed(d', path, temporary, allowed, allowed + {Some(latest)});
    LeadsFurther(before, d, d, d', path, temporary);
    trace := before + [d'];
    var ino := d'.dir[temporary];
    d' := Append(d', ino, bytes);
    OtherFileChanges(created, d', path, ino, allowed);
    MoreAllowed(d', path, temporary, allowed, allowed + {Some(latest)});
    LeadsFurther(trace, d, created, d', path, temporary);
    trace := trace + [d'];
  }

  /** From the fsync of the complete temporary on. */
  method CommitTemporary(d: Disk, path: Name, temporary: Name, data: Content, windows: bool, faults: Faults,
                         ghost allowed: set<Option<Content>>, ghost first: Disk, ghost before: seq<Disk>)
    returns (d': Disk, r: WriteOutcome, ghost trace: seq<Disk>)
    requires Ready(d, path, temporary, allowed) && temporary in d.dir
    requires d.files[d.dir[temporary]].data == data
    requires Leads(before, first, d, path, temporary) && AllReady(before, path, temporary, allowed + {Some(data)})
    ensures Leads(trace, first, d', path, temporary) && AllReady(trace, path, temporary, allowed + {Some(data)})
    ensures Ready(d', path, temporary, AllowedBy(allowed, data, r))
    ensures Live(d', path) == if WriteFailed(r) then Live(d, path) else Some(data)
    ensures !WriteFailed(r) ==> temporary !in d'.dir
    ensures r == FileWriteFailed && !faults.unlink ==> temporary !in d'.dir
    ensures r != MkdirFailed && (r == FileWriteFailed <==> faults.rename)
    ensures r == Returned(true) <==> !faults.rename && faults.directory == NoFault
    ensures r == Returned(false) <==>
              !faults.rename && (faults.directory == FsyncInvalid || (faults.directory == OpenDenied && windows))
  {
    var ino := d.dir[temporary];
    d' := FsyncFile(d, ino);
    OtherFileChanges(d, d', path, ino, allowed);
    MoreAllowed(d', path, temporary, allowed, allowed + {Some(data)});
    LeadsFurther(before, first, d, d', path, temporary);
    trace := before + [d'];
    if faults.rename {
      d', trace := AbandonTemporary(d', path, temporary, faults.unlink, allowed, data, first, trace);
      return d', FileWriteFailed, trace;
    }
    d', r, trace := ReplaceTarget(d', path, temporary, data, windows, faults.directory, allowed, first, trace);
  }

  /** Rename the synced temporary over the target and sync the directory. */
  method ReplaceTarget(d: Disk, path: Name, temporary: Name, data: Content, windows: bool, fault: DirectoryFault,
                       ghost allowed: set<Option<Content>>, ghost first: Disk, ghost before: seq<Disk>)
    returns (d': Disk, r: WriteOutcome, ghost trace: seq<Disk>)
    requires Ready(d, path, temporary, allowed) && temporary in d.dir
    requires d.files[d.dir[temporary]] == File(data, true)
    requires Leads(before, first, d, path, temporary) && AllReady(before, path, temporary, allowed + {Some(data)})
    ensures Leads(trace, first, d', path, temporary) && AllReady(trace, path, temporary, allowed + {Some(data)})
    ensures Ready(d', path, temporary, AllowedBy(allowed, data, r))
    ensures Live(d', path) == Some(data) && temporary !in d'.dir && !WriteFailed(r)
    ensures r == Returned(true) <==> fault == NoFault
    ensures r == Returned(false) <==> fault == FsyncInvalid || (fault == OpenDenied && windows)
  {
    RenameIsAtomic(d, path, temporary, allowed, data);
    d' := Rename(d, temporary, path);
    MoreAllowed(FsyncDirectory(d'), path, temporary, {Some(data)}, allowed + {Some(data)});
    LeadsFurther(before, first, d, d', path, temporary);
    trace := before + [d'];
    ghost var moved := d';
    var outcome;
    d', outcome := SyncDirectory(d', windows, fault);
    LeadsFurther(trace, first, moved, d', path, temporary);
    trace := trace + [d'];
    match outcome {
      case Synced => r := Returned(true);
      case Unsupported => r := Returned(false);
      case SyncFailed => r := DirectorySyncFailed;
    }
  }

  /** Best-effort removal of the temporary after a failed attempt. */
  method AbandonTemporary(d: Disk, path: Name, temporary: Name, unlinkFails: bool,
                          ghost allowed: set<Option<Content>>, ghost latest: Content,
                          ghost first: Disk, ghost trace: seq<Disk>)
    returns (d': Disk, ghost trace': seq<Disk>)
    requires Ready(d, path, temporary, allowed)
    requires Leads(trace, first, d, path, temporary) && AllReady(trace, path, temporary, allowed + {Some(latest)})
    ensures Ready(d', path, temporary, allowed) && Live(d', path) == Live(d, path)
    ensures Leads(trace', first, d', path, temporary) && AllReady(trace', path, temporary, allowed + {Some(latest)})
    ensures !unlinkFails ==> temporary !in d'.dir
  {
    d' := d;
    if !unlinkFails && temporary in d.dir {
      OtherEntryChanges(d, d.dir - {temporary}, path, allowed);
      d' := Unlink(d, temporary);
    }
    MoreAllowed(d', path, temporary, allowed, allowed + {Some(latest)});
    LeadsFurther(trace, first, d, d', path, temporary);
    trace' := trace + [d'];
  }

  /** The old-or-new statement: with one durable content before, a crash after any step shows
      the complete old or the complete new content. */
  lemma OldOrNewAt(trace: seq<Disk>, path: Name, temporary: Name, previous: Option<Content>, data: Content, k: nat)
    requires AllReady(trace, path, temporary, {previous} + {Some(data)}) && k < |trace|
    ensures OldOrNew(trace[k], path, previous, data)
  {
    assert Ready(trace[k], path, temporary, {previous} + {Some(data)});
  }

  // ---- any sequence of writes ----

  datatype Write = Write(data: Content, faults: Faults)

  /** What a crash may show, and what is live, after a sequence of writes and outcomes. */
  function AllowedAfter(allowed: set<Option<Content>>, writes: seq<Write>, outcomes: seq<WriteOutcome>)
    : set<Option<Content>>
    requires |writes| == |outcomes|
  {
    if writes == [] then allowed else
    var n := |writes| - 1;
    AllowedBy(AllowedAfter(allowed, writes[..n], outcomes[..n]), writes[n].data, outcomes[n])
  }

  function LiveAfter(live: Option<Content>, writes: seq<Write>, outcomes: seq<WriteOutcome>): Option<Content>
    requires |writes| == |outcomes|
  {
    if writes == [] then live else
    var n := |writes| - 1;
    if WriteFailed(outcomes[n]) then LiveAfter(live, writes[..n], outcomes[..n]) else Some(writes[n].data)
  }

  /** The contents ever written. */
  function Contents(writes: seq<Write>): set<Option<Content>> {
    set i | 0 <= i < |writes| :: Some(writes[i].data)
  }

  lemma {:induction false} AllowedIsKnown(allowed: set<Option<Content>>, writes: seq<Write>,
                                          outcomes: seq<WriteOutcome>)
    requires |writes| == |outcomes|
    ensures AllowedAfter(allowed, writes, outcomes) <= allowed + Contents(writes)
  {
    if writes != [] {
      var n := |writes| - 1;
      AllowedIsKnown(allowed, writes[..n], outcomes[..n]);
      assert Some(writes[n].data) in Contents(writes);
      assert Contents(writes[..n]) <= Contents(writes);
    }
  }

  /** A write that returned True leaves no older content possible: only its own and those of
      later writes. */
  lemma {:induction false} TrueForgetsEarlier(allowed: set<Option<Content>>, writes: seq<Write>,
                                              outcomes: seq<WriteOutcome>, i: nat)
    requires |writes| == |outcomes| && i < |writes| && outcomes[i] == Returned(true)
    ensures AllowedAfter(allowed, writes, outcomes) <= {Some(writes[i].data)} + Contents(writes[i + 1..])
  {
    var n := |writes| - 1;
    if i < n {
      TrueForgetsEarlier(allowed, writes[..n], outcomes[..n], i);
      assert writes[i + 1..] == writes[..n][i + 1..] + [writes[n]];
      assert writes[i + 1..][n - i - 1] == writes[n];
      assert Some(writes[n].data) in Contents(writes[i + 1..]);
      assert Contents(writes[..n][i + 1..]) <= Contents(writes[i + 1..]);
    }
  }

  lemma TrueForgets(d: Disk, path: Name, allowed: set<Option<Content>>, writes: seq<Write>,
                    outcomes: seq<WriteOutcome>)
    requires |writes| == |outcomes| && CrashIn(d, path, AllowedAfter(allowed, writes, outcomes))
    ensures forall i :: 0 <= i < |writes| && outcomes[i] == Returned(true) ==>
              CrashIn(d, path, {Some(writes[i].data)} + Contents(writes[i + 1..]))
  {
    forall i | 0 <= i < |writes| && outcomes[i] == Returned(true)
      ensures CrashIn(d, path, {Some(writes[i].data)} + Contents(writes[i + 1..]))
    {
      TrueForgetsEarlier(allowed, writes, outcomes, i);
    }
  }

  lemma ReadyForAll(trace: seq<Disk>, path: Name, temporary: Name, some: set<Option<Content>>,
                    all: set<Option<Content>>)
    requires AllReady(trace, path, temporary, some) && some <= all
    ensures AllReady(trace, path, temporary, all)
  {
    forall k | 0 <= k < |trace| ensures Ready(trace[k], path, temporary, all) {
      MoreAllowed(trace[k], path, temporary, some, all);
    }
  }

  lemma StepsReady(steps: seq<Disk>, path: Name, temporary: Name, allowed: set<Option<Content>>, writes: seq<Write>,
                   outcomes: seq<WriteOutcome>, i: nat)
    requires i < |writes| && |outcomes| == i
    requires AllReady(steps, path, temporary, AllowedAfter(allowed, writes[..i], outcomes) + {Some(writes[i].data)})
    ensures AllReady(steps, path, temporary, allowed + Contents(writes))
  {
    var now := AllowedAfter(allowed, writes[..i], outcomes);
    AllowedIsKnown(allowed, writes[..i], outcomes);
    assert Contents(writes[..i]) <= Contents(writes) && Some(writes[i].data) in Contents(writes);
    ReadyForAll(steps, path, temporary, now + {Some(writes[i].data)}, allowed + Contents(writes));
  }

  /** The outcome of a write is a function of its faults. */
  predicate DecidedBy(r: WriteOutcome, faults: Faults, windows: bool) {
    var stored := !faults.open && faults.write.None? && !faults.fsync && !faults.rename;
    if faults.mkdir then r == MkdirFailed
    else if !stored then r == FileWriteFailed
    else match faults.directory
      case NoFault => r == Returned(true)
      case FsyncInvalid => r == Returned(false)
      case OpenDenied => r == if windows then Returned(false) else DirectorySyncFailed
      case OpenFails => r == DirectorySyncFailed
      case FsyncFails => r == DirectorySyncFailed
  }

  /** Any number of durable writes to one target, under any faults: a crash at any point shows
      a complete content, the outcomes tell which ones remain possible, and after a write that
      returned True only its own content is. */
  method WriteAll(d: Disk, path: Name, temporary: Name, writes: seq<Write>, windows: bool,
                  ghost allowed: set<Option<Content>>)
    returns (d': Disk, outcomes: seq<WriteOutcome>, ghost trace: seq<Disk>)
    requires Ready(d, path, temporary, allowed)
    ensures |outcomes| == |writes| && Leads(trace, d, d', path, temporary)
    ensures AllReady(trace, path, temporary, allowed + Contents(writes))
    ensures forall i :: 0 <= i < |writes| && outcomes[i] == Returned(true) ==>
              CrashIn(d', path, {Some(writes[i].data)} + Contents(writes[i + 1..]))
    ensures Ready(d', path, temporary, AllowedAfter(allowed, writes, outcomes))
    ensures Live(d', path) == LiveAfter(Live(d, path), writes, outcomes)
    ensures Live(d', path) in AllowedAfter(allowed, writes, outcomes)
    ensures forall i :: 0 <= i < |writes| ==> DecidedBy(outcomes[i], writes[i].faults, windows)
  {
    d', outcomes, trace := d, [], [d];
    MoreAllowed(d, path, temporary, allowed, allowed + Contents(writes));
    for i := 0 to |writes|
      invariant |outcomes| == i && Leads(trace, d, d', path, temporary) && Valid(d')
      invariant AllReady(trace, path, temporary, allowed + Contents(writes))
      invariant Ready(d', path, temporary, AllowedAfter(allowed, writes[..i], outcomes))
      invariant Live(d', path) == LiveAfter(Live(d, path), writes[..i], outcomes)
      invariant forall k :: 0 <= k < i ==> DecidedBy(outcomes[k], writes[k].faults, windows)
    {
      ghost var now := AllowedAfter(allowed, writes[..i], outcomes);
      var r;
      ghost var steps;
      ghost var start := d';
      d', r, steps := WriteDurableBytes(d', path, temporary, writes[i].data, windows, writes[i].faults, now);
      StepsReady(steps, path, temporary, allowed, writes, outcomes, i);
      assert writes[..i + 1][..i] == writes[..i] && (outcomes + [r])[..i] == outcomes;
      outcomes := outcomes + [r];
      LeadsOn(trace, steps, d, start, start, d', path, temporary);
      trace := trace + steps;
    }
    assert writes[..|writes|] == writes;
    LiveIsAllowed(d', path, AllowedAfter(allowed, writes, outcomes));
    TrueForgets(d', path, allowed, writes, outcomes);
  }
}
