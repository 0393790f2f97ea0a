/** Publishing a synced tree under crashes: sync the staged tree, move it to its destination in
    another directory, sync that directory (durability.py, atomic_replace and fsync_tree;
    engine/publication.py, promote). */
module TreePublication {
  import opened Wrappers
  import opened Durability
  import opened TreeDurability
  import opened Publication

  // ---- moving an entry between directories ----

  function WithEntries(dir: Directory, entries: Entries): Directory {
    Directory(entries, dir.since + [entries])
  }

  /** os.replace between two directories: atomic while the system runs; after a crash each
      directory may show either state. */
  function Move(d: TreeDisk, fromDir: Dno, from: Name, toDir: Dno, to: Name): TreeDisk
    requires fromDir in d.dirs && toDir in d.dirs && fromDir != toDir && from in d.dirs[fromDir].live
  {
    var source, target := d.dirs[fromDir], d.dirs[toDir];
    d.(dirs := d.dirs[toDir := WithEntries(target, target.live[to := source.live[from]])]
                     [fromDir := WithEntries(source, source.live - {from})])
  }

  lemma MoveIsValid(d: TreeDisk, fromDir: Dno, from: Name, toDir: Dno, to: Name)
    requires ValidTree(d) && fromDir in d.dirs && toDir in d.dirs && fromDir != toDir && from in d.dirs[fromDir].live
    ensures ValidTree(Move(d, fromDir, from, toDir, to))
  {
    var d' := Move(d, fromDir, from, toDir, to);
    assert WellFormed(d, d.dirs[fromDir].live) && WellFormed(d, d.dirs[toDir].live);
    forall dno | dno in d'.dirs
      ensures d'.dirs[dno].live in d'.dirs[dno].since
      ensures forall h :: h in d'.dirs[dno].since ==> WellFormed(d', h)
    {
      forall h | h in d'.dirs[dno].since ensures WellFormed(d', h) {
        assert h in d.dirs[dno].since ==> WellFormed(d, h);
      }
    }
  }

  datatype ReplaceOutcome = RenameFailed | PostRenameFailed | Replaced(synced: bool)

  /** `atomic_replace`: the post-rename error is raised exactly when the rename happened and
      the directory sync failed; a failed rename leaves the disk alone. */
  method AtomicReplace(d: TreeDisk, fromDir: Dno, from: Name, toDir: Dno, to: Name, renameFails: bool, windows: bool,
                       fault: DirectoryFault)
    returns (d': TreeDisk, r: ReplaceOutcome, ghost steps: seq<TreeDisk>)
    requires ValidTree(d) && fromDir in d.dirs && toDir in d.dirs && fromDir != toDir && from in d.dirs[fromDir].live
    ensures r == RenameFailed <==> renameFails
    ensures r == PostRenameFailed <==>
              !renameFails && (fault == OpenFails || fault == FsyncFails || (fault == OpenDenied && !windows))
    ensures r == Replaced(false) <==>
              !renameFails && (fault == FsyncInvalid || (fault == OpenDenied && windows))
    ensures r == Replaced(true) <==> !renameFails && fault == NoFault
    ensures r == RenameFailed ==> d' == d && steps == []
    ensures r != RenameFailed ==>
              var moved := Move(d, fromDir, from, toDir, to);
              d' == (if r == Replaced(true) then SyncDir(moved, toDir) else moved) && steps == [moved, d']
    ensures ValidTree(d')
  {
    if renameFails {
      return d, RenameFailed, [];
    }
    MoveIsValid(d, fromDir, from, toDir, to);
    var moved := Move(d, fromDir, from, toDir, to);
    match OutcomeOf(windows, fault) {
      case Synced =>
        d', r := SyncDir(moved, toDir), Replaced(true);
      case Unsupported => d', r := moved, Replaced(false);
      case SyncFailed => d', r := moved, PostRenameFailed;
    }
    steps := [moved, d'];
  }

  // ---- what a crash may show of the destination ----

  ghost predicate AbsentIn(d: TreeDisk, parent: Dno, dest: Name) {
    parent in d.dirs && forall h :: h in d.dirs[parent].since ==> dest !in h
  }

  /** In every crash image the destination is absent or is the moved tree. */
  ghost predicate AbsentOrMoved(d: TreeDisk, parent: Dno, dest: Name, root: Dno) {
    parent in d.dirs && forall h :: h in d.dirs[parent].since ==> dest !in h || h[dest] == DirNode(root)
  }

  /** Every crash shows the tree below `root` as it was in `origin`. */
  ghost predicate Intact(d: TreeDisk, root: Dno, origin: TreeDisk) {
    forall path: seq<Name>, c :: MayReadAt(d, root, path, c) ==> c == LiveAt(origin, root, path)
  }

  /** After a crash the destination is absent or the complete tree. */
  ghost predicate AbsentOrComplete(d: TreeDisk, parent: Dno, dest: Name, root: Dno, origin: TreeDisk) {
    AbsentIn(d, parent, dest) || (AbsentOrMoved(d, parent, dest, root) && Intact(d, root, origin))
  }

  ghost predicate AllAbsentOrComplete(steps: seq<TreeDisk>, parent: Dno, dest: Name, root: Dno, origin: TreeDisk) {
    forall k :: 0 <= k < |steps| ==> AbsentOrComplete(steps[k], parent, dest, root, origin)
  }

  /** Syncing below does not make the destination appear. */
  lemma KeepsAbsent(d: TreeDisk, d': TreeDisk, parent: Dno, dest: Name)
    requires ValidTree(d) && Keeps(d, d') && AbsentIn(d, parent, dest)
    ensures AbsentIn(d', parent, dest)
  {
  }

  /** The walked directories are the same on both disks. */
  ghost predicate SameBelow(d: TreeDisk, d': TreeDisk, walk: seq<Visit>) {
    && d'.files == d.files && d'.dirs.Keys == d.dirs.Keys
    && forall i :: 0 <= i < |walk| ==> walk[i].dno in d.dirs && d'.dirs[walk[i].dno] == d.dirs[walk[i].dno]
  }

  lemma SameBelowWalks(d: TreeDisk, d': TreeDisk, root: Dno, walk: seq<Visit>)
    requires SameBelow(d, d', walk) && Walks(d, root, walk)
    ensures Walks(d', root, walk)
    ensures AllFilesSynced(d, walk) ==> AllFilesSynced(d', walk)
    ensures AllDirsSynced(d, walk) ==> AllDirsSynced(d', walk)
  {
    forall i | 0 <= i < |walk| ensures VisitOk(d', walk[i]) {
      assert VisitOk(d, walk[i]);
    }
    forall i, name | 0 <= i < |walk| && IsChildDir(d', walk[i].dno, name)
      ensures Visited(walk, d'.dirs[walk[i].dno].live[name].dno)
    {
      assert IsChildDir(d, walk[i].dno, name);
    }
    if AllFilesSynced(d, walk) {
      forall i | 0 <= i < |walk| ensures FilesSynced(d', walk[i]) {
        assert FilesSynced(d, walk[i]);
      }
    }
    if AllDirsSynced(d, walk) {
      forall i | 0 <= i < |walk| ensures DirSynced(d', walk[i].dno) {
        assert DirSynced(d, walk[i].dno);
      }
    }
  }

  lemma {:induction false} SameBelowLive(d: TreeDisk, d': TreeDisk, root: Dno, walk: seq<Visit>, dno: Dno,
                                         path: seq<Name>)
    requires SameBelow(d, d', walk) && Walks(d, root, walk) && Visited(walk, dno)
    ensures LiveAt(d', dno, path) == LiveAt(d, dno, path)
    decreases |path|
  {
    var i :| 0 <= i < |walk| && walk[i].dno == dno;
    if path != [] && IsChildDir(d, dno, path[0]) {
      assert IsChildDir(d, walk[i].dno, path[0]);
      SameBelowLive(d, d', root, walk, d.dirs[dno].live[path[0]].dno, path[1..]);
    }
  }

  /** A synced tree stays intact while directories above it change. */
  lemma StaysIntact(d: TreeDisk, d': TreeDisk, root: Dno, topDown: seq<Visit>, bottomUp: seq<Visit>, origin: TreeDisk)
    requires ValidTree(d') && Walks(d, root, topDown) && Walks(d, root, bottomUp)
    requires SameBelow(d, d', topDown) && SameBelow(d, d', bottomUp)
    requires AllFilesSynced(d, topDown) && AllDirsSynced(d, bottomUp)
    requires forall path: seq<Name> :: LiveAt(d, root, path) == LiveAt(origin, root, path)
    ensures Intact(d', root, origin)
  {
    SameBelowWalks(d, d', root, topDown);
    SameBelowWalks(d, d', root, bottomUp);
    TreeIsDurable(d', root, topDown, bottomUp);
    forall path: seq<Name>, c | MayReadAt(d', root, path, c) ensures c == LiveAt(origin, root, path) {
      SameBelowLive(d, d', root, topDown, root, path);
    }
  }

  ghost predicate Outside(walk: seq<Visit>, dno: Dno) {
    forall i :: 0 <= i < |walk| ==> walk[i].dno != dno
  }

  lemma MovedIsAbove(d: TreeDisk, fromDir: Dno, from: Name, toDir: Dno, to: Name, root: Dno, walk: seq<Visit>)
    requires fromDir in d.dirs && toDir in d.dirs && fromDir != toDir && from in d.dirs[fromDir].live
    requires Walks(d, root, walk) && Outside(walk, fromDir) && Outside(walk, toDir)
    ensures SameBelow(d, Move(d, fromDir, from, toDir, to), walk)
    ensures SameBelow(d, SyncDir(Move(d, fromDir, from, toDir, to), toDir), walk)
  {
    forall i | 0 <= i < |walk| ensures walk[i].dno in d.dirs {
      assert VisitOk(d, walk[i]);
    }
  }

  lemma MovedShowsRoot(d: TreeDisk, fromDir: Dno, from: Name, toDir: Dno, to: Name, root: Dno)
    requires ValidTree(d) && fromDir in d.dirs && toDir in d.dirs && fromDir != toDir
    requires from in d.dirs[fromDir].live && d.dirs[fromDir].live[from] == DirNode(root) && AbsentIn(d, toDir, to)
    ensures var moved := Move(d, fromDir, from, toDir, to);
            && AbsentOrMoved(moved, toDir, to, root) && AbsentOrMoved(SyncDir(moved, toDir), toDir, to, root)
            && moved.dirs[toDir].live[to] == DirNode(root)
  {
  }

  // ---- publishing ----

  datatype PublishOutcome = NotSynced(tree: TreeOutcome) | Placed(replace: ReplaceOutcome)

  /** Where the staged tree lies and where it is to go: two directories outside the tree. */
  ghost predicate Placement(d: TreeDisk, staging: Dno, from: Name, parent: Dno, dest: Name, root: Dno,
                            topDown: seq<Visit>, bottomUp: seq<Visit>)
  {
    && ValidTree(d) && Walks(d, root, topDown) && Walks(d, root, bottomUp)
    && staging in d.dirs && staging != parent
    && from in d.dirs[staging].live && d.dirs[staging].live[from] == DirNode(root)
    && AbsentIn(d, parent, dest)
    && Outside(topDown, staging) && Outside(topDown, parent)
    && Outside(bottomUp, staging) && Outside(bottomUp, parent)
  }

  /** A staged tree that is synced and reads as in `origin`. */
  ghost predicate Prepared(ready: TreeDisk, origin: TreeDisk, staging: Dno, from: Name, parent: Dno, dest: Name,
                           root: Dno, topDown: seq<Visit>, bottomUp: seq<Visit>)
  {
    && Placement(ready, staging, from, parent, dest, root, topDown, bottomUp) && AllFilesSynced(ready, topDown)
    && forall path: seq<Name> :: LiveAt(ready, root, path) == LiveAt(origin, root, path)
  }

  /** The destination is live, and holds the tree as in `origin`. */
  ghost predicate HoldsTree(d: TreeDisk, parent: Dno, dest: Name, root: Dno, origin: TreeDisk) {
    && parent in d.dirs && dest in d.dirs[parent].live && d.dirs[parent].live[dest] == DirNode(root)
    && forall path: seq<Name> :: LiveAt(d, root, path) == LiveAt(origin, root, path)
  }

  /** The steps of a placement: nothing if the rename fails, else the move and what the sync
      of the destination's directory leaves. */
  ghost predicate PlacedBy(ready: TreeDisk, steps: seq<TreeDisk>, d': TreeDisk, staging: Dno, from: Name,
                           parent: Dno, dest: Name, renameFails: bool)
    requires staging in ready.dirs && parent in ready.dirs && staging != parent && from in ready.dirs[staging].live
  {
    if renameFails then steps == [] && d' == ready
    else steps == [Move(ready, staging, from, parent, dest), d'] && SyncCall(steps[0], d')
  }

  /** Move a prepared tree to its destination and sync the destination's directory. `durable`
      says that the directories of the tree are synced too. */
  method PlaceTree(ready: TreeDisk, staging: Dno, from: Name, parent: Dno, dest: Name, root: Dno,
                   ghost topDown: seq<Visit>, ghost bottomUp: seq<Visit>, renameFails: bool, windows: bool,
                   fault: DirectoryFault, ghost origin: TreeDisk, ghost durable: bool)
    returns (d': TreeDisk, r: ReplaceOutcome, ghost steps: seq<TreeDisk>)
    requires Prepared(ready, origin, staging, from, parent, dest, root, topDown, bottomUp)
    requires durable ==> AllDirsSynced(ready, bottomUp)
    ensures r == RenameFailed <==> renameFails
    ensures r == PostRenameFailed <==>
              !renameFails && (fault == OpenFails || fault == FsyncFails || (fault == OpenDenied && !windows))
    ensures r == Replaced(true) <==> !renameFails && fault == NoFault
    ensures PlacedBy(ready, steps, d', staging, from, parent, dest, renameFails)
    ensures r == RenameFailed ==> AbsentIn(d', parent, dest)
    ensures r != RenameFailed ==> HoldsTree(d', parent, dest, root, origin)
    ensures forall k :: 0 <= k < |steps| ==> AbsentOrMoved(steps[k], parent, dest, root)
    ensures durable ==> AllAbsentOrComplete(steps, parent, dest, root, origin)
    ensures durable && r == Replaced(true) ==> DirSynced(d', parent) && Intact(d', root, origin)
  {
    d', r, steps := AtomicReplace(ready, staging, from, parent, dest, renameFails, windows, fault);
    if r != RenameFailed {
      MovedHolds(ready, origin, staging, from, parent, dest, root, topDown, bottomUp);
      if durable {
        MovedIsComplete(ready, origin, staging, from, parent, dest, root, topDown, bottomUp);
      }
      TwoSteps(Move(ready, staging, from, parent, dest), d', parent, dest, root, origin);
    }
  }

  lemma TwoSteps(a: TreeDisk, b: TreeDisk, parent: Dno, dest: Name, root: Dno, origin: TreeDisk)
    requires AbsentOrMoved(a, parent, dest, root) && AbsentOrMoved(b, parent, dest, root)
    ensures forall k :: 0 <= k < |[a, b]| ==> AbsentOrMoved([a, b][k], parent, dest, root)
    ensures Intact(a, root, origin) && Intact(b, root, origin) ==>
              AllAbsentOrComplete([a, b], parent, dest, root, origin)
  {
  }

  /** After the move, synced or not, the destination holds the tree. */
  lemma MovedHolds(ready: TreeDisk, origin: TreeDisk, staging: Dno, from: Name, parent: Dno, dest: Name, root: Dno,
                   topDown: seq<Visit>, bottomUp: seq<Visit>)
    requires Prepared(ready, origin, staging, from, parent, dest, root, topDown, bottomUp)
    ensures var moved := Move(ready, staging, from, parent, dest);
            && HoldsTree(moved, parent, dest, root, origin) && AbsentOrMoved(moved, parent, dest, root)
            && HoldsTree(SyncDir(moved, parent), parent, dest, root, origin)
            && AbsentOrMoved(SyncDir(moved, parent), parent, dest, root)
  {
    var moved := Move(ready, staging, from, parent, dest);
    MovedShowsRoot(ready, staging, from, parent, dest, root);
    MovedIsAbove(ready, staging, from, parent, dest, root, topDown);
    LiveBelow(ready, moved, origin, root, topDown);
    LiveBelow(ready, SyncDir(moved, parent), origin, root, topDown);
  }

  ghost predicate PlacedFrom(ready: TreeDisk, steps: seq<TreeDisk>, d': TreeDisk, staging: Dno, from: Name,
                             parent: Dno, dest: Name, renameFails: bool)
  {
    && staging in ready.dirs && parent in ready.dirs && staging != parent && from in ready.dirs[staging].live
    && PlacedBy(ready, steps, d', staging, from, parent, dest, renameFails)
  }

  /** Sync the staged tree, move it to an absent destination, sync the destination's directory.
      `steps` holds the disk after every step. */
  method PublishTree(d: TreeDisk, staging: Dno, from: Name, parent: Dno, dest: Name, root: Dno,
                     topDown: seq<Visit>, bottomUp: seq<Visit>, faults: TreeFaults,
                     renameFails: bool, fault: DirectoryFault)
    returns (d': TreeDisk, r: PublishOutcome, ghost steps: seq<TreeDisk>, ghost syncing: seq<TreeDisk>,
             ghost ready: TreeDisk)
    requires Placement(d, staging, from, parent, dest, root, topDown, bottomUp)
    // The tree is placed exactly when its sync succeeds, then the faults decide the outcome;
    // `steps` skips no call.
    ensures r.Placed? <==>
              && !AnyFileFails(topDown, faults) && !AnyDirectoryFails(root, bottomUp, faults)
              && !CancelsWithin(faults, 0, FileCount(topDown) + |bottomUp| + 1)
    ensures r.Placed? ==> (r.replace == RenameFailed <==> renameFails)
    ensures r.Placed? ==> (r.replace == Replaced(true) <==> !renameFails && fault == NoFault)
    ensures SyncsTo(d, syncing, ready) && syncing <= steps
    ensures if r.Placed? then PlacedFrom(ready, steps[|syncing|..], d', staging, from, parent, dest, renameFails)
            else steps == syncing && d' == ready
    // Where directories can be synced, a crash after any step shows the destination as absent
    // or as the complete tree.
    ensures Clean(faults) ==> AllAbsentOrComplete(steps, parent, dest, root, d)
    // Without directory syncs it is still absent or the moved tree, never anything else.
    ensures forall k :: 0 <= k < |steps| ==> AbsentOrMoved(steps[k], parent, dest, root)
    // The destination is live exactly when the rename happened, and holds the staged tree.
    ensures r.Placed? && r.replace != RenameFailed ==> HoldsTree(d', parent, dest, root, d)
    ensures r.NotSynced? || r.replace == RenameFailed ==> AbsentIn(d', parent, dest)
    // After a completed directory sync every crash shows the complete tree.
    ensures r == Placed(Replaced(true)) && Clean(faults) ==> DirSynced(d', parent) && Intact(d', root, d)
  {
    var synced;
    d', synced, steps := FsyncTree(d, root, topDown, bottomUp, faults);
    ready, syncing := d', steps;
    SyncStepsAbsent(d, steps, parent, dest, root);
    KeepsAbsent(d, d', parent, dest);
    if !synced.TreeSynced? {
      r := NotSynced(synced);
      return;
    }
    SyncedIsPrepared(d, ready, staging, from, parent, dest, root, topDown, bottomUp);
    var replaced;
    ghost var more;
    d', replaced, more := PlaceTree(d', staging, from, parent, dest, root, topDown, bottomUp, renameFails,
                                    faults.windows, fault, d, Clean(faults));
    r := Placed(replaced);
    StepsJoin(steps, more, parent, dest, root, d);
    steps := steps + more;
    assert steps[|syncing|..] == more;
  }

  lemma SyncedIsPrepared(d: TreeDisk, ready: TreeDisk, staging: Dno, from: Name, parent: Dno, dest: Name, root: Dno,
                         topDown: seq<Visit>, bottomUp: seq<Visit>)
    requires Placement(d, staging, from, parent, dest, root, topDown, bottomUp)
    requires Keeps(d, ready) && ValidTree(ready) && AllFilesSynced(ready, topDown)
    requires forall path: seq<Name> :: LiveAt(ready, root, path) == LiveAt(d, root, path)
    ensures Prepared(ready, d, staging, from, parent, dest, root, topDown, bottomUp)
  {
    KeepsWalks(d, ready, root, topDown);
    KeepsWalks(d, ready, root, bottomUp);
    KeepsAbsent(d, ready, parent, dest);
  }

  // ---- promotion ----

  /** How `promote` sees the outcome of `atomic_replace`. */
  function FaultOf(r: ReplaceOutcome): RenameFault {
    match r
    case RenameFailed => RenameFails
    case PostRenameFailed => SyncFailsAfterRename
    case Replaced(_) => RenameOk
  }

  /** `promote` on the disk: the staging object and the disk agree on what is published, and a
      crash at any step shows the destination as absent or as the complete verified tree. */
  method PromoteTree<P(==)>(s: Staging<P>, ready: TreeDisk, staging: Dno, from: Name, parent: Dno, dest: Name,
                            root: Dno, ghost topDown: seq<Visit>, ghost bottomUp: seq<Visit>, renameFails: bool,
                            windows: bool, fault: DirectoryFault, ghost origin: TreeDisk)
    returns (f: Fault, d': TreeDisk, ghost steps: seq<TreeDisk>)
    requires s.Before() && s.destination == Absent && s.payload.Some? && StagedVerified(s.payload.value) in s.trace
    requires Prepared(ready, origin, staging, from, parent, dest, root, topDown, bottomUp)
    requires AllDirsSynced(ready, bottomUp)
    modifies s`renamed, s`promoted, s`destination, s`trace
    ensures s.destination.Ours? ==>
              s.destination.payload == s.payload.value && Published(s.trace, s.payload.value) &&
              HoldsTree(d', parent, dest, root, origin)
    ensures !s.destination.Ours? ==> AbsentIn(d', parent, dest)
    ensures s.destination.Ours? <==> !renameFails
    ensures s.renamed <==> s.destination.Ours?
    ensures f == Fine <==>
              !renameFails && fault != OpenFails && fault != FsyncFails && !(fault == OpenDenied && !windows)
    ensures AllAbsentOrComplete(steps, parent, dest, root, origin)
  {
    var r;
    d', r, steps := PlaceTree(ready, staging, from, parent, dest, root, topDown, bottomUp, renameFails, windows,
                              fault, origin, true);
    f := s.Promote(FaultOf(r));
  }

  lemma SyncStepsAbsent(d: TreeDisk, steps: seq<TreeDisk>, parent: Dno, dest: Name, root: Dno)
    requires ValidTree(d) && AllKeep(d, steps) && AbsentIn(d, parent, dest)
    ensures forall k :: 0 <= k < |steps| ==> AbsentOrMoved(steps[k], parent, dest, root)
    ensures AllAbsentOrComplete(steps, parent, dest, root, d)
  {
    forall k | 0 <= k < |steps| ensures AbsentIn(steps[k], parent, dest) {
      KeepsAbsent(d, steps[k], parent, dest);
    }
  }

  lemma LiveBelow(ready: TreeDisk, d': TreeDisk, origin: TreeDisk, root: Dno, walk: seq<Visit>)
    requires SameBelow(ready, d', walk) && Walks(ready, root, walk)
    requires forall path: seq<Name> :: LiveAt(ready, root, path) == LiveAt(origin, root, path)
    ensures forall path: seq<Name> :: LiveAt(d', root, path) == LiveAt(origin, root, path)
  {
    forall path: seq<Name> ensures LiveAt(d', root, path) == LiveAt(origin, root, path) {
      SameBelowLive(ready, d', root, walk, root, path);
    }
  }

  /** With the tree's own directories synced, every crash after the move shows it intact. */
  lemma MovedIsComplete(ready: TreeDisk, origin: TreeDisk, staging: Dno, from: Name, parent: Dno, dest: Name, root: Dno,
                        topDown: seq<Visit>, bottomUp: seq<Visit>)
    requires Prepared(ready, origin, staging, from, parent, dest, root, topDown, bottomUp)
    requires AllDirsSynced(ready, bottomUp)
    ensures var moved := Move(ready, staging, from, parent, dest);
            Intact(moved, root, origin) && Intact(SyncDir(moved, parent), root, origin)
  {
    var moved := Move(ready, staging, from, parent, dest);
    MoveIsValid(ready, staging, from, parent, dest);
    SyncIsValid(moved, parent);
    MovedIsAbove(ready, staging, from, parent, dest, root, topDown);
    MovedIsAbove(ready, staging, from, parent, dest, root, bottomUp);
    StaysIntact(ready, moved, root, topDown, bottomUp, origin);
    StaysIntact(ready, SyncDir(moved, parent), root, topDown, bottomUp, origin);
  }

  lemma SyncIsValid(d: TreeDisk, dno: Dno)
    requires ValidTree(d) && dno in d.dirs
    ensures ValidTree(SyncDir(d, dno))
  {
    KeepsValid(d, SyncDir(d, dno));
  }

  lemma StepsJoin(a: seq<TreeDisk>, b: seq<TreeDisk>, parent: Dno, dest: Name, root: Dno, origin: TreeDisk)
    ensures AllAbsentOrComplete(a, parent, dest, root, origin) && AllAbsentOrComplete(b, parent, dest, root, origin) ==>
              AllAbsentOrComplete(a + b, parent, dest, root, origin)
  {
  }
}
