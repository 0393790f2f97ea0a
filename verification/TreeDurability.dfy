/** Syncing a whole directory tree (durability.py, fsync_tree). Each directory keeps its own
    states since its last completed sync; a crash may resolve every step of a path to any of
    them. */
module TreeDurability {
  import opened Wrappers
  import opened Collections
  import opened Durability

  type Dno = nat

  datatype Node = FileNode(ino: Ino) | DirNode(dno: Dno)

  type Entries = map<Name, Node>

  datatype Directory = Directory(live: Entries, since: seq<Entries>)

  datatype TreeDisk = TreeDisk(files: map<Ino, File>, dirs: map<Dno, Directory>)

  ghost predicate WellFormed(d: TreeDisk, entries: Entries) {
    forall name :: name in entries ==>
      match entries[name]
      case FileNode(ino) => ino in d.files
      case DirNode(dno) => dno in d.dirs
  }

  ghost predicate ValidTree(d: TreeDisk) {
    forall dno :: dno in d.dirs ==>
      && d.dirs[dno].live in d.dirs[dno].since
      && forall h :: h in d.dirs[dno].since ==> WellFormed(d, h)
  }

  /** What a path reads as in the live tree. */
  function LiveAt(d: TreeDisk, dno: Dno, path: seq<Name>): Option<Content>
    decreases |path|
  {
    if path == [] || dno !in d.dirs || path[0] !in d.dirs[dno].live then None else
    match d.dirs[dno].live[path[0]]
    case FileNode(ino) => if |path| == 1 && ino in d.files then Some(d.files[ino].data) else None
    case DirNode(child) => LiveAt(d, child, path[1..])
  }

  /** After a crash, the path may read as `content`. */
  ghost predicate MayReadAt(d: TreeDisk, dno: Dno, path: seq<Name>, content: Option<Content>)
    decreases |path|
  {
    if path == [] || dno !in d.dirs then content == None else
    exists h :: h in d.dirs[dno].since && ResolvesTo(d, h, path, content)
  }

  ghost predicate ResolvesTo(d: TreeDisk, h: Entries, path: seq<Name>, content: Option<Content>)
    requires path != []
    decreases |path|, 0
  {
    if path[0] !in h then content == None else
    match h[path[0]]
    case FileNode(ino) =>
      if |path| > 1 || ino !in d.files then content == None
      else content.Some? && (d.files[ino].synced ==> content.value == d.files[ino].data)
    case DirNode(child) => MayReadAt(d, child, path[1..], content)
  }

  /** Every crash shows the live tree. */
  ghost predicate DurableAt(d: TreeDisk, root: Dno) {
    forall path: seq<Name>, c :: MayReadAt(d, root, path, c) ==> c == LiveAt(d, root, path)
  }

  // ---- the walk ----

  /** One directory of a walk with its regular files. */
  datatype Visit = Visit(dno: Dno, files: seq<Name>)

  ghost predicate VisitOk(d: TreeDisk, v: Visit) {
    && v.dno in d.dirs
    && (forall i :: 0 <= i < |v.files| ==> v.files[i] in d.dirs[v.dno].live && d.dirs[v.dno].live[v.files[i]].FileNode?)
    && (forall name :: name in d.dirs[v.dno].live && d.dirs[v.dno].live[name].FileNode? ==> name in v.files)
  }

  ghost predicate Visited(walk: seq<Visit>, dno: Dno) {
    exists i :: 0 <= i < |walk| && walk[i].dno == dno
  }

  ghost predicate AllVisitsOk(d: TreeDisk, walk: seq<Visit>) {
    forall i :: 0 <= i < |walk| ==> VisitOk(d, walk[i])
  }

  predicate IsChildDir(d: TreeDisk, dno: Dno, name: Name) {
    dno in d.dirs && name in d.dirs[dno].live && d.dirs[dno].live[name].DirNode?
  }

  /** The walk lists the root and, with a directory, its subdirectories. */
  ghost predicate Walks(d: TreeDisk, root: Dno, walk: seq<Visit>) {
    && AllVisitsOk(d, walk) && Visited(walk, root)
    && forall i, name :: 0 <= i < |walk| && IsChildDir(d, walk[i].dno, name) ==>
         Visited(walk, d.dirs[walk[i].dno].live[name].dno)
  }

  function FileCount(walk: seq<Visit>): nat {
    if walk == [] then 0 else FileCount(walk[..|walk| - 1]) + |walk[|walk| - 1].files|
  }

  // ---- syncing ----

  function SyncFile(d: TreeDisk, ino: Ino): TreeDisk
    requires ino in d.files
  {
    d.(files := d.files[ino := d.files[ino].(synced := true)])
  }

  function SyncDir(d: TreeDisk, dno: Dno): TreeDisk
    requires dno in d.dirs
  {
    d.(dirs := d.dirs[dno := Directory(d.dirs[dno].live, [d.dirs[dno].live])])
  }

  /** Syncing changes neither contents nor the live tree. */
  ghost predicate Keeps(d: TreeDisk, d': TreeDisk) {
    && d'.files.Keys == d.files.Keys && d'.dirs.Keys == d.dirs.Keys
    && (forall ino :: ino in d.files ==>
          d'.files[ino].data == d.files[ino].data && (d.files[ino].synced ==> d'.files[ino].synced))
    && (forall dno :: dno in d.dirs ==>
          d'.dirs[dno].live == d.dirs[dno].live &&
          (d'.dirs[dno] == d.dirs[dno] || d'.dirs[dno].since == [d.dirs[dno].live]))
  }

  lemma KeepsTrans(a: TreeDisk, b: TreeDisk, c: TreeDisk)
    requires Keeps(a, b) && Keeps(b, c)
    ensures Keeps(a, c)
  {
  }

  lemma KeepsValid(d: TreeDisk, d': TreeDisk)
    requires ValidTree(d) && Keeps(d, d')
    ensures ValidTree(d')
  {
  }

  lemma {:induction false} KeepsLive(d: TreeDisk, d': TreeDisk, dno: Dno, path: seq<Name>)
    requires Keeps(d, d')
    ensures LiveAt(d', dno, path) == LiveAt(d, dno, path)
    decreases |path|
  {
    if path != [] && dno in d.dirs && path[0] in d.dirs[dno].live && d.dirs[dno].live[path[0]].DirNode? {
      KeepsLive(d, d', d.dirs[dno].live[path[0]].dno, path[1..]);
    }
  }

  /** Every step of a sync keeps contents and the live tree. */
  ghost predicate AllKeep(d: TreeDisk, steps: seq<TreeDisk>) {
    forall k :: 0 <= k < |steps| ==> Keeps(d, steps[k])
  }

  /** One sync call, or none. */
  ghost predicate SyncCall(d: TreeDisk, d': TreeDisk) {
    || d' == d
    || (exists ino :: ino in d.files && d' == SyncFile(d, ino))
    || (exists dno :: dno in d.dirs && d' == SyncDir(d, dno))
  }

  ghost function SyncCalls(): (TreeDisk, TreeDisk) -> bool {
    (d, d') => SyncCall(d, d')
  }

  /** From one disk to the other in the given steps, a sync call each. */
  ghost predicate SyncsTo(d: TreeDisk, steps: seq<TreeDisk>, d': TreeDisk) {
    Chain([d] + steps, SyncCalls()) && ([d] + steps)[|steps|] == d'
  }

  lemma SyncsOneMore(d: TreeDisk, steps: seq<TreeDisk>, d': TreeDisk, d'': TreeDisk)
    requires SyncsTo(d, steps, d') && SyncCall(d', d'')
    ensures SyncsTo(d, steps + [d''], d'')
  {
    ChainsJoin([d] + steps, [d''], SyncCalls());
    assert [d] + (steps + [d'']) == [d] + steps + [d''];
  }

  lemma SyncsOn(d: TreeDisk, first: seq<TreeDisk>, d': TreeDisk, second: seq<TreeDisk>, d'': TreeDisk)
    requires SyncsTo(d, first, d') && SyncsTo(d', second, d'')
    ensures SyncsTo(d, first + second, d'')
  {
    if second == [] {
      assert first + second == first;
    } else {
      var rest := [d'] + second;
      ChainTail(rest, SyncCalls());
      assert rest[1..] == second;
      ChainsJoin([d] + first, second, SyncCalls());
      assert [d] + (first + second) == [d] + first + second;
    }
  }

  lemma CallKeeps(d: TreeDisk, d': TreeDisk)
    requires SyncCall(d, d')
    ensures Keeps(d, d')
  {
  }

  lemma {:induction false} ChainKeeps(chain: seq<TreeDisk>, k: nat)
    requires Chain(chain, SyncCalls()) && k < |chain|
    ensures Keeps(chain[0], chain[k])
  {
    if k > 0 {
      ChainKeeps(chain, k - 1);
      assert LinkAt(chain, k - 1, SyncCalls());
      CallKeeps(chain[k - 1], chain[k]);
      KeepsTrans(chain[0], chain[k - 1], chain[k]);
    }
  }

  /** Syncing, however far it got, has kept contents and the live tree at every step. */
  lemma SyncsKeep(d: TreeDisk, steps: seq<TreeDisk>, d': TreeDisk)
    requires ValidTree(d) && SyncsTo(d, steps, d')
    ensures Keeps(d, d') && ValidTree(d') && AllKeep(d, steps)
  {
    var chain := [d] + steps;
    forall k | 0 <= k < |steps| ensures Keeps(d, steps[k]) {
      ChainKeeps(chain, k + 1);
    }
    ChainKeeps(chain, |steps|);
    KeepsValid(d, d');
  }

  /** Everything a directory lists is synced. */
  ghost predicate FilesSynced(d: TreeDisk, v: Visit) {
    v.dno in d.dirs && forall name :: name in d.dirs[v.dno].live && d.dirs[v.dno].live[name].FileNode? ==>
      d.dirs[v.dno].live[name].ino in d.files && d.files[d.dirs[v.dno].live[name].ino].synced
  }

  ghost predicate DirSynced(d: TreeDisk, dno: Dno) {
    dno in d.dirs && d.dirs[dno].since == [d.dirs[dno].live]
  }

  /** A tree whose files and directories are all synced shows itself after every crash. */
  lemma {:induction false} SyncedReadsLive(d: TreeDisk, topDown: seq<Visit>, bottomUp: seq<Visit>, root: Dno, dno: Dno,
                                           path: seq<Name>, c: Option<Content>)
    requires ValidTree(d) && Walks(d, root, topDown) && Walks(d, root, bottomUp)
    requires Visited(topDown, dno) && Visited(bottomUp, dno)
    requires AllFilesSynced(d, topDown)
    requires AllDirsSynced(d, bottomUp)
    requires MayReadAt(d, dno, path, c)
    ensures c == LiveAt(d, dno, path)
    decreases |path|
  {
    var i :| 0 <= i < |topDown| && topDown[i].dno == dno;
    var j :| 0 <= j < |bottomUp| && bottomUp[j].dno == dno;
    assert FilesSynced(d, topDown[i]) && DirSynced(d, dno);
    if path != [] {
      ReadsOneStep(d, topDown[i], path, c);
      if IsChildDir(d, dno, path[0]) {
        assert IsChildDir(d, topDown[i].dno, path[0]) && IsChildDir(d, bottomUp[j].dno, path[0]);
        SyncedReadsLive(d, topDown, bottomUp, root, d.dirs[dno].live[path[0]].dno, path[1..], c);
      }
    }
  }

  /** The first step of a path is read in the live directory. */
  lemma ReadsOneStep(d: TreeDisk, v: Visit, path: seq<Name>, c: Option<Content>)
    requires FilesSynced(d, v) && DirSynced(d, v.dno) && path != [] && MayReadAt(d, v.dno, path, c)
    ensures if IsChildDir(d, v.dno, path[0]) then MayReadAt(d, d.dirs[v.dno].live[path[0]].dno, path[1..], c)
            else c == LiveAt(d, v.dno, path)
  {
    var h: Entries :| h in d.dirs[v.dno].since && ResolvesTo(d, h, path, c);
    assert h == d.dirs[v.dno].live;
  }

  lemma KeepsVisit(d: TreeDisk, d': TreeDisk, v: Visit)
    requires Keeps(d, d') && VisitOk(d, v)
    ensures VisitOk(d', v)
  {
  }

  lemma KeepsWalks(d: TreeDisk, d': TreeDisk, root: Dno, walk: seq<Visit>)
    requires Keeps(d, d') && Walks(d, root, walk)
    ensures Walks(d', root, walk)
  {
    forall i | 0 <= i < |walk| ensures VisitOk(d', walk[i]) {
      KeepsVisit(d, d', walk[i]);
    }
    forall i, name | 0 <= i < |walk| && IsChildDir(d', walk[i].dno, name)
      ensures Visited(walk, d'.dirs[walk[i].dno].live[name].dno)
    {
      assert IsChildDir(d, walk[i].dno, name);
    }
  }

  datatype TreeFaults = TreeFaults(
    failing: set<(Dno, Name)>, directory: Dno -> DirectoryFault, cancelAt: Option<nat>, windows: bool)

  /** Directories can be synced. */
  ghost predicate Clean(faults: TreeFaults) {
    forall dno :: faults.directory(dno) == NoFault
  }

  datatype TreeOutcome = TreeSynced(count: nat) | TreeCancelled | TreeFileFailed | TreeDirectoryFailed

  /** The sync of some listed file fails. */
  ghost predicate FileFails(v: Visit, faults: TreeFaults) {
    exists k :: 0 <= k < |v.files| && (v.dno, v.files[k]) in faults.failing
  }

  /** The cancellation request arrives at one of `n` checkpoints after the first `poll`. */
  predicate CancelsWithin(faults: TreeFaults, poll: nat, n: nat) {
    faults.cancelAt.Some? && poll <= faults.cancelAt.value < poll + n
  }

  /** The directory sync fails: it is not merely unsupported. */
  predicate DirectoryFails(faults: TreeFaults, dno: Dno) {
    || faults.directory(dno) == OpenFails || faults.directory(dno) == FsyncFails
    || (faults.directory(dno) == OpenDenied && !faults.windows)
  }

  /** The files of one directory, a checkpoint before each. */
  method SyncFiles(d: TreeDisk, v: Visit, faults: TreeFaults, poll: nat)
    returns (d': TreeDisk, failure: Option<TreeOutcome>, ghost steps: seq<TreeDisk>)
    requires ValidTree(d) && VisitOk(d, v)
    ensures SyncsTo(d, steps, d')
    ensures failure.None? ==> FilesSynced(d', v)
    ensures failure.None? <==> !FileFails(v, faults) && !CancelsWithin(faults, poll, |v.files|)
    ensures failure.Some? ==>
              || (failure.value == TreeFileFailed && FileFails(v, faults))
              || (failure.value == TreeCancelled && CancelsWithin(faults, poll, |v.files|))
  {
    d', steps := d, [];
    assert d.dirs[v.dno].live in d.dirs[v.dno].since && WellFormed(d, d.dirs[v.dno].live);
    for i := 0 to |v.files|
      invariant SyncsTo(d, steps, d') && d'.dirs == d.dirs && d'.files.Keys == d.files.Keys
      invariant forall k :: 0 <= k < i ==> (v.dno, v.files[k]) !in faults.failing
      invariant !CancelsWithin(faults, poll, i)
      invariant forall k :: 0 <= k < i ==> d'.files[d.dirs[v.dno].live[v.files[k]].ino].synced
    {
      if faults.cancelAt == Some(poll + i) {
        return d', Some(TreeCancelled), steps;
      }
      if (v.dno, v.files[i]) in faults.failing {
        return d', Some(TreeFileFailed), steps;
      }
      ghost var before := d';
      d' := SyncFile(d', d.dirs[v.dno].live[v.files[i]].ino);
      SyncsOneMore(d, steps, before, d');
      steps := steps + [d'];
    }
    failure := None;
    ListedIsSynced(d, d', v);
  }

  lemma ListedIsSynced(d: TreeDisk, d': TreeDisk, v: Visit)
    requires VisitOk(d, v) && d'.dirs == d.dirs && d'.files.Keys == d.files.Keys && WellFormed(d, d.dirs[v.dno].live)
    requires forall k :: 0 <= k < |v.files| ==> d'.files[d.dirs[v.dno].live[v.files[k]].ino].synced
    ensures FilesSynced(d', v)
  {
    forall name | name in d.dirs[v.dno].live && d.dirs[v.dno].live[name].FileNode?
      ensures d'.files[d.dirs[v.dno].live[name].ino].synced
    {
      var k :| 0 <= k < |v.files| && v.files[k] == name;
    }
  }

  method SyncOneDirectory(d: TreeDisk, dno: Dno, faults: TreeFaults, poll: nat)
    returns (d': TreeDisk, failure: Option<TreeOutcome>)
    requires dno in d.dirs
    ensures SyncsTo(d, [d'], d') && d'.files == d.files && d'.dirs.Keys == d.dirs.Keys
    ensures forall other :: other in d.dirs && DirSynced(d, other) ==> DirSynced(d', other)
    ensures failure.None? && faults.directory(dno) == NoFault ==> DirSynced(d', dno)
    ensures failure.None? <==> faults.cancelAt != Some(poll) && !DirectoryFails(faults, dno)
    ensures failure.Some? ==>
              failure.value == if faults.cancelAt == Some(poll) then TreeCancelled else TreeDirectoryFailed
  {
    SyncsOneMore(d, [], d, d);
    if faults.cancelAt == Some(poll) {
      return d, Some(TreeCancelled);
    }
    match OutcomeOf(faults.windows, faults.directory(dno)) {
      case Synced =>
        d', failure := SyncDir(d, dno), None;
        SyncsOneMore(d, [], d, d');
      case Unsupported => d', failure := d, None;
      case SyncFailed => d', failure := d, Some(TreeDirectoryFailed);
    }
  }

  /** `fsync_tree`: every file top-down, then every directory bottom-up, then the root. */
  method FsyncTree(d: TreeDisk, root: Dno, topDown: seq<Visit>, bottomUp: seq<Visit>, faults: TreeFaults)
    returns (d': TreeDisk, r: TreeOutcome, ghost steps: seq<TreeDisk>)
    requires ValidTree(d) && Walks(d, root, topDown) && Walks(d, root, bottomUp)
    // Whatever happens, contents and the live tree are untouched; `steps` skips no call.
    ensures Keeps(d, d') && ValidTree(d') && AllKeep(d, steps) && SyncsTo(d, steps, d')
    ensures forall path: seq<Name> :: LiveAt(d', root, path) == LiveAt(d, root, path)
    // It succeeds exactly when no listed file and no directory fails and no checkpoint before
    // a file or a directory cancels; an unsupported directory sync is no failure.
    ensures r.TreeSynced? <==>
              && !AnyFileFails(topDown, faults) && !AnyDirectoryFails(root, bottomUp, faults)
              && !CancelsWithin(faults, 0, FileCount(topDown) + |bottomUp| + 1)
    ensures r == TreeFileFailed ==> AnyFileFails(topDown, faults)
    ensures r == TreeDirectoryFailed ==>
              AnyDirectoryFails(root, bottomUp, faults) && !AnyFileFails(topDown, faults)
    ensures r == TreeCancelled ==> CancelsWithin(faults, 0, FileCount(topDown) + |bottomUp| + 1)
    ensures r.TreeSynced? ==> r.count == FileCount(topDown)
    // On success every file of every directory is synced, supported directory syncs or not.
    ensures r.TreeSynced? ==> AllFilesSynced(d', topDown)
    // Where directories can be synced, every crash afterwards shows the whole tree as it is.
    ensures r.TreeSynced? && Clean(faults) ==> AllDirsSynced(d', bottomUp) && DurableAt(d', root)
  {
    var count, failure;
    d', count, failure, steps := SyncAllFiles(d, topDown, faults);
    ghost var filesDone := d';
    SyncsKeep(d, steps, d');
    if failure.None? {
      ghost var more;
      d', failure, more := SyncDirectories(d', root, bottomUp, faults, count);
      SyncsKeep(filesDone, more, d');
      SyncsOn(d, steps, filesDone, more, d');
      steps := steps + more;
      SyncsKeep(d, steps, d');
      StillSynced(filesDone, d', topDown);
    }
    LiveUntouched(d, d', root);
    r := if failure.Some? then failure.value else TreeSynced(count);
    if failure.None? && Clean(faults) {
      KeepsWalks(d, d', root, topDown);
      KeepsWalks(d, d', root, bottomUp);
      TreeIsDurable(d', root, topDown, bottomUp);
    }
  }

  ghost predicate AnyFileFails(walk: seq<Visit>, faults: TreeFaults) {
    exists i :: 0 <= i < |walk| && FileFails(walk[i], faults)
  }

  ghost predicate AnyDirectoryFails(root: Dno, walk: seq<Visit>, faults: TreeFaults) {
    DirectoryFails(faults, root) || exists i :: 0 <= i < |walk| && DirectoryFails(faults, walk[i].dno)
  }

  ghost predicate AllFilesSynced(d: TreeDisk, walk: seq<Visit>) {
    forall i :: 0 <= i < |walk| ==> FilesSynced(d, walk[i])
  }

  lemma StillSynced(d: TreeDisk, d': TreeDisk, walk: seq<Visit>)
    requires Keeps(d, d') && AllFilesSynced(d, walk)
    ensures AllFilesSynced(d', walk)
  {
    forall i | 0 <= i < |walk| ensures FilesSynced(d', walk[i]) {
      StaysSynced(d, d', walk[i]);
    }
  }

  lemma OneMoreVisit(d: TreeDisk, d': TreeDisk, walk: seq<Visit>, i: nat)
    requires i < |walk| && Keeps(d, d') && AllFilesSynced(d, walk[..i]) && FilesSynced(d', walk[i])
    ensures AllFilesSynced(d', walk[..i + 1])
    ensures FileCount(walk[..i + 1]) == FileCount(walk[..i]) + |walk[i].files|
  {
    StillSynced(d, d', walk[..i]);
    assert walk[..i + 1] == walk[..i] + [walk[i]];
    assert walk[..i + 1][..i] == walk[..i];
  }

  lemma {:induction false} CountUpTo(walk: seq<Visit>, i: nat)
    requires i < |walk|
    ensures FileCount(walk[..i]) + |walk[i].files| <= FileCount(walk)
  {
    var n := |walk| - 1;
    if i < n {
      CountUpTo(walk[..n], i);
      assert walk[..n][..i] == walk[..i];
    }
  }

  /** The first walk: every regular file. */
  method SyncAllFiles(d: TreeDisk, topDown: seq<Visit>, faults: TreeFaults)
    returns (d': TreeDisk, count: nat, failure: Option<TreeOutcome>, ghost steps: seq<TreeDisk>)
    requires ValidTree(d) && AllVisitsOk(d, topDown)
    ensures SyncsTo(d, steps, d')
    ensures failure.None? <==> !AnyFileFails(topDown, faults) && !CancelsWithin(faults, 0, FileCount(topDown))
    ensures failure.Some? ==>
              || (failure.value == TreeFileFailed && AnyFileFails(topDown, faults))
              || (failure.value == TreeCancelled && CancelsWithin(faults, 0, FileCount(topDown)))
    ensures failure.None? ==> count == FileCount(topDown) && AllFilesSynced(d', topDown)
  {
    d', count, failure, steps := d, 0, None, [];
    for i := 0 to |topDown|
      invariant SyncsTo(d, steps, d') && failure.None?
      invariant !AnyFileFails(topDown[..i], faults) && !CancelsWithin(faults, 0, count)
      invariant count == FileCount(topDown[..i]) && AllFilesSynced(d', topDown[..i])
    {
      ghost var before := d';
      SyncsKeep(d, steps, d');
      KeepsVisit(d, d', topDown[i]);
      ghost var more;
      d', failure, more := SyncFiles(d', topDown[i], faults, count);
      SyncsOn(d, steps, before, more, d');
      steps := steps + more;
      CountUpTo(topDown, i);
      if failure.Some? {
        return;
      }
      SyncsKeep(before, more, d');
      OneMoreVisit(before, d', topDown, i);
      OneMoreClear(topDown, faults, i);
      count := count + |topDown[i].files|;
    }
    assert topDown[..|topDown|] == topDown;
  }

  lemma OneMoreClear(walk: seq<Visit>, faults: TreeFaults, i: nat)
    requires i < |walk| && !AnyFileFails(walk[..i], faults) && !FileFails(walk[i], faults)
    ensures !AnyFileFails(walk[..i + 1], faults)
  {
    var shorter, longer := walk[..i], walk[..i + 1];
    forall k | 0 <= k < |longer| ensures !FileFails(longer[k], faults) {
      if k < i { assert !FileFails(shorter[k], faults); }
    }
  }

  lemma LiveUntouched(d: TreeDisk, d': TreeDisk, root: Dno)
    requires Keeps(d, d')
    ensures forall path: seq<Name> :: LiveAt(d', root, path) == LiveAt(d, root, path)
  {
    forall path: seq<Name> ensures LiveAt(d', root, path) == LiveAt(d, root, path) {
      KeepsLive(d, d', root, path);
    }
  }

  lemma StaysSynced(d: TreeDisk, d': TreeDisk, v: Visit)
    requires Keeps(d, d') && FilesSynced(d, v)
    ensures FilesSynced(d', v)
  {
  }

  ghost predicate AllDirsSynced(d: TreeDisk, walk: seq<Visit>) {
    forall i :: 0 <= i < |walk| ==> DirSynced(d, walk[i].dno)
  }

  lemma OneMoreDirectory(d: TreeDisk, d': TreeDisk, walk: seq<Visit>, i: nat)
    requires i < |walk| && AllDirsSynced(d, walk[..i]) && DirSynced(d', walk[i].dno)
    requires forall other :: other in d.dirs && DirSynced(d, other) ==> DirSynced(d', other)
    ensures AllDirsSynced(d', walk[..i + 1])
  {
    var shorter, longer := walk[..i], walk[..i + 1];
    forall k | 0 <= k < |longer| ensures DirSynced(d', longer[k].dno) {
      if k < i { assert DirSynced(d, shorter[k].dno); }
    }
  }

  /** The second walk: every directory, a checkpoint before each. */
  method SyncListed(d: TreeDisk, bottomUp: seq<Visit>, faults: TreeFaults, poll: nat)
    returns (d': TreeDisk, failure: Option<TreeOutcome>, ghost steps: seq<TreeDisk>)
    requires forall i :: 0 <= i < |bottomUp| ==> bottomUp[i].dno in d.dirs
    ensures SyncsTo(d, steps, d') && d'.files == d.files && d'.dirs.Keys == d.dirs.Keys
    ensures failure.None? <==>
              && (forall k :: 0 <= k < |bottomUp| ==> !DirectoryFails(faults, bottomUp[k].dno))
              && !CancelsWithin(faults, poll, |bottomUp|)
    ensures failure.Some? ==>
              || (failure.value == TreeDirectoryFailed &&
                  exists k :: 0 <= k < |bottomUp| && DirectoryFails(faults, bottomUp[k].dno))
              || (failure.value == TreeCancelled && CancelsWithin(faults, poll, |bottomUp|))
    ensures failure.None? && Clean(faults) ==> AllDirsSynced(d', bottomUp)
  {
    d', steps := d, [];
    ghost var clean := Clean(faults);
    for i := 0 to |bottomUp|
      invariant SyncsTo(d, steps, d') && d'.files == d.files && d'.dirs.Keys == d.dirs.Keys
      invariant forall k :: 0 <= k < i ==> !DirectoryFails(faults, bottomUp[k].dno)
      invariant !CancelsWithin(faults, poll, i)
      invariant clean ==> AllDirsSynced(d', bottomUp[..i])
    {
      ghost var before := d';
      d', failure := SyncOneDirectory(d', bottomUp[i].dno, faults, poll + i);
      SyncsOn(d, steps, before, [d'], d');
      steps := steps + [d'];
      if failure.Some? {
        return;
      }
      if clean {
        OneMoreDirectory(before, d', bottomUp, i);
      }
    }
    assert bottomUp[..|bottomUp|] == bottomUp;
    failure := None;
  }

  /** The second walk, and the root once more. */
  method SyncDirectories(d: TreeDisk, root: Dno, bottomUp: seq<Visit>, faults: TreeFaults, poll: nat)
    returns (d': TreeDisk, failure: Option<TreeOutcome>, ghost steps: seq<TreeDisk>)
    requires root in d.dirs && forall i :: 0 <= i < |bottomUp| ==> bottomUp[i].dno in d.dirs
    ensures SyncsTo(d, steps, d') && d'.files == d.files
    ensures failure.None? <==>
              !AnyDirectoryFails(root, bottomUp, faults) && !CancelsWithin(faults, poll, |bottomUp| + 1)
    ensures failure.Some? ==>
              || (failure.value == TreeDirectoryFailed && AnyDirectoryFails(root, bottomUp, faults))
              || (failure.value == TreeCancelled && CancelsWithin(faults, poll, |bottomUp| + 1))
    ensures failure.None? && Clean(faults) ==> AllDirsSynced(d', bottomUp)
  {
    d', failure, steps := SyncListed(d, bottomUp, faults, poll);
    if failure.Some? {
      return;
    }
    ghost var before := d';
    d', failure := SyncOneDirectory(d', root, faults, poll + |bottomUp|);
    SyncsOn(d, steps, before, [d'], d');
    steps := steps + [d'];
  }

  lemma TreeIsDurable(d: TreeDisk, root: Dno, topDown: seq<Visit>, bottomUp: seq<Visit>)
    requires ValidTree(d) && Walks(d, root, topDown) && Walks(d, root, bottomUp)
    requires AllFilesSynced(d, topDown)
    requires AllDirsSynced(d, bottomUp)
    ensures DurableAt(d, root)
  {
    forall path: seq<Name>, c | MayReadAt(d, root, path, c) ensures c == LiveAt(d, root, path) {
      SyncedReadsLive(d, topDown, bottomUp, root, root, path, c);
    }
  }
}
