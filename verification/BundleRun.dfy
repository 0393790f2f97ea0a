/** One run of `create_transfer_bundle` (transfer_bundle.py): the payload is planned, copied
    and sealed in staging, the staged tree is verified, and only then published. */
module BundleRun {
  import opened Wrappers
  import opened TransferBundle
  import opened BundleExactness
  import opened BundleCreation
  import opened BundleAgreement
  import opened Publication

  const PLAN_REFUSED := Exn(6, true)
  const COPY_REFUSED := Exn(7, true)
  const BUNDLE_REFUSED := Exn(8, true)

  /** The disk: from the tree that was written to the tree the verifier reads. */
  type Medium = Tree -> Tree

  /** Faults and cancellations of the steps; what the steps compute is not part of it. */
  datatype BundleScript = BundleScript(
    precondition: Fault, identity: Fault, allowlist: Fault, lock: Fault, firstPoll: Fault,
    create: Fault, residue: bool, copy: Fault, persist: Fault, verify: Fault,
    publish: PublishScript, polls: nat)

  predicate Undisturbed(script: BundleScript) {
    && script.precondition == Fine && script.identity == Fine && script.allowlist == Fine
    && script.lock == Fine && script.firstPoll == Fine && script.create == Fine
    && script.copy == Fine && script.persist == Fine && script.verify == Fine && Renames(script.publish)
  }

  ghost predicate BundleAccepted(tree: Tree, rules: Rules) {
    exists m, c :: CoreAccepts(tree, rules, m, c)
  }

  method AcceptsBundle(tree: Tree, rules: Rules) returns (accepted: bool)
    ensures accepted <==> BundleAccepted(tree, rules)
  {
    var verdict := VerifyCore(tree, rules);
    accepted := verdict.Ok?;
  }

  /** A step that refuses raises its own error unless the script raises first. */
  function StepFault(refused: bool, exn: Exn, fault: Fault): Fault {
    if refused && fault == Fine then Raise(exn) else fault
  }

  ghost predicate Made(q: Request, rules: Rules, seal: Sealer, staged: Staged) {
    exists facts, copied :: Stages(q, rules, seal, facts, copied, staged)
  }

  /** The steps before staging exists: plan the payload. */
  method Plan(q: Request, rules: Rules, ghost seal: Sealer)
    returns (plan: Option<seq<Item>>, ghost facts: seq<TableFacts>)
    ensures plan.Some? ==> Planned(q, rules, facts, plan.value)
    ensures plan.None? ==> forall staged :: !Made(q, rules, seal, staged)
  {
    var r;
    r, facts := PlanPayload(q, rules);
    if r.Err? {
      forall f, t, staged | Stages(q, rules, seal, f, t, staged) ensures false {
        StagesIsPlanned(q, rules, seal, f, t, staged, f);
      }
      return None, facts;
    }
    plan := Some(r.value);
  }

  /** Copy and seal a planned payload. */
  method Make(q: Request, rules: Rules, seal: Sealer, items: seq<Item>, ghost facts: seq<TableFacts>)
    returns (tree: Option<Tree>, ghost staged: Option<Staged>)
    requires NamesFoldAlike(rules) && Planned(q, rules, facts, items)
    ensures tree.Some? <==> staged.Some?
    ensures staged.Some? ==> Made(q, rules, seal, staged.value) && tree.value == staged.value.tree
    ensures staged.None? ==> forall other :: !Made(q, rules, seal, other)
  {
    var r, copied := StagePayload(q, rules, seal, items, facts);
    if r.Err? {
      forall f, t, other | Stages(q, rules, seal, f, t, other) ensures false {
        StagesIsPlanned(q, rules, seal, f, t, other, facts);
      }
      return None, None;
    }
    tree, staged := Some(r.value.tree), Some(r.value);
  }

  /** Everything up to the creation of the staging root. */
  method Prepare(s: Staging<Tree>, script: BundleScript, planned: bool) returns (f: Fault, locked: bool)
    requires s.Before() && !s.created && !s.rootExists && s.destination == Absent
    modifies s
    ensures s.Before() && s.destination == Absent && (f == Fine ==> s.created && s.rootExists)
    ensures f == Fine <==>
              script.precondition == Fine && script.identity == Fine && script.allowlist == Fine && planned &&
              script.lock == Fine && script.firstPoll == Fine && script.create == Fine
    ensures f != Fine && s.rootExists ==> script.create != Fine
  {
    f := s.Work(script.polls, script.precondition);
    if f == Fine { f := s.Work(script.polls, script.identity); }
    if f == Fine { f := s.Work(script.polls, StepFault(!planned, PLAN_REFUSED, script.allowlist)); }
    if f == Fine { f := script.lock; }
    locked := f == Fine;
    if f == Fine { f := s.Work(1, script.firstPoll); }
    if f == Fine { f := s.Create(script.create, script.residue); }
  }

  /** The steps in order, for the staged tree and the verifier's verdict on it. */
  method Run(s: Staging<Tree>, script: BundleScript, planned: bool, tree: Option<Tree>, accepted: bool)
    returns (r: RunResult)
    requires s.Before() && s.trace == [] && !s.created && !s.rootExists && s.destination == Absent
    modifies s
    ensures s.Kept(r)
    ensures s.destination.Ours? <==> Undisturbed(script) && planned && tree.Some? && accepted
    ensures s.destination.Ours? ==> s.destination.payload == tree.value
    ensures r.Failed? && !s.destination.Ours? && s.rootExists ==>
              script.publish.cleanupFails || script.create != Fine
    ensures s.destination.Ours? ==> (!s.renamed <==> script.publish.rename.InterruptedAfterRename?)
    ensures r == Finished <==>
              s.destination.Ours? && script.publish.rename == RenameOk && script.publish.markPromoted == Fine &&
              script.publish.metadata == Fine && script.publish.closing == Fine && script.publish.terminal == Fine
    ensures r == Finished ==> !s.rootExists
  {
    var f, locked := Prepare(s, script, planned);
    if f != Fine {
      return if locked then Close(Failed(f.exn, false), script.publish.closing) else Failed(f.exn, false);
    }
    f := s.Work(script.polls, StepFault(tree.None?, COPY_REFUSED, script.copy));
    if f == Fine { f := s.Work(script.polls, script.persist); }
    if f == Fine { f := s.Work(script.polls, StepFault(!accepted, BUNDLE_REFUSED, script.verify)); }
    if f != Fine {
      r := s.Fail(f.exn, script.publish.cleanupFails);
      r := Close(r, script.publish.closing);
      return;
    }
    s.payload := tree;
    s.trace := s.trace + [StagedVerified(tree.value)];
    r := PublishVerified(s, script.publish);
  }

  /** What the steps compute: the plan, the staged tree and the verdict on what the disk
      made of it. */
  method Stage(q: Request, rules: Rules, seal: Sealer, medium: Medium)
    returns (planned: bool, tree: Option<Tree>, accepted: bool, ghost staged: Option<Staged>)
    requires NamesFoldAlike(rules)
    ensures tree.Some? <==> planned && staged.Some?
    ensures staged.Some? ==> tree == Some(medium(staged.value.tree)) && Made(q, rules, seal, staged.value)
    ensures staged.None? ==> forall other :: !Made(q, rules, seal, other)
    ensures tree.Some? ==> (accepted <==> BundleAccepted(tree.value, rules))
  {
    var plan, facts := Plan(q, rules, seal);
    if plan.None? {
      return false, None, false, None;
    }
    var made;
    made, staged := Make(q, rules, seal, plan.value, facts);
    if made.None? {
      return true, None, false, None;
    }
    planned, tree := true, Some(medium(made.value));
    accepted := AcceptsBundle(tree.value, rules);
  }

  /** `create_transfer_bundle`, from the verified-dataset precondition on. */
  method CreateBundle(s: Staging<Tree>, script: BundleScript, q: Request, rules: Rules, seal: Sealer, medium: Medium)
    returns (r: RunResult, ghost staged: Option<Staged>)
    requires s.Before() && s.trace == [] && !s.created && !s.rootExists && s.destination == Absent
    requires NamesFoldAlike(rules)
    modifies s
    ensures s.Kept(r)
    // `staged` is what creation staged, if it could stage anything.
    ensures staged.Some? ==> Made(q, rules, seal, staged.value)
    ensures staged.None? ==> forall other :: !Made(q, rules, seal, other)
    // Published exactly when nothing disturbed the run, a tree could be staged and the
    // verifier accepts what the disk made of it; and that is what is published.
    ensures s.destination.Ours? <==>
              Undisturbed(script) && staged.Some? && BundleAccepted(medium(staged.value.tree), rules)
    ensures s.destination.Ours? ==> s.destination.payload == medium(staged.value.tree)
    ensures r.Failed? && !s.destination.Ours? && s.rootExists ==>
              script.publish.cleanupFails || script.create != Fine
    ensures s.destination.Ours? ==> (!s.renamed <==> script.publish.rename.InterruptedAfterRename?)
    ensures r == Finished <==>
              s.destination.Ours? && script.publish.rename == RenameOk && script.publish.markPromoted == Fine &&
              script.publish.metadata == Fine && script.publish.closing == Fine && script.publish.terminal == Fine
    ensures r == Finished ==> !s.rootExists
  {
    var planned, tree, accepted;
    planned, tree, accepted, staged := Stage(q, rules, seal, medium);
    r := Run(s, script, planned, tree, accepted);
  }

  /** On a disk that keeps the staged tree, the accepted trees are those of transferable requests. */
  lemma AcceptedIffTransferable(q: Request, rules: Rules, seal: Sealer, staged: Staged)
    requires PlatformLaws(rules) && PathLaw(rules.normalize) && CanonicalTables(q.tables, rules)
    requires Made(q, rules, seal, staged) && seal(staged.manifest).manifest == Some(staged.manifest)
    ensures BundleAccepted(staged.tree, rules) <==>
            exists facts, copied :: Exports(q, rules, seal, facts, copied, staged)
  {
    var facts, copied :| Stages(q, rules, seal, facts, copied, staged);
    CreateVerifyAgree(q, rules, seal, facts, copied, staged);
    ExportsDetermined(q, rules, seal, facts, copied, staged);
    if BundleAccepted(staged.tree, rules) {
      assert Exports(q, rules, seal, facts, copied, staged);
    }
  }
}
