/** One run of `recover` (recovery.py): recovered tables are staged, the staged dataset is
    verified, and only then published. */
module RecoveryRun {
  import opened Wrappers
  import opened Records
  import opened VaultState
  import opened Recovery
  import opened StagedRecovery
  import opened Publication

  const TABLES_REFUSED := Exn(4, true)
  const STAGED_REFUSED := Exn(5, true)

  /** What is on disk after the writes: records and schema facts under every ledger path, and
      all files. */
  datatype Image = Image(records: seq<seq<Record>>, facts: seq<SchemaFacts>, inventory: set<string>)

  /** The writer and the disk: from the recovered records to the image the verifier reads. */
  type Medium = seq<seq<Record>> -> Image

  ghost predicate Readable(medium: Medium, n: nat) {
    forall recovered :: |medium(recovered).records| == |medium(recovered).facts| == n
  }

  /** The ledger tables with the image read under their paths. */
  function StagedAs(tables: seq<StagedTable>, image: Image): (d: StagedDataset)
    requires |image.records| == |image.facts| == |tables|
    ensures |d.tables| == |tables| && d.inventory == image.inventory
    ensures forall t :: 0 <= t < |tables| ==>
              d.tables[t] == tables[t].(staged := image.records[t], stagedFacts := image.facts[t])
  {
    StagedDataset(
      seq(|tables|, t requires 0 <= t < |tables| =>
            tables[t].(staged := image.records[t], stagedFacts := image.facts[t])),
      image.inventory)
  }

  /** Faults and cancellations of the steps; what the steps compute is not part of it. */
  datatype RecoverScript = RecoverScript(
    authority: Fault, lock: Fault, firstPoll: Fault, create: Fault, residue: bool,
    tables: Fault, verify: Fault, publish: PublishScript, polls: nat)

  predicate Undisturbed(script: RecoverScript) {
    && script.authority == Fine && script.lock == Fine && script.firstPoll == Fine
    && script.create == Fine && script.tables == Fine && script.verify == Fine && Renames(script.publish)
  }

  /** No record is refused and the receipt's total holds. */
  ghost predicate Recoverable(vault: Vault, tables: seq<StagedTable>, expected: nat)
    requires Coherent(tables)
  {
    && PseudonymizedTotal(tables) == expected
    && forall t, i, code :: 0 <= t < |tables| && 0 <= i < |tables[t].pseudonymized| ==>
         !RecoveryRefused(vault, tables[t].tableId, tables[t].ledger, tables[t].schema,
                          tables[t].pseudonymized[i], code)
  }

  ghost predicate Recovers(vault: Vault, tables: seq<StagedTable>, recovered: seq<seq<Record>>)
    requires Coherent(tables)
  {
    |recovered| == |tables| && forall t :: 0 <= t < |tables| ==> RecoversTo(vault, tables[t], recovered[t])
  }

  /** The pseudonymized totals do not depend on what is staged. */
  lemma {:induction false} SameTotals(tables: seq<StagedTable>, staged: seq<StagedTable>)
    requires |tables| == |staged|
    requires forall t :: 0 <= t < |tables| ==> staged[t].pseudonymized == tables[t].pseudonymized
    ensures PseudonymizedTotal(tables) == PseudonymizedTotal(staged)
  {
    if tables != [] {
      SameTotals(tables[..|tables| - 1], staged[..|staged| - 1]);
    }
  }

  lemma {:induction false} SameExpectedFiles(tables: seq<StagedTable>, staged: seq<StagedTable>)
    requires |tables| == |staged|
    requires forall t :: 0 <= t < |tables| ==> staged[t].path == tables[t].path && staged[t].memo == tables[t].memo
    ensures ExpectedFiles(tables) == ExpectedFiles(staged)
  {
    if tables != [] {
      SameExpectedFiles(tables[..|tables| - 1], staged[..|staged| - 1]);
    }
  }

  /** Recover and stage: the dataset the verifier will read. */
  method StageRecovery(vault: Vault, tables: seq<StagedTable>, expected: nat, medium: Medium)
    returns (r: Fallible<StagedDataset>, ghost recovered: seq<seq<Record>>)
    requires Coherent(tables) && Readable(medium, |tables|)
    ensures r.Ok? ==> Recoverable(vault, tables, expected) && Recovers(vault, tables, recovered)
    ensures r.Ok? ==> r.value == StagedAs(tables, medium(recovered)) && Coherent(r.value.tables) &&
                      PseudonymizedTotal(r.value.tables) == expected
    ensures r.Err? ==> !Recoverable(vault, tables, expected)
  {
    var out := RecoverTables(vault, tables, expected);
    recovered := [];
    if out.Err? {
      return Err(out.error), [];
    }
    recovered := out.value;
    RecoversIsRecoverable(vault, tables, recovered);
    r := Ok(StagedAs(tables, medium(out.value)));
    SameTotals(tables, r.value.tables);
  }

  lemma RecoversIsRecoverable(vault: Vault, tables: seq<StagedTable>, recovered: seq<seq<Record>>)
    requires Coherent(tables) && Recovers(vault, tables, recovered)
    ensures Recoverable(vault, tables, PseudonymizedTotal(tables))
  {
    forall t, i, code | 0 <= t < |tables| && 0 <= i < |tables[t].pseudonymized|
      ensures !RecoveryRefused(vault, tables[t].tableId, tables[t].ledger, tables[t].schema,
                               tables[t].pseudonymized[i], code)
    {
      assert RecoversTo(vault, tables[t], recovered[t]);
      assert RecoveredValues(vault, tables[t].tableId, tables[t].ledger, tables[t].schema,
                             tables[t].pseudonymized[i].physicalIndex, tables[t].pseudonymized[i].values,
                             recovered[t][i].values);
    }
  }

  /** The medium keeps what was written: records read back, schema facts and files as expected. */
  ghost predicate Faithful(vault: Vault, tables: seq<StagedTable>, medium: Medium)
    requires Coherent(tables) && Readable(medium, |tables|)
  {
    forall recovered :: Recovers(vault, tables, recovered) ==>
      var d := StagedAs(tables, medium(recovered));
      d.inventory == ExpectedFiles(d.tables) && StagedFrom(vault, d.tables, recovered)
  }

  ghost predicate AllVerifiable(vault: Vault, tables: seq<StagedTable>)
    requires Coherent(tables)
  {
    forall t :: 0 <= t < |tables| ==> !HasUnverifiable(vault, tables[t])
  }

  /** What a faithful medium stages is accepted exactly when every value can be verified. */
  lemma FaithfulIsAccepted(vault: Vault, tables: seq<StagedTable>, expected: nat, medium: Medium,
                           recovered: seq<seq<Record>>)
    requires Coherent(tables) && Readable(medium, |tables|) && Faithful(vault, tables, medium)
    requires Recovers(vault, tables, recovered) && PseudonymizedTotal(tables) == expected
    ensures var d := StagedAs(tables, medium(recovered));
            Coherent(d.tables) && (StagedAccepted(vault, d, expected) <==> AllVerifiable(vault, tables))
  {
    var d := StagedAs(tables, medium(recovered));
    assert Coherent(d.tables);
    assert StagedFrom(vault, d.tables, recovered);
    SelfCheckAcceptsExactly(vault, d.tables, recovered);
    SameTotals(tables, d.tables);
    SameVerifiable(vault, tables, d.tables);
    if AllVerifiable(vault, tables) {
      TotalClosesGap(vault, d.tables);
    }
  }

  lemma SameVerifiable(vault: Vault, tables: seq<StagedTable>, staged: seq<StagedTable>)
    requires Coherent(tables) && Coherent(staged) && |tables| == |staged|
    requires forall t :: 0 <= t < |tables| ==>
               staged[t] == tables[t].(staged := staged[t].staged, stagedFacts := staged[t].stagedFacts)
    ensures AllVerifiable(vault, tables) <==> AllVerifiable(vault, staged)
  {
    forall t | 0 <= t < |tables| ensures HasUnverifiable(vault, staged[t]) <==> HasUnverifiable(vault, tables[t]) {
      SameUnverifiable(vault, tables[t], staged[t]);
      SameUnverifiable(vault, staged[t], tables[t]);
    }
  }

  lemma StagedIsAccepted(vault: Vault, tables: seq<StagedTable>, expected: nat, medium: Medium,
                         recovered: seq<seq<Record>>)
    requires Coherent(tables) && Readable(medium, |tables|)
    requires Recovers(vault, tables, recovered) && PseudonymizedTotal(tables) == expected
    ensures var d := StagedAs(tables, medium(recovered));
            Coherent(d.tables) &&
            (Faithful(vault, tables, medium) ==>
               (StagedAccepted(vault, d, expected) <==> AllVerifiable(vault, tables)))
  {
    assert Coherent(StagedAs(tables, medium(recovered)).tables);
    if Faithful(vault, tables, medium) {
      FaithfulIsAccepted(vault, tables, expected, medium, recovered);
    }
  }

  lemma SameUnverifiable(vault: Vault, t: StagedTable, u: StagedTable)
    requires Covers(t.ledger, t.schema)
    requires u.ledger == t.ledger && u.schema == t.schema && u.pseudonymized == t.pseudonymized
    ensures HasUnverifiable(vault, t) ==> HasUnverifiable(vault, u)
  {
    if HasUnverifiable(vault, t) {
      var k, i :| 0 <= k < |t.pseudonymized| && 0 <= i < |t.schema| && !IsSystem(t.schema[i]) &&
                  UnverifiableAt(vault, t, k, i);
      assert UnverifiableAt(vault, u, k, i);
    }
  }

  /** `recover`, from the authority validation on. */
  method Recover(s: Staging<StagedDataset>, script: RecoverScript, vault: Vault, tables: seq<StagedTable>,
                 expected: nat, medium: Medium)
    returns (r: RunResult)
    requires s.Before() && s.trace == [] && !s.created && !s.rootExists && s.destination == Absent
    requires script.publish.ready == Fine && script.publish.markPromoted == Fine
    requires Coherent(tables) && Readable(medium, |tables|)
    modifies s
    ensures s.Kept(r)
    // What is published is the staged dataset of this ledger, and the self-check accepts it
    // with the true total: every published value is the reverse of its pseudonymized one.
    ensures s.destination.Ours? ==> Undisturbed(script) && Recoverable(vault, tables, expected)
    ensures s.destination.Ours? ==>
              exists recovered :: Recovers(vault, tables, recovered) &&
                s.destination.payload == StagedAs(tables, medium(recovered))
    ensures s.destination.Ours? ==> Coherent(s.destination.payload.tables)
    ensures s.destination.Ours? ==>
              StagedAccepted(vault, s.destination.payload, expected) &&
              PseudonymizedTotal(s.destination.payload.tables) == expected
    // On a faithful medium the run publishes exactly the recoverable, verifiable datasets.
    ensures Faithful(vault, tables, medium) ==>
              (s.destination.Ours? <==>
               Undisturbed(script) && Recoverable(vault, tables, expected) && AllVerifiable(vault, tables))
    // A failure before the rename leaves no staging behind unless cleanup itself failed or
    // the staging root could not be completed.
    ensures r.Failed? && !s.destination.Ours? && s.rootExists ==>
              script.publish.cleanupFails || script.create != Fine
    ensures s.destination.Ours? ==> (!s.renamed <==> script.publish.rename.InterruptedAfterRename?)
    ensures r == Finished <==>
              s.destination.Ours? && script.publish.rename == RenameOk && script.publish.markPromoted == Fine &&
              script.publish.metadata == Fine && script.publish.closing == Fine && script.publish.terminal == Fine
    ensures r == Finished ==> !s.rootExists
  {
    var f := s.Work(script.polls, script.authority);
    if f == Fine { f := script.lock; }
    if f == Fine { f := s.Work(1, script.firstPoll); }
    if f == Fine { f := s.Create(script.create, script.residue); }
    if f != Fine {
      return Close(Failed(f.exn, false), script.publish.closing);
    }
    var staged, recovered := StageRecovery(vault, tables, expected, medium);
    f := s.Work(script.polls, if staged.Err? && script.tables == Fine then Raise(TABLES_REFUSED) else script.tables);
    if f != Fine {
      r := s.Fail(f.exn, script.publish.cleanupFails);
      r := Close(r, script.publish.closing);
      return;
    }
    r := VerifyAndPublish(s, script, vault, staged.value, expected);
    StagedIsAccepted(vault, tables, expected, medium, recovered);
  }

  /** The staged self-verification and the publication of what it accepted. */
  method VerifyAndPublish(s: Staging<StagedDataset>, script: RecoverScript, vault: Vault, staged: StagedDataset,
                          expected: nat)
    returns (r: RunResult)
    requires s.Before() && s.created && s.rootExists && s.destination == Absent && Coherent(staged.tables)
    modifies s
    ensures s.Kept(r)
    ensures s.destination.Ours? <==>
              script.verify == Fine && StagedAccepted(vault, staged, expected) && Renames(script.publish)
    ensures s.destination.Ours? ==> s.destination.payload == staged
    ensures r.Failed? && !s.destination.Ours? && s.rootExists ==> script.publish.cleanupFails
    ensures s.destination.Ours? ==> (!s.renamed <==> script.publish.rename.InterruptedAfterRename?)
    ensures r == Finished <==>
              s.destination.Ours? && script.publish.rename == RenameOk && script.publish.markPromoted == Fine &&
              script.publish.metadata == Fine && script.publish.closing == Fine && script.publish.terminal == Fine
    ensures r == Finished ==> !s.rootExists
  {
    s.payload := Some(staged);
    var verdict := VerifyStagedRecovery(vault, staged, expected);
    var f := s.Work(script.polls, if verdict.Err? &&
        script.verify == Fine then Raise(STAGED_REFUSED) else script.verify);
    if f != Fine {
      r := s.Fail(f.exn, script.publish.cleanupFails);
      r := Close(r, script.publish.closing);
      return;
    }
    s.trace := s.trace + [StagedVerified(staged)];
    r := PublishVerified(s, script.publish);
  }

  // ---- a faithful medium ----

  function Reindexed(records: seq<Record>): (table: seq<Record>)
    ensures |table| == |records|
    ensures forall i :: 0 <= i < |records| ==> table[i] == records[i].(physicalIndex := i)
  {
    seq(|records|, i requires 0 <= i < |records| => records[i].(physicalIndex := i))
  }

  /** A disk that keeps every record, every schema and every file. */
  function Copying(tables: seq<StagedTable>): Medium {
    (recovered: seq<seq<Record>>) =>
      Image(seq(|tables|, t => if 0 <= t < |recovered| then Reindexed(recovered[t]) else []),
            seq(|tables|, t requires 0 <= t < |tables| => tables[t].facts),
            ExpectedFiles(tables))
  }

  lemma CopyingIsFaithful(vault: Vault, tables: seq<StagedTable>)
    requires Coherent(tables) && forall t :: 0 <= t < |tables| ==> Positional(tables[t].pseudonymized)
    ensures Readable(Copying(tables), |tables|) && Faithful(vault, tables, Copying(tables))
  {
    var medium := Copying(tables);
    assert Readable(medium, |tables|);
    forall recovered | Recovers(vault, tables, recovered)
      ensures var d := StagedAs(tables, medium(recovered));
              d.inventory == ExpectedFiles(d.tables) && StagedFrom(vault, d.tables, recovered)
    {
      CopiedIsStaged(vault, tables, recovered);
    }
  }

  lemma CopiedIsStaged(vault: Vault, tables: seq<StagedTable>, recovered: seq<seq<Record>>)
    requires Coherent(tables) && forall t :: 0 <= t < |tables| ==> Positional(tables[t].pseudonymized)
    requires Recovers(vault, tables, recovered)
    ensures var d := StagedAs(tables, Copying(tables)(recovered));
            Coherent(d.tables) && d.inventory == ExpectedFiles(d.tables) && StagedFrom(vault, d.tables, recovered)
  {
    var d := StagedAs(tables, Copying(tables)(recovered));
    SameExpectedFiles(tables, d.tables);
    forall t | 0 <= t < |tables| ensures Covers(d.tables[t].ledger, d.tables[t].schema) &&
      d.tables[t].staged == Reindexed(recovered[t]) {
      assert Covers(tables[t].ledger, tables[t].schema);
    }
    forall t | 0 <= t < |tables|
      ensures RecoversTo(vault, d.tables[t], recovered[t]) &&
              ReadsBack(recovered[t], d.tables[t].staged, d.tables[t].schema)
    {
      assert RecoversTo(vault, tables[t], recovered[t]);
    }
  }
}
