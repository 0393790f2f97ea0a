/** All tables of one recovery: producing the staged dataset and its self-verification
    (recovery.py, _recover_tables and _verify_staged_recovery). */
module StagedRecovery {
  import opened Wrappers
  import opened Records
  import opened VaultState
  import opened Recovery

  /** What the producer writes for one table. */
  ghost predicate RecoversTo(vault: Vault, t: StagedTable, recovered: seq<Record>)
    requires Covers(t.ledger, t.schema)
  {
    RecoveredTable(vault, t.tableId, t.ledger, t.schema, t.pseudonymized, recovered)
  }

  /** `_recover_tables`: every durable table in order, then the receipt's record total. */
  method RecoverTables(vault: Vault, tables: seq<StagedTable>, expected: nat)
    returns (r: Fallible<seq<seq<Record>>>)
    requires Coherent(tables)
    ensures r.Ok? ==> |r.value| == |tables| && PseudonymizedTotal(tables) == expected
    ensures r.Ok? ==> forall t :: 0 <= t < |tables| ==> RecoversTo(vault, tables[t], r.value[t])
    ensures r.Err? ==> PseudonymizedTotal(tables) != expected ||
                       exists t, i :: 0 <= t < |tables| && 0 <= i < |tables[t].pseudonymized| &&
                         RecoveryRefused(vault, tables[t].tableId, tables[t].ledger, tables[t].schema,
                                         tables[t].pseudonymized[i], r.error)
  {
    var out: seq<seq<Record>>, total := [], 0;
    for t := 0 to |tables|
      invariant |out| == t && total == PseudonymizedTotal(tables[..t])
      invariant forall k :: 0 <= k < t ==> RecoversTo(vault, tables[k], out[k])
    {
      var recovered := RecoverStream(vault, tables[t].tableId, tables[t].ledger, tables[t].schema,
                                     tables[t].pseudonymized);
      if recovered.Err? {
        return Err(recovered.error);
      }
      assert tables[..t + 1][..t] == tables[..t];
      total := total + |recovered.value|;
      out := out + [recovered.value];
    }
    assert tables[..|tables|] == tables;
    if total != expected {
      return Err(RecordCountMismatch);
    }
    r := Ok(out);
  }

  /** The staged dataset is the faithful read-back of what the producer wrote. */
  ghost predicate StagedFrom(vault: Vault, tables: seq<StagedTable>, recovered: seq<seq<Record>>)
    requires Coherent(tables)
  {
    && |recovered| == |tables|
    && forall t :: 0 <= t < |tables| ==>
         && RecoversTo(vault, tables[t], recovered[t])
         && ReadsBack(recovered[t], tables[t].staged, tables[t].schema)
         && Positional(tables[t].pseudonymized) && tables[t].facts == tables[t].stagedFacts
  }

  /** Some pseudonymized value is one the check cannot accept. */
  ghost predicate HasUnverifiable(vault: Vault, t: StagedTable)
    requires Covers(t.ledger, t.schema)
  {
    exists k, i :: 0 <= k < |t.pseudonymized| && 0 <= i < |t.schema| && !IsSystem(t.schema[i]) &&
                   UnverifiableAt(vault, t, k, i)
  }

  ghost predicate UnverifiableAt(vault: Vault, t: StagedTable, k: nat, i: nat)
    requires Covers(t.ledger, t.schema)
    requires k < |t.pseudonymized| && i < |t.schema| && !IsSystem(t.schema[i])
  {
    Unverifiable(vault, t.ledger[t.schema[i].name],
                     Get(t.pseudonymized[k].values, t.schema[i].name))
  }

  lemma StagedFieldPasses(vault: Vault, t: StagedTable, recovered: seq<Record>, k: nat, i: nat)
    requires Covers(t.ledger, t.schema)
    requires RecoversTo(vault, t, recovered) && ReadsBack(recovered, t.staged, t.schema)
    requires k < |t.pseudonymized| && i < |t.schema| && !IsSystem(t.schema[i])
    ensures |t.staged| == |t.pseudonymized|
    ensures CheckField(vault, t.tableId, t.pseudonymized[k].physicalIndex, t.ledger[t.schema[i].name],
                       Get(t.pseudonymized[k].values, t.schema[i].name),
                       Get(t.staged[k].values, t.schema[i].name)).Ok? <==>
            !UnverifiableAt(vault, t, k, i)
  {
  }

  lemma StagedTablePasses(vault: Vault, t: StagedTable, recovered: seq<Record>)
    requires Covers(t.ledger, t.schema)
    requires RecoversTo(vault, t, recovered) && ReadsBack(recovered, t.staged, t.schema)
    requires Positional(t.pseudonymized)
    ensures |t.staged| == |t.pseudonymized|
    ensures CheckedPrefix(vault, t.tableId, t.ledger, t.schema, t.pseudonymized, t.staged) <==>
            !HasUnverifiable(vault, t)
  {
    forall k, i | 0 <= k < |t.pseudonymized| && 0 <= i < |t.schema| && !IsSystem(t.schema[i])
      ensures CheckField(vault, t.tableId, t.pseudonymized[k].physicalIndex, t.ledger[t.schema[i].name],
                         Get(t.pseudonymized[k].values, t.schema[i].name),
                         Get(t.staged[k].values, t.schema[i].name)).Ok? <==>
              !UnverifiableAt(vault, t, k, i)
    {
      StagedFieldPasses(vault, t, recovered, k, i);
    }
    if k, i :| 0 <= k < |t.pseudonymized| && 0 <= i < |t.schema| && !IsSystem(t.schema[i]) &&
               UnverifiableAt(vault, t, k, i) {
      assert !CheckedRecord(vault, t.tableId, t.ledger, t.schema, t.pseudonymized[k], t.staged[k]);
    } else {
      forall k | 0 <= k < |t.staged|
        ensures CheckedRecord(vault, t.tableId, t.ledger, t.schema, t.pseudonymized[k], t.staged[k])
      {
      }
    }
  }

  /** The self-check accepts a faithfully staged recovery exactly when no table holds an
      unverifiable value. */
  lemma SelfCheckAcceptsExactly(vault: Vault, tables: seq<StagedTable>, recovered: seq<seq<Record>>)
    requires Coherent(tables) && StagedFrom(vault, tables, recovered)
    ensures TablesPass(vault, tables) <==>
            forall t :: 0 <= t < |tables| ==> !HasUnverifiable(vault, tables[t])
    ensures forall t :: 0 <= t < |tables| ==> |tables[t].staged| == |tables[t].pseudonymized|
  {
    forall t | 0 <= t < |tables|
      ensures |tables[t].staged| == |tables[t].pseudonymized|
      ensures CheckedPrefix(vault, tables[t].tableId, tables[t].ledger, tables[t].schema,
                            tables[t].pseudonymized, tables[t].staged) <==>
              !HasUnverifiable(vault, tables[t])
    {
      StagedTablePasses(vault, tables[t], recovered[t]);
    }
  }
}
