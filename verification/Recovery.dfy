/** The reverse transformation and the separately written staged self-check
    (recovery.py, _reverse_value .. _staged_memo_payload). */
module Recovery {
  import opened Wrappers
  import opened Records
  import opened VaultState
  import opened Pass2
  import opened BundlePaths

  /** One row of the durable field-policy ledger. */
  datatype Binding = Binding(fieldId: string, action: Option<Action>, domain: Option<DomainId>)

  type Ledger = map<string, Binding>

  // ---- producer ----

  function ReverseMapping(vault: Vault, domain: DomainId, value: Value): Fallible<Value> {
    if domain in vault.kinds && vault.kinds[domain] == NumericDomain then
      if !value.Int? then Err(MappingInvalid) else
      match OriginalOf(Rows(vault.numeric, domain), value.n)
      case Some(o) => Ok(Int(o))
      case None => Err(MappingMissing)
    else
      if !value.Text? then Err(MappingInvalid) else
      match OriginalOf(Rows(vault.text, domain), value.s)
      case Some(o) => Ok(Text(o))
      case None => Err(MappingMissing)
  }

  /** `_reverse_value` */
  function ReverseValue(vault: Vault, tableId: string, index: nat, binding: Binding,
                        offset: Option<int>, value: Value): Fallible<Value>
  {
    if binding.action.None? then Err(LedgerIncomplete) else
    match binding.action.value
    case Keep => Ok(value)
    case Mask =>
      if value == Null then Ok(Null)
      else if (tableId, index, binding.fieldId) !in vault.memos then Err(RecoveryRowMissing)
      else Ok(MemoValue(vault.memos[(tableId, index, binding.fieldId)]))
    case Shift =>
      if offset.None? then Ok(Null) else TemporalShift(value, -offset.value)
    case Pseudonymize =>
      if value == Null || value == Text("") then Ok(value)
      else if binding.domain.None? then Err(MappingMissing)
      else ReverseMapping(vault, binding.domain.value, value)
    case UnknownAction(_) => Err(LedgerIncomplete)
  }

  /** The shift offset is looked up only for shifted fields with a domain. */
  function BindingOffset(vault: Vault, binding: Binding): Fallible<Option<int>> {
    if binding.action == Some(Shift) && binding.domain.Some?
    then StoredOffset(vault, binding.domain.value)
    else Ok(None)
  }

  /** The recovered value of one field, as the recovery stream computes it. */
  function RecoverField(vault: Vault, tableId: string, index: nat, binding: Binding, value: Value)
    : Fallible<Value>
  {
    if binding.action.None? then Err(LedgerIncomplete) else
    var offset :- BindingOffset(vault, binding);
    ReverseValue(vault, tableId, index, binding, offset, value)
  }

  /** Every application field has a ledger row. */
  ghost predicate Covers(ledger: Ledger, schema: seq<SchemaField>) {
    forall i :: 0 <= i < |schema| && !IsSystem(schema[i]) ==> schema[i].name in ledger
  }

  ghost predicate RecoveredValues(vault: Vault, tableId: string, ledger: Ledger,
                                  schema: seq<SchemaField>, index: nat, before: Values, after: Values)
    requires Covers(ledger, schema)
  {
    forall i :: 0 <= i < |schema| && !IsSystem(schema[i]) ==>
      RecoverField(vault, tableId, index, ledger[schema[i].name], Get(before, schema[i].name)) ==
      Ok(Get(after, schema[i].name))
  }

  ghost predicate RecoveryRefused(vault: Vault, tableId: string, ledger: Ledger,
                                  schema: seq<SchemaField>, record: Record, code: ErrorCode)
    requires Covers(ledger, schema)
  {
    exists i :: 0 <= i < |schema| && !IsSystem(schema[i]) &&
      RecoverField(vault, tableId, record.physicalIndex, ledger[schema[i].name],
                   Get(record.values, schema[i].name)) == Err(code)
  }

  method RecoverValues(vault: Vault, tableId: string, ledger: Ledger, schema: seq<SchemaField>,
                       record: Record)
    returns (r: Fallible<Values>)
    requires Covers(ledger, schema)
    ensures r.Ok? ==> RecoveredValues(vault, tableId, ledger, schema, record.physicalIndex,
                                      record.values, r.value)
    ensures r.Ok? ==> r.value.Keys == ApplicationNames(schema)
    ensures r.Err? ==> RecoveryRefused(vault, tableId, ledger, schema, record, r.error)
  {
    var values: Values := map[];
    for i := 0 to |schema|
      invariant values.Keys == set k | 0 <= k < i && !IsSystem(schema[k]) :: schema[k].name
      invariant forall k :: 0 <= k < i && !IsSystem(schema[k]) ==>
                  RecoverField(vault, tableId, record.physicalIndex, ledger[schema[k].name],
                               Get(record.values, schema[k].name)) ==
                  Ok(Get(values, schema[k].name))
    {
      if !IsSystem(schema[i]) {
        var name := schema[i].name;
        var out := RecoverField(vault, tableId, record.physicalIndex, ledger[name],
                                Get(record.values, name));
        if out.Err? {
          return Err(out.error);
        }
        values := values[name := out.value];
      }
    }
    r := Ok(values);
  }

  ghost predicate RecoveredTable(vault: Vault, tableId: string, ledger: Ledger,
                                 schema: seq<SchemaField>, before: seq<Record>, after: seq<Record>)
    requires Covers(ledger, schema)
  {
    && |after| == |before|
    && forall i :: 0 <= i < |before| ==>
         after[i].deleted == before[i].deleted &&
         RecoveredValues(vault, tableId, ledger, schema, before[i].physicalIndex,
                         before[i].values, after[i].values)
  }

  /** `_recovered_records`; the writer assigns fresh physical indices. */
  method RecoverStream(vault: Vault, tableId: string, ledger: Ledger, schema: seq<SchemaField>,
                       records: seq<Record>)
    returns (r: Fallible<seq<Record>>)
    requires Covers(ledger, schema)
    ensures r.Ok? ==> RecoveredTable(vault, tableId, ledger, schema, records, r.value)
    ensures r.Ok? ==> forall i :: 0 <= i < |r.value| ==>
                        r.value[i].physicalIndex == 0 && r.value[i].values.Keys == ApplicationNames(schema)
    ensures r.Err? ==> exists i :: 0 <= i < |records| &&
                         RecoveryRefused(vault, tableId, ledger, schema, records[i], r.error)
  {
    var out: seq<Record> := [];
    for i := 0 to |records|
      invariant |out| == i
      invariant forall k :: 0 <= k < i ==> out[k].physicalIndex == 0 && out[k].values.Keys == ApplicationNames(schema)
      invariant forall k :: 0 <= k < i ==>
                  out[k].deleted == records[k].deleted &&
                  RecoveredValues(vault, tableId, ledger, schema, records[k].physicalIndex,
                                  records[k].values, out[k].values)
    {
      var values := RecoverValues(vault, tableId, ledger, schema, records[i]);
      if values.Err? {
        return Err(values.error);
      }
      out := out + [Record(0, records[i].deleted, values.value)];
    }
    r := Ok(out);
  }

  // ---- checker ----

  /** `_reverse_agrees` */
  predicate ReverseAgrees(vault: Vault, domain: Option<DomainId>, pseudonymized: Value, staged: Value) {
    if pseudonymized == Null || pseudonymized == Text("") then staged == pseudonymized
    else if domain.None? then false
    else if domain.value in vault.kinds && vault.kinds[domain.value] == NumericDomain then
      staged.Int? && pseudonymized.Int? &&
      OriginalOf(Rows(vault.numeric, domain.value), pseudonymized.n) == Some(staged.n)
    else
      staged.Text? && pseudonymized.Text? &&
      OriginalOf(Rows(vault.text, domain.value), pseudonymized.s) == Some(staged.s)
  }

  function Require(condition: bool): Fallible<()> {
    if condition then Ok(()) else Err(StagedInvalid)
  }

  /** The staged comparison of one field, written independently of the producer. */
  function CheckField(vault: Vault, tableId: string, index: nat, binding: Binding,
                      pseudonymized: Value, staged: Value): Fallible<()>
  {
    match binding.action
    case Some(Keep) => Require(SameValue(staged, pseudonymized))
    case Some(Mask) =>
      if pseudonymized == Null then Require(staged == Null)
      else
        var key := (tableId, index, binding.fieldId);
        Require(key in vault.memos && SameValue(staged, MemoValue(vault.memos[key])))
    case Some(Shift) =>
      var offset :- BindingOffset(vault, binding);
      if offset.None? then Require(SameValue(staged, pseudonymized))
      else
        var expected :- TemporalShift(pseudonymized, -offset.value);
        Require(SameValue(staged, expected))
    case Some(Pseudonymize) => Require(ReverseAgrees(vault, binding.domain, pseudonymized, staged))
    case _ => Err(LedgerIncomplete)
  }

  /** A non-NULL shifted value without a stored offset. */
  predicate UnshiftedRemnant(vault: Vault, binding: Binding, value: Value) {
    binding.action == Some(Shift) && BindingOffset(vault, binding) == Ok(None) && value != Null
  }

  /** A kept value that is unequal to itself. */
  predicate SelfUnequal(binding: Binding, value: Value) {
    binding.action == Some(Keep) && value == NaN
  }

  /** The two shapes on which producer and checker part. */
  predicate Unverifiable(vault: Vault, binding: Binding, value: Value) {
    UnshiftedRemnant(vault, binding, value) || SelfUnequal(binding, value)
  }

  /** Wherever the producer succeeds, its result passes the independent check, except for an
      unverifiable value: there the check always refuses, and for an unshifted remnant the
      producer has written NULL. */
  lemma ProducerPassesCheck(vault: Vault, tableId: string, index: nat, binding: Binding,
                            pseudonymized: Value, recovered: Value)
    requires RecoverField(vault, tableId, index, binding, pseudonymized) == Ok(recovered)
    ensures CheckField(vault, tableId, index, binding, pseudonymized, recovered).Ok? <==>
            !Unverifiable(vault, binding, pseudonymized)
    ensures Unverifiable(vault, binding, pseudonymized) ==>
              CheckField(vault, tableId, index, binding, pseudonymized, recovered) == Err(StagedInvalid)
    ensures UnshiftedRemnant(vault, binding, pseudonymized) ==> recovered == Null
  {
    assert binding.action.Some?;
    match binding.action.value
    case Pseudonymize =>
    case Keep =>
    case Mask =>
    case Shift =>
      ShiftIsNumber(vault, binding, pseudonymized);
    case UnknownAction(_) =>
  }

  /** A shifted value is NULL or a date, never a value unequal to itself. */
  lemma ShiftIsNumber(vault: Vault, binding: Binding, value: Value)
    ensures forall days :: TemporalShift(value, days).Ok? ==> TemporalShift(value, days).value != NaN
  {
  }

  /** An accepted value is the reverse value, wherever a reverse value exists. */
  lemma CheckMeansReversed(vault: Vault, tableId: string, index: nat, binding: Binding,
                           pseudonymized: Value, staged: Value)
    requires CheckField(vault, tableId, index, binding, pseudonymized, staged).Ok?
    ensures UnshiftedRemnant(vault, binding, pseudonymized) || (
              && RecoverField(vault, tableId, index, binding, pseudonymized).Ok?
              && SameValue(staged, RecoverField(vault, tableId, index, binding, pseudonymized).value))
  {
    assert binding.action.Some?;
    match binding.action.value
    case Pseudonymize =>
    case Keep =>
    case Mask =>
    case Shift =>
    case UnknownAction(_) =>
  }

  /** A stored offset of zero is corrupt state: neither recovery nor the self-check goes on. */
  lemma ZeroOffsetIsRefused(vault: Vault, tableId: string, index: nat, binding: Binding, value: Value, staged: Value)
    requires binding.action == Some(Shift) && binding.domain.Some?
    requires binding.domain.value in vault.offsets && vault.offsets[binding.domain.value] == 0
    ensures RecoverField(vault, tableId, index, binding, value) == Err(VaultUnreadable)
    ensures CheckField(vault, tableId, index, binding, value, staged) == Err(VaultUnreadable)
  {
  }

  // ---- one staged table ----

  ghost predicate CheckedRecord(vault: Vault, tableId: string, ledger: Ledger,
                                schema: seq<SchemaField>, p: Record, s: Record)
    requires Covers(ledger, schema)
  {
    && p.physicalIndex == s.physicalIndex
    && p.deleted == s.deleted
    && forall i :: 0 <= i < |schema| && !IsSystem(schema[i]) ==>
         CheckField(vault, tableId, p.physicalIndex, ledger[schema[i].name],
                    Get(p.values, schema[i].name), Get(s.values, schema[i].name)).Ok?
  }

  method CheckRecord(vault: Vault, tableId: string, ledger: Ledger, schema: seq<SchemaField>,
                     p: Record, s: Record)
    returns (r: Fallible<()>)
    requires Covers(ledger, schema)
    ensures r.Ok? <==> CheckedRecord(vault, tableId, ledger, schema, p, s)
  {
    if p.physicalIndex != s.physicalIndex || p.deleted != s.deleted {
      return Err(StagedInvalid);
    }
    for i := 0 to |schema|
      invariant forall k :: 0 <= k < i && !IsSystem(schema[k]) ==>
                  CheckField(vault, tableId, p.physicalIndex, ledger[schema[k].name],
                             Get(p.values, schema[k].name), Get(s.values, schema[k].name)).Ok?
    {
      if !IsSystem(schema[i]) {
        var name := schema[i].name;
        var out := CheckField(vault, tableId, p.physicalIndex, ledger[name],
                              Get(p.values, name), Get(s.values, name));
        if out.Err? {
          return out;
        }
      }
    }
    r := Ok(());
  }

  /** The logical schema facts of a table: name, type, width, decimals and memo flag of each
      field, the encoding and the language driver. */
  datatype SchemaFacts = SchemaFacts(
    fields: seq<(string, string, nat, nat, bool)>, encoding: string, languageDriver: int)

  /** The streams agree record by record for the length of the staged table. */
  ghost predicate CheckedPrefix(vault: Vault, tableId: string, ledger: Ledger,
                                schema: seq<SchemaField>, ps: seq<Record>, ss: seq<Record>)
    requires Covers(ledger, schema)
  {
    |ss| <= |ps| &&
    forall k :: 0 <= k < |ss| ==> CheckedRecord(vault, tableId, ledger, schema, ps[k], ss[k])
  }

  /** `_verify_staged_table`. The paired iteration draws a pseudonymized record before it
      notices that the staged stream is exhausted, so one surplus pseudonymized record
      goes unnoticed. */
  method VerifyStagedTable(vault: Vault, tableId: string, ledger: Ledger, schema: seq<SchemaField>,
                           facts: SchemaFacts, stagedFacts: SchemaFacts, ps: seq<Record>, ss: seq<Record>)
    returns (r: Fallible<nat>)
    requires Covers(ledger, schema)
    ensures r.Ok? <==>
              facts == stagedFacts && CheckedPrefix(vault, tableId, ledger, schema, ps, ss) && |ps| <= |ss| + 1
    ensures r.Ok? ==> r.value == |ss|
  {
    if facts != stagedFacts {
      return Err(StagedInvalid);
    }
    var p, s := 0, 0;
    while true
      invariant 0 <= s == p <= |ps| && s <= |ss|
      invariant forall k :: 0 <= k < s ==> CheckedRecord(vault, tableId, ledger, schema, ps[k], ss[k])
      decreases |ps| - p
    {
      if p == |ps| {
        break;
      }
      p := p + 1;
      if s == |ss| {
        break;
      }
      s := s + 1;
      var out := CheckRecord(vault, tableId, ledger, schema, ps[p - 1], ss[s - 1]);
      if out.Err? {
        return Err(out.error);
      }
    }
    var extraPseudonymized, extraStaged := |ps| - p, |ss| - s;
    if extraPseudonymized != 0 || extraStaged != 0 {
      return Err(StagedInvalid);
    }
    r := Ok(s);
  }

  // ---- the whole staged dataset ----

  /** A ledger table: its pseudonymized side and what is staged under its path. */
  datatype StagedTable = StagedTable(
    path: string, tableId: string, ledger: Ledger, schema: seq<SchemaField>, memo: bool,
    facts: SchemaFacts, stagedFacts: SchemaFacts, pseudonymized: seq<Record>, staged: seq<Record>)

  /** A staged dataset: its tables and all its files. */
  datatype StagedDataset = StagedDataset(tables: seq<StagedTable>, inventory: set<string>)

  /** Each table, and its memo companion when it has memo fields. */
  function ExpectedFiles(tables: seq<StagedTable>): set<string> {
    if tables == [] then {} else
    var t := tables[|tables| - 1];
    ExpectedFiles(tables[..|tables| - 1]) + {t.path} + if t.memo then {Companion(t.path)} else {}
  }

  /** The file is a ledger table or the memo companion of one. */
  ghost predicate Belongs(file: string, tables: seq<StagedTable>) {
    exists t :: 0 <= t < |tables| && (file == tables[t].path || (tables[t].memo && file == Companion(tables[t].path)))
  }

  lemma {:induction false} ExpectedIffBelongs(tables: seq<StagedTable>, file: string)
    ensures file in ExpectedFiles(tables) <==> Belongs(file, tables)
  {
    if tables != [] {
      var n := |tables| - 1;
      ExpectedIffBelongs(tables[..n], file);
      forall t | 0 <= t < n ensures tables[..n][t] == tables[t] {}
    }
  }

  /** The inventory comparison: no file is missing and none is foreign. */
  method VerifyStagedInventory(d: StagedDataset) returns (r: Fallible<()>)
    ensures r.Ok? <==> d.inventory == ExpectedFiles(d.tables)
    ensures r.Ok? <==> forall file :: file in d.inventory <==> Belongs(file, d.tables)
    ensures r.Err? ==> r.error == StagedInvalid
  {
    var expected: set<string> := {};
    for t := 0 to |d.tables|
      invariant expected == ExpectedFiles(d.tables[..t])
    {
      assert d.tables[..t + 1][..t] == d.tables[..t];
      expected := expected + {d.tables[t].path};
      if d.tables[t].memo {
        expected := expected + {Companion(d.tables[t].path)};
      }
    }
    assert d.tables[..|d.tables|] == d.tables;
    InventoryIsExact(d);
    r := if d.inventory != expected then Err(StagedInvalid) else Ok(());
  }

  lemma InventoryIsExact(d: StagedDataset)
    ensures d.inventory == ExpectedFiles(d.tables) <==> forall file :: file in d.inventory <==> Belongs(file, d.tables)
  {
    forall file ensures file in ExpectedFiles(d.tables) <==> Belongs(file, d.tables) {
      ExpectedIffBelongs(d.tables, file);
    }
  }

  ghost predicate Coherent(tables: seq<StagedTable>) {
    forall t :: 0 <= t < |tables| ==> Covers(tables[t].ledger, tables[t].schema)
  }

  function PseudonymizedTotal(tables: seq<StagedTable>): nat {
    if tables == [] then 0 else
    PseudonymizedTotal(tables[..|tables| - 1]) + |tables[|tables| - 1].pseudonymized|
  }

  function StagedTotal(tables: seq<StagedTable>): nat {
    if tables == [] then 0 else
    StagedTotal(tables[..|tables| - 1]) + |tables[|tables| - 1].staged|
  }

  /** Each table passes on its own, possibly with one surplus record. */
  ghost predicate TablesPass(vault: Vault, tables: seq<StagedTable>)
    requires Coherent(tables)
  {
    forall t :: 0 <= t < |tables| ==>
      tables[t].facts == tables[t].stagedFacts &&
      CheckedPrefix(vault, tables[t].tableId, tables[t].ledger, tables[t].schema,
                    tables[t].pseudonymized, tables[t].staged) &&
      |tables[t].pseudonymized| <= |tables[t].staged| + 1
  }

  /** The table loop and the cross-table total of `_verify_staged_recovery`. */
  method VerifyStagedRecords(vault: Vault, tables: seq<StagedTable>, expected: nat)
    returns (r: Fallible<()>)
    requires Coherent(tables)
    ensures r.Ok? <==> TablesPass(vault, tables) && StagedTotal(tables) == expected
    // The closed gap: with the total of the pseudonymized records as the expectation,
    // acceptance means equal lengths table by table.
    ensures expected == PseudonymizedTotal(tables) ==>
              (r.Ok? <==> TablesPass(vault, tables) &&
                          forall t :: 0 <= t < |tables| ==>
                            |tables[t].staged| == |tables[t].pseudonymized|)
  {
    var total := 0;
    for t := 0 to |tables|
      invariant total == StagedTotal(tables[..t])
      invariant forall k :: 0 <= k < t ==>
                  tables[k].facts == tables[k].stagedFacts &&
                  CheckedPrefix(vault, tables[k].tableId, tables[k].ledger, tables[k].schema,
                                tables[k].pseudonymized, tables[k].staged) &&
                  |tables[k].pseudonymized| <= |tables[k].staged| + 1
    {
      var out := VerifyStagedTable(vault, tables[t].tableId, tables[t].ledger, tables[t].schema,
                                   tables[t].facts, tables[t].stagedFacts,
                                   tables[t].pseudonymized, tables[t].staged);
      if out.Err? {
        return Err(out.error);
      }
      assert tables[..t + 1][..t] == tables[..t];
      total := total + out.value;
    }
    assert tables[..|tables|] == tables;
    TotalClosesGap(vault, tables);
    if total != expected {
      return Err(StagedInvalid);
    }
    r := Ok(());
  }

  /** `_verify_staged_recovery`: the inventory, every table and the cross-table total. */
  method VerifyStagedRecovery(vault: Vault, d: StagedDataset, expected: nat) returns (r: Fallible<()>)
    requires Coherent(d.tables)
    ensures r.Ok? <==> StagedAccepted(vault, d, expected)
    ensures r.Ok? && expected == PseudonymizedTotal(d.tables) ==>
              forall t :: 0 <= t < |d.tables| ==> |d.tables[t].staged| == |d.tables[t].pseudonymized|
  {
    var inventory := VerifyStagedInventory(d);
    if inventory.Err? {
      return inventory;
    }
    r := VerifyStagedRecords(vault, d.tables, expected);
  }

  ghost predicate StagedAccepted(vault: Vault, d: StagedDataset, expected: nat)
    requires Coherent(d.tables)
  {
    d.inventory == ExpectedFiles(d.tables) && TablesPass(vault, d.tables) && StagedTotal(d.tables) == expected
  }

  /** No table is longer staged than pseudonymized, so equal totals mean equal lengths. */
  lemma {:induction false} TotalClosesGap(vault: Vault, tables: seq<StagedTable>)
    requires Coherent(tables) && TablesPass(vault, tables)
    ensures StagedTotal(tables) <= PseudonymizedTotal(tables)
    ensures StagedTotal(tables) == PseudonymizedTotal(tables) <==>
            forall t :: 0 <= t < |tables| ==> |tables[t].staged| == |tables[t].pseudonymized|
  {
    if tables != [] {
      var n := |tables| - 1;
      TotalClosesGap(vault, tables[..n]);
      forall t | 0 <= t < n ensures tables[..n][t] == tables[t] {}
    }
  }

  /** One table alone: dropping the last staged record of an accepted table is accepted. */
  lemma SurplusGoesUnnoticed(vault: Vault, tableId: string, ledger: Ledger, schema: seq<SchemaField>,
                             ps: seq<Record>, ss: seq<Record>)
    requires Covers(ledger, schema) && |ps| == |ss| > 0
    requires CheckedPrefix(vault, tableId, ledger, schema, ps, ss)
    ensures var shortened := ss[..|ss| - 1];
            CheckedPrefix(vault, tableId, ledger, schema, ps, shortened) && |ps| <= |shortened| + 1
  {
    var shortened := ss[..|ss| - 1];
    forall k | 0 <= k < |shortened|
      ensures CheckedRecord(vault, tableId, ledger, schema, ps[k], shortened[k])
    {
      assert shortened[k] == ss[k];
    }
  }

  /** The same value, or True for 1 and False for 0 in either direction. */
  predicate EqualUpToBool(a: Value, b: Value) {
    a == b || {a, b} == {Bool(true), Int(1)} || {a, b} == {Bool(false), Int(0)}
  }

  /** With equal lengths, every staged value is the reverse value of its pseudonymized one. */
  lemma AcceptedIsReversed(vault: Vault, tables: seq<StagedTable>, t: nat, k: nat, i: nat)
    requires Coherent(tables) && TablesPass(vault, tables)
    requires StagedTotal(tables) == PseudonymizedTotal(tables)
    requires t < |tables| && k < |tables[t].pseudonymized|
    requires i < |tables[t].schema| && !IsSystem(tables[t].schema[i])
    ensures |tables[t].staged| == |tables[t].pseudonymized|
    ensures tables[t].facts == tables[t].stagedFacts
    ensures tables[t].staged[k].deleted == tables[t].pseudonymized[k].deleted
    ensures tables[t].staged[k].physicalIndex == tables[t].pseudonymized[k].physicalIndex
    ensures var p, s := tables[t].pseudonymized[k], tables[t].staged[k];
            var name := tables[t].schema[i].name;
            var binding := tables[t].ledger[name];
            UnshiftedRemnant(vault, binding, Get(p.values, name)) || (
              && RecoverField(vault, tables[t].tableId, p.physicalIndex, binding, Get(p.values, name)).Ok?
              && EqualUpToBool(Get(s.values, name),
                   RecoverField(vault, tables[t].tableId, p.physicalIndex, binding, Get(p.values, name)).value))
  {
    TotalClosesGap(vault, tables);
    var p, s := tables[t].pseudonymized[k], tables[t].staged[k];
    var name := tables[t].schema[i].name;
    assert CheckedRecord(vault, tables[t].tableId, tables[t].ledger, tables[t].schema, p, s);
    CheckMeansReversed(vault, tables[t].tableId, p.physicalIndex, tables[t].ledger[name],
                       Get(p.values, name), Get(s.values, name));
    if !UnshiftedRemnant(vault, tables[t].ledger[name], Get(p.values, name)) {
      SameValueMeans(Get(s.values, name),
        RecoverField(vault, tables[t].tableId, p.physicalIndex, tables[t].ledger[name], Get(p.values, name)).value);
    }
  }

  /** The comparison of the host language is equality up to the two truth values; only a value
      that is unequal to itself is never accepted. */
  lemma SameValueMeans(a: Value, b: Value)
    ensures SameValue(a, b) <==> EqualUpToBool(a, b) && a != NaN
  {
    if SameValue(a, b) && a != b {
      if a.Bool? {
        assert b == Int(if a.b then 1 else 0);
      } else {
        assert b.Bool? && a == Int(if b.b then 1 else 0);
      }
    }
    if {a, b} == {Bool(true), Int(1)} {
      assert a in {Bool(true), Int(1)} && b in {Bool(true), Int(1)} && Bool(true) in {a, b} && Int(1) in {a, b};
    }
    if {a, b} == {Bool(false), Int(0)} {
      assert a in {Bool(false), Int(0)} && b in {Bool(false), Int(0)} && Bool(false) in {a, b} && Int(0) in {a, b};
    }
  }
}
