/** The whole story: when the capacity scan accepts a dataset, a text mapping exists under
    which pass 2 is total, every pseudonym fits its fields, and recovery is the identity. */
module Pipeline {
  import opened Collections
  import opened Wrappers
  import opened Records
  import opened VaultState
  import opened Pass2
  import opened Recovery
  import opened RoundTrip
  import Scan = Occurrences
  import Capacity
  import TextTokens

  /** A table as planned: `textFields` take part in the global text domain. */
  datatype PlannedTable = PlannedTable(
    tableId: string, schema: seq<SchemaField>, ds: seq<FieldDirective>, ledger: Ledger,
    textFields: seq<Scan.Field>, recordCount: nat, source: seq<Record>)

  // ---- what the capacity scan sees ----

  function CellOf(v: Value): Scan.Cell {
    match v
    case Null => Scan.Null
    case Text(s) => Scan.Text(s)
    case _ => Scan.NotText
  }

  function Cells(values: Values): (cells: map<string, Scan.Cell>)
    ensures forall name :: Scan.Get(cells, name) == CellOf(Get(values, name))
  {
    map name | name in values :: CellOf(values[name])
  }

  function ScanTable(t: PlannedTable): (s: Scan.Table)
    ensures s.recordCount == t.recordCount && s.fields == t.textFields && |s.records| == |t.source|
    ensures forall r :: 0 <= r < |t.source| ==> s.records[r] == Cells(t.source[r].values)
  {
    Scan.Table(t.recordCount, t.textFields,
               seq(|t.source|, r requires 0 <= r < |t.source| => Cells(t.source[r].values)))
  }

  function ScanTables(plan: seq<PlannedTable>): (tables: seq<Scan.Table>)
    ensures |tables| == |plan| && forall t :: 0 <= t < |plan| ==> tables[t] == ScanTable(plan[t])
  {
    seq(|plan|, t requires 0 <= t < |plan| => ScanTable(plan[t]))
  }

  lemma {:induction false} RecordHolds(record: map<string, Scan.Cell>, fields: seq<Scan.Field>, j: nat, s: string)
    requires j < |fields| && s != "" && Scan.Get(record, fields[j].name) == Scan.Text(s)
    ensures (s, fields[j].length) in Scan.RecordOccurrences(record, fields)
    decreases |fields|
  {
    if j < |fields| - 1 {
      RecordHolds(record, fields[..|fields| - 1], j, s);
    }
  }

  lemma {:induction false} RecordsHold(records: seq<map<string, Scan.Cell>>, fields: seq<Scan.Field>,
                                       r: nat, p: Scan.Occurrence)
    requires r < |records| && p in Scan.RecordOccurrences(records[r], fields)
    ensures p in Scan.RecordsOccurrences(records, fields)
    decreases |records|
  {
    if r < |records| - 1 {
      RecordsHold(records[..|records| - 1], fields, r, p);
    }
  }

  lemma {:induction false} DatasetHolds(tables: seq<Scan.Table>, t: nat, p: Scan.Occurrence)
    requires t < |tables| && p in Scan.RecordsOccurrences(tables[t].records, tables[t].fields)
    ensures p in Scan.DatasetOccurrences(tables)
    decreases |tables|
  {
    if t < |tables| - 1 {
      DatasetHolds(tables[..|tables| - 1], t, p);
    }
  }

  /** Every non-empty text value of a participating field is an occurrence. */
  lemma ValueOccurs(plan: seq<PlannedTable>, t: nat, r: nat, j: nat, s: string)
    requires t < |plan| && r < |plan[t].source| && j < |plan[t].textFields| && s != ""
    requires Get(plan[t].source[r].values, plan[t].textFields[j].name) == Text(s)
    ensures (s, plan[t].textFields[j].length) in Scan.DatasetOccurrences(ScanTables(plan))
  {
    var table := ScanTables(plan)[t];
    RecordHolds(table.records[r], table.fields, j, s);
    RecordsHold(table.records, table.fields, r, (s, table.fields[j].length));
    DatasetHolds(ScanTables(plan), t, (s, table.fields[j].length));
  }

  lemma {:induction false} RecordGives(record: map<string, Scan.Cell>, fields: seq<Scan.Field>, p: Scan.Occurrence)
    returns (j: nat)
    requires p in Scan.RecordOccurrences(record, fields)
    ensures j < |fields| && p.0 != "" && p.1 == fields[j].length && Scan.Get(record, fields[j].name) == Scan.Text(p.0)
  {
    j := |fields| - 1;
    if p !in Scan.FieldOccurrences(record, fields[j]) {
      j := RecordGives(record, fields[..j], p);
    }
  }

  lemma {:induction false} RecordsGive(records: seq<map<string, Scan.Cell>>, fields: seq<Scan.Field>,
                                       p: Scan.Occurrence) returns (r: nat)
    requires p in Scan.RecordsOccurrences(records, fields)
    ensures r < |records| && p in Scan.RecordOccurrences(records[r], fields)
  {
    r := |records| - 1;
    if p !in Scan.RecordOccurrences(records[r], fields) {
      r := RecordsGive(records[..r], fields, p);
    }
  }

  lemma {:induction false} DatasetGives(tables: seq<Scan.Table>, p: Scan.Occurrence) returns (t: nat)
    requires p in Scan.DatasetOccurrences(tables)
    ensures t < |tables| && p in Scan.RecordsOccurrences(tables[t].records, tables[t].fields)
  {
    t := |tables| - 1;
    if p !in Scan.RecordsOccurrences(tables[t].records, tables[t].fields) {
      t := DatasetGives(tables[..t], p);
    }
  }

  /** Nothing else is: every occurrence is a non-empty text value of a participating field. */
  lemma OccurrenceIsValue(plan: seq<PlannedTable>, p: Scan.Occurrence) returns (t: nat, r: nat, j: nat)
    requires p in Scan.DatasetOccurrences(ScanTables(plan))
    ensures t < |plan| && r < |plan[t].source| && j < |plan[t].textFields| && p.0 != ""
    ensures p.1 == plan[t].textFields[j].length
    ensures Get(plan[t].source[r].values, plan[t].textFields[j].name) == Text(p.0)
  {
    t := DatasetGives(ScanTables(plan), p);
    var table := ScanTables(plan)[t];
    r := RecordsGive(table.records, table.fields, p);
    j := RecordGives(table.records[r], table.fields, p);
    assert Scan.Get(Cells(plan[t].source[r].values), table.fields[j].name) ==
           CellOf(Get(plan[t].source[r].values, table.fields[j].name));
  }

  // ---- from an allocation to mapping rows ----

  lemma {:induction false} RowsOfMap(f: map<string, string>) returns (rows: seq<(string, string)>)
    requires Injective(f)
    ensures Bijective(rows)
    ensures forall i :: 0 <= i < |rows| ==> rows[i].0 in f && rows[i].1 == f[rows[i].0]
    ensures forall v :: v in f ==> (v, f[v]) in rows
    decreases |f|
  {
    if |f| == 0 {
      rows := [];
    } else {
      var v :| v in f;
      var smaller := f - {v};
      assert smaller.Keys == f.Keys - {v};
      var rest := RowsOfMap(smaller);
      rows := rest + [(v, f[v])];
      assert rows[|rest|] == (v, f[v]);
      forall u | u in f && u != v ensures (u, f[u]) in rows {
        assert (u, smaller[u]) in rest;
      }
    }
  }

  lemma RowsAnswer(f: map<string, string>, rows: seq<(string, string)>, v: string)
    requires Bijective(rows) && v in f && (v, f[v]) in rows
    ensures PseudonymOf(rows, v) == Some(f[v])
  {
  }

  // ---- the finalized vault ----

  predicate IsText(d: FieldDirective) {
    d.numericDomain.None? && d.action == Pseudonymize
  }

  ghost predicate Scanned(t: PlannedTable, name: string) {
    exists j :: 0 <= j < |t.textFields| && t.textFields[j].name == name
  }

  /** Directive `k` is a text field the scan covers, or its own state is finalized. */
  ghost predicate DirectiveReady(ctx: Context, t: PlannedTable, d: FieldDirective) {
    && d.name in ApplicationNames(t.schema) && d.name in t.ledger
    && if IsText(d) then
         && t.ledger[d.name].action == Some(Pseudonymize) && t.ledger[d.name].domain == ctx.textDomain
         && Scanned(t, d.name)
         && forall i :: 0 <= i < |t.source| ==>
              Get(t.source[i].values, d.name) == Null || Get(t.source[i].values, d.name).Text?
       else
         && BoundTo(ctx, d, t.ledger[d.name])
         && forall i :: 0 <= i < |t.source| ==>
              Observed(ctx, d, t.ledger[d.name], t.tableId, i, Get(t.source[i].values, d.name))
  }

  ghost predicate Ready(ctx: Context, t: PlannedTable) {
    && DistinctFields(t.schema) && DistinctNames(t.ds) && Covers(t.ledger, t.schema) && Positional(t.source)
    && (forall k :: 0 <= k < |t.ds| ==> DirectiveReady(ctx, t, t.ds[k]))
    && (forall i :: 0 <= i < |t.schema| && !IsSystem(t.schema[i]) && !IsTransformed(t.ds, t.schema[i].name) ==>
          t.ledger[t.schema[i].name].action == Some(Keep))
  }

  ghost predicate HasTextDomain(ctx: Context) {
    ctx.textDomain.Some? &&
    !(ctx.textDomain.value in ctx.vault.kinds && ctx.vault.kinds[ctx.textDomain.value] == NumericDomain)
  }

  /** The same state with the text domain's rows filled in. */
  function WithText(ctx: Context, rows: seq<(string, string)>): Context
    requires ctx.textDomain.Some?
  {
    ctx.(vault := ctx.vault.(text := ctx.vault.text[ctx.textDomain.value := rows]))
  }

  lemma OtherStateUnchanged(ctx: Context, rows: seq<(string, string)>, d: FieldDirective, b: Binding,
                            tableId: string, i: nat, v: Value)
    requires ctx.textDomain.Some? && !IsText(d)
    ensures BoundTo(ctx, d, b) ==> BoundTo(WithText(ctx, rows), d, b)
    ensures Observed(ctx, d, b, tableId, i, v) ==> Observed(WithText(ctx, rows), d, b, tableId, i, v)
  {
  }

  /** The rows cover every scanned value: a fitting pseudonym that differs from it. */
  ghost predicate Fits(rows: seq<(string, string)>, alphabet: string, occ: set<Scan.Occurrence>) {
    forall p :: p in occ ==>
      PseudonymOf(rows, p.0).Some? &&
      TextTokens.IsToken(PseudonymOf(rows, p.0).value, alphabet, p.1) &&
      PseudonymOf(rows, p.0).value != p.0
  }

  ghost predicate NonEmptyPseudonyms(rows: seq<(string, string)>) {
    forall i :: 0 <= i < |rows| ==> rows[i].1 != ""
  }

  lemma AllocatedRows(f: map<string, string>, occ: set<Scan.Occurrence>, alphabet: string)
    returns (rows: seq<(string, string)>)
    requires Scan.Pseudonymizes(f, occ, alphabet)
    ensures Bijective(rows) && NonEmptyPseudonyms(rows) && Fits(rows, alphabet, occ)
  {
    rows := RowsOfMap(f);
    forall p | p in occ
      ensures PseudonymOf(rows, p.0) == Some(f[p.0])
      ensures TextTokens.IsToken(f[p.0], alphabet, p.1) && f[p.0] != p.0
    {
      assert p.0 in f;
      RowsAnswer(f, rows, p.0);
    }
    forall i | 0 <= i < |rows| ensures rows[i].1 != "" {
      assert rows[i].0 in Scan.Values(occ);
      var p :| p in occ && p.0 == rows[i].0;
    }
  }

  lemma TextIsObserved(ctx: Context, plan: seq<PlannedTable>, t: nat, k: nat, i: nat,
                       rows: seq<(string, string)>, alphabet: string)
    requires HasTextDomain(ctx) && t < |plan| && k < |plan[t].ds| && i < |plan[t].source|
    requires IsText(plan[t].ds[k]) && DirectiveReady(ctx, plan[t], plan[t].ds[k])
    requires Fits(rows, alphabet, Scan.DatasetOccurrences(ScanTables(plan)))
    ensures var d := plan[t].ds[k];
            Observed(WithText(ctx, rows), d, plan[t].ledger[d.name], plan[t].tableId, i,
                     Get(plan[t].source[i].values, d.name))
  {
    var d := plan[t].ds[k];
    var v := Get(plan[t].source[i].values, d.name);
    if v.Text? && v.s != "" {
      var j :| 0 <= j < |plan[t].textFields| && plan[t].textFields[j].name == d.name;
      ValueOccurs(plan, t, i, j, v.s);
    }
  }

  lemma TextIsBound(ctx: Context, t: PlannedTable, d: FieldDirective, rows: seq<(string, string)>)
    requires HasTextDomain(ctx) && IsText(d) && DirectiveReady(ctx, t, d)
    requires Bijective(rows) && NonEmptyPseudonyms(rows)
    ensures BoundTo(WithText(ctx, rows), d, t.ledger[d.name])
  {
  }

  /** With the allocated rows, the vault is finalized for every table of the plan. */
  lemma TableIsFinalized(ctx: Context, plan: seq<PlannedTable>, t: nat, rows: seq<(string, string)>, alphabet: string)
    requires HasTextDomain(ctx) && t < |plan| && Ready(ctx, plan[t])
    requires Bijective(rows) && NonEmptyPseudonyms(rows)
    requires Fits(rows, alphabet, Scan.DatasetOccurrences(ScanTables(plan)))
    ensures Finalized(WithText(ctx, rows), plan[t].schema, plan[t].ds, plan[t].ledger, plan[t].tableId, plan[t].source)
  {
    var table, ctx' := plan[t], WithText(ctx, rows);
    forall k | 0 <= k < |table.ds| ensures BoundTo(ctx', table.ds[k], table.ledger[table.ds[k].name]) {
      assert DirectiveReady(ctx, table, table.ds[k]);
      if IsText(table.ds[k]) {
        TextIsBound(ctx, table, table.ds[k], rows);
      } else {
        OtherStateUnchanged(ctx, rows, table.ds[k], table.ledger[table.ds[k].name], table.tableId, 0, Null);
      }
    }
    forall i, k | 0 <= i < |table.source| && 0 <= k < |table.ds|
      ensures Observed(ctx', table.ds[k], table.ledger[table.ds[k].name], table.tableId, i,
                       Get(table.source[i].values, table.ds[k].name))
    {
      assert DirectiveReady(ctx, table, table.ds[k]);
      if IsText(table.ds[k]) {
        TextIsObserved(ctx, plan, t, k, i, rows, alphabet);
      } else {
        OtherStateUnchanged(ctx, rows, table.ds[k], table.ledger[table.ds[k].name], table.tableId, i,
                            Get(table.source[i].values, table.ds[k].name));
      }
    }
  }

  /** A text mapping that fits every field, is bijective and self-excluding, and finalizes
      the vault for every table of the plan. */
  ghost predicate Finalizes(rows: seq<(string, string)>, ctx: Context, plan: seq<PlannedTable>, alphabet: string)
    requires ctx.textDomain.Some?
  {
    && Bijective(rows) && NonEmptyPseudonyms(rows)
    && Fits(rows, alphabet, Scan.DatasetOccurrences(ScanTables(plan)))
    && forall t :: 0 <= t < |plan| ==>
         Finalized(WithText(ctx, rows), plan[t].schema, plan[t].ds, plan[t].ledger, plan[t].tableId, plan[t].source)
  }

  lemma AllocationFinalizes(f: map<string, string>, ctx: Context, plan: seq<PlannedTable>, alphabet: string)
    requires HasTextDomain(ctx) && forall t :: 0 <= t < |plan| ==> Ready(ctx, plan[t])
    requires Scan.Pseudonymizes(f, Scan.DatasetOccurrences(ScanTables(plan)), alphabet)
    ensures exists rows :: Finalizes(rows, ctx, plan, alphabet)
  {
    var rows := AllocatedRows(f, Scan.DatasetOccurrences(ScanTables(plan)), alphabet);
    forall t | 0 <= t < |plan|
      ensures Finalized(WithText(ctx, rows), plan[t].schema, plan[t].ds, plan[t].ledger,
                        plan[t].tableId, plan[t].source)
    {
      TableIsFinalized(ctx, plan, t, rows, alphabet);
    }
    assert Finalizes(rows, ctx, plan, alphabet);
  }

  /** Preflight to recovery: if the scan accepts, some text mapping finalizes every table, so
      that pass 2 refuses no record and recovery returns each source table; with a one-letter
      alphabet exactly when no original is rigid. If it reports a shortage, no mapping fits. */
  method AcceptedDatasetRoundTrips(plan: seq<PlannedTable>, alphabet: string, ctx: Context)
    returns (verdict: Capacity.Verdict)
    requires Distinct(alphabet) && Scan.WithinHeader(ScanTables(plan))
    requires HasTextDomain(ctx) && forall t :: 0 <= t < |plan| ==> Ready(ctx, plan[t])
    ensures verdict == Capacity.Sufficient && |alphabet| != 1 ==> exists rows :: Finalizes(rows, ctx, plan, alphabet)
    ensures verdict == Capacity.Sufficient && |alphabet| == 1 ==>
              ((exists rows :: Finalizes(rows, ctx, plan, alphabet)) <==>
               forall w: nat :: w >= 2 ==> !Scan.RigidOriginal(Scan.DatasetOccurrences(ScanTables(plan)), alphabet, w))
    ensures verdict == Capacity.Insufficient && alphabet != "" ==> !exists rows :: Finalizes(rows, ctx, plan, alphabet)
  {
    verdict := Capacity.CapacitySufficient(ScanTables(plan), alphabet);
    MappingIffFeasible(ctx, plan, alphabet);
  }

  /** A finalizing text mapping exists exactly when the dataset is feasible. */
  lemma MappingIffFeasible(ctx: Context, plan: seq<PlannedTable>, alphabet: string)
    requires HasTextDomain(ctx) && forall t :: 0 <= t < |plan| ==> Ready(ctx, plan[t])
    ensures (exists rows :: Finalizes(rows, ctx, plan, alphabet)) <==>
            Scan.DatasetFeasible(Scan.DatasetOccurrences(ScanTables(plan)), alphabet)
  {
    var occ := Scan.DatasetOccurrences(ScanTables(plan));
    if Scan.DatasetFeasible(occ, alphabet) {
      var f :| Scan.Pseudonymizes(f, occ, alphabet);
      AllocationFinalizes(f, ctx, plan, alphabet);
    }
    if rows :| Finalizes(rows, ctx, plan, alphabet) {
      FittingRowsAllocate(rows, occ, alphabet);
    }
  }

  /** Fitting rows are an allocation of the scanned originals. */
  lemma FittingRowsAllocate(rows: seq<(string, string)>, occ: set<Scan.Occurrence>, alphabet: string)
    requires Bijective(rows) && Fits(rows, alphabet, occ)
    ensures Scan.DatasetFeasible(occ, alphabet)
  {
    var f := map v | v in Scan.Values(occ) :: PseudonymOf(rows, v).GetOr("");
    forall p | p in occ ensures p.0 in f && PseudonymOf(rows, p.0) == Some(f[p.0]) {
      assert p.0 in Scan.Values(occ);
    }
    forall u, v | u in f && v in f && f[u] == f[v] ensures u == v {
      var p, q :| p in occ && p.0 == u && q in occ && q.0 == v;
      LookupInjective(rows, u, v);
    }
    assert Scan.Pseudonymizes(f, occ, alphabet);
  }

  /** What a finalized table guarantees: no refusal, the source back, and written text that
      fits its field. */
  lemma FinalizedTableRoundTrips(ctx: Context, plan: seq<PlannedTable>, t: nat, rows: seq<(string, string)>,
                                 alphabet: string, written: seq<Record>, published: seq<Record>, recovered: seq<Record>)
    requires HasTextDomain(ctx) && t < |plan| && Ready(ctx, plan[t])
    requires Bijective(rows) && NonEmptyPseudonyms(rows)
    requires Fits(rows, alphabet, Scan.DatasetOccurrences(ScanTables(plan)))
    requires TransformedTable(WithText(ctx, rows), plan[t].schema, plan[t].ds, plan[t].source, written)
    requires ReadsBack(written, published, plan[t].schema)
    requires RecoveredTable(WithText(ctx, rows).vault, plan[t].tableId, plan[t].ledger, plan[t].schema,
                            published, recovered)
    ensures SameTable(plan[t].schema, recovered, plan[t].source)
    ensures forall i, k, j ::
              (0 <= i < |written| && 0 <= k < |plan[t].ds| && 0 <= j < |plan[t].textFields| &&
               IsText(plan[t].ds[k]) && plan[t].textFields[j].name == plan[t].ds[k].name) ==>
              WrittenFits(plan[t].source[i], written[i], plan[t].textFields[j])
  {
    TableIsFinalized(ctx, plan, t, rows, alphabet);
    TableRoundTrip(WithText(ctx, rows), plan[t].schema, plan[t].ds, plan[t].ledger, plan[t].tableId,
                   plan[t].source, written, published);
    forall i, k, j | 0 <= i < |written| && 0 <= k < |plan[t].ds| && 0 <= j < |plan[t].textFields| &&
              IsText(plan[t].ds[k]) && plan[t].textFields[j].name == plan[t].ds[k].name
      ensures WrittenFits(plan[t].source[i], written[i], plan[t].textFields[j])
    {
      WrittenTextFits(ctx, plan, t, i, k, j, rows, alphabet, written);
    }
  }

  /** Non-empty text became a different non-empty text of at most the field's length;
      NULL and empty text are unchanged. */
  predicate WrittenFits(source: Record, written: Record, field: Scan.Field) {
    var before, after := Get(source.values, field.name), Get(written.values, field.name);
    if before.Text? && before.s != "" then
      after.Text? && 1 <= |after.s| <= field.length && after.s != before.s
    else after == before
  }

  lemma WrittenTextFits(ctx: Context, plan: seq<PlannedTable>, t: nat, i: nat, k: nat, j: nat,
                        rows: seq<(string, string)>, alphabet: string, written: seq<Record>)
    requires HasTextDomain(ctx) && t < |plan| && Ready(ctx, plan[t])
    requires Fits(rows, alphabet, Scan.DatasetOccurrences(ScanTables(plan)))
    requires TransformedTable(WithText(ctx, rows), plan[t].schema, plan[t].ds, plan[t].source, written)
    requires i < |plan[t].source| && k < |plan[t].ds| && j < |plan[t].textFields|
    requires IsText(plan[t].ds[k]) && plan[t].textFields[j].name == plan[t].ds[k].name
    ensures WrittenFits(plan[t].source[i], written[i], plan[t].textFields[j])
  {
    var table, d := plan[t], plan[t].ds[k];
    var v := Get(table.source[i].values, d.name);
    assert DirectiveReady(ctx, table, d);
    ApplicationIsNotSystem(table.schema, table.source[i].values, d.name);
    assert TransformedRecord(WithText(ctx, rows), table.schema, table.ds, table.source[i], written[i]);
    assert TransformValue(WithText(ctx, rows), d, v) == Ok(Get(written[i].values, d.name));
    if v.Text? && v.s != "" {
      ValueOccurs(plan, t, i, j, v.s);
      assert Rows(WithText(ctx, rows).vault.text, ctx.textDomain.value) == rows;
    }
  }
}
