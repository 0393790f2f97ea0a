/** Text occurrences of a dataset: which original occurs in a field of which width. */
module Occurrences {
  import opened Collections
  import opened TextTokens
  import opened Hall

  /** One decoded field value as the capacity scan distinguishes it. */
  datatype Cell = Null | Text(s: string) | NotText

  datatype Field = Field(name: string, length: nat)

  /** A table with the fields that participate in the global text domain. */
  datatype Table = Table(recordCount: nat, fields: seq<Field>, records: seq<map<string, Cell>>)

  /** An original together with the width of a field it occurs in. */
  type Occurrence = (string, nat)

  function Get(record: map<string, Cell>, name: string): Cell {
    if name in record then record[name] else Null
  }

  /** NULL, empty and non-text values do not consume capacity. */
  function FieldOccurrences(record: map<string, Cell>, field: Field): set<Occurrence> {
    match Get(record, field.name)
    case Text(s) => if s == "" then {} else {(s, field.length)}
    case _ => {}
  }

  ghost function RecordOccurrences(record: map<string, Cell>, fields: seq<Field>): set<Occurrence> {
    if |fields| == 0 then {} else
    RecordOccurrences(record, fields[..|fields| - 1]) +
    FieldOccurrences(record, fields[|fields| - 1])
  }

  ghost function RecordsOccurrences(records: seq<map<string, Cell>>, fields: seq<Field>): set<Occurrence> {
    if |records| == 0 then {} else
    RecordsOccurrences(records[..|records| - 1], fields) +
    RecordOccurrences(records[|records| - 1], fields)
  }

  ghost function DatasetOccurrences(tables: seq<Table>): set<Occurrence> {
    if |tables| == 0 then {} else
    DatasetOccurrences(tables[..|tables| - 1]) +
    RecordsOccurrences(tables[|tables| - 1].records, tables[|tables| - 1].fields)
  }

  ghost function Values(occ: set<Occurrence>): set<string> {
    set p | p in occ :: p.0
  }

  ghost function Narrow(occ: set<Occurrence>, w: nat): set<Occurrence> {
    set p | p in occ && p.1 <= w
  }

  /** The originals that occur in some field of width at most `w`. */
  ghost function Within(occ: set<Occurrence>, w: nat): set<string> {
    set p | p in occ && p.1 <= w :: p.0
  }

  /** `m` maps every original to its strictest width. */
  ghost predicate Tracks(m: map<string, nat>, occ: set<Occurrence>) {
    && m.Keys == Values(occ)
    && (forall p :: p in occ ==> m[p.0] <= p.1)
    && (forall v :: v in m ==> (v, m[v]) in occ)
  }

  lemma TrackedWithin(m: map<string, nat>, occ: set<Occurrence>, w: nat)
    requires Tracks(m, occ)
    ensures AtMost(m, w) == Within(occ, w)
  {
  }

  lemma WithinMonotone(small: set<Occurrence>, large: set<Occurrence>, w: nat)
    requires small <= large
    ensures |Within(small, w)| <= |Within(large, w)|
    ensures |Values(small)| <= |Values(large)|
  {
    SubsetCount(Within(small, w), Within(large, w));
    SubsetCount(Values(small), Values(large));
  }

  lemma {:induction false} StrictestExists(occ: set<Occurrence>) returns (m: map<string, nat>)
    ensures Tracks(m, occ)
  {
    if occ == {} {
      m := map[];
    } else {
      var p :| p in occ;
      var rest := occ - {p};
      var m' := StrictestExists(rest);
      assert occ == rest + {p};
      m := if p.0 in m' && m'[p.0] <= p.1 then m' else m'[p.0 := p.1];
      assert Values(occ) == Values(rest) + {p.0};
    }
  }

  // ---- feasibility of a dataset ----

  /** Every distinct non-empty original gets its own non-empty token, different from the
      original and fitting every field the original occurs in. */
  ghost predicate Pseudonymizes(f: map<string, string>, occ: set<Occurrence>, alphabet: string) {
    && f.Keys == Values(occ)
    && Injective(f)
    && forall p :: p in occ ==> IsToken(f[p.0], alphabet, p.1) && f[p.0] != p.0
  }

  ghost predicate DatasetFeasible(occ: set<Occurrence>, alphabet: string) {
    exists f :: Pseudonymizes(f, occ, alphabet)
  }

  ghost predicate HallHolds(occ: set<Occurrence>, base: nat) {
    forall w: nat :: |Within(occ, w)| <= TokenSpace(w, base)
  }

  lemma StrictestSuffices(m: map<string, nat>, occ: set<Occurrence>, alphabet: string)
    requires Tracks(m, occ)
    ensures DatasetFeasible(occ, alphabet) <==> Feasible(m, alphabet)
    ensures HallHolds(occ, |alphabet|) <==> HallCondition(m, |alphabet|)
  {
    forall w: nat ensures AtMost(m, w) == Within(occ, w) { TrackedWithin(m, occ, w); }
    forall f | Pseudonymizes(f, occ, alphabet) ensures Allocation(m, alphabet, f) {
      forall v | v in m ensures IsToken(f[v], alphabet, m[v]) && f[v] != v {
        assert (v, m[v]) in occ;
      }
    }
    forall f | Allocation(m, alphabet, f) ensures Pseudonymizes(f, occ, alphabet) {
      forall p | p in occ ensures IsToken(f[p.0], alphabet, p.1) && f[p.0] != p.0 {
        assert p.0 in m;
      }
    }
  }

  /** Some original is the only token of its full width and every shorter token is needed
      by a narrower original; possible only with a one-letter alphabet. */
  ghost predicate RigidOriginal(occ: set<Occurrence>, alphabet: string, w: nat) {
    && |alphabet| == 1 && w >= 1
    && |Within(occ, w - 1)| == w - 1
    && exists v :: v in Within(occ, w) - Within(occ, w - 1) && |v| == w && OverAlphabet(v, alphabet)
  }

  /** Exact feasibility of a whole dataset. */
  lemma DatasetFeasibleIff(occ: set<Occurrence>, alphabet: string)
    requires Distinct(alphabet)
    ensures DatasetFeasible(occ, alphabet) <==>
            HallHolds(occ, |alphabet|) && forall w: nat :: !RigidOriginal(occ, alphabet, w)
  {
    var m := StrictestExists(occ);
    StrictestSuffices(m, occ, alphabet);
    FeasibleIff(m, alphabet);
    forall w: nat ensures AtMost(m, w) == Within(occ, w) { TrackedWithin(m, occ, w); }
    forall w: nat | RigidOriginal(occ, alphabet, w) ensures Rigid(m, alphabet) {
      var v :| v in Within(occ, w) - Within(occ, w - 1) && |v| == w && OverAlphabet(v, alphabet);
      assert v in AtMost(m, w) && v !in AtMost(m, w - 1);
      assert RigidAt(m, alphabet, v);
    }
    forall v | RigidAt(m, alphabet, v) ensures RigidOriginal(occ, alphabet, m[v]) {
      assert v in AtMost(m, m[v]) && v !in AtMost(m, m[v] - 1);
    }
  }

  // ---- the occurrence bound of phase A ----

  function NarrowFields(fields: seq<Field>, w: nat): nat {
    if |fields| == 0 then 0 else
    NarrowFields(fields[..|fields| - 1], w) + if fields[|fields| - 1].length <= w then 1 else 0
  }

  function OccurrenceBound(tables: seq<Table>, w: nat): nat {
    if |tables| == 0 then 0 else
    OccurrenceBound(tables[..|tables| - 1], w) +
    tables[|tables| - 1].recordCount * NarrowFields(tables[|tables| - 1].fields, w)
  }

  // ---- what the bound counts ----

  /** A slot for a value: table, record position and field position. */
  type Slot = (nat, nat, nat)

  /** The announced slots of one field. */
  ghost function ColumnSlots(t: nat, i: nat, records: nat): set<Slot> {
    set r: nat | r < records :: (t, r, i)
  }

  /** The announced slots of the fields no wider than `w`. */
  ghost function TableSlots(t: nat, table: Table, w: nat): set<Slot> {
    set r: nat, i: nat | r < table.recordCount && i < |table.fields| && table.fields[i].length <= w :: (t, r, i)
  }

  ghost function Slots(tables: seq<Table>, w: nat): set<Slot> {
    set t: nat, r: nat, i: nat | t < |tables| && r < tables[t].recordCount && i < |tables[t].fields| &&
                                 tables[t].fields[i].length <= w :: (t, r, i)
  }

  lemma {:induction false} ColumnCount(t: nat, i: nat, records: nat)
    ensures |ColumnSlots(t, i, records)| == records
  {
    if records == 0 {
      assert ColumnSlots(t, i, records) == {};
    } else {
      ColumnCount(t, i, records - 1);
      assert ColumnSlots(t, i, records) == ColumnSlots(t, i, records - 1) + {(t, records - 1, i)};
    }
  }

  /** The last field adds its column, if it is narrow. */
  lemma LastColumn(t: nat, table: Table, w: nat)
    requires |table.fields| > 0
    ensures var n := |table.fields| - 1;
            var rest := TableSlots(t, table.(fields := table.fields[..n]), w);
            var column := ColumnSlots(t, n, table.recordCount);
            && TableSlots(t, table, w) == (if table.fields[n].length <= w then rest + column else rest)
            && rest !! column
  {
    var n := |table.fields| - 1;
    var rest := table.(fields := table.fields[..n]);
    forall s | s in TableSlots(t, rest, w) ensures s in TableSlots(t, table, w) && s.2 < n {
      assert rest.fields[s.2] == table.fields[s.2];
    }
    forall s | s in TableSlots(t, table, w) && s.2 < n ensures s in TableSlots(t, rest, w) {
      assert rest.fields[s.2] == table.fields[s.2];
    }
  }

  lemma ProductOneMore(count: nat, n: nat)
    ensures count * (n + 1) == count * n + count
  {
  }

  lemma {:induction false} TableSlotsCount(t: nat, table: Table, w: nat)
    ensures |TableSlots(t, table, w)| == table.recordCount * NarrowFields(table.fields, w)
    decreases |table.fields|
  {
    if |table.fields| == 0 {
      assert TableSlots(t, table, w) == {};
    } else {
      var n := |table.fields| - 1;
      TableSlotsCount(t, table.(fields := table.fields[..n]), w);
      LastColumn(t, table, w);
      ColumnCount(t, n, table.recordCount);
      ProductOneMore(table.recordCount, NarrowFields(table.fields[..n], w));
    }
  }

  lemma LastTable(tables: seq<Table>, w: nat)
    requires |tables| > 0
    ensures var n := |tables| - 1;
            && Slots(tables, w) == Slots(tables[..n], w) + TableSlots(n, tables[n], w)
            && Slots(tables[..n], w) !! TableSlots(n, tables[n], w)
  {
    var n := |tables| - 1;
    var rest := tables[..n];
    forall s: Slot ensures s in Slots(tables, w) <==> s in Slots(rest, w) || s in TableSlots(n, tables[n], w) {
      if s.0 < n {
        assert rest[s.0] == tables[s.0];
      }
    }
  }

  /** The occurrence bound is the number of announced slots no wider than `w`. */
  lemma {:induction false} BoundCountsSlots(tables: seq<Table>, w: nat)
    ensures |Slots(tables, w)| == OccurrenceBound(tables, w)
  {
    if |tables| == 0 {
      assert Slots(tables, w) == {};
    } else {
      var n := |tables| - 1;
      BoundCountsSlots(tables[..n], w);
      TableSlotsCount(n, tables[n], w);
      LastTable(tables, w);
    }
  }

  /** Streams never yield more records than the header announces. */
  ghost predicate WithinHeader(tables: seq<Table>) {
    forall t :: 0 <= t < |tables| ==> |tables[t].records| <= tables[t].recordCount
  }

  lemma UnionWithin(a: set<Occurrence>, b: set<Occurrence>, w: nat)
    ensures Within(a + b, w) == Within(a, w) + Within(b, w)
    ensures |Within(a + b, w)| <= |Within(a, w)| + |Within(b, w)|
  {
  }

  lemma FieldBound(record: map<string, Cell>, field: Field, w: nat)
    ensures |Within(FieldOccurrences(record, field), w)| <= if field.length <= w then 1 else 0
  {
    var occ := FieldOccurrences(record, field);
    if field.length <= w {
      match Get(record, field.name)
      case Text(s) => SubsetCount(Within(occ, w), {s});
      case _ => assert Within(occ, w) == {};
    } else {
      assert Within(occ, w) == {};
    }
  }

  lemma {:induction false} RecordBound(record: map<string, Cell>, fields: seq<Field>, w: nat)
    ensures |Within(RecordOccurrences(record, fields), w)| <= NarrowFields(fields, w)
  {
    if |fields| > 0 {
      var last, rest := fields[|fields| - 1], fields[..|fields| - 1];
      RecordBound(record, rest, w);
      FieldBound(record, last, w);
      UnionWithin(RecordOccurrences(record, rest), FieldOccurrences(record, last), w);
    }
  }

  lemma {:induction false} RecordsBound(records: seq<map<string, Cell>>, fields: seq<Field>, w: nat)
    ensures |Within(RecordsOccurrences(records, fields), w)| <= |records| * NarrowFields(fields, w)
  {
    var n := NarrowFields(fields, w);
    if |records| > 0 {
      var last, rest := records[|records| - 1], records[..|records| - 1];
      RecordsBound(rest, fields, w);
      RecordBound(last, fields, w);
      UnionWithin(RecordsOccurrences(rest, fields), RecordOccurrences(last, fields), w);
      OneMore(|rest|, n);
    }
  }

  lemma ProductMonotone(a: nat, b: nat, n: nat)
    requires a <= b
    ensures a * n <= b * n
  {
  }

  /** Phase A: occurrences bound the distinct originals without storing a value. */
  lemma {:induction false} PhaseABound(tables: seq<Table>, w: nat)
    requires WithinHeader(tables)
    ensures |Within(DatasetOccurrences(tables), w)| <= OccurrenceBound(tables, w)
  {
    if |tables| > 0 {
      var last, rest := tables[|tables| - 1], tables[..|tables| - 1];
      PhaseABound(rest, w);
      RecordsBound(last.records, last.fields, w);
      ProductMonotone(|last.records|, last.recordCount, NarrowFields(last.fields, w));
      UnionWithin(DatasetOccurrences(rest), RecordsOccurrences(last.records, last.fields), w);
    }
  }

  // ---- selecting the narrow fields of phase B ----

  function Selected(fields: seq<Field>, w: nat): seq<Field> {
    if |fields| == 0 then [] else
    Selected(fields[..|fields| - 1], w) +
    if fields[|fields| - 1].length <= w then [fields[|fields| - 1]] else []
  }

  lemma {:induction false} RecordSelected(record: map<string, Cell>, fields: seq<Field>, w: nat)
    ensures RecordOccurrences(record, Selected(fields, w)) == Narrow(RecordOccurrences(record, fields), w)
  {
    if |fields| > 0 {
      var last, rest := fields[|fields| - 1], fields[..|fields| - 1];
      RecordSelected(record, rest, w);
      var narrow := Selected(rest, w);
      if last.length <= w {
        assert Selected(fields, w)[..|narrow|] == narrow;
      } else {
        assert Selected(fields, w) == narrow;
      }
    }
  }

  lemma {:induction false} RecordsSelected(records: seq<map<string, Cell>>, fields: seq<Field>, w: nat)
    ensures RecordsOccurrences(records, Selected(fields, w)) == Narrow(RecordsOccurrences(records, fields), w)
  {
    if |records| > 0 {
      RecordsSelected(records[..|records| - 1], fields, w);
      RecordSelected(records[|records| - 1], fields, w);
    }
  }

  lemma {:induction false} NothingSelected(records: seq<map<string, Cell>>, fields: seq<Field>)
    requires fields == []
    ensures RecordsOccurrences(records, fields) == {}
  {
    if |records| > 0 {
      NothingSelected(records[..|records| - 1], fields);
    }
  }

  // ---- widths ----

  ghost function Widths(tables: seq<Table>): set<nat> {
    set t, i | 0 <= t < |tables| && 0 <= i < |tables[t].fields| :: tables[t].fields[i].length
  }

  lemma {:induction false} RecordWidth(record: map<string, Cell>, fields: seq<Field>, p: Occurrence)
    requires p in RecordOccurrences(record, fields)
    ensures exists i :: 0 <= i < |fields| && fields[i].length == p.1
  {
    var n := |fields| - 1;
    if p in FieldOccurrences(record, fields[n]) {
      assert fields[n].length == p.1;
    } else {
      RecordWidth(record, fields[..n], p);
      var i :| 0 <= i < n && fields[..n][i].length == p.1;
      assert fields[i].length == p.1;
    }
  }

  lemma {:induction false} RecordsWidth(records: seq<map<string, Cell>>, fields: seq<Field>, p: Occurrence)
    requires p in RecordsOccurrences(records, fields)
    ensures exists i :: 0 <= i < |fields| && fields[i].length == p.1
    ensures |records| > 0
  {
    var n := |records| - 1;
    if p in RecordOccurrences(records[n], fields) {
      RecordWidth(records[n], fields, p);
    } else {
      RecordsWidth(records[..n], fields, p);
    }
  }

  lemma {:induction false} OccurrenceWidth(tables: seq<Table>, p: Occurrence)
    requires p in DatasetOccurrences(tables)
    ensures p.1 in Widths(tables)
  {
    var n := |tables| - 1;
    if p in RecordsOccurrences(tables[n].records, tables[n].fields) {
      RecordsWidth(tables[n].records, tables[n].fields, p);
    } else {
      OccurrenceWidth(tables[..n], p);
      var t, i :| 0 <= t < n && 0 <= i < |tables[t].fields| && tables[..n][t].fields[i].length == p.1;
      assert tables[t].fields[i].length == p.1;
    }
  }

  /** Between two field widths nothing is gained, so checking field widths is enough. */
  lemma {:induction false} HallAtWidthsSuffices(tables: seq<Table>, base: nat, w: nat)
    requires forall u :: u in Widths(tables) ==>
               |Within(DatasetOccurrences(tables), u)| <= TokenSpace(u, base)
    ensures |Within(DatasetOccurrences(tables), w)| <= TokenSpace(w, base)
  {
    var occ := DatasetOccurrences(tables);
    if w !in Widths(tables) {
      forall p | p in occ ensures p.1 != w { OccurrenceWidth(tables, p); }
      if w == 0 {
        assert Within(occ, w) == {};
      } else {
        HallAtWidthsSuffices(tables, base, w - 1);
        assert Within(occ, w) == Within(occ, w - 1);
      }
    }
  }

  // ---- widths strictly raise the occurrence bound where they occur ----

  lemma {:induction false} NarrowFieldsGrow(fields: seq<Field>, w: nat)
    requires w >= 1
    ensures NarrowFields(fields, w - 1) <= NarrowFields(fields, w)
    ensures (exists i :: 0 <= i < |fields| && fields[i].length == w) ==>
              NarrowFields(fields, w - 1) < NarrowFields(fields, w)
  {
    if |fields| > 0 {
      var rest := fields[..|fields| - 1];
      NarrowFieldsGrow(rest, w);
      if i :| 0 <= i < |fields| && fields[i].length == w {
        assert i < |rest| ==> rest[i].length == w;
      }
    }
  }

  lemma {:induction false} BoundGrows(tables: seq<Table>, w: nat)
    requires w >= 1 && WithinHeader(tables)
    ensures OccurrenceBound(tables, w - 1) <= OccurrenceBound(tables, w)
    ensures (exists p :: p in DatasetOccurrences(tables) && p.1 == w) ==>
              OccurrenceBound(tables, w - 1) < OccurrenceBound(tables, w)
  {
    if |tables| > 0 {
      var last, rest := tables[|tables| - 1], tables[..|tables| - 1];
      BoundGrows(rest, w);
      NarrowFieldsGrow(last.fields, w);
      var a, b := NarrowFields(last.fields, w - 1), NarrowFields(last.fields, w);
      TableGrows(last.recordCount, a, b);
      if p :| p in DatasetOccurrences(tables) && p.1 == w {
        if p in RecordsOccurrences(last.records, last.fields) {
          RecordsWidth(last.records, last.fields, p);
        }
      }
    }
  }

  lemma TableGrows(count: nat, a: nat, b: nat)
    requires a <= b
    ensures count * a <= count * b
    ensures count >= 1 && a < b ==> count * a < count * b
  {
  }
}
