/** The read-only capacity proof of preflight (preflight.py, _capacity_sufficient):
    phase A discharges widths by an occurrence bound, phase B counts distinct
    originals exactly for the remaining tight widths under a memory ceiling. */
module Capacity {
  import opened Collections
  import opened Wrappers
  import opened TextTokens
  import opened Hall
  import opened Occurrences

  const MAX_EXACT_VALUES: nat := 65536

  datatype Verdict = Sufficient | Insufficient | Unproven

  ghost predicate Ascending(s: seq<nat>) {
    forall i, j :: 0 <= i < j < |s| ==> s[i] < s[j]
  }

  // ---- phase A ----

  /** Insert a width into an ascending list of distinct widths. */
  method InsertWidth(widths: seq<nat>, w: nat) returns (r: seq<nat>)
    requires Ascending(widths)
    ensures Ascending(r)
    ensures forall x :: x in r <==> x in widths || x == w
  {
    var i := 0;
    while i < |widths| && widths[i] < w
      invariant 0 <= i <= |widths|
      invariant forall j :: 0 <= j < i ==> widths[j] < w
    {
      i := i + 1;
    }
    if i < |widths| && widths[i] == w {
      return widths;
    }
    r := widths[..i] + [w] + widths[i..];
    assert forall x :: x in widths <==> x in widths[..i] || x in widths[i..];
  }

  /** The distinct lengths of all participating fields, ascending. */
  method FieldWidths(tables: seq<Table>) returns (widths: seq<nat>)
    ensures Ascending(widths)
    ensures forall w :: w in widths <==> w in Widths(tables)
  {
    widths := [];
    for t := 0 to |tables|
      invariant Ascending(widths)
      invariant forall w :: w in widths <==> w in Widths(tables[..t])
    {
      var fields := tables[t].fields;
      ghost var before := widths;
      for i := 0 to |fields|
        invariant Ascending(widths)
        invariant forall w :: w in widths <==>
                    w in before || exists k :: 0 <= k < i && fields[k].length == w
      {
        widths := InsertWidth(widths, fields[i].length);
      }
      WidthsOfPrefix(tables, t);
    }
    assert tables[..|tables|] == tables;
  }

  lemma WidthsOfPrefix(tables: seq<Table>, t: nat)
    requires t < |tables|
    ensures forall w :: w in Widths(tables[..t + 1]) <==>
              w in Widths(tables[..t]) ||
              exists k :: 0 <= k < |tables[t].fields| && tables[t].fields[k].length == w
  {
  }

  /** sum(record_count * participating fields with length <= width) */
  method ComputeOccurrenceBound(tables: seq<Table>, width: nat) returns (bound: nat)
    ensures bound == OccurrenceBound(tables, width)
  {
    bound := 0;
    for t := 0 to |tables|
      invariant bound == OccurrenceBound(tables[..t], width)
    {
      var fields, narrow := tables[t].fields, 0;
      for i := 0 to |fields|
        invariant narrow == NarrowFields(fields[..i], width)
      {
        assert fields[..i + 1][..i] == fields[..i];
        if fields[i].length <= width {
          narrow := narrow + 1;
        }
      }
      assert fields[..|fields|] == fields;
      assert tables[..t + 1][..t] == tables[..t];
      bound := bound + tables[t].recordCount * narrow;
    }
    assert tables[..|tables|] == tables;
  }

  /** The occurrence bound does not fit the token space. */
  ghost predicate Overfull(tables: seq<Table>, base: nat, w: nat) {
    OccurrenceBound(tables, w) > TokenSpace(w, base)
  }

  method IsOverfull(tables: seq<Table>, base: nat, w: nat) returns (tight: bool)
    requires base >= 1
    ensures tight <==> Overfull(tables, base, w)
  {
    var bound := ComputeOccurrenceBound(tables, w);
    var enough := TokenSpaceAtLeast(w, base, bound);
    tight := !enough;
  }

  /** The widths phase A cannot discharge, in ascending order. */
  method UnprovenWidths(tables: seq<Table>, widths: seq<nat>, base: nat) returns (tight: seq<nat>)
    requires Ascending(widths) && base >= 1
    ensures Ascending(tight)
    ensures forall w :: w in tight <==> w in widths && Overfull(tables, base, w)
  {
    tight := [];
    for i := 0 to |widths|
      invariant Ascending(tight)
      invariant forall w :: w in tight <==> w in widths[..i] && Overfull(tables, base, w)
    {
      var overfull := IsOverfull(tables, base, widths[i]);
      assert widths[..i + 1] == widths[..i] + [widths[i]];
      assert forall k :: 0 <= k < |tight| ==> tight[k] in widths[..i];
      if overfull {
        tight := tight + [widths[i]];
      }
    }
    assert widths[..|widths|] == widths;
  }

  /** With a one-letter alphabet, width 1 is always proved exactly. */
  function WithSingleToken(unproven: seq<nat>, widths: seq<nat>, base: nat): seq<nat> {
    if base == 1 && widths != [] && 1 !in unproven then [1] + unproven else unproven
  }

  // ---- phase B ----

  /** The tight widths an original gains when its strictest width becomes `strictest`. */
  ghost predicate Gains(width: nat, previous: Option<nat>, strictest: nat) {
    width >= strictest && (previous == None || width < previous.value)
  }

  /** Count one original toward the widths it gains; stop at the first violated bound. */
  method NoteStrictest(tight: seq<nat>, base: nat, counts: map<nat, nat>,
                       previous: Option<nat>, strictest: nat)
    returns (updated: map<nat, nat>, violated: bool)
    requires Distinct(tight) && base >= 1
    requires forall w :: w in tight ==> w in counts
    ensures violated ==> exists w :: w in tight && Gains(w, previous, strictest) &&
                                     counts[w] + 1 > TokenSpace(w, base)
    ensures updated.Keys == counts.Keys
    ensures !violated ==>
              forall w :: w in tight ==>
                updated[w] == counts[w] + (if Gains(w, previous, strictest) then 1 else 0) &&
                (Gains(w, previous, strictest) ==> updated[w] <= TokenSpace(w, base))
  {
    updated := counts;
    for i := 0 to |tight|
      invariant updated.Keys == counts.Keys
      invariant forall k :: 0 <= k < i ==>
                  updated[tight[k]] == counts[tight[k]] +
                    (if Gains(tight[k], previous, strictest) then 1 else 0) &&
                  (Gains(tight[k], previous, strictest) ==>
                     updated[tight[k]] <= TokenSpace(tight[k], base))
      invariant forall k :: i <= k < |tight| ==> updated[tight[k]] == counts[tight[k]]
    {
      var width := tight[i];
      if width >= strictest && (previous == None || width < previous.value) {
        updated := updated[width := updated[width] + 1];
        var enough := TokenSpaceAtLeast(width, base, updated[width]);
        if !enough {
          return updated, true;
        }
      }
    }
    violated := false;
  }

  /** The tracker holds every seen original's strictest width, the counters agree with a
      recount, no bound is violated and the ceiling is respected. */
  ghost predicate Exact(occ: set<Occurrence>, tracker: map<string, nat>, counts: map<nat, nat>,
                        tight: seq<nat>, base: nat)
  {
    && Tracks(tracker, occ)
    && |tracker| <= MAX_EXACT_VALUES
    && forall w :: w in tight ==>
         w in counts && counts[w] == |AtMost(tracker, w)| <= TokenSpace(w, base)
  }

  /** What the scan knows after the occurrences `occ`, whatever its outcome. */
  ghost predicate Scanned(occ: set<Occurrence>, outcome: Verdict, tracker: map<string, nat>,
                          counts: map<nat, nat>, tight: seq<nat>, base: nat)
  {
    match outcome
    case Sufficient => Exact(occ, tracker, counts, tight, base)
    case Insufficient => exists w :: w in tight && |Within(occ, w)| > TokenSpace(w, base)
    case Unproven => |Values(occ)| > MAX_EXACT_VALUES
  }

  /** Lowering one original to `strictest` adds it to exactly the gained widths. */
  lemma Recount(tracker: map<string, nat>, value: string, strictest: nat, w: nat)
    requires value in tracker ==> strictest < tracker[value]
    ensures var previous := if value in tracker then Some(tracker[value]) else None;
            |AtMost(tracker[value := strictest], w)| ==
            |AtMost(tracker, w)| + if Gains(w, previous, strictest) then 1 else 0
  {
    var previous := if value in tracker then Some(tracker[value]) else None;
    var lowered := tracker[value := strictest];
    if Gains(w, previous, strictest) {
      assert AtMost(lowered, w) == AtMost(tracker, w) + {value};
      assert value !in AtMost(tracker, w);
    } else {
      assert AtMost(lowered, w) == AtMost(tracker, w);
    }
  }

  lemma TracksLowered(tracker: map<string, nat>, occ: set<Occurrence>, value: string, length: nat)
    requires Tracks(tracker, occ)
    requires value in tracker ==> length < tracker[value]
    ensures Tracks(tracker[value := length], occ + {(value, length)})
  {
  }

  /** One text value of one field. */
  method ObserveValue(value: string, length: nat, tracker: map<string, nat>, counts: map<nat, nat>,
                      tight: seq<nat>, base: nat, ghost occ: set<Occurrence>)
    returns (tracker': map<string, nat>, counts': map<nat, nat>, outcome: Verdict)
    requires Distinct(tight) && base >= 1
    requires Exact(occ, tracker, counts, tight, base)
    ensures Scanned(occ + {(value, length)}, outcome, tracker', counts', tight, base)
    ensures outcome.Unproven? ==> |tracker| == MAX_EXACT_VALUES && value !in tracker
  {
    tracker', counts', outcome := tracker, counts, Sufficient;
    if value !in tracker {
      if |tracker| >= MAX_EXACT_VALUES {
        assert Values(occ + {(value, length)}) == tracker.Keys + {value};
        outcome := Unproven;
        return;
      }
    } else if length >= tracker[value] {
      KeepTracking(tracker, counts, occ, value, length, tight, base);
      return;
    }
    var previous := if value in tracker then Some(tracker[value]) else None;
    tracker' := tracker[value := length];
    var violated;
    counts', violated := NoteStrictest(tight, base, counts, previous, length);
    if violated {
      outcome := Insufficient;
      ghost var w :| w in tight && Gains(w, previous, length) && counts[w] + 1 > TokenSpace(w, base);
      LoweredCount(tracker, occ, value, length, w);
    } else {
      LoweredExact(tracker, counts, counts', occ, value, length, tight, base);
    }
  }

  lemma LoweredCount(tracker: map<string, nat>, occ: set<Occurrence>, value: string, length: nat, w: nat)
    requires Tracks(tracker, occ)
    requires value in tracker ==> length < tracker[value]
    ensures var previous := if value in tracker then Some(tracker[value]) else None;
            |Within(occ + {(value, length)}, w)| ==
            |AtMost(tracker, w)| + if Gains(w, previous, length) then 1 else 0
    ensures AtMost(tracker[value := length], w) == Within(occ + {(value, length)}, w)
  {
    TracksLowered(tracker, occ, value, length);
    Recount(tracker, value, length, w);
    TrackedWithin(tracker[value := length], occ + {(value, length)}, w);
  }

  lemma LoweredExact(tracker: map<string, nat>, counts: map<nat, nat>, counts': map<nat, nat>,
                     occ: set<Occurrence>, value: string, length: nat, tight: seq<nat>, base: nat)
    requires Exact(occ, tracker, counts, tight, base)
    requires value in tracker ==> length < tracker[value]
    requires value !in tracker ==> |tracker| < MAX_EXACT_VALUES
    requires counts'.Keys == counts.Keys
    requires var previous := if value in tracker then Some(tracker[value]) else None;
             forall w :: w in tight ==>
               counts'[w] == counts[w] + (if Gains(w, previous, length) then 1 else 0) &&
               (Gains(w, previous, length) ==> counts'[w] <= TokenSpace(w, base))
    ensures Exact(occ + {(value, length)}, tracker[value := length], counts', tight, base)
  {
    TracksLowered(tracker, occ, value, length);
    assert tracker[value := length].Keys == tracker.Keys + {value};
    forall w | w in tight
      ensures counts'[w] == |AtMost(tracker[value := length], w)| <= TokenSpace(w, base)
    {
      LoweredCount(tracker, occ, value, length, w);
    }
  }

  lemma KeepTracking(tracker: map<string, nat>, counts: map<nat, nat>, occ: set<Occurrence>,
                     value: string, length: nat, tight: seq<nat>, base: nat)
    requires Exact(occ, tracker, counts, tight, base)
    requires value in tracker && tracker[value] <= length
    ensures Exact(occ + {(value, length)}, tracker, counts, tight, base)
  {
  }

  /** What a stopped scan knows stays true of every larger set of occurrences. */
  lemma StoppedScanGrows(small: set<Occurrence>, large: set<Occurrence>, outcome: Verdict,
                         tracker: map<string, nat>, counts: map<nat, nat>, tight: seq<nat>, base: nat)
    requires Scanned(small, outcome, tracker, counts, tight, base)
    requires outcome != Sufficient && small <= large
    ensures Scanned(large, outcome, tracker, counts, tight, base)
  {
    WithinMonotone(small, large, 0);
    if outcome == Insufficient {
      var w :| w in tight && |Within(small, w)| > TokenSpace(w, base);
      WithinMonotone(small, large, w);
    }
  }

  /** A scan that went through, or stopped early, is a verdict on everything in its scope. */
  lemma ScanEnds(seen: set<Occurrence>, all: set<Occurrence>, complete: bool, outcome: Verdict,
                 tracker: map<string, nat>, counts: map<nat, nat>, tight: seq<nat>, base: nat)
    requires Scanned(seen, outcome, tracker, counts, tight, base)
    requires seen <= all && (complete ==> seen == all)
    requires complete || outcome != Sufficient
    ensures Scanned(all, outcome, tracker, counts, tight, base)
  {
    if outcome != Sufficient {
      StoppedScanGrows(seen, all, outcome, tracker, counts, tight, base);
    }
  }

  /** One field of one record: NULL, empty and non-text values are skipped. */
  method ScanField(record: map<string, Cell>, field: Field, tracker: map<string, nat>,
                   counts: map<nat, nat>, tight: seq<nat>, base: nat, ghost occ: set<Occurrence>)
    returns (tracker': map<string, nat>, counts': map<nat, nat>, outcome: Verdict)
    requires Distinct(tight) && base >= 1
    requires Exact(occ, tracker, counts, tight, base)
    ensures Scanned(occ + FieldOccurrences(record, field), outcome, tracker', counts', tight, base)
  {
    tracker', counts', outcome := tracker, counts, Sufficient;
    var cell := Get(record, field.name);
    if cell.Text? && cell.s != "" {
      tracker', counts', outcome :=
        ObserveValue(cell.s, field.length, tracker, counts, tight, base, occ);
    } else {
      assert occ + FieldOccurrences(record, field) == occ;
    }
  }

  /** One record: the selected fields in order, stopping at the first decided outcome. */
  method ScanRecord(record: map<string, Cell>, fields: seq<Field>, tracker: map<string, nat>,
                    counts: map<nat, nat>, tight: seq<nat>, base: nat, ghost occ: set<Occurrence>)
    returns (tracker': map<string, nat>, counts': map<nat, nat>, outcome: Verdict)
    requires Distinct(tight) && base >= 1
    requires Exact(occ, tracker, counts, tight, base)
    ensures Scanned(occ + RecordOccurrences(record, fields), outcome, tracker', counts', tight, base)
  {
    tracker', counts', outcome := tracker, counts, Sufficient;
    ghost var seen := RecordTrace(record, fields, occ);
    var i := 0;
    while i < |fields| && outcome == Sufficient
      invariant 0 <= i <= |fields|
      invariant Scanned(seen[i], outcome, tracker', counts', tight, base)
    {
      tracker', counts', outcome :=
        ScanField(record, fields[i], tracker', counts', tight, base, seen[i]);
      assert seen[i] + FieldOccurrences(record, fields[i]) == seen[i + 1];
      i := i + 1;
    }
    ScanEnds(seen[i], seen[|fields|], i == |fields|, outcome, tracker', counts', tight, base);
  }

  /** The occurrences seen before each field of a record. */
  lemma {:induction false} RecordTrace(record: map<string, Cell>, fields: seq<Field>, occ: set<Occurrence>)
    returns (seen: seq<set<Occurrence>>)
    ensures |seen| == |fields| + 1 && seen[0] == occ
    ensures forall i :: 0 <= i < |fields| ==>
              seen[i + 1] == seen[i] + FieldOccurrences(record, fields[i])
    ensures seen[|fields|] == occ + RecordOccurrences(record, fields)
    ensures forall i :: 0 <= i <= |fields| ==> seen[i] <= seen[|fields|]
  {
    if fields == [] {
      seen := [occ];
    } else {
      var last := |fields| - 1;
      var rest := RecordTrace(record, fields[..last], occ);
      seen := rest + [rest[last] + FieldOccurrences(record, fields[last])];
    }
  }

  /** One table: its records in physical order. */
  method ScanTable(records: seq<map<string, Cell>>, fields: seq<Field>, tracker: map<string, nat>,
                   counts: map<nat, nat>, tight: seq<nat>, base: nat, ghost occ: set<Occurrence>)
    returns (tracker': map<string, nat>, counts': map<nat, nat>, outcome: Verdict)
    requires Distinct(tight) && base >= 1
    requires Exact(occ, tracker, counts, tight, base)
    ensures Scanned(occ + RecordsOccurrences(records, fields), outcome, tracker', counts', tight, base)
  {
    tracker', counts', outcome := tracker, counts, Sufficient;
    ghost var seen := TableTrace(records, fields, occ);
    var r := 0;
    while r < |records| && outcome == Sufficient
      invariant 0 <= r <= |records|
      invariant Scanned(seen[r], outcome, tracker', counts', tight, base)
    {
      tracker', counts', outcome :=
        ScanRecord(records[r], fields, tracker', counts', tight, base, seen[r]);
      assert seen[r] + RecordOccurrences(records[r], fields) == seen[r + 1];
      r := r + 1;
    }
    ScanEnds(seen[r], seen[|records|], r == |records|, outcome, tracker', counts', tight, base);
  }

  /** The occurrences seen before each record of a table. */
  lemma {:induction false} TableTrace(records: seq<map<string, Cell>>, fields: seq<Field>, occ: set<Occurrence>)
    returns (seen: seq<set<Occurrence>>)
    ensures |seen| == |records| + 1 && seen[0] == occ
    ensures forall r :: 0 <= r < |records| ==>
              seen[r + 1] == seen[r] + RecordOccurrences(records[r], fields)
    ensures seen[|records|] == occ + RecordsOccurrences(records, fields)
    ensures forall r :: 0 <= r <= |records| ==> seen[r] <= seen[|records|]
  {
    if records == [] {
      seen := [occ];
    } else {
      var last := |records| - 1;
      var rest := TableTrace(records[..last], fields, occ);
      seen := rest + [rest[last] + RecordOccurrences(records[last], fields)];
    }
  }

  method SelectFields(fields: seq<Field>, maxTight: nat) returns (selected: seq<Field>)
    ensures selected == Selected(fields, maxTight)
  {
    selected := [];
    for i := 0 to |fields|
      invariant selected == Selected(fields[..i], maxTight)
    {
      assert fields[..i + 1][..i] == fields[..i];
      if fields[i].length <= maxTight {
        selected := selected + [fields[i]];
      }
    }
    assert fields[..|fields|] == fields;
  }

  /** The streamed exact proof over the fields no wider than the widest tight width. */
  method ScanDataset(tables: seq<Table>, tight: seq<nat>, maxTight: nat, base: nat)
    returns (tracker: map<string, nat>, counts: map<nat, nat>, outcome: Verdict)
    requires Distinct(tight) && base >= 1
    ensures Scanned(Narrow(DatasetOccurrences(tables), maxTight), outcome, tracker, counts, tight, base)
  {
    tracker, outcome := map[], Sufficient;
    counts := map w | w in tight :: 0;
    forall w | w in tight ensures AtMost(tracker, w) == {} {}
    ghost var seen := DatasetTrace(tables, maxTight);
    var t := 0;
    while t < |tables| && outcome == Sufficient
      invariant 0 <= t <= |tables|
      invariant Scanned(seen[t], outcome, tracker, counts, tight, base)
    {
      var selected := SelectFields(tables[t].fields, maxTight);
      assert seen[t] + RecordsOccurrences(tables[t].records, selected) == seen[t + 1];
      if selected != [] {
        tracker, counts, outcome :=
          ScanTable(tables[t].records, selected, tracker, counts, tight, base, seen[t]);
      } else {
        NothingSelected(tables[t].records, selected);
      }
      t := t + 1;
    }
    ScanEnds(seen[t], seen[|tables|], t == |tables|, outcome, tracker, counts, tight, base);
  }

  /** The last table adds the occurrences of its selected fields. */
  lemma NarrowGrows(tables: seq<Table>, maxTight: nat)
    requires tables != []
    ensures var last := |tables| - 1;
            Narrow(DatasetOccurrences(tables), maxTight) ==
            Narrow(DatasetOccurrences(tables[..last]), maxTight) +
            RecordsOccurrences(tables[last].records, Selected(tables[last].fields, maxTight))
  {
    var last := |tables| - 1;
    RecordsSelected(tables[last].records, tables[last].fields, maxTight);
  }

  /** The selected occurrences seen before each table. */
  lemma {:induction false} DatasetTrace(tables: seq<Table>, maxTight: nat)
    returns (seen: seq<set<Occurrence>>)
    ensures |seen| == |tables| + 1 && seen[0] == {}
    ensures forall t :: 0 <= t < |tables| ==>
              seen[t + 1] == seen[t] +
                RecordsOccurrences(tables[t].records, Selected(tables[t].fields, maxTight))
    ensures seen[|tables|] == Narrow(DatasetOccurrences(tables), maxTight)
    ensures forall t :: 0 <= t <= |tables| ==> seen[t] <= seen[|tables|]
  {
    if tables == [] {
      seen := [{}];
    } else {
      var last := |tables| - 1;
      var rest := DatasetTrace(tables[..last], maxTight);
      NarrowGrows(tables, maxTight);
      seen := rest + [rest[last] +
                      RecordsOccurrences(tables[last].records, Selected(tables[last].fields, maxTight))];
    }
  }

  // ---- the verdict ----

  /** The case the code rechecks: the only one-letter token is itself the single original
      of a width-1 field. */
  ghost predicate OnlyTokenIsSource(occ: set<Occurrence>, alphabet: string) {
    |alphabet| == 1 && Within(occ, 1) == {alphabet}
  }

  lemma NarrowWithin(occ: set<Occurrence>, w: nat, maxTight: nat)
    requires w <= maxTight
    ensures Within(Narrow(occ, maxTight), w) == Within(occ, w)
  {
  }

  /** Phase A and phase B together establish Hall's condition at every width. */
  lemma BothPhasesGiveHall(tables: seq<Table>, unproven: seq<nat>, tight: seq<nat>, maxTight: nat,
                           base: nat, tracker: map<string, nat>, counts: map<nat, nat>)
    requires WithinHeader(tables)
    requires forall w :: w in Widths(tables) && w !in unproven ==> !Overfull(tables, base, w)
    requires forall w :: w in unproven ==> w in tight && w <= maxTight
    requires unproven != [] ==>
               Exact(Narrow(DatasetOccurrences(tables), maxTight), tracker, counts, tight, base)
    ensures HallHolds(DatasetOccurrences(tables), base)
  {
    var occ := DatasetOccurrences(tables);
    forall u | u in Widths(tables) ensures |Within(occ, u)| <= TokenSpace(u, base) {
      if u in unproven {
        TrackedWithin(tracker, Narrow(occ, maxTight), u);
        NarrowWithin(occ, u, maxTight);
      } else {
        PhaseABound(tables, u);
      }
    }
    forall w: nat ensures |Within(occ, w)| <= TokenSpace(w, base) {
      HallAtWidthsSuffices(tables, base, w);
    }
  }

  /** A zero-width tight field is the widest tight one only if no width-1 value occurs. */
  lemma NoWidthOneBelowZero(tables: seq<Table>, unproven: seq<nat>)
    requires WithinHeader(tables)
    requires forall w :: w in unproven <==>
               w in Widths(tables) && Overfull(tables, 1, w)
    requires 0 in unproven && 1 !in unproven
    ensures Within(DatasetOccurrences(tables), 1) == Within(DatasetOccurrences(tables), 0)
  {
    var occ := DatasetOccurrences(tables);
    UnaryTokenSpace(1);
    forall p | p in occ ensures p.1 != 1 {
      if p.1 == 1 {
        OccurrenceWidth(tables, p);
        BoundGrows(tables, 1);
        assert false;
      }
    }
  }

  /** `_capacity_sufficient`, from the list of tables with participating fields on. */
  method CapacitySufficient(tables: seq<Table>, alphabet: string) returns (verdict: Verdict)
    requires Distinct(alphabet) && WithinHeader(tables)
    // OK: Hall's condition holds for the whole dataset, so with at least two letters an
    // allocation exists; with one letter it exists exactly when no original is rigid.
    ensures verdict == Sufficient ==> HallHolds(DatasetOccurrences(tables), |alphabet|)
    ensures verdict == Sufficient && |alphabet| != 1 ==> DatasetFeasible(DatasetOccurrences(tables), alphabet)
    ensures verdict == Sufficient && |alphabet| == 1 ==>
              (DatasetFeasible(DatasetOccurrences(tables), alphabet) <==>
               forall w: nat :: w >= 2 ==> !RigidOriginal(DatasetOccurrences(tables), alphabet, w))
    // INSUFFICIENT: no allocation exists for the whole dataset, although the scan may have
    // stopped before reading all of it.
    ensures verdict == Insufficient && alphabet != "" ==>
              !DatasetFeasible(DatasetOccurrences(tables), alphabet)
    ensures verdict == Insufficient && alphabet != "" ==>
              !HallHolds(DatasetOccurrences(tables), |alphabet|) ||
              OnlyTokenIsSource(DatasetOccurrences(tables), alphabet)
    ensures alphabet == "" && tables != [] ==> verdict == Insufficient
    ensures tables == [] ==> verdict == Sufficient
    // Phase A decides alone: where the announced slots of every width fit the token space,
    // the dataset is accepted whatever its number of originals.
    ensures |alphabet| >= 2 && (forall w :: w in Widths(tables) ==> SlotsFit(tables, |alphabet|, w)) ==>
              verdict == Sufficient
    // UNPROVEN: only when originals of some width phase A could not discharge (or of width one,
    // with one letter) alone exceed the ceiling; and then never OK.
    ensures verdict == Unproven ==>
              exists w: nat :: |Within(DatasetOccurrences(tables), w)| > 65536 &&
                ((w in Widths(tables) && !SlotsFit(tables, |alphabet|, w)) || (|alphabet| == 1 && w == 1))
    ensures verdict == Unproven ==> |Values(DatasetOccurrences(tables))| > 65536
    ensures verdict == Sufficient ==>
              forall w: nat :: w in Widths(tables) && !SlotsFit(tables, |alphabet|, w) ==>
                |Within(DatasetOccurrences(tables), w)| <= 65536
    // Unless it is UNPROVEN the verdict is exact; with one letter up to rigid wider originals.
    ensures |alphabet| >= 2 && verdict != Unproven ==>
              (verdict == Sufficient <==> DatasetFeasible(DatasetOccurrences(tables), alphabet))
    ensures |alphabet| == 1 && verdict != Unproven ==>
              (verdict == Sufficient <==> HallHolds(DatasetOccurrences(tables), 1) &&
                                          Within(DatasetOccurrences(tables), 1) != {alphabet})
  {
    ghost var occ := DatasetOccurrences(tables);
    forall w: nat ensures SlotsFit(tables, |alphabet|, w) <==> !Overfull(tables, |alphabet|, w) {
      BoundCountsSlots(tables, w);
    }
    if tables == [] {
      NothingToAllocate(occ, alphabet);
      return Sufficient;
    }
    if alphabet == "" {
      return Insufficient;
    }
    verdict := ProveWidths(tables, alphabet);
    FittingBoundsGiveHall(tables, |alphabet|);
    if verdict == Sufficient {
      SufficientMeans(occ, alphabet);
    } else if verdict == Insufficient {
      InsufficientMeans(occ, alphabet);
    } else {
      ghost var w: nat :| |Within(occ, w)| > MAX_EXACT_VALUES;
      SubsetCount(Within(occ, w), Values(occ));
    }
  }

  /** What the two phases promise for a non-empty alphabet. */
  ghost predicate Proved(tables: seq<Table>, alphabet: string, verdict: Verdict) {
    var occ := DatasetOccurrences(tables);
    match verdict
    case Sufficient =>
      HallHolds(occ, |alphabet|) && !OnlyTokenIsSource(occ, alphabet) && TightFitsCeiling(tables, |alphabet|)
    case Insufficient => !HallHolds(occ, |alphabet|) || OnlyTokenIsSource(occ, alphabet)
    case Unproven => CeilingReached(tables, |alphabet|)
  }

  /** The announced slots no wider than `w` are no more than the tokens of that width. */
  ghost predicate SlotsFit(tables: seq<Table>, base: nat, w: nat) {
    |Slots(tables, w)| <= TokenSpace(w, base)
  }

  /** The originals of some width that had to be counted exceed the ceiling. */
  ghost predicate CeilingReached(tables: seq<Table>, base: nat) {
    exists w: nat :: |Within(DatasetOccurrences(tables), w)| > MAX_EXACT_VALUES &&
      ((w in Widths(tables) && Overfull(tables, base, w)) || (base == 1 && w == 1))
  }

  ghost predicate TightFitsCeiling(tables: seq<Table>, base: nat) {
    forall w: nat :: w in Widths(tables) && Overfull(tables, base, w) ==>
      |Within(DatasetOccurrences(tables), w)| <= MAX_EXACT_VALUES
  }

  /** Where no width is overfull, phase A alone gives Hall's condition. */
  lemma FittingBoundsGiveHall(tables: seq<Table>, base: nat)
    requires WithinHeader(tables)
    ensures (forall w :: w in Widths(tables) ==> !Overfull(tables, base, w)) ==>
              HallHolds(DatasetOccurrences(tables), base)
  {
    if forall w :: w in Widths(tables) ==> !Overfull(tables, base, w) {
      BothPhasesGiveHall(tables, [], [], 0, base, map[], map[]);
    }
  }

  lemma NarrowValues(occ: set<Occurrence>, w: nat)
    ensures Values(Narrow(occ, w)) == Within(occ, w)
  {
  }

  /** A ceiling reached while scanning up to the widest tight width is reached by its originals. */
  lemma ScanReachedCeiling(tables: seq<Table>, base: nat, unproven: seq<nat>, tight: seq<nat>)
    requires TightFor(tables, base, unproven, tight)
    requires |Values(Narrow(DatasetOccurrences(tables), tight[|tight| - 1]))| > MAX_EXACT_VALUES
    ensures CeilingReached(tables, base)
  {
    var w := tight[|tight| - 1];
    NarrowValues(DatasetOccurrences(tables), w);
    if unproven != [] {
      assert w == unproven[|unproven| - 1];
      assert w in unproven;
    }
  }

  /** A completed scan kept every tight width's originals under the ceiling. */
  lemma ScanFitsCeiling(tables: seq<Table>, base: nat, unproven: seq<nat>, tight: seq<nat>,
                        tracker: map<string, nat>, counts: map<nat, nat>)
    requires TightFor(tables, base, unproven, tight)
    requires Exact(Narrow(DatasetOccurrences(tables), tight[|tight| - 1]), tracker, counts, tight, base)
    ensures TightFitsCeiling(tables, base)
  {
    var occ, widest := DatasetOccurrences(tables), tight[|tight| - 1];
    NarrowValues(occ, widest);
    TightIsUsable(tables, base, unproven, tight);
    forall w: nat | w in Widths(tables) && Overfull(tables, base, w) ensures |Within(occ, w)| <= MAX_EXACT_VALUES {
      assert w in unproven;
      SubsetCount(Within(occ, w), Within(occ, widest));
    }
  }

  /** Phase A; when it leaves no tight width, nothing is streamed. */
  method ProveWidths(tables: seq<Table>, alphabet: string) returns (verdict: Verdict)
    requires alphabet != "" && WithinHeader(tables)
    ensures Proved(tables, alphabet, verdict)
  {
    var base := |alphabet|;
    var widths := FieldWidths(tables);
    var unproven := UnprovenWidths(tables, widths, base);
    var tight := WithSingleToken(unproven, widths, base);
    if tight == [] {
      BothPhasesGiveHall(tables, unproven, tight, 0, base, map[], map[]);
      assert forall w :: w in Widths(tables) && Overfull(tables, base, w) ==> w in unproven;
      if base == 1 { NoWidthsNoOccurrences(tables); }
      return Sufficient;
    }
    assert widths != [] by {
      assert unproven != [] ==> unproven[0] in widths;
    }
    verdict := ProveTight(tables, alphabet, unproven, tight);
  }

  /** The tight widths: those phase A leaves, and width 1 for a one-letter alphabet. */
  ghost predicate TightFor(tables: seq<Table>, base: nat, unproven: seq<nat>, tight: seq<nat>) {
    && Ascending(unproven)
    && (forall w :: w in unproven <==> w in Widths(tables) && Overfull(tables, base, w))
    && tight != []
    && tight == if base == 1 && 1 !in unproven then [1] + unproven else unproven
  }

  lemma AscendingIsDistinct(s: seq<nat>)
    requires Ascending(s)
    ensures Distinct(s) && (s != [] ==> forall w :: w in s ==> w <= s[|s| - 1])
  {
    forall w | w in s ensures w <= s[|s| - 1] {
      var i :| 0 <= i < |s| && s[i] == w;
    }
  }

  lemma TightIsUsable(tables: seq<Table>, base: nat, unproven: seq<nat>, tight: seq<nat>)
    requires TightFor(tables, base, unproven, tight)
    ensures Distinct(tight)
    ensures forall w :: w in unproven ==> w in tight && w <= tight[|tight| - 1]
  {
    AscendingIsDistinct(unproven);
    if unproven != [] {
      assert tight[|tight| - 1] == unproven[|unproven| - 1];
    }
    if tight != unproven {
      FrontIsDistinct(1, unproven);
    }
  }

  lemma FrontIsDistinct(w: nat, s: seq<nat>)
    requires Distinct(s) && w !in s
    ensures Distinct([w] + s)
  {
  }

  /** Phase B and the single-token edge case. */
  method ProveTight(tables: seq<Table>, alphabet: string, ghost unproven: seq<nat>, tight: seq<nat>)
    returns (verdict: Verdict)
    requires alphabet != "" && WithinHeader(tables)
    requires TightFor(tables, |alphabet|, unproven, tight)
    ensures Proved(tables, alphabet, verdict)
  {
    var base, maxTight := |alphabet|, tight[|tight| - 1];
    TightIsUsable(tables, base, unproven, tight);
    var tracker, counts, outcome := ScanDataset(tables, tight, maxTight, base);
    if outcome == Unproven {
      ScanReachedCeiling(tables, base, unproven, tight);
      return Unproven;
    }
    if outcome == Insufficient {
      ghost var occ := DatasetOccurrences(tables);
      StoppedScanGrows(Narrow(occ, maxTight), occ, outcome, tracker, counts, tight, base);
      return Insufficient;
    }
    ScanFitsCeiling(tables, base, unproven, tight, tracker, counts);
    BothPhasesGiveHall(tables, unproven, tight, maxTight, base, tracker, counts);
    verdict := Sufficient;
    if base == 1 {
      verdict := SingleTokenCheck(tables, alphabet, unproven, tight, maxTight, tracker, counts);
    }
  }

  lemma NothingToAllocate(occ: set<Occurrence>, alphabet: string)
    requires Distinct(alphabet) && occ == {}
    ensures HallHolds(occ, |alphabet|) && DatasetFeasible(occ, alphabet)
    ensures forall w: nat :: w >= 2 ==> !RigidOriginal(occ, alphabet, w)
  {
    assert forall w: nat :: Within(occ, w) == {};
    assert Pseudonymizes(map[], occ, alphabet);
  }

  lemma InsufficientMeans(occ: set<Occurrence>, alphabet: string)
    requires Distinct(alphabet)
    requires !HallHolds(occ, |alphabet|) || OnlyTokenIsSource(occ, alphabet)
    ensures !DatasetFeasible(occ, alphabet)
  {
    DatasetFeasibleIff(occ, alphabet);
    if HallHolds(occ, |alphabet|) {
      SourceIsRigid(occ, alphabet);
    }
  }

  lemma NoWidthsNoOccurrences(tables: seq<Table>)
    requires Widths(tables) == {}
    ensures DatasetOccurrences(tables) == {}
  {
    forall p | p in DatasetOccurrences(tables) ensures false { OccurrenceWidth(tables, p); }
  }

  lemma SufficientMeans(occ: set<Occurrence>, alphabet: string)
    requires Distinct(alphabet) && alphabet != ""
    requires HallHolds(occ, |alphabet|) && !OnlyTokenIsSource(occ, alphabet)
    ensures |alphabet| >= 2 ==> DatasetFeasible(occ, alphabet)
    ensures |alphabet| == 1 ==>
              (DatasetFeasible(occ, alphabet) <==>
               forall w: nat :: w >= 2 ==> !RigidOriginal(occ, alphabet, w))
  {
    DatasetFeasibleIff(occ, alphabet);
    if RigidOriginal(occ, alphabet, 1) {
      var v :| v in Within(occ, 1) - Within(occ, 0) && |v| == 1 && OverAlphabet(v, alphabet);
      OneWordPerLength(alphabet, v, alphabet);
      UnaryTokenSpace(1);
      SubsetCount({alphabet}, Within(occ, 1));
    }
  }

  lemma SourceIsRigid(occ: set<Occurrence>, alphabet: string)
    requires Distinct(alphabet) && HallHolds(occ, |alphabet|)
    requires OnlyTokenIsSource(occ, alphabet)
    ensures RigidOriginal(occ, alphabet, 1)
    ensures !DatasetFeasible(occ, alphabet)
  {
  }

  /** The single-token edge case at the end of the scan. */
  method SingleTokenCheck(tables: seq<Table>, alphabet: string, ghost unproven: seq<nat>,
                          tight: seq<nat>, maxTight: nat, tracker: map<string, nat>,
                          counts: map<nat, nat>)
    returns (verdict: Verdict)
    requires |alphabet| == 1 && WithinHeader(tables)
    requires TightFor(tables, 1, unproven, tight)
    requires maxTight == tight[|tight| - 1]
    requires Exact(Narrow(DatasetOccurrences(tables), maxTight), tracker, counts, tight, 1)
    requires HallHolds(DatasetOccurrences(tables), 1)
    ensures verdict == Sufficient || verdict == Insufficient
    ensures verdict == Insufficient <==> OnlyTokenIsSource(DatasetOccurrences(tables), alphabet)
  {
    ghost var occ := DatasetOccurrences(tables);
    ghost var narrow := Narrow(occ, maxTight);
    assert |Within(occ, 0)| <= TokenSpace(0, 1);
    TrackedWithin(tracker, narrow, 1);
    if maxTight == 0 {
      assert 0 in unproven && 1 !in unproven;
      NoWidthOneBelowZero(tables, unproven);
      assert Within(occ, 1) == {};
      assert Within(narrow, 1) <= Within(occ, 1);
    } else {
      NarrowWithin(occ, 1, maxTight);
    }
    if counts[1] == 1 {
      TrackedWithin(tracker, narrow, 0);
      assert Within(narrow, 0) <= Within(occ, 0);
      assert AtMost(tracker, 1) != {};
      assert exists v :: v in tracker && tracker[v] == 1;
      var only :| only in tracker && tracker[only] == 1;
      SubsetCount({only}, AtMost(tracker, 1));
      if only == alphabet {
        return Insufficient;
      }
    }
    return Sufficient;
  }

  // ---- the one-letter gap ----

  /** One record with "x" in a one-byte field and "AA" in a two-byte field. */
  function UnaryGap(): seq<Table> {
    [Table(1, [Field("X", 1), Field("Y", 2)], [map["X" := Text("x"), "Y" := Text("AA")]])]
  }

  lemma UnaryGapOccurrences()
    ensures DatasetOccurrences(UnaryGap()) == {("x", 1), ("AA", 2)}
  {
    var table := UnaryGap()[0];
    var record, fields := table.records[0], table.fields;
    assert "X" != "Y" by { assert "X"[0] != "Y"[0]; }
    assert fields[..1] == [fields[0]] && fields[..1][..0] == [];
    assert RecordOccurrences(record, fields[..1]) == {("x", 1)};
    assert RecordOccurrences(record, fields) == {("x", 1), ("AA", 2)};
    assert table.records[..0] == [];
    assert RecordsOccurrences(table.records, fields) == {("x", 1), ("AA", 2)};
    assert UnaryGap()[..0] == [];
  }

  lemma UnaryGapIsRigid()
    ensures var occ := DatasetOccurrences(UnaryGap());
            HallHolds(occ, 1) && !OnlyTokenIsSource(occ, "A") && RigidOriginal(occ, "A", 2) &&
            |Values(occ)| <= 2
  {
    var occ := DatasetOccurrences(UnaryGap());
    UnaryGapOccurrences();
    assert "x" != "AA" && "x" != "A" by { assert "x"[0] != "AA"[0] && "x"[0] != "A"[0]; }
    assert Within(occ, 0) == {} && Within(occ, 1) == {"x"};
    assert Values(occ) == {"x", "AA"};
    forall w: nat ensures |Within(occ, w)| <= TokenSpace(w, 1) {
      UnaryTokenSpace(w);
      if w >= 2 {
        SubsetCount(Within(occ, w), {"x", "AA"});
      }
    }
    assert Within(occ, 2) == {"x", "AA"};
    assert "AA" in Within(occ, 2) - Within(occ, 1);
  }

  /** With one letter the scan accepts a dataset that has no allocation. */
  method UnaryAlphabetIsAccepted() returns (verdict: Verdict)
    ensures verdict == Sufficient && !DatasetFeasible(DatasetOccurrences(UnaryGap()), "A")
  {
    UnaryGapIsRigid();
    DatasetFeasibleIff(DatasetOccurrences(UnaryGap()), "A");
    verdict := CapacitySufficient(UnaryGap(), "A");
  }
}
