/** Declared relations survive pass 2: the composition of the transformation, the
    observation of both sides and the comparison rule. */
module RelationPreservation {
  import opened Wrappers
  import opened Records
  import opened VaultState
  import opened Pass2
  import opened Recovery
  import opened Relations
  import opened RoundTrip

  /** Observe one side of a relation over a whole table, record by record. */
  method ObserveTable(fields: seq<string>, records: seq<Record>) returns (r: Fallible<Side>)
    ensures r.Ok? <==> forall i :: 0 <= i < |records| ==> Keyable(TupleAt(fields, records[i].values))
    ensures r.Ok? ==> r.value == Observe(RowsOf(TuplesOf(fields, records)))
  {
    var side := EMPTY_SIDE;
    ghost var sides := SideTrace(RowsOf(TuplesOf(fields, records)));
    for i := 0 to |records|
      invariant side == sides[i]
      invariant forall k :: 0 <= k < i ==> Keyable(TupleAt(fields, records[k].values))
    {
      var out := ObserveSide(fields, records[i].values, side);
      if out.Err? {
        return Err(out.error);
      }
      side := out.value;
    }
    r := Ok(side);
  }

  /** The spool state before each row. */
  lemma {:induction false} SideTrace(rows: seq<Option<string>>) returns (sides: seq<Side>)
    ensures |sides| == |rows| + 1 && sides[0] == EMPTY_SIDE && sides[|rows|] == Observe(rows)
    ensures forall i :: 0 <= i < |rows| ==> sides[i + 1] == AddRow(sides[i], rows[i])
  {
    if rows == [] {
      sides := [EMPTY_SIDE];
    } else {
      var n := |rows| - 1;
      var rest := SideTrace(rows[..n]);
      sides := rest + [AddRow(rest[n], rows[n])];
    }
  }

  /** A table on its way through pass 2. */
  datatype TableRun = TableRun(
    schema: seq<SchemaField>, ds: seq<FieldDirective>, ledger: Ledger, tableId: string,
    source: seq<Record>, written: seq<Record>)

  ghost predicate Ran(ctx: Context, t: TableRun) {
    && Finalized(ctx, t.schema, t.ds, t.ledger, t.tableId, t.source)
    && TransformedTable(ctx, t.schema, t.ds, t.source, t.written)
  }

  function DirectiveFor(ds: seq<FieldDirective>, name: string): (d: Option<FieldDirective>)
    ensures d.Some? ==> d.value in ds && d.value.name == name
    ensures d.None? ==> forall k :: 0 <= k < |ds| ==> ds[k].name != name
  {
    if ds == [] then None
    else if ds[0].name == name then Some(ds[0])
    else
      var rest := DirectiveFor(ds[1..], name);
      assert rest.None? ==> forall k :: 1 <= k < |ds| ==> ds[k] == ds[1..][k - 1];
      rest
  }

  /** How pass 2 maps the values of one key position. */
  datatype Mapping = Identity | TextMapping | NumericMapping(domain: DomainId) | OtherMapping

  function MappingOf(d: Option<FieldDirective>): Mapping {
    match d
    case None => Identity
    case Some(d) =>
      if d.numericDomain.Some? then NumericMapping(d.numericDomain.value)
      else if d.action == Pseudonymize then TextMapping
      else if d.action == Keep then Identity
      else OtherMapping
  }

  function MapValue(ctx: Context, m: Mapping, v: Value): Value {
    match m
    case NumericMapping(domain) =>
      if v.Int? && PseudonymOf(Rows(ctx.vault.numeric, domain), v.n).Some?
      then Int(PseudonymOf(Rows(ctx.vault.numeric, domain), v.n).value) else v
    case TextMapping =>
      if v.Text? && v.s != "" && ctx.textDomain.Some? &&
         PseudonymOf(Rows(ctx.vault.text, ctx.textDomain.value), v.s).Some?
      then Text(PseudonymOf(Rows(ctx.vault.text, ctx.textDomain.value), v.s).value) else v
    case _ => v
  }

  /** A key member: an application field with a keyable mapping and keyable source values. */
  ghost predicate Member(ctx: Context, t: TableRun, name: string, m: Mapping) {
    && name in ApplicationNames(t.schema)
    && MappingOf(DirectiveFor(t.ds, name)) == m && m != OtherMapping
    && forall r :: 0 <= r < |t.source| ==>
         Get(t.source[r].values, name) == Null || ComponentOf(Get(t.source[r].values, name)).Some?
  }

  /** The state a mapping reads is a finalized bijection. */
  ghost predicate FinalizedMapping(ctx: Context, m: Mapping) {
    match m
    case NumericMapping(domain) => Bijective(Rows(ctx.vault.numeric, domain))
    case TextMapping => ctx.textDomain.Some? ==> FinalizedText(ctx)
    case _ => true
  }

  /** The value of a mapping on an occurrence pass 1 observed. */
  ghost predicate InDomain(ctx: Context, m: Mapping, v: Value) {
    match m
    case NumericMapping(domain) =>
      v == Null || (v.Int? && PseudonymOf(Rows(ctx.vault.numeric, domain), v.n).Some?)
    case TextMapping =>
      v == Null || v == Text("") ||
      (v.Text? && ctx.textDomain.Some? && PseudonymOf(Rows(ctx.vault.text, ctx.textDomain.value), v.s).Some?)
    case _ => true
  }

  lemma MemberValue(ctx: Context, t: TableRun, name: string, m: Mapping, r: nat, after: Values)
    requires Finalized(ctx, t.schema, t.ds, t.ledger, t.tableId, t.source)
    requires Member(ctx, t, name, m) && r < |t.source|
    requires Transformed(ctx, t.ds, t.source[r].values - SystemNames(t.schema), after)
    ensures Get(after, name) == MapValue(ctx, m, Get(t.source[r].values, name))
    ensures InDomain(ctx, m, Get(t.source[r].values, name)) && FinalizedMapping(ctx, m)
  {
    var before := t.source[r].values - SystemNames(t.schema);
    ApplicationIsNotSystem(t.schema, t.source[r].values, name);
    var d := DirectiveFor(t.ds, name);
    if d.Some? {
      var k :| 0 <= k < |t.ds| && t.ds[k] == d.value;
      assert BoundTo(ctx, t.ds[k], t.ledger[name]);
      assert Observed(ctx, t.ds[k], t.ledger[name], t.tableId, r, Get(t.source[r].values, name));
      assert TransformValue(ctx, t.ds[k], Get(before, name)) == Ok(Get(after, name));
    }
  }

  lemma MemberMapped(ctx: Context, t: TableRun, name: string, m: Mapping, r: nat)
    requires Ran(ctx, t) && Member(ctx, t, name, m) && r < |t.source|
    ensures Get(t.written[r].values, name) == MapValue(ctx, m, Get(t.source[r].values, name))
    ensures InDomain(ctx, m, Get(t.source[r].values, name)) && FinalizedMapping(ctx, m)
  {
    assert TransformedRecord(ctx, t.schema, t.ds, t.source[r], t.written[r]);
    MemberValue(ctx, t, name, m, r, t.written[r].values);
  }

  /** On observed values a mapping keeps NULL and key types and is injective. */
  lemma MappingIsInjective(ctx: Context, m: Mapping, v: Value, w: Value)
    requires FinalizedMapping(ctx, m) && InDomain(ctx, m, v) && InDomain(ctx, m, w)
    ensures v == Null <==> MapValue(ctx, m, v) == Null
    ensures v == Null || ComponentOf(v).Some? ==>
              MapValue(ctx, m, v) == Null || ComponentOf(MapValue(ctx, m, v)).Some?
    ensures MapValue(ctx, m, v) == MapValue(ctx, m, w) ==> v == w
  {
    match m
    case NumericMapping(domain) =>
      if v.Int? && w.Int? && MapValue(ctx, m, v) == MapValue(ctx, m, w) {
        LookupInjective(Rows(ctx.vault.numeric, domain), v.n, w.n);
      }
    case TextMapping =>
      TextMappingIsInjective(ctx, v, w);
    case _ =>
  }

  lemma TextMappingIsInjective(ctx: Context, v: Value, w: Value)
    requires FinalizedMapping(ctx, TextMapping)
    requires InDomain(ctx, TextMapping, v) && InDomain(ctx, TextMapping, w)
    ensures MapValue(ctx, TextMapping, v) == MapValue(ctx, TextMapping, w) ==> v == w
  {
    if v.Text? && v.s != "" {
      TextPseudonymNotEmpty(ctx, v.s);
    }
    if w.Text? && w.s != "" {
      TextPseudonymNotEmpty(ctx, w.s);
    }
    if v.Text? && w.Text? && v.s != "" && w.s != "" && MapValue(ctx, TextMapping, v) == MapValue(ctx, TextMapping, w) {
      LookupInjective(Rows(ctx.vault.text, ctx.textDomain.value), v.s, w.s);
    }
  }

  /** The fields of one relation side follow the shared mappings, position by position. */
  ghost predicate SideFollows(ctx: Context, t: TableRun, fields: seq<string>, ms: seq<Mapping>) {
    |fields| == |ms| && forall i :: 0 <= i < |fields| ==> Member(ctx, t, fields[i], ms[i])
  }

  function PositionMap(ctx: Context, ms: seq<Mapping>): (int, Value) -> Value {
    (i, v) => if 0 <= i < |ms| then MapValue(ctx, ms[i], v) else v
  }

  lemma SideMapped(ctx: Context, t: TableRun, fields: seq<string>, ms: seq<Mapping>)
    requires Ran(ctx, t) && SideFollows(ctx, t, fields, ms)
    ensures MappedTuples(TuplesOf(fields, t.source), TuplesOf(fields, t.written), PositionMap(ctx, ms), |ms|)
    ensures forall r, i :: 0 <= r < |t.source| && 0 <= i < |ms| ==>
              InDomain(ctx, ms[i], TupleAt(fields, t.source[r].values)[i]) && FinalizedMapping(ctx, ms[i])
  {
    forall r, i | 0 <= r < |t.source| && 0 <= i < |ms|
      ensures var b, a := TupleAt(fields, t.source[r].values)[i], TupleAt(fields, t.written[r].values)[i];
              && a == PositionMap(ctx, ms)(i, b)
              && InDomain(ctx, ms[i], b) && FinalizedMapping(ctx, ms[i])
              && (b == Null <==> a == Null)
              && (b == Null || ComponentOf(b).Some?) && (a == Null || ComponentOf(a).Some?)
    {
      assert Member(ctx, t, fields[i], ms[i]);
      MemberMapped(ctx, t, fields[i], ms[i], r);
      var b := Get(t.source[r].values, fields[i]);
      MappingIsInjective(ctx, ms[i], b, b);
    }
    forall r | 0 <= r < |t.source|
      ensures MappedTuple(TupleAt(fields, t.source[r].values), TupleAt(fields, t.written[r].values),
                          PositionMap(ctx, ms))
    {
    }
  }

  /** At one position, two source values with the same image are equal. */
  lemma MembersInjective(ctx: Context, x: TableRun, xname: string, r: nat, y: TableRun, yname: string, s: nat,
                         m: Mapping)
    requires Ran(ctx, x) && Member(ctx, x, xname, m) && r < |x.source|
    requires Ran(ctx, y) && Member(ctx, y, yname, m) && s < |y.source|
    ensures MapValue(ctx, m, Get(x.source[r].values, xname)) == MapValue(ctx, m, Get(y.source[s].values, yname)) ==>
              Get(x.source[r].values, xname) == Get(y.source[s].values, yname)
  {
    MemberMapped(ctx, x, xname, m, r);
    MemberMapped(ctx, y, yname, m, s);
    MappingIsInjective(ctx, m, Get(x.source[r].values, xname), Get(y.source[s].values, yname));
  }

  lemma SidesInjective(ctx: Context, x: TableRun, xf: seq<string>, y: TableRun, yf: seq<string>, ms: seq<Mapping>)
    requires Ran(ctx, x) && SideFollows(ctx, x, xf, ms)
    requires Ran(ctx, y) && SideFollows(ctx, y, yf, ms)
    ensures InjectiveOn(TuplesOf(xf, x.source), TuplesOf(yf, y.source), PositionMap(ctx, ms), |ms|)
  {
    var xs, ys, g := TuplesOf(xf, x.source), TuplesOf(yf, y.source), PositionMap(ctx, ms);
    forall r, s, i | 0 <= r < |xs| && 0 <= s < |ys| && 0 <= i < |ms|
      ensures g(i, xs[r][i]) == g(i, ys[s][i]) ==> xs[r][i] == ys[s][i]
    {
      PositionInjective(ctx, x, xf, r, y, yf, s, ms, i);
    }
  }

  lemma PositionInjective(ctx: Context, x: TableRun, xf: seq<string>, r: nat,
                          y: TableRun, yf: seq<string>, s: nat, ms: seq<Mapping>, i: nat)
    requires Ran(ctx, x) && SideFollows(ctx, x, xf, ms) && r < |x.source|
    requires Ran(ctx, y) && SideFollows(ctx, y, yf, ms) && s < |y.source| && i < |ms|
    ensures var b, c := TupleAt(xf, x.source[r].values)[i], TupleAt(yf, y.source[s].values)[i];
            PositionMap(ctx, ms)(i, b) == PositionMap(ctx, ms)(i, c) ==> b == c
  {
    assert Member(ctx, x, xf[i], ms[i]) && Member(ctx, y, yf[i], ms[i]);
    MembersInjective(ctx, x, xf[i], r, y, yf[i], s, ms[i]);
  }

  /** Every declared relation whose two sides share their mappings position by position
      compares as verified after pass 2; the two sides may be the same table. */
  lemma PassTwoPreservesRelation(ctx: Context, parent: TableRun, foreign: TableRun,
                                 parentFields: seq<string>, foreignFields: seq<string>, ms: seq<Mapping>)
    requires Ran(ctx, parent) && Ran(ctx, foreign)
    requires SideFollows(ctx, parent, parentFields, ms) && SideFollows(ctx, foreign, foreignFields, ms)
    ensures Verified(
              Evidence(Observe(RowsOf(TuplesOf(parentFields, parent.source))),
                       Observe(RowsOf(TuplesOf(foreignFields, foreign.source)))),
              Evidence(Observe(RowsOf(TuplesOf(parentFields, parent.written))),
                       Observe(RowsOf(TuplesOf(foreignFields, foreign.written)))))
  {
    SideMapped(ctx, parent, parentFields, ms);
    SideMapped(ctx, foreign, foreignFields, ms);
    SidesInjective(ctx, parent, parentFields, parent, parentFields, ms);
    SidesInjective(ctx, foreign, foreignFields, foreign, foreignFields, ms);
    SidesInjective(ctx, parent, parentFields, foreign, foreignFields, ms);
    InjectiveMapVerifies(TuplesOf(parentFields, parent.source), TuplesOf(parentFields, parent.written),
                         TuplesOf(foreignFields, foreign.source), TuplesOf(foreignFields, foreign.written),
                         PositionMap(ctx, ms), |ms|);
  }

  // ---- the shards pass 2 writes ----

  /** Members can be keyed in whatever pass 2 writes. */
  lemma MembersAreKeyable(ctx: Context, t: TableRun, sides: seq<seq<string>>, mss: seq<seq<Mapping>>)
    requires Finalized(ctx, t.schema, t.ds, t.ledger, t.tableId, t.source) && |sides| == |mss|
    requires forall j :: 0 <= j < |sides| ==> SideFollows(ctx, t, sides[j], mss[j])
    ensures SidesKeyable(ctx, t.schema, t.ds, sides, t.source)
  {
    forall r, after: Values, j, i |
      0 <= r < |t.source| && Transformed(ctx, t.ds, t.source[r].values - SystemNames(t.schema), after) &&
      0 <= j < |sides| && 0 <= i < |sides[j]|
      ensures Get(after, sides[j][i]) == Null || ComponentOf(Get(after, sides[j][i])).Some?
    {
      var name, m := sides[j][i], mss[j][i];
      assert SideFollows(ctx, t, sides[j], mss[j]);
      assert Member(ctx, t, name, m);
      MemberValue(ctx, t, name, m, r, after);
      MappingIsInjective(ctx, m, Get(t.source[r].values, name), Get(t.source[r].values, name));
    }
  }

  /** Pass 2 over a parent and a foreign table, shards included: it refuses nothing, and the
      relation compares as verified against the evidence of the source. */
  method PseudonymizeRelated(ctx: Context, parent: TableRun, foreign: TableRun,
                             parentFields: seq<string>, foreignFields: seq<string>, ghost ms: seq<Mapping>,
                             before: Evidence)
    returns (s: Summary)
    requires Finalized(ctx, parent.schema, parent.ds, parent.ledger, parent.tableId, parent.source)
    requires Finalized(ctx, foreign.schema, foreign.ds, foreign.ledger, foreign.tableId, foreign.source)
    requires SideFollows(ctx, parent, parentFields, ms) && SideFollows(ctx, foreign, foreignFields, ms)
    requires before == Evidence(TableEvidence(parentFields, parent.source),
                                TableEvidence(foreignFields, foreign.source))
    ensures s.verified && s.afterRows == s.beforeRows && s.afterUnique == s.beforeUnique
  {
    var parentShard, parentRun := PseudonymizeSide(ctx, parent, parentFields, ms);
    var foreignShard, foreignRun := PseudonymizeSide(ctx, foreign, foreignFields, ms);
    PassTwoPreservesRelation(ctx, parentRun, foreignRun, parentFields, foreignFields, ms);
    var after := Evidence(parentShard, foreignShard);
    s := CompareOne(before, after);
    ObservedIsBalanced(RowsOf(TuplesOf(parentFields, parentRun.source)));
    ObservedIsBalanced(RowsOf(TuplesOf(foreignFields, foreignRun.source)));
    ObservedIsBalanced(RowsOf(TuplesOf(parentFields, parentRun.written)));
    ObservedIsBalanced(RowsOf(TuplesOf(foreignFields, foreignRun.written)));
    VerifiedConserves(before, after);
  }

  method PseudonymizeSide(ctx: Context, t: TableRun, fields: seq<string>, ghost ms: seq<Mapping>)
    returns (shard: Side, ghost run: TableRun)
    requires Finalized(ctx, t.schema, t.ds, t.ledger, t.tableId, t.source) && SideFollows(ctx, t, fields, ms)
    ensures run == t.(written := run.written) && Ran(ctx, run) && SideFollows(ctx, run, fields, ms)
    ensures shard == TableEvidence(fields, run.written)
  {
    MembersAreKeyable(ctx, t, [fields], [ms]);
    var out := TransformStream(ctx, t.schema, t.ds, [fields], t.source);
    if out.Err? {
      ghost var i :| 0 <= i < |t.source| &&
        RecordRefused(ctx, t.ds, [fields], t.source[i].values - SystemNames(t.schema), out.error);
      PassTwoIsTotal(ctx, t.schema, t.ds, t.ledger, t.tableId, t.source, i, out.error);
      assert false;
    }
    run := t.(written := out.value.0);
    shard := out.value.1[0];
    forall i | 0 <= i < |fields| ensures Member(ctx, run, fields[i], ms[i]) {
      assert Member(ctx, t, fields[i], ms[i]);
    }
  }
}
