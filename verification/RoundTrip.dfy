/** Pass 2 followed by recovery is the identity on every finalized table. */
module RoundTrip {
  import opened Wrappers
  import opened Records
  import opened VaultState
  import opened Pass2
  import opened Relations
  import opened Recovery

  ghost predicate DistinctFields(schema: seq<SchemaField>) {
    forall i, j :: 0 <= i < j < |schema| ==> schema[i].name != schema[j].name
  }

  /** The ledger row of a transformed field names the state pass 2 used for it. */
  ghost predicate BoundTo(ctx: Context, d: FieldDirective, b: Binding) {
    && b.action == Some(d.action)
    && if d.numericDomain.Some? then
         && d.action == Pseudonymize
         && b.domain == d.numericDomain
         && d.numericDomain.value in ctx.vault.kinds
         && ctx.vault.kinds[d.numericDomain.value] == NumericDomain
         && Bijective(Rows(ctx.vault.numeric, d.numericDomain.value))
       else match d.action
         case Pseudonymize =>
           b.domain == ctx.textDomain && (ctx.textDomain.Some? ==> FinalizedText(ctx))
         case Shift =>
           && ctx.offset.Some? && ctx.offset.value != 0
           && b.domain.Some? && b.domain.value in ctx.vault.offsets
           && ctx.vault.offsets[b.domain.value] == ctx.offset.value
         case UnknownAction(_) => false
         case _ => true
  }

  /** The global text domain: a bijection onto non-empty pseudonyms. */
  ghost predicate FinalizedText(ctx: Context)
    requires ctx.textDomain.Some?
  {
    var domain := ctx.textDomain.value;
    && !(domain in ctx.vault.kinds && ctx.vault.kinds[domain] == NumericDomain)
    && Bijective(Rows(ctx.vault.text, domain))
    && forall i :: 0 <= i < |Rows(ctx.vault.text, domain)| ==> Rows(ctx.vault.text, domain)[i].1 != ""
  }

  /** Pass 1 finalized the state this occurrence needs. */
  ghost predicate Observed(ctx: Context, d: FieldDirective, b: Binding, tableId: string, index: nat, v: Value) {
    if d.numericDomain.Some? then
      v == Null || (v.Int? && PseudonymOf(Rows(ctx.vault.numeric, d.numericDomain.value), v.n).Some?)
    else match d.action
      case Pseudonymize =>
        v == Null || v == Text("") ||
        (v.Text? && ctx.textDomain.Some? && PseudonymOf(Rows(ctx.vault.text, ctx.textDomain.value), v.s).Some?)
      case Mask =>
        var key := (tableId, index, b.fieldId);
        MaskMemo(d.dbfType, v).Ok? &&
        (v != Null ==> key in ctx.vault.memos && Some(ctx.vault.memos[key]) == PayloadRow(v))
      case Shift =>
        v == Null ||
        ((v.Date? || v.DateTime?) && InCalendar(v.ordinal) &&
         (ctx.offset.Some? ==> InCalendar(v.ordinal + ctx.offset.value)))
      case _ => true
  }

  lemma TextPseudonymNotEmpty(ctx: Context, s: string)
    requires ctx.textDomain.Some? && FinalizedText(ctx)
    requires PseudonymOf(Rows(ctx.vault.text, ctx.textDomain.value), s).Some?
    ensures PseudonymOf(Rows(ctx.vault.text, ctx.textDomain.value), s).value != ""
  {
    var rows := Rows(ctx.vault.text, ctx.textDomain.value);
    PseudonymHasRow(rows, s);
  }

  /** One field: pass 2 succeeds and recovery gives the source value back. */
  lemma FieldRoundTrip(ctx: Context, d: FieldDirective, b: Binding, tableId: string, index: nat, v: Value)
    requires BoundTo(ctx, d, b) && Observed(ctx, d, b, tableId, index, v)
    ensures TransformValue(ctx, d, v).Ok?
    ensures RecoverField(ctx.vault, tableId, index, b, TransformValue(ctx, d, v).value) == Ok(v)
  {
    if d.numericDomain.Some? {
      if v != Null {
        LookupInverse(Rows(ctx.vault.numeric, d.numericDomain.value), v.n);
      }
    } else {
      match d.action
      case Pseudonymize =>
        if v != Null && v != Text("") {
          LookupInverse(Rows(ctx.vault.text, ctx.textDomain.value), v.s);
          TextPseudonymNotEmpty(ctx, v.s);
        }
      case Mask => MaskHides(d.dbfType, v);
      case Shift => ShiftInverse(v, ctx.offset.value);
      case _ =>
    }
  }

  /** The finalized vault covers a whole table. */
  ghost predicate Finalized(ctx: Context, schema: seq<SchemaField>, ds: seq<FieldDirective>,
                            ledger: Ledger, tableId: string, source: seq<Record>)
  {
    && DistinctFields(schema) && DistinctNames(ds) && Covers(ledger, schema)
    && Positional(source)
    && (forall k :: 0 <= k < |ds| ==> ds[k].name in ApplicationNames(schema))
    && (forall k :: 0 <= k < |ds| ==> ds[k].name in ledger && BoundTo(ctx, ds[k], ledger[ds[k].name]))
    && (forall i :: 0 <= i < |schema| && !IsSystem(schema[i]) && !IsTransformed(ds, schema[i].name) ==>
          ledger[schema[i].name].action == Some(Keep))
    && (forall i, k :: 0 <= i < |source| && 0 <= k < |ds| ==>
          Observed(ctx, ds[k], ledger[ds[k].name], tableId, i, Get(source[i].values, ds[k].name)))
  }

  ghost predicate IsTransformed(ds: seq<FieldDirective>, name: string) {
    exists k :: 0 <= k < |ds| && ds[k].name == name
  }

  lemma ApplicationIsNotSystem(schema: seq<SchemaField>, values: Values, name: string)
    requires DistinctFields(schema) && name in ApplicationNames(schema)
    ensures name !in SystemNames(schema)
    ensures Get(values - SystemNames(schema), name) == Get(values, name)
  {
  }

  /** Pass 2 is total on a finalized table. */
  lemma PassTwoIsTotal(ctx: Context, schema: seq<SchemaField>, ds: seq<FieldDirective>,
                       ledger: Ledger, tableId: string, source: seq<Record>, i: nat, code: ErrorCode)
    requires Finalized(ctx, schema, ds, ledger, tableId, source) && i < |source|
    ensures !Refused(ctx, ds, source[i].values - SystemNames(schema), code)
  {
    forall k | 0 <= k < |ds|
      ensures TransformValue(ctx, ds[k], Get(source[i].values - SystemNames(schema), ds[k].name)).Ok?
    {
      ApplicationIsNotSystem(schema, source[i].values, ds[k].name);
      FieldRoundTrip(ctx, ds[k], ledger[ds[k].name], tableId, i, Get(source[i].values, ds[k].name));
    }
  }

  /** Recovering one application field of the published record gives the source value. */
  lemma RecordRoundTrip(ctx: Context, schema: seq<SchemaField>, ds: seq<FieldDirective>,
                        ledger: Ledger, tableId: string, source: seq<Record>,
                        written: seq<Record>, published: seq<Record>, i: nat, f: nat)
    requires Finalized(ctx, schema, ds, ledger, tableId, source)
    requires TransformedTable(ctx, schema, ds, source, written)
    requires ReadsBack(written, published, schema)
    requires i < |source| && f < |schema| && !IsSystem(schema[f])
    ensures RecoverField(ctx.vault, tableId, published[i].physicalIndex, ledger[schema[f].name],
                         Get(published[i].values, schema[f].name)) ==
            Ok(Get(source[i].values, schema[f].name))
  {
    var name := schema[f].name;
    assert name in ApplicationNames(schema);
    ApplicationIsNotSystem(schema, source[i].values, name);
    assert TransformedRecord(ctx, schema, ds, source[i], written[i]);
    if IsTransformed(ds, name) {
      var k :| 0 <= k < |ds| && ds[k].name == name;
      FieldRoundTrip(ctx, ds[k], ledger[name], tableId, i, Get(source[i].values, name));
    } else {
      assert Get(written[i].values, name) == Get(source[i].values, name);
    }
  }

  /** A recovered table is the source: same order, deletion markers and application values. */
  ghost predicate SameTable(schema: seq<SchemaField>, a: seq<Record>, b: seq<Record>) {
    && |a| == |b|
    && forall i :: 0 <= i < |a| ==>
         a[i].deleted == b[i].deleted &&
         forall f :: 0 <= f < |schema| && !IsSystem(schema[f]) ==>
           Get(a[i].values, schema[f].name) == Get(b[i].values, schema[f].name)
  }

  /** For every table, every finalized vault and every faithful read-back of the written
      table, recovery is not refused and returns the source records. */
  lemma TableRoundTrip(ctx: Context, schema: seq<SchemaField>, ds: seq<FieldDirective>,
                       ledger: Ledger, tableId: string, source: seq<Record>,
                       written: seq<Record>, published: seq<Record>)
    requires Finalized(ctx, schema, ds, ledger, tableId, source)
    requires TransformedTable(ctx, schema, ds, source, written)
    requires ReadsBack(written, published, schema)
    ensures forall i, code :: 0 <= i < |published| ==>
              !RecoveryRefused(ctx.vault, tableId, ledger, schema, published[i], code)
    ensures forall recovered: seq<Record> ::
              RecoveredTable(ctx.vault, tableId, ledger, schema, published, recovered) ==>
              SameTable(schema, recovered, source)
  {
    forall i, f | 0 <= i < |source| && 0 <= f < |schema| && !IsSystem(schema[f])
      ensures RecoverField(ctx.vault, tableId, published[i].physicalIndex, ledger[schema[f].name],
                           Get(published[i].values, schema[f].name)) ==
              Ok(Get(source[i].values, schema[f].name))
    {
      RecordRoundTrip(ctx, schema, ds, ledger, tableId, source, written, published, i, f);
    }
    forall recovered: seq<Record> | RecoveredTable(ctx.vault, tableId, ledger, schema, published, recovered)
      ensures SameTable(schema, recovered, source)
    {
      forall i | 0 <= i < |source|
        ensures recovered[i].deleted == source[i].deleted &&
                forall f :: 0 <= f < |schema| && !IsSystem(schema[f]) ==>
                  Get(recovered[i].values, schema[f].name) == Get(source[i].values, schema[f].name)
      {
        assert TransformedRecord(ctx, schema, ds, source[i], written[i]);
        assert RecoveredValues(ctx.vault, tableId, ledger, schema, published[i].physicalIndex,
                               published[i].values, recovered[i].values);
      }
    }
  }

  /** A table read back from a fresh write, with arbitrary writer-owned system columns. */
  method ReadBack(written: seq<Record>, schema: seq<SchemaField>, system: Values)
    returns (table: seq<Record>)
    requires DistinctFields(schema) && system.Keys == SystemNames(schema)
    ensures ReadsBack(written, table, schema)
  {
    table := seq(|written|, i requires 0 <= i < |written| =>
                   Record(i, written[i].deleted, written[i].values + system));
    forall name | name in ApplicationNames(schema) ensures name !in SystemNames(schema) {
      ApplicationIsNotSystem(schema, map[], name);
    }
  }

  /** Every relation side that names the table can key whatever pass 2 writes. */
  ghost predicate SidesKeyable(ctx: Context, schema: seq<SchemaField>, ds: seq<FieldDirective>,
                               sides: seq<seq<string>>, source: seq<Record>)
  {
    forall i, after: Values ::
      (0 <= i < |source| && Transformed(ctx, ds, source[i].values - SystemNames(schema), after)) ==>
      AllKeyable(sides, after)
  }

  /** Pseudonymize a table, publish it, and recover it. */
  method PseudonymizeAndRecover(ctx: Context, schema: seq<SchemaField>, ds: seq<FieldDirective>,
                                sides: seq<seq<string>>, ledger: Ledger, tableId: string,
                                source: seq<Record>, system: Values)
    returns (published: seq<Record>, shard: seq<Side>, recovered: seq<Record>)
    requires Finalized(ctx, schema, ds, ledger, tableId, source)
    requires SidesKeyable(ctx, schema, ds, sides, source)
    requires system.Keys == SystemNames(schema)
    ensures |published| == |source| && |shard| == |sides|
    ensures SameTable(schema, recovered, source)
    ensures exists written :: TransformedTable(ctx, schema, ds, source, written) &&
              ReadsBack(written, published, schema) && ShardOf(shard, sides, written)
  {
    var out := TransformStream(ctx, schema, ds, sides, source);
    if out.Err? {
      ghost var i :| 0 <= i < |source| &&
        RecordRefused(ctx, ds, sides, source[i].values - SystemNames(schema), out.error);
      PassTwoIsTotal(ctx, schema, ds, ledger, tableId, source, i, out.error);
      assert false;
    }
    var written := out.value.0;
    shard := out.value.1;
    published := ReadBack(written, schema, system);
    TableRoundTrip(ctx, schema, ds, ledger, tableId, source, written, published);
    var back := RecoverStream(ctx.vault, tableId, ledger, schema, published);
    assert back.Ok?;
    recovered := back.value;
  }
}
