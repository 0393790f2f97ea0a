/** The per-record transformation of pass 2 (engine/pass2.py, _transform_stream). */
module Pass2 {
  import opened Wrappers
  import opened Records
  import opened VaultState
  import opened Relations

  datatype Action = Keep | Pseudonymize | Mask | Shift | UnknownAction(name: string)

  datatype FieldDirective = FieldDirective(
    name: string, action: Action, dbfType: string, numericDomain: Option<DomainId>)

  /** The finalized state a table worker reads. `render` is the text form of a value
      that is not text. */
  datatype Context = Context(vault: Vault, textDomain: Option<DomainId>, offset: Option<int>,
                             render: Value -> string)

  function Rendered(ctx: Context, value: Value): string {
    if value.Text? then value.s else ctx.render(value)
  }

  function NumericPseudonym(ctx: Context, domain: DomainId, value: Value): Fallible<Value> {
    if !value.Int? then Err(NumericValueUnsupported) else
    match PseudonymOf(Rows(ctx.vault.numeric, domain), value.n)
    case Some(p) => Ok(Int(p))
    case None => Err(NumericMappingMissing)
  }

  function TextPseudonym(ctx: Context, value: Value): Fallible<Value> {
    if ctx.textDomain.None? then Err(TextDomainMissing) else
    match PseudonymOf(Rows(ctx.vault.text, ctx.textDomain.value), Rendered(ctx, value))
    case Some(p) => Ok(Text(p))
    case None => Err(TextMappingMissing)
  }

  /** The new value of one transformed field. */
  function TransformValue(ctx: Context, d: FieldDirective, value: Value): Fallible<Value> {
    if d.numericDomain.Some? then
      if value == Null then Ok(Null) else NumericPseudonym(ctx, d.numericDomain.value, value)
    else match d.action
      case Pseudonymize => if value == Null || value == Text("") then Ok(value) else TextPseudonym(ctx, value)
      case Mask => MaskMemo(d.dbfType, value)
      case Shift => if ctx.offset.None? then Err(TemporalOffsetMissing) else TemporalShift(value, ctx.offset.value)
      case _ => Ok(value)
  }

  /** The table maps the original, and only to this pseudonym if its rows are unique. */
  ghost predicate Maps<T>(rows: seq<(T, T)>, original: T, pseudonym: T) {
    exists i :: 0 <= i < |rows| && rows[i] == (original, pseudonym)
  }

  ghost predicate Unmapped<T>(rows: seq<(T, T)>, original: T) {
    forall i :: 0 <= i < |rows| ==> rows[i].0 != original
  }

  lemma LookupIsRow<T>(rows: seq<(T, T)>, original: T)
    ensures match PseudonymOf(rows, original)
            case Some(p) => Maps(rows, original, p)
            case None => Unmapped(rows, original)
  {
    match PseudonymOf(rows, original)
    case Some(_) => PseudonymHasRow(rows, original);
    case None => NoRowNoPseudonym(rows, original);
  }

  /** No original slips through a pseudonymized field: what is written is the pseudonym of a
      mapping row of the original, and without a row the value is refused. NULL and, in text
      fields, the empty text are kept. */
  lemma NothingSlipsThrough(ctx: Context, d: FieldDirective, v: Value)
    requires d.numericDomain.Some? || d.action == Pseudonymize
    ensures v == Null ==> TransformValue(ctx, d, v) == Ok(Null)
    ensures d.numericDomain.Some? && v != Null ==>
              var rows := Rows(ctx.vault.numeric, d.numericDomain.value);
              match TransformValue(ctx, d, v)
              case Ok(w) => v.Int? && w.Int? && Maps(rows, v.n, w.n)
              case Err(code) =>
                if v.Int? then code == NumericMappingMissing && Unmapped(rows, v.n) else code == NumericValueUnsupported
    ensures d.numericDomain.None? && v == Text("") ==> TransformValue(ctx, d, v) == Ok(v)
    ensures d.numericDomain.None? && v != Null && v != Text("") ==>
              var original := if v.Text? then v.s else ctx.render(v);
              match TransformValue(ctx, d, v)
              case Ok(w) =>
                w.Text? && ctx.textDomain.Some? && Maps(Rows(ctx.vault.text, ctx.textDomain.value), original, w.s)
              case Err(code) =>
                if ctx.textDomain.None? then code == TextDomainMissing
                else code == TextMappingMissing && Unmapped(Rows(ctx.vault.text, ctx.textDomain.value), original)
  {
    if d.numericDomain.Some? {
      if v.Int? {
        LookupIsRow(Rows(ctx.vault.numeric, d.numericDomain.value), v.n);
      }
    } else if ctx.textDomain.Some? {
      LookupIsRow(Rows(ctx.vault.text, ctx.textDomain.value), Rendered(ctx, v));
    }
  }

  ghost predicate DistinctNames(ds: seq<FieldDirective>) {
    forall i, j :: 0 <= i < j < |ds| ==> ds[i].name != ds[j].name
  }

  /** `after` holds the transformed values of the listed fields and the rest of `before`. */
  ghost predicate Transformed(ctx: Context, ds: seq<FieldDirective>, before: Values, after: Values) {
    && (forall k :: 0 <= k < |ds| ==>
          TransformValue(ctx, ds[k], Get(before, ds[k].name)) == Ok(Get(after, ds[k].name)))
    && (forall name :: (forall k :: 0 <= k < |ds| ==> ds[k].name != name) ==>
          Get(after, name) == Get(before, name))
  }

  /** The first field that cannot be transformed is refused with this code. */
  ghost predicate Refused(ctx: Context, ds: seq<FieldDirective>, before: Values, code: ErrorCode) {
    exists k :: 0 <= k < |ds| && TransformValue(ctx, ds[k], Get(before, ds[k].name)) == Err(code) &&
                forall j :: 0 <= j < k ==> TransformValue(ctx, ds[j], Get(before, ds[j].name)).Ok?
  }

  /** Rewrite the values of one record, field directive by field directive. */
  method TransformFields(ctx: Context, ds: seq<FieldDirective>, before: Values)
    returns (r: Fallible<Values>)
    requires DistinctNames(ds)
    ensures r.Ok? ==> Transformed(ctx, ds, before, r.value)
    ensures r.Err? ==> Refused(ctx, ds, before, r.error)
  {
    var values := before;
    for i := 0 to |ds|
      invariant forall k :: 0 <= k < i ==>
                  TransformValue(ctx, ds[k], Get(before, ds[k].name)) == Ok(Get(values, ds[k].name))
      invariant forall name :: (forall k :: 0 <= k < i ==> ds[k].name != name) ==>
                  Get(values, name) == Get(before, name)
    {
      var value := Get(values, ds[i].name);
      var out := TransformValue(ctx, ds[i], value);
      if out.Err? {
        return Err(out.error);
      }
      values := values[ds[i].name := out.value];
    }
    r := Ok(values);
  }

  /** One output record: physical index and deletion marker are kept. */
  ghost predicate TransformedRecord(ctx: Context, schema: seq<SchemaField>, ds: seq<FieldDirective>,
                                    before: Record, after: Record)
  {
    && after.physicalIndex == before.physicalIndex
    && after.deleted == before.deleted
    && Transformed(ctx, ds, before.values - SystemNames(schema), after.values)
  }

  ghost predicate TransformedTable(ctx: Context, schema: seq<SchemaField>, ds: seq<FieldDirective>,
                                   before: seq<Record>, after: seq<Record>)
  {
    |after| == |before| &&
    forall i :: 0 <= i < |before| ==> TransformedRecord(ctx, schema, ds, before[i], after[i])
  }

  /** Some record is refused: a field cannot be transformed, or a relation names a member of
      the transformed record that cannot be part of a key. */
  ghost predicate RecordRefused(ctx: Context, ds: seq<FieldDirective>, sides: seq<seq<string>>,
                                before: Values, code: ErrorCode)
  {
    || Refused(ctx, ds, before, code)
    || (code == RelationMemberUnsupported &&
        exists after: Values :: Transformed(ctx, ds, before, after) && !AllKeyable(sides, after))
  }

  /** One record: transform its fields, then let every relation side that names the table
      observe the transformed values. */
  method TransformRecord(ctx: Context, ds: seq<FieldDirective>, sides: seq<seq<string>>,
                         before: Values, shard: seq<Side>)
    returns (r: Fallible<(Values, seq<Side>)>)
    requires DistinctNames(ds) && |shard| == |sides|
    ensures r.Ok? ==>
              && Transformed(ctx, ds, before, r.value.0) && AllKeyable(sides, r.value.0) && |r.value.1| == |sides|
              && forall j :: 0 <= j < |sides| ==>
                   r.value.1[j] == AddRow(shard[j], RowOf(TupleAt(sides[j], r.value.0)))
    ensures r.Err? ==> RecordRefused(ctx, ds, sides, before, r.error)
  {
    var values := TransformFields(ctx, ds, before);
    if values.Err? {
      return Err(values.error);
    }
    var observed := ObserveSides(sides, values.value, shard);
    if observed.Err? {
      return Err(observed.error);
    }
    r := Ok((values.value, observed.value));
  }

  /** `_transform_stream`: records in unchanged physical order with the evidence of every
      relation side that names the table, or the first refusal. */
  method TransformStream(ctx: Context, schema: seq<SchemaField>, ds: seq<FieldDirective>,
                         sides: seq<seq<string>>, records: seq<Record>)
    returns (r: Fallible<(seq<Record>, seq<Side>)>)
    requires DistinctNames(ds)
    ensures r.Ok? ==> TransformedTable(ctx, schema, ds, records, r.value.0)
    ensures r.Ok? ==> SameFrame(schema, ds, records, r.value.0)
    ensures r.Ok? ==> ShardOf(r.value.1, sides, r.value.0)
    ensures r.Err? ==> exists i :: 0 <= i < |records| &&
                         RecordRefused(ctx, ds, sides, records[i].values - SystemNames(schema), r.error)
  {
    var written: seq<Record> := [];
    var shard := seq(|sides|, _ => EMPTY_SIDE);
    assert ShardOf(shard, sides, written) by {
      forall j | 0 <= j < |sides| ensures shard[j] == TableEvidence(sides[j], written) {
        assert RowsOf(TuplesOf(sides[j], written)) == [];
      }
    }
    for i := 0 to |records|
      invariant |written| == i
      invariant forall k :: 0 <= k < i ==> TransformedRecord(ctx, schema, ds, records[k], written[k])
      invariant ShardOf(shard, sides, written)
    {
      var out := TransformRecord(ctx, ds, sides, records[i].values - SystemNames(schema), shard);
      if out.Err? {
        return Err(out.error);
      }
      var record := Record(records[i].physicalIndex, records[i].deleted, out.value.0);
      forall j | 0 <= j < |sides| ensures out.value.1[j] == TableEvidence(sides[j], written + [record]) {
        EvidenceGrows(sides[j], written, record);
      }
      written, shard := written + [record], out.value.1;
    }
    FrameIsKept(ctx, schema, ds, records, written);
    r := Ok((written, shard));
  }

  /** What a written table shares with its source: one record for each, at the same physical
      index with the same deletion marker; fields of type 0 are left to the writer, all other
      fields that no directive names are unchanged. */
  ghost predicate SameFrame(schema: seq<SchemaField>, ds: seq<FieldDirective>, before: seq<Record>,
                            after: seq<Record>)
  {
    && |after| == |before|
    && forall i :: 0 <= i < |before| ==>
         && after[i].physicalIndex == before[i].physicalIndex && after[i].deleted == before[i].deleted
         && forall name :: !Named(ds, name) ==>
              Get(after[i].values, name) == if OfType0(schema, name) then Null else Get(before[i].values, name)
  }

  ghost predicate Named(ds: seq<FieldDirective>, name: string) {
    exists k :: 0 <= k < |ds| && ds[k].name == name
  }

  ghost predicate OfType0(schema: seq<SchemaField>, name: string) {
    exists k :: 0 <= k < |schema| && schema[k].name == name && schema[k].dbfType == "0"
  }

  lemma FrameIsKept(ctx: Context, schema: seq<SchemaField>, ds: seq<FieldDirective>, before: seq<Record>,
                    after: seq<Record>)
    requires TransformedTable(ctx, schema, ds, before, after)
    ensures SameFrame(schema, ds, before, after)
  {
    forall i | 0 <= i < |before|
      ensures after[i].physicalIndex == before[i].physicalIndex && after[i].deleted == before[i].deleted
      ensures forall name :: !Named(ds, name) ==>
                Get(after[i].values, name) == if OfType0(schema, name) then Null else Get(before[i].values, name)
    {
      assert TransformedRecord(ctx, schema, ds, before[i], after[i]);
      forall name | !Named(ds, name)
        ensures Get(after[i].values, name) == if OfType0(schema, name) then Null else Get(before[i].values, name)
      {
        assert Get(after[i].values, name) == Get(before[i].values - SystemNames(schema), name);
        assert name in SystemNames(schema) <==> OfType0(schema, name);
      }
    }
  }
}
