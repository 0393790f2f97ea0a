/** What a masked memo field reveals (transforms/memo.py, memo_safe_mask; engine/pass2.py): at
    most whether a payload was NULL, of which kind it was, and whether it was a mask itself. */
module MaskPrivacy {
  import opened Records
  import opened VaultState
  import opened Pass2
  import opened Relations

  const TEXT_MASK := Text("[MASKED-MEMO]")
  const TEXT_ALTERNATE := Text("[MASKED-MEMO-ALT]")

  /** The bytes of an ASCII text. */
  function Ascii(s: string): (b: seq<int>)
    ensures |b| == |s| && forall i :: 0 <= i < |s| ==> b[i] == s[i] as int
  {
    seq(|s|, i requires 0 <= i < |s| => s[i] as int)
  }

  function BinaryMask(): Value { Bytes(Ascii("[MASKED-MEMO]")) }
  function BinaryAlternate(): Value { Bytes(Ascii("[MASKED-MEMO-ALT]")) }

  predicate IsPrimary(v: Value) {
    v == TEXT_MASK || v == BinaryMask()
  }

  /** A payload becomes the primary mask of its kind, and only that mask itself becomes the
      alternate; every other value is refused. */
  lemma MaskIsFixed(dbfType: string, v: Value)
    ensures MaskMemo(dbfType, v).Ok? <==>
              (v == Null || v.Bytes? || v.Text?) && dbfType in ["M", "G", "P"] && (v.Text? ==> dbfType == "M")
    ensures MaskMemo(dbfType, v).Ok? ==>
              MaskMemo(dbfType, v).value ==
              if v == Null then Null
              else if v.Text? then (if v == TEXT_MASK then TEXT_ALTERNATE else TEXT_MASK)
              else if v == BinaryMask() then BinaryAlternate() else BinaryMask()
  {
    assert Bytes8(MASK) == Ascii("[MASKED-MEMO]");
    assert Bytes8(MASK_ALT) == Ascii("[MASKED-MEMO-ALT]");
  }

  /** Two payloads no mask tells apart: of one kind, and neither a primary mask. */
  predicate Alike(a: Value, b: Value) {
    && ((a.Text? && b.Text?) || (a.Bytes? && b.Bytes?))
    && !IsPrimary(a) && !IsPrimary(b)
  }

  /** The value of the field may have been replaced by another one the mask hides. */
  predicate Hidden(d: FieldDirective, a: Value, b: Value) {
    a == b || (d.action == Mask && d.numericDomain.None? && Alike(a, b))
  }

  /** The transformation does not tell hidden values apart, whether it succeeds or refuses. */
  lemma HiddenTransformAlike(ctx: Context, d: FieldDirective, a: Value, b: Value)
    requires Hidden(d, a, b)
    ensures TransformValue(ctx, d, a) == TransformValue(ctx, d, b)
  {
    if a != b {
      MaskIsFixed(d.dbfType, a);
      MaskIsFixed(d.dbfType, b);
    }
  }

  /** The records differ at most in the payloads of masked fields. */
  ghost predicate SameButMasked(ds: seq<FieldDirective>, a: Values, b: Values) {
    forall name :: Get(a, name) == Get(b, name) ||
      exists k :: 0 <= k < |ds| && ds[k].name == name && Hidden(ds[k], Get(a, name), Get(b, name))
  }

  ghost predicate TablesSameButMasked(schema: seq<SchemaField>, ds: seq<FieldDirective>,
                                      x: seq<Record>, y: seq<Record>)
  {
    && |x| == |y|
    && forall i :: 0 <= i < |x| ==>
         && x[i].physicalIndex == y[i].physicalIndex && x[i].deleted == y[i].deleted
         && SameButMasked(ds, x[i].values - SystemNames(schema), y[i].values - SystemNames(schema))
  }

  /** Two record values read the same under every name. */
  ghost predicate ReadAlike(a: Values, b: Values) {
    forall name :: Get(a, name) == Get(b, name)
  }

  lemma ListedHidden(ds: seq<FieldDirective>, a: Values, b: Values, k: nat)
    requires DistinctNames(ds) && SameButMasked(ds, a, b) && k < |ds|
    ensures Hidden(ds[k], Get(a, ds[k].name), Get(b, ds[k].name))
  {
  }

  lemma RecordsWrittenAlike(ctx: Context, ds: seq<FieldDirective>, a: Values, b: Values, a': Values, b': Values)
    requires DistinctNames(ds) && SameButMasked(ds, a, b)
    requires Transformed(ctx, ds, a, a') && Transformed(ctx, ds, b, b')
    ensures ReadAlike(a', b')
  {
    forall name ensures Get(a', name) == Get(b', name) {
      if k :| 0 <= k < |ds| && ds[k].name == name {
        ListedHidden(ds, a, b, k);
        HiddenTransformAlike(ctx, ds[k], Get(a, name), Get(b, name));
      }
    }
  }

  /** Payloads under a mask leave no trace: two source tables that differ only in them are
      written as the same table, and every relation observes the same evidence. */
  lemma MaskedPayloadsLeaveNoTrace(ctx: Context, schema: seq<SchemaField>, ds: seq<FieldDirective>,
                                   x: seq<Record>, y: seq<Record>, x': seq<Record>, y': seq<Record>)
    requires DistinctNames(ds) && TablesSameButMasked(schema, ds, x, y)
    requires TransformedTable(ctx, schema, ds, x, x') && TransformedTable(ctx, schema, ds, y, y')
    ensures |x'| == |y'|
    ensures forall i :: 0 <= i < |x'| ==>
              && x'[i].physicalIndex == y'[i].physicalIndex && x'[i].deleted == y'[i].deleted
              && ReadAlike(x'[i].values, y'[i].values)
    ensures forall fields: seq<string> :: TableEvidence(fields, x') == TableEvidence(fields, y')
  {
    forall i | 0 <= i < |x'| ensures ReadAlike(x'[i].values, y'[i].values) {
      RecordsWrittenAlike(ctx, ds, x[i].values - SystemNames(schema), y[i].values - SystemNames(schema),
                          x'[i].values, y'[i].values);
    }
    forall fields: seq<string> ensures TableEvidence(fields, x') == TableEvidence(fields, y') {
      forall i | 0 <= i < |x'| ensures TupleAt(fields, x'[i].values) == TupleAt(fields, y'[i].values) {
        assert ReadAlike(x'[i].values, y'[i].values);
      }
      assert TuplesOf(fields, x') == TuplesOf(fields, y');
    }
  }

  /** Every refusal of one table's fields is a refusal of the other's. */
  lemma MaskedPayloadsRefusedAlike(ctx: Context, ds: seq<FieldDirective>, a: Values, b: Values, code: ErrorCode)
    requires DistinctNames(ds) && SameButMasked(ds, a, b)
    ensures Refused(ctx, ds, a, code) <==> Refused(ctx, ds, b, code)
  {
    forall k | 0 <= k < |ds|
      ensures TransformValue(ctx, ds[k], Get(a, ds[k].name)) == TransformValue(ctx, ds[k], Get(b, ds[k].name))
    {
      ListedHidden(ds, a, b, k);
      HiddenTransformAlike(ctx, ds[k], Get(a, ds[k].name), Get(b, ds[k].name));
    }
  }

  /** In a written table a masked field holds NULL where the source did and one of the two
      fixed masks of the payload's kind everywhere else. */
  lemma WrittenMasks(ctx: Context, schema: seq<SchemaField>, ds: seq<FieldDirective>,
                     x: seq<Record>, x': seq<Record>, i: nat, k: nat)
    requires TransformedTable(ctx, schema, ds, x, x') && i < |x| && k < |ds|
    requires ds[k].action == Mask && ds[k].numericDomain.None?
    ensures var source, written := Get(x[i].values - SystemNames(schema), ds[k].name), Get(x'[i].values, ds[k].name);
            && (source == Null <==> written == Null)
            && (source.Text? ==> written == TEXT_MASK || written == TEXT_ALTERNATE)
            && (source.Bytes? ==> written == BinaryMask() || written == BinaryAlternate())
            && (source == Null || source.Text? || source.Bytes?)
  {
    assert TransformedRecord(ctx, schema, ds, x[i], x'[i]);
    MaskIsFixed(ds[k].dbfType, Get(x[i].values - SystemNames(schema), ds[k].name));
  }
}
