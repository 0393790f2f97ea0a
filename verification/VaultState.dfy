/** The finalized protected state the passes read: mapping rows, shift offsets and memo
    recovery rows (vault/schema.py, vault/mappings.py, verification.py _VerifyVault). */
module VaultState {
  import opened Wrappers
  import opened Records

  datatype DomainKind = TextDomain | NumericDomain | TemporalDomain

  /** A stored memo payload with its kind. */
  datatype MemoRow = TextMemo(s: string) | BinaryMemo(data: seq<int>)

  type DomainId = string

  datatype Vault = Vault(
    kinds: map<DomainId, DomainKind>,
    text: map<DomainId, seq<(string, string)>>,
    numeric: map<DomainId, seq<(int, int)>>,
    offsets: map<DomainId, int>,
    memos: map<(string, nat, string), MemoRow>)

  function Rows<T>(tables: map<DomainId, seq<(T, T)>>, domain: DomainId): seq<(T, T)> {
    if domain in tables then tables[domain] else []
  }

  /** SELECT pseudonym WHERE original = ? */
  function PseudonymOf<T(==)>(rows: seq<(T, T)>, original: T): Option<T> {
    if rows == [] then None
    else if rows[0].0 == original then Some(rows[0].1)
    else PseudonymOf(rows[1..], original)
  }

  /** SELECT original WHERE pseudonym = ? */
  function OriginalOf<T(==)>(rows: seq<(T, T)>, pseudonym: T): Option<T> {
    if rows == [] then None
    else if rows[0].1 == pseudonym then Some(rows[0].0)
    else OriginalOf(rows[1..], pseudonym)
  }

  /** The two unique indexes of a mapping table. */
  ghost predicate Bijective<T>(rows: seq<(T, T)>) {
    forall i, j :: 0 <= i < j < |rows| ==> rows[i].0 != rows[j].0 && rows[i].1 != rows[j].1
  }

  lemma {:induction false} PseudonymHasRow<T>(rows: seq<(T, T)>, original: T)
    requires PseudonymOf(rows, original).Some?
    ensures exists i :: 0 <= i < |rows| && rows[i] == (original, PseudonymOf(rows, original).value)
  {
    if rows[0].0 == original {
      assert rows[0] == (original, PseudonymOf(rows, original).value);
    } else {
      PseudonymHasRow(rows[1..], original);
      var i :| 0 <= i < |rows[1..]| && rows[1..][i] == (original, PseudonymOf(rows[1..], original).value);
      assert rows[i + 1] == (original, PseudonymOf(rows, original).value);
    }
  }

  lemma {:induction false} NoRowNoPseudonym<T>(rows: seq<(T, T)>, original: T)
    requires PseudonymOf(rows, original).None?
    ensures forall i :: 0 <= i < |rows| ==> rows[i].0 != original
  {
    if rows != [] {
      NoRowNoPseudonym(rows[1..], original);
      forall i | 0 <= i < |rows| ensures rows[i].0 != original {
        if i > 0 { assert rows[i] == rows[1..][i - 1]; }
      }
    }
  }

  lemma {:induction false} RowIsFound<T>(rows: seq<(T, T)>, i: nat)
    requires Bijective(rows) && i < |rows|
    ensures OriginalOf(rows, rows[i].1) == Some(rows[i].0)
    ensures PseudonymOf(rows, rows[i].0) == Some(rows[i].1)
  {
    if i > 0 {
      RowIsFound(rows[1..], i - 1);
    }
  }

  /** Reverse lookup undoes forward lookup. */
  lemma LookupInverse<T>(rows: seq<(T, T)>, original: T)
    requires Bijective(rows) && PseudonymOf(rows, original).Some?
    ensures OriginalOf(rows, PseudonymOf(rows, original).value) == Some(original)
  {
    PseudonymHasRow(rows, original);
    var i :| 0 <= i < |rows| && rows[i] == (original, PseudonymOf(rows, original).value);
    RowIsFound(rows, i);
  }

  lemma LookupInjective<T>(rows: seq<(T, T)>, a: T, b: T)
    requires Bijective(rows) && PseudonymOf(rows, a).Some? && PseudonymOf(rows, b).Some?
    requires PseudonymOf(rows, a) == PseudonymOf(rows, b)
    ensures a == b
  {
    LookupInverse(rows, a);
    LookupInverse(rows, b);
  }

  /** The recovery row of a masked payload; only text and bytes are payloads. */
  function PayloadRow(v: Value): Option<MemoRow> {
    match v
    case Text(s) => Some(TextMemo(s))
    case Bytes(d) => Some(BinaryMemo(d))
    case _ => None
  }

  /** The logical value of a memo recovery row. */
  function MemoValue(row: MemoRow): Value {
    match row
    case TextMemo(s) => Text(s)
    case BinaryMemo(data) => Bytes(data)
  }

  /** The stored shift of a domain; a stored zero is corrupt state. */
  function StoredOffset(vault: Vault, domain: DomainId): Fallible<Option<int>> {
    if domain !in vault.offsets then Ok(None)
    else if vault.offsets[domain] == 0 then Err(VaultUnreadable)
    else Ok(Some(vault.offsets[domain]))
  }

  // ---- value kernels ----

  const LOGICAL_MIN_ORDINAL := 1
  const LOGICAL_MAX_ORDINAL := 3652059

  predicate InCalendar(ordinal: int) {
    LOGICAL_MIN_ORDINAL <= ordinal <= LOGICAL_MAX_ORDINAL
  }

  /** `temporal_shift`: NULL stays NULL, the time of day is untouched. */
  function TemporalShift(value: Value, days: int): Fallible<Value> {
    match value
    case Null => Ok(Null)
    case Date(o) => if InCalendar(o + days) then Ok(Date(o + days)) else Err(TemporalOutOfRange)
    case DateTime(o, t) =>
      if InCalendar(o + days) then Ok(DateTime(o + days, t)) else Err(TemporalOutOfRange)
    case _ => Err(TemporalUnsupported)
  }

  /** Shifting back undoes a shift. */
  lemma ShiftInverse(value: Value, days: int)
    requires value.Date? || value.DateTime? ==> InCalendar(value.ordinal)
    requires TemporalShift(value, days).Ok?
    ensures TemporalShift(TemporalShift(value, days).value, -days) == Ok(value)
  {
    assert value.Date? || value.DateTime? || value == Null;
  }

  /** Every shifted day lies exactly `days` later, at the same time of day, so the distance
      between two shifted values is that of the originals. A shift is refused exactly when the
      value is no date or the new day is outside the years 1 to 9999. */
  lemma ShiftKeepsDistances(a: Value, b: Value, days: int)
    requires a.Date? || a.DateTime?
    requires b.Date? || b.DateTime?
    ensures TemporalShift(a, days).Ok? <==> 1 <= a.ordinal + days <= 3652059
    ensures TemporalShift(a, days).Err? ==> TemporalShift(a, days).error == TemporalOutOfRange
    ensures TemporalShift(a, days).Ok? ==>
              var moved := TemporalShift(a, days).value;
              && (moved.Date? <==> a.Date?) && (moved.DateTime? <==> a.DateTime?)
              && moved.ordinal == a.ordinal + days
              && (a.DateTime? ==> moved.timeOfDay == a.timeOfDay)
    ensures TemporalShift(a, days).Ok? && TemporalShift(b, days).Ok? ==>
              TemporalShift(a, days).value.ordinal - TemporalShift(b, days).value.ordinal == a.ordinal - b.ordinal
  {
  }

  const MASK := "[MASKED-MEMO]"
  const MASK_ALT := "[MASKED-MEMO-ALT]"

  function Bytes8(s: string): seq<int> {
    seq(|s|, i requires 0 <= i < |s| => s[i] as int)
  }

  /** `mask_memo_value`: text and binary payloads get a mask of their own type. */
  function MaskMemo(dbfType: string, value: Value): Fallible<Value> {
    if dbfType != "M" && dbfType != "G" && dbfType != "P" then Err(MemoUnsupported)
    else match value
      case Null => Ok(Null)
      case Text(s) =>
        if dbfType != "M" then Err(MemoUnsupported)
        else Ok(Text(if s == MASK then MASK_ALT else MASK))
      case Bytes(d) => Ok(Bytes(if d == Bytes8(MASK) then Bytes8(MASK_ALT) else Bytes8(MASK)))
      case _ => Err(MemoUnsupported)
  }

  /** A mask keeps NULL and is never the payload it replaces. */
  lemma MaskHides(dbfType: string, value: Value)
    requires MaskMemo(dbfType, value).Ok?
    ensures value == Null <==> MaskMemo(dbfType, value).value == Null
    ensures value != Null ==> MaskMemo(dbfType, value).value != value
  {
    assert |MASK| == 13 && |MASK_ALT| == 17;
    assert |Bytes8(MASK)| == 13 && |Bytes8(MASK_ALT)| == 17;
  }
}
