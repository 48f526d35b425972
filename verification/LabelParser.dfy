/** What the label archiver accepts as a label event. */
module LabelParser {
  import opened Common

  /** A Kafka record; `event` is absent when the value is null or no JSON object, a field is
      absent when it is missing or of another JSON type. */
  datatype Record = Record(key: Option<string>, event: Option<Fields>)

  datatype Fields = Fields(
    labelEventId: Option<string>, sampleId: Option<string>, labelRevision: Option<int>,
    measuredAt: Option<real>, actualValue: Option<int>, actualLabel: Option<string>)

  datatype Row = Row(
    labelEventId: string, sampleId: string, labelRevision: int, measuredAt: real, actualValue: int, actualLabel: string)

  /** The CHECK constraints of `label_events` on what the archiver writes. */
  predicate ChecksHold(r: Row) {
    && r.labelRevision > 0 && r.measuredAt >= 0.0
    && (r.actualValue == -1 || r.actualValue == 1)
    && (r.actualLabel == "pass" || r.actualLabel == "fail")
  }

  /** Every row the parser yields passes them. */
  type LabelRow = r: Row | ChecksHold(r) witness Row("id", "secom-0000001", 1, 0.0, 1, "fail")

  datatype ParseError =
    | NotAnObject | BadText(field: string) | BadSampleId | KeyDiffers | BadInteger(field: string) | BadNumber(field: string)
    | BadRevision | BadTime | BadValue | LabelMismatch

  /** `Character.isWhitespace`: separators but the no-break spaces, and some controls. */
  predicate Whitespace(c: char) {
    || '\U{0009}' <= c <= '\U{000D}' || '\U{001C}' <= c <= ' ' || c == '\U{1680}'
    || ('\U{2000}' <= c <= '\U{200A}' && c != '\U{2007}')
    || c == '\U{2028}' || c == '\U{2029}' || c == '\U{205F}' || c == '\U{3000}'
  }

  /** `isBlank`. */
  predicate Blank(s: string) {
    forall c | c in s :: Whitespace(c)
  }

  predicate Text(v: Option<string>) {
    v.Some? && !Blank(v.value)
  }

  /** `secom-` and seven digits. */
  predicate SampleId(s: string) {
    |s| == 13 && s[..6] == "secom-" && forall k | 6 <= k < 13 :: '0' <= s[k] <= '9'
  }

  const LONG_MAX := 0x7fff_ffff_ffff_ffff
  const INT_MAX := 0x7fff_ffff

  function Parse(r: Record): Result<LabelRow, ParseError> {
    if r.event.None? then Err(NotAnObject)
    else
      var e := r.event.value;
      if !Text(e.labelEventId) then Err(BadText("label_event_id"))
      else if !Text(e.sampleId) then Err(BadText("sample_id"))
      else if !SampleId(e.sampleId.value) then Err(BadSampleId)
      else if r.key.Some? && r.key.value != e.sampleId.value then Err(KeyDiffers)
      else if e.labelRevision.None? || !(-LONG_MAX - 1 <= e.labelRevision.value <= LONG_MAX) then Err(BadInteger("label_revision"))
      else if e.measuredAt.None? then Err(BadNumber("measured_at"))
      else if e.labelRevision.value <= 0 then Err(BadRevision)
      else if e.measuredAt.value < 0.0 then Err(BadTime)
      else if e.actualValue.None? || !(-INT_MAX - 1 <= e.actualValue.value <= INT_MAX) then Err(BadInteger("actual_value"))
      else if !Text(e.actualLabel) then Err(BadText("actual_label"))
      else if e.actualValue.value != -1 && e.actualValue.value != 1 then Err(BadValue)
      else if e.actualLabel.value != (if e.actualValue.value == 1 then "fail" else "pass") then Err(LabelMismatch)
      else Ok(Row(e.labelEventId.value, e.sampleId.value, e.labelRevision.value, e.measuredAt.value,
                  e.actualValue.value, e.actualLabel.value))
  }

  /** The records of a partition as the archiver sees them. */
  function ParsedLog(records: seq<Record>): (log: seq<Result<LabelRow, ParseError>>)
    ensures |log| == |records|
  {
    seq(|records|, k requires 0 <= k < |records| => Parse(records[k]))
  }

  /** Exactly the records whose fields are present, well-formed and consistent are accepted,
      and none of their content is changed. */
  lemma ParseAcceptsExactly(r: Record, row: LabelRow)
    ensures Parse(r) == Ok(row) <==>
              && r.event == Some(Fields(Some(row.labelEventId), Some(row.sampleId), Some(row.labelRevision),
                                        Some(row.measuredAt), Some(row.actualValue), Some(row.actualLabel)))
              && (exists c :: c in row.labelEventId && !Whitespace(c))
              && |row.sampleId| == 13 && row.sampleId[..6] == "secom-" && (forall k | 6 <= k < 13 :: '0' <= row.sampleId[k] <= '9')
              && (r.key.Some? ==> r.key.value == row.sampleId)
              && row.labelRevision < 0x8000_0000_0000_0000 && (row.actualLabel == "fail" <==> row.actualValue == 1)
  {
    assert forall s: string | SampleId(s) :: !Blank(s) by {
      forall s: string | SampleId(s) ensures !Blank(s) { assert s[..6][0] == s[0] && s[0] in s; }
    }
    assert !Blank("pass") && !Blank("fail") by { assert "pass"[0] in "pass" && "fail"[0] in "fail"; }
  }
}
