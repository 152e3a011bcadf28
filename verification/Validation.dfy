/** Which coverage segments a writer may report. */
module Validation {
  import opened Wrappers
  import opened Calendar
  import opened Intervals
  import opened Segments
  import opened YearSplit
  import opened Merging
  import opened Text

  /** A reported segment; `key` is already validated, and a missing timestamp is `None`. */
  datatype RawSegment = RawSegment(
    key: StreamKey, year: int, startAt: Option<int>, endAt: Option<int>, rowCount: int, source: string)

  datatype SegmentError =
    | YearInvalid
    | TimesRequired
    | ZeroTimes
    | NotAfterStart
    | StartOutsideYear
    | EndOutsideYear
    | RowCountNotPositive
    | SourceRequired
    | CountFailed(error: CoverageError)
    | RowCountMismatch

  /** The segment a report describes; identity and modification time are not reported. */
  function Described(raw: RawSegment, startAt: int, endAt: int): Segment {
    Segment(0, raw.key, raw.year, startAt, endAt, raw.rowCount, TrimSpace(raw.source), YearStart(1))
  }

  function ValidateCoverageSegment(raw: RawSegment): Result<Segment, SegmentError> {
    if raw.year < 1970 then Err(YearInvalid)
    else if raw.startAt.None? || raw.endAt.None? then Err(TimesRequired)
    else
      var startAt, endAt := raw.startAt.value, raw.endAt.value;
      if startAt == YearStart(1) || endAt == YearStart(1) then Err(ZeroTimes)
      else if endAt <= startAt then Err(NotAfterStart)
      else if startAt < YearStart(raw.year) || startAt >= YearStart(raw.year + 1) then Err(StartOutsideYear)
      else if endAt > YearStart(raw.year + 1) then Err(EndOutsideYear)
      else if raw.rowCount <= 0 then Err(RowCountNotPositive)
      else if TrimSpace(raw.source) == "" then Err(SourceRequired)
      else
        match ExpectedCount(startAt, endAt, raw.key.interval)
        case Err(e) => Err(CountFailed(e))
        case Ok(n) => if raw.rowCount != n then Err(RowCountMismatch) else Ok(Described(raw, startAt, endAt))
  }

  /**
   * A report is accepted exactly when it describes a piece a merge could have produced: inside the
   * UTC year it names, on the grid, and with one row for every slot. It is then stored as described.
   */
  lemma AcceptedIff(raw: RawSegment, seg: Segment)
    ensures ValidateCoverageSegment(raw) == Ok(seg)
            <==>
            && raw.startAt.Some? && raw.endAt.Some? && seg == Described(raw, raw.startAt.value, raw.endAt.value)
            && InOneYear(seg) && Counted(raw.key, [seg])
            && seg.year >= 1970 && seg.source != ""
  {
    if raw.startAt.Some? && raw.endAt.Some? {
      var d := Described(raw, raw.startAt.value, raw.endAt.value);
      assert Counted(raw.key, [d]) <==> ExpectedCount(d.startAt, d.endAt, raw.key.interval) == Ok(d.rowCount);
      if YearStart(d.year) <= d.startAt < YearStart(d.year + 1) {
        YearOfUnique(d.startAt, d.year);
      }
      if d.year >= 1970 {
        YearStartMonotone(1, 1970);
        if d.year > 1970 { YearStartMonotone(1970, d.year); }
      }
    }
  }

  predicate IsZero(t: Option<int>) {
    t == Some(YearStart(1))
  }

  /** Whether the report gets past the checks of its times. */
  predicate TimesHold(raw: RawSegment) {
    && raw.year >= 1970 && raw.startAt.Some? && raw.endAt.Some? && !IsZero(raw.startAt) && !IsZero(raw.endAt)
    && YearStart(raw.year) <= raw.startAt.value < raw.endAt.value <= YearStart(raw.year + 1)
  }

  /** What a refused report is told, in terms of the first check that it fails. */
  lemma RefusedFor(raw: RawSegment, e: SegmentError)
    requires ValidateCoverageSegment(raw) == Err(e)
    ensures e == YearInvalid <==> raw.year < 1970
    ensures e == TimesRequired <==> raw.year >= 1970 && (raw.startAt.None? || raw.endAt.None?)
    ensures e == ZeroTimes <==>
              && raw.year >= 1970 && raw.startAt.Some? && raw.endAt.Some? && (IsZero(raw.startAt) || IsZero(raw.endAt))
    ensures e == NotAfterStart ==> raw.startAt.Some? && raw.endAt.Some? && raw.endAt.value <= raw.startAt.value
    ensures e == StartOutsideYear ==>
              raw.startAt.Some? && !(YearStart(raw.year) <= raw.startAt.value < YearStart(raw.year + 1))
    ensures e == EndOutsideYear ==>
              && raw.startAt.Some? && YearStart(raw.year) <= raw.startAt.value < YearStart(raw.year + 1)
              && raw.endAt.Some? && YearStart(raw.year + 1) < raw.endAt.value
    ensures e in {NotAfterStart, StartOutsideYear, EndOutsideYear} ==> !TimesHold(raw)
    ensures e == RowCountNotPositive <==> TimesHold(raw) && raw.rowCount <= 0
    ensures e == SourceRequired <==> TimesHold(raw) && raw.rowCount > 0 && TrimSpace(raw.source) == ""
    ensures e.CountFailed? ==>
              TimesHold(raw) && ExpectedCount(raw.startAt.value, raw.endAt.value, raw.key.interval) == Err(e.error)
    ensures e == RowCountMismatch ==>
              && TimesHold(raw)
              && ExpectedCount(raw.startAt.value, raw.endAt.value, raw.key.interval) != Ok(raw.rowCount)
  {
  }

  /** A stored report is never cut at a year boundary again. */
  lemma AcceptedIsOnePiece(raw: RawSegment)
    requires ValidateCoverageSegment(raw).Ok?
    ensures SplitByYear(ValidateCoverageSegment(raw).value) == [ValidateCoverageSegment(raw).value]
  {
    AcceptedIff(raw, ValidateCoverageSegment(raw).value);
    SplitOfOneYear(ValidateCoverageSegment(raw).value);
  }

  function Reported(s: Segment): RawSegment {
    RawSegment(s.key, s.year, Some(s.startAt), Some(s.endAt), s.rowCount, s.source)
  }

  /**
   * A single-year piece with one row for every slot, which is what merging and querying return, can
   * be reported, and is stored as it was, exactly when it lies in 1970 or later and has a label.
   */
  lemma PieceIsReportable(s: Segment)
    requires InOneYear(s) && ExpectedCount(s.startAt, s.endAt, s.key.interval) == Ok(s.rowCount)
    ensures ValidateCoverageSegment(Reported(s)).Ok? <==> s.year >= 1970 && TrimSpace(s.source) != ""
    ensures ValidateCoverageSegment(Reported(s)).Ok? ==>
              ValidateCoverageSegment(Reported(s)).value ==
                s.(segmentId := 0, updatedAt := YearStart(1), source := TrimSpace(s.source))
  {
    AcceptedIff(Reported(s), Described(Reported(s), s.startAt, s.endAt));
    if ValidateCoverageSegment(Reported(s)).Ok? {
      AcceptedIff(Reported(s), ValidateCoverageSegment(Reported(s)).value);
    }
  }
}
