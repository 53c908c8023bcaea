/**
  The date windows used as the catalog's `datetime` query: `daterange` turns an
  anchor date into the text "start/end", where end is the anchor and start is
  a fixed 90 days earlier; `main` builds one window on the analysis anchor
  read from the command line and one on a reference anchor 52 weeks earlier.
 */
module DateWindows {
  import opened Wrappers
  import opened Calendar
  import opened IsoDate

  /** Width of every window in days, fixed whatever `--buffer` says. */
  const WindowDays := 90
  /** Distance between the two anchors: `timedelta(weeks=52)`. */
  const LagDays := 7 * 52

  datatype WindowError =
    | Malformed   // strptime raised ValueError on the anchor text
    | OutOfRange  // a subtraction fell before 0001-01-01 (OverflowError)

  /** The two catalog queries: `daterange1` (reference) and `daterange2` (analysis). */
  datatype Windows = Windows(reference: string, analysis: string)

  /**
    `s` is a range text "start/end" in the canonical `yyyy-mm-dd` spelling whose
    two halves, read back with strptime, are the days with ordinals `lo` and `hi`.
   */
  predicate Spans(s: string, lo: int, hi: int) {
    && |s| == 21 && s[10] == '/'
    && Canonical(s[..10]) && Canonical(s[11..])
    && Parse(s[..10]).Some? && Parse(s[11..]).Some?
    && Ordinal(Parse(s[..10]).value) == lo
    && Ordinal(Parse(s[11..]).value) == hi
  }

  /** The range text of a pair of dates, read back half by half. */
  lemma SpansOfFormat(a: Date, b: Date)
    requires Valid(a) && Valid(b)
    ensures Spans(Format(a) + "/" + Format(b), Ordinal(a), Ordinal(b))
  {
    var s := Format(a) + "/" + Format(b);
    assert s[..10] == Format(a);
    assert s[11..] == Format(b);
    ParseFormat(a);
    ParseFormat(b);
  }

  /**
    The range texts spanning the days of `a` and `b` are exactly one: the
    formatting of `a`, a slash, and the formatting of `b`.
   */
  lemma SpansExactly(a: Date, b: Date)
    requires Valid(a) && Valid(b)
    ensures forall s :: Spans(s, Ordinal(a), Ordinal(b)) <==> s == Format(a) + "/" + Format(b)
  {
    SpansOfFormat(a, b);
    forall s | Spans(s, Ordinal(a), Ordinal(b))
      ensures s == Format(a) + "/" + Format(b)
    {
      SpansOnlyFormat(s, a, b);
    }
  }

  lemma SpansOnlyFormat(s: string, a: Date, b: Date)
    requires Valid(a) && Valid(b)
    ensures Spans(s, Ordinal(a), Ordinal(b)) ==> s == Format(a) + "/" + Format(b)
  {
    if Spans(s, Ordinal(a), Ordinal(b)) {
      ReadsAs(s[..10], a);
      ReadsAs(s[11..], b);
      assert s == s[..10] + "/" + s[11..];
    }
  }

  /** A canonical half that reads back as the day of `a` is the formatting of `a`. */
  lemma ReadsAs(t: string, a: Date)
    requires Valid(a)
    ensures Canonical(t) && Parse(t).Some? && Ordinal(Parse(t).value) == Ordinal(a) ==> t == Format(a)
  {
    if Canonical(t) && Parse(t).Some? && Ordinal(Parse(t).value) == Ordinal(a) {
      OrdinalInjective(Parse(t).value, a);
      FormatParse(t);
    }
  }

  /**
    `daterange(date)`: the window text ending on `d` and starting 90 days
    earlier, or OutOfRange where the subtraction overflows.
   */
  function DateRange(d: Date): (r: Result<string, WindowError>)
    requires Valid(d)
    ensures r.Success? <==> Ordinal(d) > WindowDays
    ensures r.Failure? ==> r.error == OutOfRange
    ensures r.Success? ==> Spans(r.value, Ordinal(d) - WindowDays, Ordinal(d))
  {
    match SubtractDays(d, WindowDays)
    case None => Failure(OutOfRange)
    case Some(start) =>
      SpansOfFormat(start, d);
      Success(Format(start) + "/" + Format(d))
  }

  /**
    The anchor arithmetic of `main`: parse `--start`, step back 52 weeks to the
    reference anchor, and build the reference and analysis windows, in that
    order. `buffer` is accepted, as `noTiff` accepts it, and has no effect.
   */
  function AnchorWindows(start: string, buffer: int): (r: Result<Windows, WindowError>)
    ensures Parse(start).None? ==> r == Failure(Malformed)
    ensures r.Success? <==> Parse(start).Some? && Ordinal(Parse(start).value) > LagDays + WindowDays
    ensures r.Failure? && Parse(start).Some? ==> r.error == OutOfRange
    ensures r.Success? ==>
      var n := Ordinal(Parse(start).value);
      && Spans(r.value.analysis, n - WindowDays, n)
      && Spans(r.value.reference, n - LagDays - WindowDays, n - LagDays)
  {
    match Parse(start)
    case None => Failure(Malformed)
    case Some(anchor) =>
      match SubtractDays(anchor, LagDays)
      case None => Failure(OutOfRange)
      case Some(refAnchor) =>
        match DateRange(refAnchor)
        case Failure(e) => Failure(e)
        case Success(reference) =>
          match DateRange(anchor)
          case Failure(e) => Failure(e)
          case Success(analysis) =>
            Success(Windows(reference, analysis))
  }

  /**
    The two windows never overlap: the last day of the reference window comes,
    in calendar order, before the first day of the analysis window.
   */
  lemma WindowsOrdered(start: string, buffer: int)
    ensures var r := AnchorWindows(start, buffer);
      r.Success? ==> Before(Parse(r.value.reference[11..]).value, Parse(r.value.analysis[..10]).value)
  {
    var r := AnchorWindows(start, buffer);
    if r.Success? {
      OrdinalOrder(Parse(r.value.reference[11..]).value, Parse(r.value.analysis[..10]).value);
    }
  }

  /**
    Every spelling `strptime` accepts for an anchor ("2023-9-9", "2023-09- 9",
    ...) gives the same windows as its `yyyy-mm-dd` spelling.
   */
  lemma AnchorSpellings(d: Date, buffer: int)
    requires Valid(d)
    ensures forall s :: s in Spellings(d) ==> AnchorWindows(s, buffer) == AnchorWindows(Format(d), buffer)
  {
    ParseExactly(d);
    ParseFormat(d);
  }

  /**
    Every window spans the same 90 days whatever `--buffer` is set to. In the
    source `buffer` is handed only to `noTiff` (DetectDisturbance.py:178),
    whose body never reads it, and never reaches `daterange`; AnchorWindows
    takes it for the same reason, so this holds by construction.
   */
  lemma BufferIgnored(start: string, b1: int, b2: int)
    ensures AnchorWindows(start, b1) == AnchorWindows(start, b2)
  {
  }

  // ---------------------------------------------------------------------
  // Worked examples
  // ---------------------------------------------------------------------

  /** The window ending on `d` is written with the date whose ordinal is 90 lower. */
  lemma DateRangeFrom(d: Date, s: Date)
    requires Valid(d) && Valid(s) && Ordinal(s) == Ordinal(d) - WindowDays
    ensures DateRange(d) == Success(Format(s) + "/" + Format(d))
  {
    SubtractDaysUnique(d, WindowDays, s);
  }

  // Facts about concrete dates, each in a lemma of its own so that every
  // proof stays small.

  lemma AnalysisGap()
    ensures Ordinal(Date(2023, 6, 11)) == Ordinal(Date(2023, 9, 9)) - WindowDays
  {
  }

  lemma AnalysisText()
    ensures Format(Date(2023, 6, 11)) + "/" + Format(Date(2023, 9, 9)) == "2023-06-11/2023-09-09"
  {
    assert Format(Date(2023, 6, 11)) == "2023-06-11";
    assert Format(Date(2023, 9, 9)) == "2023-09-09";
  }

  /** 2023-09-09 gives "2023-06-11/2023-09-09". */
  lemma DateRangeExample()
    ensures DateRange(Date(2023, 9, 9)) == Success("2023-06-11/2023-09-09")
  {
    AnalysisGap();
    AnalysisText();
    DateRangeFrom(Date(2023, 9, 9), Date(2023, 6, 11));
  }

  lemma LeapGap()
    ensures Ordinal(Date(2023, 12, 2)) == Ordinal(Date(2024, 3, 1)) - WindowDays
  {
  }

  lemma LeapText()
    ensures Format(Date(2023, 12, 2)) + "/" + Format(Date(2024, 3, 1)) == "2023-12-02/2024-03-01"
  {
    assert Format(Date(2023, 12, 2)) == "2023-12-02";
    assert Format(Date(2024, 3, 1)) == "2024-03-01";
  }

  /** Across a leap day and a year boundary: 2024-03-01 gives "2023-12-02/2024-03-01". */
  lemma DateRangeLeapExample()
    ensures DateRange(Date(2024, 3, 1)) == Success("2023-12-02/2024-03-01")
  {
    LeapGap();
    LeapText();
    DateRangeFrom(Date(2024, 3, 1), Date(2023, 12, 2));
  }

  lemma EarliestGap()
    ensures Ordinal(Date(1, 1, 1)) == Ordinal(Date(1, 4, 1)) - WindowDays
  {
  }

  lemma EarliestOverflow()
    ensures Ordinal(Date(1, 3, 31)) == WindowDays
  {
  }

  lemma EarliestText()
    ensures Format(Date(1, 1, 1)) + "/" + Format(Date(1, 4, 1)) == "0001-01-01/0001-04-01"
  {
    assert Format(Date(1, 1, 1)) == "0001-01-01";
    assert Format(Date(1, 4, 1)) == "0001-04-01";
  }

  /** The earliest anchor that still has a window is 0001-04-01; a day earlier overflows. */
  lemma DateRangeEarliest()
    ensures DateRange(Date(1, 4, 1)) == Success("0001-01-01/0001-04-01")
    ensures DateRange(Date(1, 3, 31)) == Failure(OutOfRange)
  {
    EarliestGap();
    EarliestOverflow();
    EarliestText();
    DateRangeFrom(Date(1, 4, 1), Date(1, 1, 1));
  }

  /** The two windows of an anchor, written with the dates 90, 364 and 454 days earlier. */
  lemma AnchorWindowsFrom(start: string, buffer: int, a: Date, ra: Date, rs: Date, s: Date)
    requires Parse(start) == Some(a)
    requires Valid(ra) && Ordinal(ra) == Ordinal(a) - LagDays
    requires Valid(rs) && Ordinal(rs) == Ordinal(ra) - WindowDays
    requires Valid(s) && Ordinal(s) == Ordinal(a) - WindowDays
    ensures AnchorWindows(start, buffer)
         == Success(Windows(Format(rs) + "/" + Format(ra), Format(s) + "/" + Format(a)))
  {
    SubtractDaysUnique(a, LagDays, ra);
    DateRangeFrom(ra, rs);
    DateRangeFrom(a, s);
  }

  lemma ReferenceText()
    ensures Format(Date(2022, 6, 12)) + "/" + Format(Date(2022, 9, 10)) == "2022-06-12/2022-09-10"
  {
    assert Format(Date(2022, 6, 12)) == "2022-06-12";
    assert Format(Date(2022, 9, 10)) == "2022-09-10";
  }

  lemma LagGap()
    ensures Ordinal(Date(2022, 9, 10)) == Ordinal(Date(2023, 9, 9)) - LagDays
  {
    DaysBeforeNextYear(2022);
  }

  lemma ReferenceGap()
    ensures Ordinal(Date(2022, 6, 12)) == Ordinal(Date(2022, 9, 10)) - WindowDays
  {
  }

  lemma AnchorText()
    ensures Parse("2023-09-09") == Some(Date(2023, 9, 9))
  {
  }

  /** `--start 2023-09-09`: reference anchor 2022-09-10, and the two windows queried. */
  lemma AnchorWindowsExample(buffer: int)
    ensures AnchorWindows("2023-09-09", buffer)
         == Success(Windows("2022-06-12/2022-09-10", "2023-06-11/2023-09-09"))
  {
    LagGap();
    ReferenceGap();
    AnalysisGap();
    ReferenceText();
    AnalysisText();
    AnchorText();
    AnchorWindowsFrom("2023-09-09", buffer, Date(2023, 9, 9), Date(2022, 9, 10), Date(2022, 6, 12), Date(2023, 6, 11));
  }

  lemma RejectedTexts()
    ensures Parse("2023-02-29") == None
    ensures Parse("2023-9-9x") == None
    ensures Parse("2023-13-01") == None
  {
  }

  /** Anchors strptime rejects: no 29 February in 2023, trailing text, month 13. */
  lemma AnchorWindowsMalformed(buffer: int)
    ensures AnchorWindows("2023-02-29", buffer) == Failure(Malformed)
    ensures AnchorWindows("2023-9-9x", buffer) == Failure(Malformed)
    ensures AnchorWindows("2023-13-01", buffer) == Failure(Malformed)
  {
    RejectedTexts();
  }
}
