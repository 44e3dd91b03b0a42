/** `_get_week_start_dates`: the start dates of the weekly schedule documents
    to request for a `from`/`to` pair of dates. */
module WeekWindow {
  import opened Wrappers
  import opened Calendar
  import opened DateText

  /** Days from `from` to `to`: `(dt_to - dt_from).days`. */
  function DaysBetween(from: Date, to: Date): int {
    DayNumber(to) - DayNumber(from)
  }

  /** The anchors as dates. For a positive span of n days there are
      `n // 7 + 1` anchors `from + 7*i days`; otherwise just `from`. Python's
      `//` floors and Dafny's `/` is Euclidean; they agree for the positive
      divisor 7. */
  function WeekStarts(from: Date, to: Date): (r: seq<Date>)
    ensures DaysBetween(from, to) > 0 ==> |r| == DaysBetween(from, to) / 7 + 1
    ensures DaysBetween(from, to) <= 0 ==> r == [from]
  {
    var numDays := DaysBetween(from, to);
    var numWeeks := numDays / 7 + 1;
    if numDays > 0 then seq(numWeeks, i requires 0 <= i < numWeeks => AddDays(from, 7 * i))
    else [from]
  }

  /** Every anchor is a real date exactly `7*i` days after `from`; in
      particular `dt_from + i * timedelta(days=7)` never passes year 9999. */
  lemma {:induction false} WeekStartsSpacing(from: Date, to: Date)
    requires ValidDate(from) && ValidDate(to)
    ensures var r := WeekStarts(from, to);
      forall i :: 0 <= i < |r| ==> ValidDate(r[i]) && DayNumber(r[i]) == DayNumber(from) + 7 * i
  {
    var r := WeekStarts(from, to);
    if DaysBetween(from, to) > 0 {
      DayNumberAtMost(to);
      forall i | 0 <= i < |r|
        ensures ValidDate(r[i]) && DayNumber(r[i]) == DayNumber(from) + 7 * i
      {
        AddDaysStep(from, 7 * i);
      }
    }
  }

  /** Coverage of a forward range: the anchors start at `from`, are one week
      apart, none lies after `to`, and one more week would pass `to`. */
  lemma WeekStartsCoverage(from: Date, to: Date)
    requires ValidDate(from) && ValidDate(to) && !Before(to, from)
    ensures var r := WeekStarts(from, to);
      && r[0] == from
      && (forall i :: 0 <= i < |r| - 1 ==> DaysBetween(r[i], r[i + 1]) == 7)
      && (forall i :: 0 <= i < |r| ==> !Before(to, r[i]))
      && DayNumber(r[|r| - 1]) + 7 > DayNumber(to)
  {
    var r := WeekStarts(from, to);
    WeekStartsSpacing(from, to);
    DayNumberOrder(to, from);
    forall i | 0 <= i < |r| ensures !Before(to, r[i]) {
      DayNumberOrder(to, r[i]);
    }
    DayNumberInjective(r[0], from);
  }

  /** An inverted or empty range is not an error: it yields `[from]`. */
  lemma WeekStartsInverted(from: Date, to: Date)
    requires ValidDate(from) && ValidDate(to) && !Before(from, to)
    ensures WeekStarts(from, to) == [from]
  {
    DayNumberOrder(from, to);
  }

  /** `_get_week_start_dates` on text: parse both ends (a bad string is an
      error), compute the anchors, format each one. */
  function WeekStartDates(dateFrom: string, dateTo: string): (r: Result<seq<string>, DateError>)
    ensures r.Success? <==> Parse(dateFrom).Success? && Parse(dateTo).Success?
    ensures Parse(dateFrom).Failure? ==> r == Failure(Parse(dateFrom).error)
    ensures Parse(dateFrom).Success? && Parse(dateTo).Failure? ==> r == Failure(Parse(dateTo).error)
  {
    var from :- Parse(dateFrom);
    var to :- Parse(dateTo);
    var starts := WeekStarts(from, to);
    WeekStartsSpacing(from, to);
    Success(seq(|starts|, i requires 0 <= i < |starts| => Format(starts[i])))
  }

  /** The text anchors: as many as the day span asks for, each one canonical
      and naming the date `7*i` days after `from`. */
  lemma WeekStartDatesMeaning(dateFrom: string, dateTo: string)
    requires Parse(dateFrom).Success? && Parse(dateTo).Success?
    ensures var from, to := Parse(dateFrom).value, Parse(dateTo).value;
      var r := WeekStartDates(dateFrom, dateTo).value;
      && |r| == (if DaysBetween(from, to) > 0 then DaysBetween(from, to) / 7 + 1 else 1)
      && forall i :: 0 <= i < |r| ==>
           IsCanonical(r[i]) && Parse(r[i]).Success? && DayNumber(Parse(r[i]).value) == DayNumber(from) + 7 * i
  {
    var from, to := Parse(dateFrom).value, Parse(dateTo).value;
    var starts := WeekStarts(from, to);
    var r := WeekStartDates(dateFrom, dateTo).value;
    WeekStartsSpacing(from, to);
    forall i | 0 <= i < |r|
      ensures IsCanonical(r[i]) && Parse(r[i]).Success? && DayNumber(Parse(r[i]).value) == DayNumber(from) + 7 * i
    {
      ParseFormat(starts[i]);
    }
  }

  /** The text anchors are the formatted date anchors, in order. */
  lemma WeekStartDatesFormats(dateFrom: string, dateTo: string)
    requires Parse(dateFrom).Success? && Parse(dateTo).Success?
    ensures var starts := WeekStarts(Parse(dateFrom).value, Parse(dateTo).value);
      var r := WeekStartDates(dateFrom, dateTo).value;
      |r| == |starts| && forall i :: 0 <= i < |r| ==> ValidDate(starts[i]) && r[i] == Format(starts[i])
  {
    WeekStartsSpacing(Parse(dateFrom).value, Parse(dateTo).value);
  }

  /** A range shorter than a week, or inverted, yields the one anchor `from`. */
  lemma WeekStartDatesSingle(dateFrom: string, dateTo: string)
    requires Parse(dateFrom).Success? && Parse(dateTo).Success?
    requires DaysBetween(Parse(dateFrom).value, Parse(dateTo).value) < 7
    ensures WeekStartDates(dateFrom, dateTo) == Success([Format(Parse(dateFrom).value)])
  {
    var from, to := Parse(dateFrom).value, Parse(dateTo).value;
    var starts := WeekStarts(from, to);
    assert |starts| == 1;
    assert starts[0] == from by {
      if DaysBetween(from, to) > 0 {
        assert starts[0] == AddDays(from, 0);
      }
    }
    WeekStartDatesFormats(dateFrom, dateTo);
    var r := WeekStartDates(dateFrom, dateTo).value;
    assert |r| == 1 && r[0] == Format(from);
    assert r == [Format(from)];
  }

  /** The date anchors of January 2024: five Mondays, a week apart. */
  lemma JanuaryAnchors(from: Date, to: Date)
    requires from == Date(2024, 1, 1) && to == Date(2024, 2, 1)
    ensures var starts := WeekStarts(from, to);
      |starts| == 5 && forall i :: 0 <= i < 5 ==> starts[i] == Date(2024, 1, 1 + 7 * i)
  {
    var starts := WeekStarts(from, to);
    assert |starts| == 5 by {
      assert DaysBetween(from, to) == 31;
    }
    WeekStartsSpacing(from, to);
    forall i | 0 <= i < 5 ensures starts[i] == Date(2024, 1, 1 + 7 * i) {
      DayNumberInjective(starts[i], Date(2024, 1, 1 + 7 * i));
    }
  }

  /** Worked example: January 2024 gives five weekly anchors. */
  lemma WeekStartDatesJanuary(dateFrom: string, dateTo: string)
    requires dateFrom == "2024-01-01" && dateTo == "2024-02-01"
    ensures WeekStartDates(dateFrom, dateTo)
         == Success(["2024-01-01", "2024-01-08", "2024-01-15", "2024-01-22", "2024-01-29"])
  {
    ParseSpelled(dateFrom, Date(2024, 1, 1));
    ParseSpelled(dateTo, Date(2024, 2, 1));
    var from, to := Parse(dateFrom).value, Parse(dateTo).value;
    JanuaryAnchors(from, to);
    WeekStartDatesFormats(dateFrom, dateTo);
    JanuaryTexts(WeekStartDates(dateFrom, dateTo).value, WeekStarts(from, to));
  }

  lemma JanuaryTexts(r: seq<string>, starts: seq<Date>)
    requires |starts| == 5 && forall i :: 0 <= i < 5 ==> starts[i] == Date(2024, 1, 1 + 7 * i)
    requires |r| == |starts| && forall i :: 0 <= i < |r| ==> ValidDate(starts[i]) && r[i] == Format(starts[i])
    ensures r == ["2024-01-01", "2024-01-08", "2024-01-15", "2024-01-22", "2024-01-29"]
  {
    assert r == [Format(starts[0]), Format(starts[1]), Format(starts[2]), Format(starts[3]), Format(starts[4])];
    JanuaryFormats(r, starts[0], starts[1], starts[2], starts[3], starts[4]);
  }

  lemma JanuaryFormats(r: seq<string>, a: Date, b: Date, c: Date, d: Date, e: Date)
    requires a == Date(2024, 1, 1) && b == Date(2024, 1, 8) && c == Date(2024, 1, 15)
    requires d == Date(2024, 1, 22) && e == Date(2024, 1, 29)
    requires r == [Format(a), Format(b), Format(c), Format(d), Format(e)]
    ensures r == ["2024-01-01", "2024-01-08", "2024-01-15", "2024-01-22", "2024-01-29"]
  {
    FormatSpelled(a, "2024-01-01");
    FormatSpelled(b, "2024-01-08");
    FormatSpelled(c, "2024-01-15");
    FormatSpelled(d, "2024-01-22");
    FormatSpelled(e, "2024-01-29");
  }

  /** Worked example: an inverted range yields its start date alone. */
  lemma WeekStartDatesInvertedExample(dateFrom: string, dateTo: string)
    requires dateFrom == "2024-02-01" && dateTo == "2024-01-01"
    ensures WeekStartDates(dateFrom, dateTo) == Success(["2024-02-01"])
  {
    var jan1, feb1 := Date(2024, 1, 1), Date(2024, 2, 1);
    ParseSpelled(dateTo, jan1);
    ParseSpelled(dateFrom, feb1);
    assert DaysBetween(feb1, jan1) == -31;
    WeekStartDatesSingle(dateFrom, dateTo);
    FormatSpelled(feb1, dateFrom);
  }

  /** Worked example: a span of five days yields one anchor. */
  lemma WeekStartDatesShortExample(dateFrom: string, dateTo: string)
    requires dateFrom == "2024-04-08" && dateTo == "2024-04-13"
    ensures WeekStartDates(dateFrom, dateTo) == Success(["2024-04-08"])
  {
    var apr8, apr13 := Date(2024, 4, 8), Date(2024, 4, 13);
    ParseSpelled(dateFrom, apr8);
    ParseSpelled(dateTo, apr13);
    assert DaysBetween(apr8, apr13) == 5;
    WeekStartDatesSingle(dateFrom, dateTo);
    FormatSpelled(apr8, dateFrom);
  }
}
