/** The `YYYY-MM-DD` text form of a date (`DATE_FMT = "%Y-%m-%d"`):
    `parse_date` (`strptime`), `fmt_date` (`strftime`) and `normalize_datestr`.

    `strptime` reads the directives with these patterns, matched from the start
    of the string, first alternative first, and then insists that nothing is
    left over:
      %Y  four digits
      %m  `1[0-2]`, `0[1-9]` or `[1-9]`
      %d  `3[01]`, `[12]` digit, `0[1-9]`, `[1-9]` or a space then `[1-9]`
    Each field is then read with `int()` (which ignores the space), and the
    three numbers must name a day of the calendar. */
module DateText {
  import opened Wrappers
  import opened Digits
  import opened Calendar

  datatype DateError =
    | DoesNotMatchFormat   // the text is not of the shape `%Y-%m-%d`
    | NoSuchDate           // the shape is right but the day does not exist

  predicate IsYearText(t: string) {
    |t| == 4 && AllDigits(t)
  }

  predicate IsMonthText(t: string) {
    || (|t| == 2 && t[0] == '1' && '0' <= t[1] <= '2')
    || (|t| == 2 && t[0] == '0' && '1' <= t[1] <= '9')
    || (|t| == 1 && '1' <= t[0] <= '9')
  }

  predicate IsDayText(t: string) {
    || (|t| == 2 && t[0] == '3' && '0' <= t[1] <= '1')
    || (|t| == 2 && '1' <= t[0] <= '2' && IsDigit(t[1]))
    || (|t| == 2 && t[0] == '0' && '1' <= t[1] <= '9')
    || (|t| == 1 && '1' <= t[0] <= '9')
    || (|t| == 2 && t[0] == ' ' && '1' <= t[1] <= '9')
  }

  /** `int()` of a month or day field: a leading space is ignored. */
  function FieldValue(t: string): nat
    requires IsMonthText(t) || IsDayText(t)
  {
    if t[0] == ' ' then NatValue(t[1..]) else NatValue(t)
  }

  /** Reference reading of the format: `s` is four year digits, `-`, a month
      field, `-`, a day field, with nothing else, and the fields are the
      numbers of `d`. */
  ghost predicate Spells(s: string, d: Date) {
    exists j :: 5 < j < |s| && SpellsAt(s, j, d)
  }

  ghost predicate SpellsAt(s: string, j: int, d: Date)
    requires 5 < j < |s|
  {
    && IsYearText(s[..4]) && s[4] == '-'
    && IsMonthText(s[5..j]) && s[j] == '-'
    && IsDayText(s[j + 1..])
    && NatValue(s[..4]) == d.year
    && FieldValue(s[5..j]) == d.month
    && FieldValue(s[j + 1..]) == d.day
  }

  /** `parse_date`: `datetime.strptime(datestr, "%Y-%m-%d").date()`. */
  function Parse(s: string): (r: Result<Date, DateError>)
    ensures r.Success? ==> ValidDate(r.value)
  {
    if |s| < 7 || !IsYearText(s[..4]) || s[4] != '-' then Failure(DoesNotMatchFormat)
    else
      // the month field is one character when a dash follows it at once
      var j := if s[6] == '-' then 6 else 7;
      if |s| <= j || s[j] != '-' || !IsMonthText(s[5..j]) || !IsDayText(s[j + 1..]) then
        Failure(DoesNotMatchFormat)
      else
        var d := Date(NatValue(s[..4]), FieldValue(s[5..j]), FieldValue(s[j + 1..]));
        if ValidDate(d) then Success(d) else Failure(NoSuchDate)
  }

  /** `fmt_date`: `d.strftime("%Y-%m-%d")`, every field zero-padded. */
  function Format(d: Date): (s: string)
    requires ValidDate(d)
    ensures IsCanonical(s)
  {
    PadText(d.year, 4) + "-" + PadText(d.month, 2) + "-" + PadText(d.day, 2)
  }

  /** The ten characters of a formatted date, digit by digit. */
  lemma FormatChars(d: Date)
    requires ValidDate(d)
    ensures Format(d) == [
      DigitChar(d.year / 1000), DigitChar(d.year / 100 % 10), DigitChar(d.year / 10 % 10), DigitChar(d.year % 10),
      '-', DigitChar(d.month / 10), DigitChar(d.month % 10),
      '-', DigitChar(d.day / 10), DigitChar(d.day % 10)]
  {
    PadFour(d.year);
    PadTwo(d.month);
    PadTwo(d.day);
  }

  /** Format check for a given spelling, stated digit by digit. */
  lemma FormatSpelled(d: Date, s: string)
    requires ValidDate(d)
    requires s == [
      DigitChar(d.year / 1000), DigitChar(d.year / 100 % 10), DigitChar(d.year / 10 % 10), DigitChar(d.year % 10),
      '-', DigitChar(d.month / 10), DigitChar(d.month % 10),
      '-', DigitChar(d.day / 10), DigitChar(d.day % 10)]
    ensures Format(d) == s
  {
    FormatChars(d);
  }

  /** Parse check for a given canonical spelling, stated digit by digit. */
  lemma ParseSpelled(s: string, d: Date)
    requires ValidDate(d)
    requires s == [
      DigitChar(d.year / 1000), DigitChar(d.year / 100 % 10), DigitChar(d.year / 10 % 10), DigitChar(d.year % 10),
      '-', DigitChar(d.month / 10), DigitChar(d.month % 10),
      '-', DigitChar(d.day / 10), DigitChar(d.day % 10)]
    ensures Parse(s) == Success(d)
  {
    FormatSpelled(d, s);
    ParseFormat(d);
  }

  /** The canonical form `strftime` writes: `DDDD-DD-DD`. */
  predicate IsCanonical(s: string) {
    && |s| == 10 && s[4] == '-' && s[7] == '-'
    && AllDigits(s[..4]) && AllDigits(s[5..7]) && AllDigits(s[8..])
  }

  /** `normalize_datestr`: parse with the format, then format again. */
  function Normalize(s: string): (r: Result<string, DateError>)
    ensures r.Success? <==> Parse(s).Success?
    ensures r.Failure? ==> r.error == Parse(s).error
    ensures r.Success? ==> IsCanonical(r.value)
  {
    var d :- Parse(s);
    Success(Format(d))
  }

  // ---------------------------------------------------------------------
  // Properties

  /** `parse_date` accepts exactly the strings that spell a real calendar day,
      and returns that day. */
  lemma ParseMeaning(s: string, d: Date)
    ensures Parse(s) == Success(d) <==> Spells(s, d) && ValidDate(d)
  {
    if Parse(s) == Success(d) {
      var j := if s[6] == '-' then 6 else 7;
      assert SpellsAt(s, j, d);
    }
    if Spells(s, d) {
      SpelledParse(s, d);
    }
  }

  /** Whatever triple a string spells is what `Parse` reads from it: the date
      when it exists, NoSuchDate otherwise. */
  lemma SpelledParse(s: string, d: Date)
    requires Spells(s, d)
    ensures Parse(s) == if ValidDate(d) then Success(d) else Failure(NoSuchDate)
  {
    var j :| 5 < j < |s| && SpellsAt(s, j, d);
    if |s[5..j]| == 1 {
      assert s[6] == '-';
    } else {
      assert s[6] != '-' by { assert s[5..j][1] == s[6]; }
    }
  }

  /** Text that does not spell a calendar day is an error and yields no date. */
  lemma ParseRejects(s: string)
    requires forall d: Date :: !(Spells(s, d) && ValidDate(d))
    ensures Parse(s).Failure?
  {
    if Parse(s).Success? {
      ParseMeaning(s, Parse(s).value);
    }
  }

  /** Parsing fails with NoSuchDate (rather than a format error) exactly when
      the string has the right shape but names a day that does not exist,
      such as `2023-02-29`. */
  lemma ParseNoSuchDate(s: string)
    ensures Parse(s) == Failure(NoSuchDate) <==> exists d :: Spells(s, d) && !ValidDate(d)
  {
    if Parse(s) == Failure(NoSuchDate) {
      var j := if s[6] == '-' then 6 else 7;
      var d := Date(NatValue(s[..4]), FieldValue(s[5..j]), FieldValue(s[j + 1..]));
      assert SpellsAt(s, j, d);
    }
    if exists d :: Spells(s, d) && !ValidDate(d) {
      var d :| Spells(s, d) && !ValidDate(d);
      SpelledParse(s, d);
    }
  }

  /** The format error is reported exactly when the string spells no
      year-month-day triple at all. */
  lemma ParseShapeMismatch(s: string)
    ensures Parse(s) == Failure(DoesNotMatchFormat) <==> forall d :: !Spells(s, d)
  {
    ParseNoSuchDate(s);
    if Parse(s).Success? {
      ParseMeaning(s, Parse(s).value);
    }
    forall d | Spells(s, d) ensures Parse(s) != Failure(DoesNotMatchFormat) {
      ParseMeaning(s, d);
    }
  }

  lemma PadTwoIsField(n: nat, isMonth: bool)
    requires 1 <= n <= (if isMonth then 12 else 31)
    ensures isMonth ==> IsMonthText(PadText(n, 2))
    ensures !isMonth ==> IsDayText(PadText(n, 2))
    ensures FieldValue(PadText(n, 2)) == n
  {
    var t := PadText(n, 2);
    assert t[0] == DigitChar(n / 10) by {
      assert PadText(n / 10, 1) == [DigitChar(n / 10 % 10)];
    }
    assert t[1] == DigitChar(n % 10);
    PadTextValue(n, 2);
  }

  /** Round trip: `parse_date(fmt_date(d)) == d` for every date. */
  lemma ParseFormat(d: Date)
    requires ValidDate(d)
    ensures Parse(Format(d)) == Success(d)
  {
    var s := Format(d);
    PadTextValue(d.year, 4);
    PadTwoIsField(d.month, true);
    PadTwoIsField(d.day, false);
    assert s[..4] == PadText(d.year, 4);
    assert s[5..7] == PadText(d.month, 2);
    assert s[8..] == PadText(d.day, 2);
    assert s[6] != '-' by { assert IsDigit(s[5..7][1]); }
    assert SpellsAt(s, 7, d);
    ParseMeaning(s, d);
  }

  /** Formatting is one-to-one on valid dates. */
  lemma FormatInjective(a: Date, b: Date)
    requires ValidDate(a) && ValidDate(b)
    ensures Format(a) == Format(b) <==> a == b
  {
    ParseFormat(a);
    ParseFormat(b);
  }

  /** `normalize_datestr` returns the canonical spelling of the same date. */
  lemma NormalizeSameDate(s: string)
    requires Normalize(s).Success?
    ensures Parse(Normalize(s).value) == Parse(s)
    ensures Normalize(s).value == Format(Parse(s).value)
  {
    ParseFormat(Parse(s).value);
  }

  /** `normalize_datestr` is idempotent. */
  lemma NormalizeIdempotent(s: string)
    requires Normalize(s).Success?
    ensures Normalize(Normalize(s).value) == Normalize(s)
  {
    NormalizeSameDate(s);
  }

  /** A canonical string that parses is its own normal form. */
  lemma NormalizeFixesCanonical(s: string)
    requires IsCanonical(s) && Parse(s).Success?
    ensures Normalize(s) == Success(s)
  {
    var year, month, day := s[..4], s[5..7], s[8..];
    ParseCanonicalFields(s);
    var d := Date(NatValue(year), NatValue(month), NatValue(day));
    assert Normalize(s) == Success(Format(d));
    PadTextOfValue(year);
    PadTextOfValue(month);
    PadTextOfValue(day);
    assert Format(d) == PadText(d.year, 4) + "-" + PadText(d.month, 2) + "-" + PadText(d.day, 2);
    assert s == year + "-" + month + "-" + day;
  }

  /** The fields `Parse` reads from a canonical string are its three digit groups. */
  lemma ParseCanonicalFields(s: string)
    requires IsCanonical(s) && Parse(s).Success?
    ensures Parse(s).value == Date(NatValue(s[..4]), NatValue(s[5..7]), NatValue(s[8..]))
  {
  }
}
