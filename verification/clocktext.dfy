/** The `"MM:SS"` clock of a goal entry, read with
    `datetime.strptime(text, "%M:%S").time()`.

    `strptime` reads `%M` as `[0-5]` digit or a single digit, and `%S` as
    `6[01]`, `[0-5]` digit or a single digit; nothing may be left over. The
    values 60 and 61 pass the pattern but `datetime` then rejects them, so a
    seconds field is accepted exactly when it is a two-digit `[0-5]` digit
    field or a single digit. The hour of the resulting `time` is 0. */
module ClockText {
  import opened Wrappers
  import opened Digits

  /** A `datetime.time` without its microseconds and time zone. */
  datatype Time = Time(hour: int, minute: int, second: int)

  predicate IsSixtyField(t: string) {
    || (|t| == 2 && '0' <= t[0] <= '5' && IsDigit(t[1]))
    || (|t| == 1 && IsDigit(t[0]))
  }

  /** `int()` of a minute or seconds field. */
  function SixtyValue(t: string): (n: nat)
    requires IsSixtyField(t)
    ensures n < 60
  {
    SixtyFieldBelow(t);
    NatValue(t)
  }

  /** A one-digit field, or two digits led by 0-5, spells a number below 60. */
  lemma SixtyFieldBelow(t: string)
    requires IsSixtyField(t)
    ensures NatValue(t) < 60
  {
    if |t| == 2 {
      assert NatValue(t[..1]) == DigitValue(t[0]) by {
        assert NatValue(t[..1][..0]) == 0;
      }
    } else {
      assert NatValue(t[..0]) == 0;
    }
  }

  /** Reference reading: `s` is a minute field, a colon and a seconds field
      and nothing else, spelling `minute` and `second`. */
  ghost predicate SpellsClock(s: string, minute: int, second: int) {
    exists j :: 0 < j < |s| && SpellsClockAt(s, j, minute, second)
  }

  ghost predicate SpellsClockAt(s: string, j: int, minute: int, second: int)
    requires 0 < j < |s|
  {
    && IsSixtyField(s[..j]) && s[j] == ':' && IsSixtyField(s[j + 1..])
    && NatValue(s[..j]) == minute && NatValue(s[j + 1..]) == second
  }

  /** `datetime.strptime(s, "%M:%S").time()`; on failure the offending text. */
  function ParseClock(s: string): (r: Result<Time, string>)
    ensures r.Success? ==> r.value.hour == 0
    ensures r.Success? ==> 0 <= r.value.minute < 60 && 0 <= r.value.second < 60
    ensures r.Failure? ==> r.error == s
  {
    if |s| < 3 then Failure(s)
    else
      // the minute field is one character when the colon follows it at once
      var j := if s[1] == ':' then 1 else 2;
      if s[j] != ':' || !IsSixtyField(s[..j]) || !IsSixtyField(s[j + 1..]) then Failure(s)
      else Success(Time(0, SixtyValue(s[..j]), SixtyValue(s[j + 1..])))
  }

  /** `t.strftime("%M:%S")`, as the test fixture writes its clocks. */
  function FormatClock(t: Time): (s: string)
    requires 0 <= t.minute < 60 && 0 <= t.second < 60
    ensures |s| == 5 && s[2] == ':'
  {
    PadText(t.minute, 2) + ":" + PadText(t.second, 2)
  }

  /** `ParseClock` accepts exactly the clocks the reference reading allows and
      returns the minute and second they spell, at hour 0. */
  lemma ParseClockMeaning(s: string, minute: int, second: int)
    ensures ParseClock(s) == Success(Time(0, minute, second)) <==> SpellsClock(s, minute, second)
  {
    if ParseClock(s) == Success(Time(0, minute, second)) {
      var j := if s[1] == ':' then 1 else 2;
      assert SpellsClockAt(s, j, minute, second);
    }
    if SpellsClock(s, minute, second) {
      var j :| 0 < j < |s| && SpellsClockAt(s, j, minute, second);
      if j == 2 {
        assert s[1] != ':' by { assert IsDigit(s[..j][1]); }
      }
      assert |s| >= 3;
    }
  }

  /** Round trip for the fixture's clocks: reading back a formatted clock gives
      the same time of day. */
  lemma ParseFormatClock(t: Time)
    requires t.hour == 0 && 0 <= t.minute < 60 && 0 <= t.second < 60
    ensures ParseClock(FormatClock(t)) == Success(t)
  {
    var s := FormatClock(t);
    var m := PadText(t.minute, 2);
    var sec := PadText(t.second, 2);
    PadTwo(t.minute);
    PadTwo(t.second);
    assert s[..2] == m && s[3..] == sec && s[2] == ':';
    PadTextValue(t.minute, 2);
    PadTextValue(t.second, 2);
    assert s[1] != ':';
    assert IsSixtyField(m) && IsSixtyField(sec);
  }
}
