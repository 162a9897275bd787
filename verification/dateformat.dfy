/** The text form of due dates, `%Y-%m-%d %H:%M` (for example
    "2030-01-01 10:00"): written when tasks are saved, shown in the report
    and reminders, and read back when tasks are loaded or entered.
    Also the `%I:%M %p` label of the hourly schedule ("06:00 AM"). */
module DateFormat {
  import opened Wrappers
  import opened DateTime

  predicate IsDigit(c: char) {
    '0' <= c <= '9'
  }

  predicate AllDigits(s: string) {
    forall i :: 0 <= i < |s| ==> IsDigit(s[i])
  }

  function DigitChar(d: int): (c: char)
    requires 0 <= d < 10
    ensures IsDigit(c)
  {
    "0123456789"[d]
  }

  function DigitValue(c: char): (d: int)
    requires IsDigit(c)
    ensures 0 <= d < 10 && DigitChar(d) == c
  {
    c as int - '0' as int
  }

  function Pow10(n: nat): (p: nat)
    ensures p >= 1
  {
    if n == 0 then 1 else 10 * Pow10(n - 1)
  }

  /** The last `width` decimal digits of `n`, zero-padded on the left. */
  function Padded(n: nat, width: nat): (s: string)
    ensures |s| == width && AllDigits(s)
  {
    if width == 0 then [] else Padded(n / 10, width - 1) + [DigitChar(n % 10)]
  }

  /** The number a string of decimal digits denotes. */
  function ValueOf(s: string): (n: nat)
    requires AllDigits(s)
    ensures n < Pow10(|s|)
  {
    if |s| == 0 then 0 else ValueOf(s[..|s| - 1]) * 10 + DigitValue(s[|s| - 1])
  }

  lemma {:induction false} ValueOfPadded(n: nat, width: nat)
    requires n < Pow10(width)
    ensures ValueOf(Padded(n, width)) == n
  {
    if width > 0 {
      var s := Padded(n, width);
      assert s[..|s| - 1] == Padded(n / 10, width - 1);
      ValueOfPadded(n / 10, width - 1);
    }
  }

  lemma {:induction false} PaddedValueOf(s: string)
    requires AllDigits(s)
    ensures Padded(ValueOf(s), |s|) == s
  {
    if |s| > 0 {
      var init := s[..|s| - 1];
      PaddedValueOf(init);
      assert ValueOf(s) / 10 == ValueOf(init);
      assert s == init + [s[|s| - 1]];
    }
  }

  lemma PaddedTwoDigits(n: nat)
    requires n < 100
    ensures Padded(n, 2) == [DigitChar(n / 10), DigitChar(n % 10)]
  {
    var tens := n / 10;
    assert tens < 10 && tens / 10 == 0 && tens % 10 == tens;
    assert Padded(tens, 1) == Padded(0, 0) + [DigitChar(tens)];
  }

  /** The digits of the year, and of every other field. */
  const YearWidth: nat := 4
  const FieldWidth: nat := 2

  /** `%Y-%m-%d %H:%M`: seconds and microseconds are not written. */
  function Format(t: ValidDateTime): (s: string)
    ensures |s| == 16
  {
    Padded(t.year, YearWidth) + "-" + Padded(t.month, FieldWidth) + "-" + Padded(t.day, FieldWidth) + " "
      + Padded(t.hour, FieldWidth) + ":" + Padded(t.minute, FieldWidth)
  }

  /** A formatted date is a single line. */
  lemma FormatHasNoNewline(t: ValidDateTime)
    ensures '\n' !in Format(t)
  {
    DigitsHaveNoNewline(Padded(t.year, YearWidth));
    DigitsHaveNoNewline(Padded(t.month, FieldWidth));
    DigitsHaveNoNewline(Padded(t.day, FieldWidth));
    DigitsHaveNoNewline(Padded(t.hour, FieldWidth));
    DigitsHaveNoNewline(Padded(t.minute, FieldWidth));
  }

  lemma DigitsHaveNoNewline(s: string)
    requires AllDigits(s)
    ensures '\n' !in s
  {
  }

  /** Why a string is not a date in the format: it does not have the
      shape of one, or its fields name a date that does not exist
      (year 0, or a day past the end of its month). */
  datatype ParseError = DoesNotMatchFormat | OutOfRange

  /** The separators and digit places of `YYYY-MM-DD HH:MM`. */
  predicate HasShape(s: string) {
    && |s| == 16
    && s[4] == '-' && s[7] == '-' && s[10] == ' ' && s[13] == ':'
    && AllDigits(s[0..4]) && AllDigits(s[5..7]) && AllDigits(s[8..10])
    && AllDigits(s[11..13]) && AllDigits(s[14..16])
  }

  /** Reads a string in the canonical `%Y-%m-%d %H:%M` form. Month, day,
      hour and minute outside 01-12, 01-31, 00-23 and 00-59 do not match
      the format; year 0000 and a day past the end of the month are out
      of range. */
  function Parse(s: string): (r: Result<DueDate, ParseError>)
    ensures r.Success? ==> HasShape(s)
  {
    if !HasShape(s) then Failure(DoesNotMatchFormat)
    else
      var y, mo, d := ValueOf(s[0..4]), ValueOf(s[5..7]), ValueOf(s[8..10]);
      var h, mi := ValueOf(s[11..13]), ValueOf(s[14..16]);
      if !(1 <= mo <= 12 && 1 <= d <= 31 && h <= 23 && mi <= 59) then Failure(DoesNotMatchFormat)
      else if y == 0 || d > DaysInMonth(y, mo) then Failure(OutOfRange)
      else Success(DateTime(y, mo, d, h, mi, 0, 0))
  }

  /** Formatting and parsing back gives the date-time truncated to the minute. */
  lemma FormatThenParse(t: ValidDateTime)
    ensures Parse(Format(t)) == Success(Truncated(t))
  {
    var s := Format(t);
    assert s[0..4] == Padded(t.year, 4);
    assert s[5..7] == Padded(t.month, 2);
    assert s[8..10] == Padded(t.day, 2);
    assert s[11..13] == Padded(t.hour, 2);
    assert s[14..16] == Padded(t.minute, 2);
    ValueOfPadded(t.year, 4);
    ValueOfPadded(t.month, 2);
    ValueOfPadded(t.day, 2);
    ValueOfPadded(t.hour, 2);
    ValueOfPadded(t.minute, 2);
  }

  /** A due date survives formatting and parsing unchanged. */
  lemma DueDateRoundTrip(t: DueDate)
    ensures Parse(Format(t)) == Success(t)
  {
    FormatThenParse(t);
  }

  /** Every string that parses is exactly the format of what it parses to. */
  lemma ParseThenFormat(s: string)
    requires Parse(s).Success?
    ensures Format(Parse(s).value) == s
  {
    var t := Parse(s).value;
    PaddedValueOf(s[0..4]);
    PaddedValueOf(s[5..7]);
    PaddedValueOf(s[8..10]);
    PaddedValueOf(s[11..13]);
    PaddedValueOf(s[14..16]);
    FieldsOfSixteen(s);
  }

  lemma FieldsOfSixteen(s: string)
    requires |s| == 16
    ensures s == s[0..4] + [s[4]] + s[5..7] + [s[7]] + s[8..10] + [s[10]] + s[11..13] + [s[13]] + s[14..16]
  {
  }

  /** `%I:%M %p` of the time `minuteOfDay` minutes after midnight:
      the hour on the 12-hour clock (12 for noon and midnight), the minute,
      and AM before noon, PM from noon on. */
  function ClockLabel(minuteOfDay: int): (s: string)
    requires 0 <= minuteOfDay < 24 * 60
    ensures |s| == 8 && s[2] == ':' && s[5] == ' ' && s[7] == 'M'
    ensures s[6] == (if minuteOfDay < 12 * 60 then 'A' else 'P')
  {
    var hour, minute := minuteOfDay / 60, minuteOfDay % 60;
    var hour12 := if hour % 12 == 0 then 12 else hour % 12;
    Padded(hour12, FieldWidth) + ":" + Padded(minute, FieldWidth) + " " + (if hour < 12 then "AM" else "PM")
  }
}
