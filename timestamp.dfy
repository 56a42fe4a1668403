/**
 * The board's timestamp formatter: `formatTimestamp` and its `pad` helper in
 * frontend/script.js. It lays local date-time fields out as `dd:MM:yyyy HH:mm:ss`.
 * Turning the ISO-8601 text into local fields (`new Date(iso)` read in the viewer's time
 * zone) is the browser's job; the model receives its outcome as part of the input.
 */
module TimestampFormat {
  import opened Text
  import opened Wrappers

  /** The fields a JavaScript `Date` reports in local time; `month` is zero-based, as `getMonth()`. */
  datatype LocalDateTime = LocalDateTime(year: int, month: nat, day: nat, hours: nat, minutes: nat, seconds: nat)

  /** The ranges `getMonth`, `getDate`, `getHours`, `getMinutes` and `getSeconds` stay in. */
  predicate ValidFields(f: LocalDateTime)
  {
    f.month < 12 && 1 <= f.day <= 31 && f.hours < 24 && f.minutes < 60 && f.seconds < 60
  }

  /** What `new Date(text)` yields: an invalid date, or a point in time read back as local fields. */
  datatype LocalDate = InvalidDate | Local(fields: LocalDateTime)

  /** A message's `timestamp` as the page receives it: absent, or a string together with its local reading. */
  datatype TimestampInput = Missing | Iso(text: string, local: LocalDate)

  /** `n.toString().padStart(2, '0')`. */
  function Pad(n: nat): (s: string)
    ensures n < 100 ==> |s| == 2 && AllDigits(s) && ParseNat(s) == n
    ensures n < 10 ==> s[0] == '0' && s[1] == DigitChar(n)
    ensures n >= 10 ==> s == NatToString(n)
  {
    ParseNatToString(n);
    if n < 10 then
      var s := "0" + NatToString(n);
      assert s[..1] == "0";
      s
    else
      NatToString(n)
  }

  /** Text a `NaN` field renders as: invalid dates print `NaN` where every number would be. */
  const NaN := "NaN"

  /** `${day}:${month}:` (the month shown one-based). */
  function DatePart(f: LocalDateTime): string
  {
    Pad(f.day) + ":" + Pad(f.month + 1) + ":"
  }

  /** ` ${hours}:${minutes}:${seconds}`. */
  function TimePart(f: LocalDateTime): string
  {
    " " + Pad(f.hours) + ":" + Pad(f.minutes) + ":" + Pad(f.seconds)
  }

  /** The display text of valid local fields; the year is not padded. */
  function FormatFields(f: LocalDateTime): string
  {
    DatePart(f) + IntToString(f.year) + TimePart(f)
  }

  /** `formatTimestamp`: empty for a falsy input, otherwise the fields laid out as `dd:MM:yyyy HH:mm:ss`. */
  function FormatTimestamp(t: TimestampInput): (r: string)
    ensures r == [] <==> t.Missing? || t.text == []
  {
    match t
    case Missing => ""
    case Iso(text, local) =>
      if text == [] then ""
      else match local
        case InvalidDate => NaN + ":" + NaN + ":" + NaN + " " + NaN + ":" + NaN + ":" + NaN
        case Local(f) => FormatFields(f)
  }

  /**
   * Reads a display text back into fields: the inverse of `FormatFields`. The two-digit
   * fields sit at fixed offsets from either end; the year is whatever lies between.
   */
  function ParseDisplay(s: string): (r: Option<LocalDateTime>)
    ensures r.Some? ==> ValidFields(r.value)
  {
    if |s| < 16 then None
    else
      var n := |s|;
      var day, month, year := s[0..2], s[3..5], s[6..n - 9];
      var hours, minutes, seconds := s[n - 8..n - 6], s[n - 5..n - 3], s[n - 2..];
      if s[2] == ':' && s[5] == ':' && s[n - 9] == ' ' && s[n - 6] == ':' && s[n - 3] == ':'
         && AllDigits(day) && AllDigits(month) && IsIntText(year)
         && AllDigits(hours) && AllDigits(minutes) && AllDigits(seconds)
      then
        var m := ParseNat(month);
        var f := LocalDateTime(ParseInt(year), if m >= 1 then m - 1 else 0, ParseNat(day),
                               ParseNat(hours), ParseNat(minutes), ParseNat(seconds));
        if m >= 1 && ValidFields(f) then Some(f) else None
      else None
  }

  /** Where the pieces of `d + y + t` sit, for a six-character `d` and a nine-character `t`. */
  lemma ConcatLayout(d: string, y: string, t: string)
    requires |d| == 6 && |t| == 9
    ensures var s, n := d + y + t, |d + y + t|;
      && n == 15 + |y|
      && s[0..2] == d[0..2] && s[2] == d[2] && s[3..5] == d[3..5] && s[5] == d[5]
      && s[6..n - 9] == y
      && s[n - 9] == t[0] && s[n - 8..n - 6] == t[1..3] && s[n - 6] == t[3]
      && s[n - 5..n - 3] == t[4..6] && s[n - 3] == t[6] && s[n - 2..] == t[7..]
  {
    var s, n := d + y + t, |d + y + t|;
    assert s[0..2] == d[0..2];
    assert s[3..5] == d[3..5];
    assert s[6..n - 9] == y;
    assert s[n - 8..n - 6] == t[1..3];
    assert s[n - 5..n - 3] == t[4..6];
    assert s[n - 2..] == t[7..];
  }

  lemma DatePartLayout(f: LocalDateTime)
    requires ValidFields(f)
    ensures var d := DatePart(f);
      |d| == 6 && d[0..2] == Pad(f.day) && d[2] == ':' && d[3..5] == Pad(f.month + 1) && d[5] == ':'
  {
  }

  lemma TimePartLayout(f: LocalDateTime)
    requires ValidFields(f)
    ensures var t := TimePart(f);
      && |t| == 9 && t[0] == ' ' && t[1..3] == Pad(f.hours) && t[3] == ':'
      && t[4..6] == Pad(f.minutes) && t[6] == ':' && t[7..] == Pad(f.seconds)
  {
  }

  /** The layout of a formatted timestamp: separators at fixed places, every field but the year two characters wide. */
  lemma FormatLayout(f: LocalDateTime)
    requires ValidFields(f)
    ensures var s, n := FormatFields(f), |FormatFields(f)|;
      && n == 15 + |IntToString(f.year)|
      && s[0..2] == Pad(f.day) && s[2] == ':' && s[3..5] == Pad(f.month + 1) && s[5] == ':'
      && s[6..n - 9] == IntToString(f.year)
      && s[n - 9] == ' ' && s[n - 8..n - 6] == Pad(f.hours) && s[n - 6] == ':'
      && s[n - 5..n - 3] == Pad(f.minutes) && s[n - 3] == ':' && s[n - 2..] == Pad(f.seconds)
  {
    DatePartLayout(f);
    TimePartLayout(f);
    ConcatLayout(DatePart(f), IntToString(f.year), TimePart(f));
  }

  /** Years 1000 to 9999 give the fixed-width nineteen-character `dd:MM:yyyy HH:mm:ss`. */
  lemma FixedWidthForFourDigitYears(f: LocalDateTime)
    requires ValidFields(f) && 1000 <= f.year <= 9999
    ensures |FormatFields(f)| == 19
  {
    FormatLayout(f);
    var y := f.year;
    assert |NatToString(y / 10)| == |NatToString(y / 100)| + 1;
    assert |NatToString(y)| == |NatToString(y / 10)| + 1;
  }

  /** Formatting loses nothing: the display text reads back to the fields it was made from (negative years keep their sign). */
  lemma ParseFormatRoundTrip(f: LocalDateTime)
    requires ValidFields(f)
    ensures ParseDisplay(FormatFields(f)) == Some(f)
  {
    FormatLayout(f);
    ParseIntToString(f.year);
  }

  /** A timestamp the browser read as valid local fields is displayed so that those fields can be read back from it. */
  lemma FormatTimestampReadsBack(text: string, f: LocalDateTime)
    requires text != [] && ValidFields(f)
    ensures ParseDisplay(FormatTimestamp(Iso(text, Local(f)))) == Some(f)
  {
    ParseFormatRoundTrip(f);
  }

  lemma ExampleDateText()
    ensures DatePart(LocalDateTime(2024, 2, 5, 8, 15, 30)) == "05:03:"
  {
    assert Pad(5) == "05" && Pad(3) == "03";
  }

  lemma ExampleTimeText()
    ensures TimePart(LocalDateTime(2024, 2, 5, 8, 15, 30)) == " 08:15:30"
  {
    assert Pad(8) == "08";
    assert Pad(15) == "15" by { assert NatToString(1) == "1"; }
    assert Pad(30) == "30" by { assert NatToString(3) == "3"; }
  }

  lemma ExampleYearText()
    ensures IntToString(2024) == "2024"
  {
    assert NatToString(20) == "20" by { assert NatToString(2) == "2"; }
    assert NatToString(202) == "202";
  }

  /** An instant read as 5 March 2024, 08:15:30 local time is shown as `05:03:2024 08:15:30`. */
  lemma FormatExample()
    ensures FormatTimestamp(Iso("2024-03-05T08:15:30Z", Local(LocalDateTime(2024, 2, 5, 8, 15, 30))))
            == "05:03:2024 08:15:30"
  {
    ExampleDateText();
    ExampleTimeText();
    ExampleYearText();
  }

  /** A string the browser cannot parse as a date shows `NaN` in every field. */
  lemma FormatInvalidDate(text: string)
    requires text != []
    ensures FormatTimestamp(Iso(text, InvalidDate)) == "NaN:NaN:NaN NaN:NaN:NaN"
  {
  }
}
