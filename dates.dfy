/**
 * Calendar days and their `YYYY-MM-DD` text form.
 *
 * A JavaScript `Date` is an instant; the core only ever compares instants by
 * `toDateString()`, i.e. by the local calendar day they fall on, so a day is
 * modelled as a (year, month, day) triple of the proleptic Gregorian calendar.
 * The local time zone is an explicit parameter: `utcOffsetMinutes` is local
 * time minus UTC (for instance -180 in Brasília), less than a day either way.
 */
module Dates {
  import opened Wrappers

  datatype Date = Date(year: int, month: int, day: int)

  predicate IsLeapYear(y: int) {
    y % 4 == 0 && (y % 100 != 0 || y % 400 == 0)
  }

  function DaysInMonth(y: int, m: int): (n: int)
    requires 1 <= m <= 12
    ensures 28 <= n <= 31
    ensures n == 29 <==> m == 2 && IsLeapYear(y)
  {
    if m == 2 then (if IsLeapYear(y) then 29 else 28)
    else if m == 4 || m == 6 || m == 9 || m == 11 then 30
    else 31
  }

  /** A day that exists in the calendar. */
  predicate ValidDate(d: Date) {
    1 <= d.month <= 12 && 1 <= d.day <= DaysInMonth(d.year, d.month)
  }

  /** A day whose year has the four digits of the `YYYY-MM-DD` form. */
  predicate InIsoRange(d: Date) {
    ValidDate(d) && 0 <= d.year <= 9999
  }

  function NextDay(d: Date): (r: Date)
    requires ValidDate(d)
    ensures ValidDate(r)
  {
    if d.day < DaysInMonth(d.year, d.month) then Date(d.year, d.month, d.day + 1)
    else if d.month < 12 then Date(d.year, d.month + 1, 1)
    else Date(d.year + 1, 1, 1)
  }

  /** The day before `d`: a different day, which `NextDay` maps back to `d`. */
  function PrevDay(d: Date): (r: Date)
    requires ValidDate(d)
    ensures ValidDate(r)
    ensures r != d
    ensures NextDay(r) == d
  {
    if d.day > 1 then Date(d.year, d.month, d.day - 1)
    else if d.month > 1 then Date(d.year, d.month - 1, DaysInMonth(d.year, d.month - 1))
    else Date(d.year - 1, 12, 31)
  }

  lemma PrevDayOfNextDay(d: Date)
    requires ValidDate(d)
    ensures PrevDay(NextDay(d)) == d
  {
  }

  // ---------------------------------------------------------------------------
  // Digits

  predicate IsDigit(c: char) {
    '0' <= c <= '9'
  }

  predicate AllDigits(s: string) {
    forall i :: 0 <= i < |s| ==> IsDigit(s[i])
  }

  function DigitValue(c: char): (n: nat)
    requires IsDigit(c)
    ensures n < 10
  {
    c as int - '0' as int
  }

  function DigitChar(n: int): (c: char)
    requires 0 <= n < 10
    ensures IsDigit(c) && DigitValue(c) == n
  {
    ('0' as int + n) as char
  }

  function Pow10(k: nat): (p: nat)
    ensures p >= 1
  {
    if k == 0 then 1 else 10 * Pow10(k - 1)
  }

  /** The decimal value of a string of digits. */
  function NumberValue(s: string): nat
    requires AllDigits(s)
  {
    if s == [] then 0 else NumberValue(s[..|s| - 1]) * 10 + DigitValue(s[|s| - 1])
  }

  /** The last `width` decimal digits of `n`, zero-padded on the left. */
  function Digits(n: nat, width: nat): (r: string)
    ensures |r| == width && AllDigits(r)
  {
    if width == 0 then [] else Digits(n / 10, width - 1) + [DigitChar(n % 10)]
  }

  /** Writing a number that fits in `width` digits and reading it back gives the number. */
  lemma {:induction false} NumberValueOfDigits(n: nat, width: nat)
    requires n < Pow10(width)
    ensures NumberValue(Digits(n, width)) == n
  {
    if width > 0 {
      var r := Digits(n, width);
      NumberValueOfDigits(n / 10, width - 1);
      assert r[..width - 1] == Digits(n / 10, width - 1);
    }
  }

  /** Reading a string of digits and writing it back at the same width gives the string. */
  lemma {:induction false} DigitsOfNumberValue(s: string)
    requires AllDigits(s)
    ensures NumberValue(s) < Pow10(|s|)
    ensures Digits(NumberValue(s), |s|) == s
  {
    if s != [] {
      var init, c := s[..|s| - 1], s[|s| - 1];
      DigitsOfNumberValue(init);
      var v := NumberValue(s);
      assert v == NumberValue(init) * 10 + DigitValue(c);
      assert v / 10 == NumberValue(init) && v % 10 == DigitValue(c);
      assert DigitChar(DigitValue(c)) == c;
      assert s == init + [c];
    }
  }

  // ---------------------------------------------------------------------------
  // Text form of a day

  /** `YYYY<sep>MM<sep>DD`, each field zero-padded. */
  function DateString(d: Date, sep: char): (s: string)
    requires InIsoRange(d)
    ensures |s| == 10
  {
    Digits(d.year, 4) + [sep] + Digits(d.month, 2) + [sep] + Digits(d.day, 2)
  }

  /**
   * Reads `YYYY<sep>MM<sep>DD`; a string of any other shape, or naming a day the
   * calendar does not have, reads as `None` (JavaScript's "Invalid Date", whose
   * `toDateString()` equals no day's).
   */
  function ParseDate(s: string, sep: char): (r: Option<Date>)
    ensures r.Some? ==> InIsoRange(r.value)
  {
    if |s| == 10 && s[4] == sep && s[7] == sep
       && AllDigits(s[..4]) && AllDigits(s[5..7]) && AllDigits(s[8..]) then
      DigitsOfNumberValue(s[..4]);
      var d := Date(NumberValue(s[..4]), NumberValue(s[5..7]), NumberValue(s[8..]));
      if ValidDate(d) then Some(d) else None
    else
      None
  }

  /** Every day of the four-digit years survives formatting and parsing. */
  lemma ParseDateString(d: Date, sep: char)
    requires InIsoRange(d) && !IsDigit(sep)
    ensures ParseDate(DateString(d, sep), sep) == Some(d)
  {
    var s := DateString(d, sep);
    assert s[..4] == Digits(d.year, 4);
    assert s[5..7] == Digits(d.month, 2);
    assert s[8..] == Digits(d.day, 2);
    NumberValueOfDigits(d.year, 4);
    NumberValueOfDigits(d.month, 2);
    NumberValueOfDigits(d.day, 2);
  }

  /** A string that parses is the formatted form of what it parses to: each day has one text form. */
  lemma DateStringOfParse(s: string, sep: char)
    requires ParseDate(s, sep).Some?
    ensures DateString(ParseDate(s, sep).value, sep) == s
  {
    DigitsOfNumberValue(s[..4]);
    DigitsOfNumberValue(s[5..7]);
    DigitsOfNumberValue(s[8..]);
    assert s == s[..4] + [s[4]] + s[5..7] + [s[7]] + s[8..];
  }

  /** A string that parses holds nothing but digits and the separator. */
  lemma ParsedCharacters(s: string, sep: char)
    requires ParseDate(s, sep).Some?
    ensures forall i :: 0 <= i < |s| ==> IsDigit(s[i]) || s[i] == sep
  {
    forall i | 0 <= i < |s|
      ensures IsDigit(s[i]) || s[i] == sep
    {
      if i < 4 {
        assert s[..4][i] == s[i];
      } else if 4 < i < 7 {
        assert s[5..7][i - 5] == s[i];
      } else if 7 < i {
        assert s[8..][i - 8] == s[i];
      }
    }
  }

  /** `s.replace(/<from>/g, <to>)` for single characters. */
  function ReplaceAll(s: string, from: char, to: char): (r: string)
    ensures |r| == |s|
    ensures forall i :: 0 <= i < |s| && s[i] != from ==> r[i] == s[i]
    ensures forall i :: 0 <= i < |s| && s[i] == from ==> r[i] == to
    ensures from != to ==> from !in r
    ensures forall c :: c in r ==> c == to || (c in s && c != from)
  {
    seq(|s|, i requires 0 <= i < |s| => if s[i] == from then to else s[i])
  }

  /** Replacing dashes by slashes leaves a run of digits as it was, and creates none. */
  lemma DigitRunAfterReplace(s: string, lo: int, hi: int)
    requires 0 <= lo <= hi <= |s|
    ensures var t := ReplaceAll(s, '-', '/');
            (AllDigits(t[lo..hi]) <==> AllDigits(s[lo..hi]))
            && (AllDigits(s[lo..hi]) ==> t[lo..hi] == s[lo..hi])
  {
    var t := ReplaceAll(s, '-', '/');
    if AllDigits(t[lo..hi]) {
      forall i | lo <= i < hi ensures IsDigit(s[i]) {
        assert t[lo..hi][i - lo] == t[i];
      }
      assert AllDigits(s[lo..hi]) by {
        forall j | 0 <= j < hi - lo ensures IsDigit(s[lo..hi][j]) {
          assert s[lo..hi][j] == s[lo + j];
        }
      }
    }
    if AllDigits(s[lo..hi]) {
      forall j | 0 <= j < hi - lo ensures t[lo..hi][j] == s[lo..hi][j] {
        assert s[lo..hi][j] == s[lo + j];
      }
    }
  }

  /**
   * On a string without slashes, reading it after turning its dashes into
   * slashes gives the same day as reading it with dashes.
   */
  lemma SlashReadingOfDashDate(s: string)
    requires '/' !in s
    ensures ParseDate(ReplaceAll(s, '-', '/'), '/') == ParseDate(s, '-')
  {
    var t := ReplaceAll(s, '-', '/');
    if |s| == 10 {
      assert t[4] == '/' <==> s[4] == '-';
      assert t[7] == '/' <==> s[7] == '-';
      DigitRunAfterReplace(s, 0, 4);
      DigitRunAfterReplace(s, 5, 7);
      DigitRunAfterReplace(s, 8, 10);
      assert t[..4] == t[0..4] && s[..4] == s[0..4];
      assert t[8..] == t[8..10] && s[8..] == s[8..10];
    }
  }

  // ---------------------------------------------------------------------------
  // Days and time zones

  /** A local time zone's offset from UTC in minutes: less than a whole day either way. */
  predicate IsZoneOffset(utcOffsetMinutes: int) {
    -1440 < utcOffsetMinutes < 1440
  }

  /**
   * The local day on which the instant "midnight UTC of `d`" falls. This is the
   * day that `new Date("YYYY-MM-DD")`, which the language reads as UTC, shows
   * through `toDateString()`: `d` itself at or east of UTC, the day before west of it.
   */
  function UtcMidnightAsLocalDay(d: Date, utcOffsetMinutes: int): (r: Date)
    requires ValidDate(d) && IsZoneOffset(utcOffsetMinutes)
    ensures ValidDate(r)
    ensures r == d <==> utcOffsetMinutes >= 0
    ensures r != d ==> NextDay(r) == d
  {
    if utcOffsetMinutes < 0 then PrevDay(d) else d
  }

  /**
   * The UTC day on which the instant "local midnight of `d`" falls. This is the
   * day that `toISOString()` writes for a date picked in a calendar: `d` itself
   * at or west of UTC, the day before east of it.
   */
  function LocalMidnightAsUtcDay(d: Date, utcOffsetMinutes: int): (r: Date)
    requires ValidDate(d) && IsZoneOffset(utcOffsetMinutes)
    ensures ValidDate(r)
    ensures r == d <==> utcOffsetMinutes <= 0
    ensures r != d ==> NextDay(r) == d
  {
    if utcOffsetMinutes > 0 then PrevDay(d) else d
  }
}
