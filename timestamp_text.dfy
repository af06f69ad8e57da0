/**
 * The fixed text form `YYYY-MM-DD HH:MM:SS` in which the ticket table stores
 * entry and exit times: parsing it (as `strptime` with that format) and
 * producing it (as `strftime` with that format).
 */
module TimestampText {
  import opened Wrappers
  import opened Calendar

  predicate IsDigit(c: char)
  {
    '0' <= c <= '9'
  }

  predicate AllDigits(s: string)
  {
    forall i :: 0 <= i < |s| ==> IsDigit(s[i])
  }

  function DigitValue(c: char): int
    requires IsDigit(c)
  {
    c as int - '0' as int
  }

  function DigitChar(n: int): (c: char)
    requires 0 <= n < 10
    ensures IsDigit(c) && DigitValue(c) == n
  {
    ('0' as int + n) as char
  }

  function Pow10(n: nat): (p: nat)
    ensures p >= 1
  {
    if n == 0 then 1 else 10 * Pow10(n - 1)
  }

  /** The number a string of decimal digits denotes, most significant digit first. */
  function DigitsValue(s: string): nat
    requires AllDigits(s)
  {
    if s == [] then 0 else DigitsValue(s[..|s| - 1]) * 10 + DigitValue(s[|s| - 1])
  }

  /** `n` written with exactly `width` decimal digits, zero-padded on the left (strftime's `%Y`, `%m`, ...). */
  function Pad(n: nat, width: nat): (r: string)
    ensures |r| == width && AllDigits(r)
  {
    if width == 0 then [] else Pad(n / 10, width - 1) + [DigitChar(n % 10)]
  }

  /** Padding to `width` digits loses nothing when `n` has at most `width` digits. */
  lemma {:induction false} PadValue(n: nat, width: nat)
    requires n < Pow10(width)
    ensures DigitsValue(Pad(n, width)) == n
  {
    if width > 0 {
      var r := Pad(n, width);
      assert r[..width - 1] == Pad(n / 10, width - 1);
      PadValue(n / 10, width - 1);
    }
  }

  /** Every digit string is the padding of its own value to its own length. */
  lemma {:induction false} PadOfValue(s: string)
    requires AllDigits(s)
    ensures Pad(DigitsValue(s), |s|) == s
  {
    if s != [] {
      var init, last := s[..|s| - 1], s[|s| - 1];
      var v := DigitsValue(init) * 10 + DigitValue(last);
      assert v / 10 == DigitsValue(init) && v % 10 == DigitValue(last);
      PadOfValue(init);
      assert s == init + [last];
    }
  }

  /** The character layout `YYYY-MM-DD HH:MM:SS`. */
  predicate WellShaped(s: string)
  {
    |s| == 19
    && s[4] == '-' && s[7] == '-' && s[10] == ' ' && s[13] == ':' && s[16] == ':'
    && AllDigits(s[0..4]) && AllDigits(s[5..7]) && AllDigits(s[8..10])
    && AllDigits(s[11..13]) && AllDigits(s[14..16]) && AllDigits(s[17..19])
  }

  function Fields(s: string): DateTime
    requires WellShaped(s)
  {
    DateTime(DigitsValue(s[0..4]), DigitsValue(s[5..7]), DigitsValue(s[8..10]),
             DigitsValue(s[11..13]), DigitsValue(s[14..16]), DigitsValue(s[17..19]))
  }

  /**
   * `datetime.strptime(s, '%Y-%m-%d %H:%M:%S')`, read strictly: every field at
   * its full width, and the fields must name a real date and time.
   */
  function Parse(s: string): (r: Option<DateTime>)
    ensures r.Some? ==> ValidDateTime(r.value)
  {
    if WellShaped(s) && ValidDateTime(Fields(s)) then Some(Fields(s)) else None
  }

  /** The clock part ` HH:MM:SS` that both display forms end with. */
  function ClockText(t: DateTime): (r: string)
    requires ValidDateTime(t)
    ensures |r| == 9
  {
    " " + Pad(t.hour, 2) + ":" + Pad(t.minute, 2) + ":" + Pad(t.second, 2)
  }

  /** `dt.strftime('%Y-%m-%d %H:%M:%S')`. */
  function FormatIso(t: DateTime): (r: string)
    requires ValidDateTime(t)
    ensures |r| == 19
  {
    Pad(t.year, 4) + "-" + Pad(t.month, 2) + "-" + Pad(t.day, 2) + ClockText(t)
  }

  lemma FormatIsoSlices(t: DateTime)
    requires ValidDateTime(t)
    ensures var r := FormatIso(t);
      r[0..4] == Pad(t.year, 4) && r[5..7] == Pad(t.month, 2) && r[8..10] == Pad(t.day, 2)
      && r[11..13] == Pad(t.hour, 2) && r[14..16] == Pad(t.minute, 2) && r[17..19] == Pad(t.second, 2)
      && r[4] == '-' && r[7] == '-' && r[10] == ' ' && r[13] == ':' && r[16] == ':'
      && r[10..] == ClockText(t)
  {
    var c := ClockText(t);
    assert c[1..3] == Pad(t.hour, 2) && c[4..6] == Pad(t.minute, 2) && c[7..9] == Pad(t.second, 2);
  }

  /** A well-shaped text is its date fields and its clock part, with the separators between them. */
  lemma SplitWellShaped(s: string)
    requires WellShaped(s)
    ensures s == s[0..4] + "-" + s[5..7] + "-" + s[8..10] + s[10..]
    ensures s[10..] == " " + s[11..13] + ":" + s[14..16] + ":" + s[17..19]
  {
    var date := s[0..4] + "-" + s[5..7] + "-" + s[8..10];
    assert s[..10] == date by {
      forall i | 0 <= i < 10 ensures s[i] == date[i] {
        if i < 4 { assert date[i] == s[0..4][i]; }
        else if 5 <= i < 7 { assert date[i] == s[5..7][i - 5]; }
        else if 8 <= i { assert date[i] == s[8..10][i - 8]; }
      }
    }
    assert s == s[..10] + s[10..];
    var clock := " " + s[11..13] + ":" + s[14..16] + ":" + s[17..19];
    assert s[10..] == clock by {
      forall i | 0 <= i < 9 ensures s[10 + i] == clock[i] {
        if 1 <= i < 3 { assert clock[i] == s[11..13][i - 1]; }
        else if 4 <= i < 6 { assert clock[i] == s[14..16][i - 4]; }
        else if 7 <= i { assert clock[i] == s[17..19][i - 7]; }
      }
    }
  }

  /** Reading back a formatted date-time gives the same date-time. */
  lemma ParseFormatIso(t: DateTime)
    requires ValidDateTime(t)
    ensures Parse(FormatIso(t)) == Some(t)
  {
    var r := FormatIso(t);
    FormatIsoSlices(t);
    PadValue(t.year, 4);
    PadValue(t.month, 2);
    PadValue(t.day, 2);
    PadValue(t.hour, 2);
    PadValue(t.minute, 2);
    PadValue(t.second, 2);
    assert WellShaped(r);
    assert Fields(r) == t;
  }

  /** Any text that parses is exactly the formatting of what it parses to. */
  lemma FormatIsoOfParse(s: string)
    requires Parse(s).Some?
    ensures FormatIso(Parse(s).value) == s
  {
    PadOfValue(s[0..4]);
    PadOfValue(s[5..7]);
    PadOfValue(s[8..10]);
    PadOfValue(s[11..13]);
    PadOfValue(s[14..16]);
    PadOfValue(s[17..19]);
    SplitWellShaped(s);
  }
}
