/**
 * How tickets are shown to the operator: the plate with a dash, the date-time
 * in Brazilian order, and the ticket number `TCK-` followed by six digits.
 */
module Display {
  import opened Wrappers
  import opened Calendar
  import opened TimestampText
  import Plate

  /** `formatar_placa`: a seven-character plate gets a dash after its third character. */
  function FormatPlate(p: string): (r: string)
    ensures |p| == 7 ==> |r| == 8 && r[3] == '-' && r[..3] + r[4..] == p
    ensures |p| != 7 ==> r == p
  {
    if |p| == 7 then p[..3] + "-" + p[3..] else p
  }

  /** A plate shown with its dash normalises back to the stored plate when typed in again. */
  lemma NormalizeFormattedPlate(raw: string)
    requires Plate.IsValid(Plate.Normalize(raw))
    ensures Plate.Normalize(FormatPlate(Plate.Normalize(raw))) == Plate.Normalize(raw)
  {
    var p := Plate.Normalize(raw);
    Plate.NormalizeShape(raw);
    Plate.UpperAppend(p[..3], "-");
    Plate.UpperAppend(p[..3] + "-", p[3..]);
    Plate.UpperOfUpper(p[..3]);
    Plate.UpperOfUpper(p[3..]);
    Plate.RemoveDashesAppend(p[..3], "-");
    Plate.RemoveDashesAppend(p[..3] + "-", p[3..]);
    Plate.RemoveDashesOfDashFree(p[..3]);
    Plate.RemoveDashesOfDashFree(p[3..]);
    assert Plate.RemoveDashes("-") == [];
    var f := FormatPlate(p);
    assert f == p[..3] + "-" + p[3..];
    assert Plate.Upper(f) == f;
    assert Plate.RemoveDashes(f) == p[..3] + p[3..] == p;
    assert !Plate.IsSpace(p[0]) && !Plate.IsSpace(p[6]);
    assert Plate.StripLeft(p) == p;
  }

  /** `dt.strftime('%d/%m/%Y %H:%M:%S')`: the stored form's date fields in reverse order, then the same clock time. */
  function FormatBr(t: DateTime): (r: string)
    requires ValidDateTime(t)
    ensures var s := FormatIso(t);
      r == s[8..10] + "/" + s[5..7] + "/" + s[0..4] + s[10..]
  {
    FormatIsoSlices(t);
    Pad(t.day, 2) + "/" + Pad(t.month, 2) + "/" + Pad(t.year, 4) + ClockText(t)
  }

  /**
   * `formatar_datahora`: no text gives "N/A", a stored date-time is shown as
   * day/month/year with the same clock time, and anything else is shown as it is.
   */
  function FormatDateTime(text: Option<string>): (r: string)
    ensures text.None? || text.value == [] ==> r == "N/A"
    ensures text.Some? && Parse(text.value).Some? ==>
      var s := text.value;
      r == s[8..10] + "/" + s[5..7] + "/" + s[0..4] + s[10..]
    ensures text.Some? && text.value != [] && Parse(text.value).None? ==> r == text.value
  {
    if text.None? || text.value == [] then "N/A"
    else match Parse(text.value)
      case Some(t) =>
        FormatIsoOfParse(text.value);
        FormatIsoSlices(t);
        FormatBr(t)
      case None => text.value
  }

  /** `str(n)` for a natural number: its decimal digits, with no leading zero. */
  function NatToString(n: nat): (r: string)
    ensures r != [] && AllDigits(r) && DigitsValue(r) == n
    ensures r[0] == '0' ==> n == 0
  {
    if n < 10 then [DigitChar(n)]
    else
      var r := NatToString(n / 10) + [DigitChar(n % 10)];
      assert r[..|r| - 1] == NatToString(n / 10);
      r
  }

  /** `str(n)` for any integer. */
  function IntToString(n: int): (r: string)
    ensures r != [] && (r[0] == '-' <==> n < 0)
    ensures n >= 0 ==> AllDigits(r) && DigitsValue(r) == n
    ensures n < 0 ==> AllDigits(r[1..]) && DigitsValue(r[1..]) == -n
  {
    if n < 0 then "-" + NatToString(-n) else NatToString(n)
  }

  function Zeros(k: nat): (r: string)
    ensures |r| == k && forall i :: 0 <= i < k ==> r[i] == '0'
  {
    if k == 0 then [] else "0" + Zeros(k - 1)
  }

  /** `s.zfill(width)`: zeros on the left up to `width`, placed after a leading sign. */
  function ZFill(s: string, width: nat): (r: string)
    ensures |r| == if |s| >= width then |s| else width
  {
    if |s| >= width then s
    else if s != [] && (s[0] == '+' || s[0] == '-') then [s[0]] + (Zeros(width - |s|) + s[1..])
    else Zeros(width - |s|) + s
  }

  /** Leading zeros do not change the value of a digit string. */
  lemma {:induction false} LeadingZerosValue(k: nat, s: string)
    requires AllDigits(s)
    ensures AllDigits(Zeros(k) + s) && DigitsValue(Zeros(k) + s) == DigitsValue(s)
  {
    var z := Zeros(k) + s;
    assert AllDigits(z) by {
      forall i | 0 <= i < |z| ensures IsDigit(z[i]) {
        if i >= k { assert z[i] == s[i - k]; }
      }
    }
    if s == [] {
      assert z == Zeros(k);
      ZerosValue(k);
    } else {
      assert z[..|z| - 1] == Zeros(k) + s[..|s| - 1];
      LeadingZerosValue(k, s[..|s| - 1]);
    }
  }

  lemma {:induction false} ZerosValue(k: nat)
    ensures AllDigits(Zeros(k)) && DigitsValue(Zeros(k)) == 0
  {
    if k > 0 {
      var z := Zeros(k);
      assert z[..k - 1] == Zeros(k - 1);
      ZerosValue(k - 1);
    }
  }

  /** `formatar_ticket_id`: `TCK-` followed by `str(id).zfill(6)`. */
  function FormatTicketId(id: int): (r: string)
    ensures |r| >= 10 && r[..4] == "TCK-"
  {
    "TCK-" + ZFill(IntToString(id), 6)
  }

  /** `TCK-` and a digit string zero-filled to six: the digits keep their value and sit at the end. */
  lemma TicketTextOfDigits(digits: string)
    requires digits != [] && AllDigits(digits)
    ensures var r := "TCK-" + ZFill(digits, 6);
      && |r| == 4 + (if |digits| > 6 then |digits| else 6)
      && AllDigits(r[4..]) && DigitsValue(r[4..]) == DigitsValue(digits)
      && r[|r| - |digits|..] == digits
      && forall i :: 4 <= i < |r| - |digits| ==> r[i] == '0'
  {
    var pad := if |digits| >= 6 then 0 else 6 - |digits|;
    var z := Zeros(pad) + digits;
    assert ZFill(digits, 6) == z by {
      if |digits| < 6 {
        assert IsDigit(digits[0]);
      }
    }
    LeadingZerosValue(pad, digits);
    var r := "TCK-" + z;
    assert r[4..] == z;
    assert r[|r| - |digits|..] == digits;
    forall i | 4 <= i < |r| - |digits| ensures r[i] == '0' {
      assert r[i] == z[i - 4];
    }
  }

  /** `TCK-`, a minus sign and a digit string zero-filled to five: `zfill` puts the zeros after the sign. */
  lemma TicketTextOfNegative(digits: string)
    requires digits != [] && AllDigits(digits)
    ensures var r := "TCK-" + ZFill("-" + digits, 6);
      && r[4] == '-'
      && |r| == 5 + (if |digits| > 5 then |digits| else 5)
      && AllDigits(r[5..]) && DigitsValue(r[5..]) == DigitsValue(digits)
      && r[|r| - |digits|..] == digits
      && forall i :: 5 <= i < |r| - |digits| ==> r[i] == '0'
  {
    var s := "-" + digits;
    var pad := if |digits| >= 5 then 0 else 5 - |digits|;
    var z := Zeros(pad) + digits;
    assert s[0] == '-' && s[1..] == digits;
    assert ZFill(s, 6) == "-" + z by {
      if |s| < 6 {
        assert ZFill(s, 6) == [s[0]] + (Zeros(pad) + s[1..]);
      } else {
        assert Zeros(pad) == [];
        assert z == digits;
      }
    }
    LeadingZerosValue(pad, digits);
    var r := "TCK-" + ("-" + z);
    assert r[4] == '-';
    assert r[5..] == z;
    assert r[|r| - |digits|..] == digits;
    forall i | 5 <= i < |r| - |digits| ensures r[i] == '0' {
      assert r[i] == z[i - 5];
    }
  }

  /**
   * After `TCK-` come the id's digits, never truncated, left-padded with zeros
   * to six characters.
   */
  lemma TicketIdDigits(id: nat)
    ensures var r := FormatTicketId(id);
      var digits := NatToString(id);
      && |r| == 4 + (if |digits| > 6 then |digits| else 6)
      && AllDigits(r[4..]) && DigitsValue(r[4..]) == id
      && r[|r| - |digits|..] == digits
      && forall i :: 4 <= i < |r| - |digits| ==> r[i] == '0'
  {
    TicketTextOfDigits(NatToString(id));
  }

  /** A negative id keeps its minus sign in front of the zeros, as `zfill` does. */
  lemma NegativeTicketIdDigits(id: int)
    requires id < 0
    ensures var r := FormatTicketId(id);
      var digits := NatToString(-id);
      && r[4] == '-'
      && |r| == 5 + (if |digits| > 5 then |digits| else 5)
      && AllDigits(r[5..]) && DigitsValue(r[5..]) == -id
      && r[|r| - |digits|..] == digits
      && forall i :: 5 <= i < |r| - |digits| ==> r[i] == '0'
  {
    TicketTextOfNegative(NatToString(-id));
  }
}
