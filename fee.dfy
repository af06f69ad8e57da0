/**
 * The parking fee: hours charged and amount due for one stay, as
 * `calcular_tempo_e_valor` computes them.
 *
 * Elapsed time is counted in microseconds, the resolution of Python's
 * `timedelta`, so that a stay measured against a live clock reading (which has
 * microseconds) and one measured between two stored texts (which do not) are
 * both exact. Money is an exact `real`.
 */
module Fee {
  import opened Wrappers
  import opened Calendar
  import opened TimestampText

  /** Hourly rate used when the tariff table has no row. */
  const DefaultHourlyRate: real := 10.0

  /** The flat ceiling on any single amount due. */
  const MaximumAmount: real := 50.0

  // Elapsed times below are in microseconds: 1000000 per second, 3600000000 per hour.

  /** The pair the source returns: hours charged and amount due. */
  datatype Charge = Charge(hours: int, amount: real)

  /** What the source returns when either time text does not parse. */
  const Unparseable: Charge := Charge(1, 0.0)

  /**
   * Hours charged for a stay of `elapsed` microseconds: one hour when nothing
   * has elapsed (or the exit precedes the entry), and otherwise the elapsed
   * time in hours rounded up.
   */
  function ChargeableHours(elapsed: int): (h: int)
    ensures h >= 1
    ensures elapsed <= 0 ==> h == 1
    ensures elapsed > 0 ==> (h - 1) * 3600000000 < elapsed <= h * 3600000000
  {
    if elapsed <= 0 then 1 else (elapsed + 3599999999) / 3600000000
  }

  /** The hours charged are the fewest whole hours (at least one) that cover the stay. */
  lemma ChargeableHoursIsLeast(elapsed: int, k: int)
    requires k >= 1 && k * 3600000000 >= elapsed
    ensures ChargeableHours(elapsed) <= k
  {
  }

  /** A longer stay is never charged fewer hours. */
  lemma ChargeableHoursMonotone(e1: int, e2: int)
    requires e1 <= e2
    ensures ChargeableHours(e1) <= ChargeableHours(e2)
  {
    if e2 > 0 {
      ChargeableHoursIsLeast(e1, ChargeableHours(e2));
    }
  }

  /** The hourly rate: the tariff row's value, or 10.00 when there is none. */
  function HourlyRate(tariff: Option<real>): (rate: real)
    ensures tariff.None? ==> rate == DefaultHourlyRate
    ensures tariff.Some? ==> rate == tariff.value
  {
    if tariff.Some? then tariff.value else DefaultHourlyRate
  }

  /** `min(hours * rate, 50.00)`. */
  function Amount(hours: int, rate: real): (a: real)
    ensures a <= MaximumAmount && a <= hours as real * rate
    ensures a == hours as real * rate || a == MaximumAmount
    ensures hours >= 0 && rate >= 0.0 ==> a >= 0.0
  {
    var raw := hours as real * rate;
    if raw <= MaximumAmount then raw else MaximumAmount
  }

  /** With a non-negative rate, more hours never cost less, and nothing costs less than zero. */
  lemma AmountMonotone(h1: int, h2: int, rate: real)
    requires 0 <= h1 <= h2 && rate >= 0.0
    ensures 0.0 <= Amount(h1, rate) <= Amount(h2, rate)
  {
    assert h1 as real * rate <= h2 as real * rate by {
      assert (h2 - h1) as real * rate >= 0.0;
    }
  }

  /**
   * Microseconds from a stored entry time to a clock reading: the whole seconds
   * between the two date-times, plus the reading's fraction of a second.
   */
  function ElapsedMicros(entry: DateTime, exit: Moment): (e: int)
    requires ValidDateTime(entry) && ValidMoment(exit)
    ensures ElapsedSeconds(entry, exit.at) * 1000000 <= e < (ElapsedSeconds(entry, exit.at) + 1) * 1000000
    ensures exit.micros == 0 ==> e == ElapsedSeconds(entry, exit.at) * 1000000
  {
    ElapsedSeconds(entry, exit.at) * 1000000 + exit.micros
  }

  /** The exit instant: the stored text read at second resolution, or the clock reading. */
  function ExitMoment(exitText: Option<string>, now: Moment): (m: Option<Moment>)
    requires ValidMoment(now)
    ensures m.Some? ==> ValidMoment(m.value)
    ensures exitText.None? ==> m == Some(now)
    ensures exitText.Some? ==> (m.Some? <==> Parse(exitText.value).Some?)
    ensures exitText.Some? && m.Some? ==> m.value == Moment(Parse(exitText.value).value, 0)
  {
    if exitText.None? then Some(now)
    else match Parse(exitText.value)
      case Some(t) => Some(Moment(t, 0))
      case None => None
  }

  /**
   * `calcular_tempo_e_valor(entry, exit)`. The exit is the stored text when one
   * is given and the clock reading `now` otherwise; `tariff` is the first row of
   * the tariff table, if any.
   */
  function Calculate(entryText: string, exitText: Option<string>, now: Moment, tariff: Option<real>): (c: Charge)
    requires ValidMoment(now)
    ensures c.hours >= 1 && c.amount <= MaximumAmount
    ensures exitText.Some? && Parse(exitText.value).None? ==> c == Unparseable
    ensures Parse(entryText).None? ==> c == Unparseable
    ensures HourlyRate(tariff) >= 0.0 ==> c.amount >= 0.0
    ensures exitText.None? && Parse(entryText).Some? ==>
      var e := ElapsedMicros(Parse(entryText).value, now);
      && (e <= 0 ==> c.hours == 1)
      && (e > 0 ==> (c.hours - 1) * 3600000000 < e <= c.hours * 3600000000)
      && c.amount == Amount(c.hours, HourlyRate(tariff))
  {
    var exit := ExitMoment(exitText, now);
    var entry := Parse(entryText);
    if exit.None? || entry.None? then Unparseable
    else
      var hours := ChargeableHours(ElapsedMicros(entry.value, exit.value));
      var rate := HourlyRate(tariff);
      Charge(hours, Amount(hours, rate))
  }

  /**
   * Between two stored texts that parse, the charge is the fewest whole hours
   * covering the stay (one when the exit is not after the entry), priced at the
   * rate and capped at 50.00.
   */
  lemma CalculateBetweenTexts(entryText: string, exitText: string, now: Moment, tariff: Option<real>)
    requires ValidMoment(now)
    requires Parse(entryText).Some? && Parse(exitText).Some?
    ensures var c := Calculate(entryText, Some(exitText), now, tariff);
      var secs := ElapsedSeconds(Parse(entryText).value, Parse(exitText).value);
      && (secs <= 0 ==> c.hours == 1)
      && (secs > 0 ==> (c.hours - 1) * 3600 < secs <= c.hours * 3600)
      && c.amount == Amount(c.hours, HourlyRate(tariff))
  {
    var secs := ElapsedSeconds(Parse(entryText).value, Parse(exitText).value);
    var h := Calculate(entryText, Some(exitText), now, tariff).hours;
    assert h == ChargeableHours(secs * 1000000);
    if secs > 0 {
      assert (h - 1) * 3600 * 1000000 < secs * 1000000;
      assert secs * 1000000 <= h * 3600 * 1000000;
    }
  }

  /** An exit that is not later on the calendar and clock than the entry is charged one hour. */
  lemma ExitNotLaterChargesOneHour(entryText: string, exitText: string, now: Moment, tariff: Option<real>)
    requires ValidMoment(now)
    requires Parse(entryText).Some? && Parse(exitText).Some?
    requires !Before(Parse(entryText).value, Parse(exitText).value)
    ensures Calculate(entryText, Some(exitText), now, tariff).hours == 1
  {
    ElapsedPositiveIffBefore(Parse(entryText).value, Parse(exitText).value);
  }

  /**
   * The amount shown for a parked ticket against a clock reading, and the amount
   * charged when that reading is stored as the exit text: the stored text drops
   * the microseconds, so the hours agree exactly on a whole second and otherwise
   * the live figure is at most one hour more.
   */
  lemma LiveAndStoredExitAgree(entryText: string, now: Moment, tariff: Option<real>)
    requires ValidMoment(now)
    ensures var live := Calculate(entryText, None, now, tariff);
      var stored := Calculate(entryText, Some(FormatIso(now.at)), now, tariff);
      && stored.hours <= live.hours <= stored.hours + 1
      && (now.micros == 0 ==> live == stored)
  {
    ParseFormatIso(now.at);
    if Parse(entryText).Some? {
      var entry := Parse(entryText).value;
      var e := ElapsedMicros(entry, now);
      var e0 := ElapsedMicros(entry, Moment(now.at, 0));
      assert e0 <= e < e0 + 3600000000;
      ChargeableHoursMonotone(e0, e);
      var h0 := ChargeableHours(e0);
      if e > 0 {
        ChargeableHoursIsLeast(e, h0 + 1);
      }
    }
  }
}
