/**
 * The ticket table and the two handlers that change it: check-in, which opens
 * a ticket for a plate, and payment, which closes one. The SQL table becomes a
 * sequence of ticket records held by a `TicketTable` object; its rows are never
 * deleted, so a ticket's id is its position plus one, as SQLite numbers an
 * `INTEGER PRIMARY KEY` in a table that only grows.
 */
module Ledger {
  import opened Wrappers
  import opened Calendar
  import opened TimestampText
  import Fee
  import Plate
  import Display

  /** `ESTACIONADO` (parked) or `PAGO` (paid). */
  datatype Status = Parked | Paid

  /** One row of the TICKETS table. */
  datatype Ticket = Ticket(
    id: int,
    plate: string,
    entry: string,
    exit: Option<string>,
    amount: Option<real>,
    status: Status)

  /** What a check-in reports back to the operator. */
  datatype CheckInOutcome =
    | EmptyPlate                 // "A placa é obrigatória."
    | InvalidPlate               // not seven letters or digits
    | AlreadyParked(id: int)     // the plate's open ticket
    | Registered(id: int)        // the new ticket

  /** What a payment reports back to the operator. */
  datatype PayOutcome =
    | NotFoundOrPaid             // "Ticket não encontrado ou já pago."
    | Settled(exit: string, amount: real)

  /** A row of the list of parked vehicles, as `listar_estacionados` builds it. */
  datatype ParkedRow = ParkedRow(
    id: int,
    ticketNumber: string,
    plate: string,
    entry: string,
    hours: int,
    amountDue: real)

  /**
   * A single stored ticket is consistent with the way the handlers write it
   * (that its entry time reads back is kept by `EntriesReadable`).
   */
  predicate TicketConsistent(t: Ticket)
  {
    && Plate.IsStored(t.plate)
    && (t.status == Parked <==> t.exit.None?)
    && (t.exit.None? <==> t.amount.None?)
  }

  /** Every stored entry time reads back as a date-time, counted from the last row. */
  predicate EntriesReadable(ts: seq<Ticket>)
    decreases |ts|
  {
    ts == [] || (EntriesReadable(ts[..|ts| - 1]) && Parse(ts[|ts| - 1].entry).Some?)
  }

  lemma {:induction false} EntriesReadableAt(ts: seq<Ticket>, i: int)
    requires EntriesReadable(ts) && 0 <= i < |ts|
    ensures Parse(ts[i].entry).Some?
    decreases |ts|
  {
    if i < |ts| - 1 {
      var init := ts[..|ts| - 1];
      assert init[i] == ts[i];
      EntriesReadableAt(init, i);
    }
  }

  lemma EntriesReadableAppend(ts: seq<Ticket>, t: Ticket)
    requires EntriesReadable(ts) && Parse(t.entry).Some?
    ensures EntriesReadable(ts + [t])
  {
    assert (ts + [t])[..|ts|] == ts;
  }

  /** Rewriting rows without touching their entry times keeps them readable. */
  lemma {:induction false} EntriesReadableSameEntries(ts: seq<Ticket>, us: seq<Ticket>)
    requires EntriesReadable(ts) && |us| == |ts|
    requires forall i :: 0 <= i < |ts| ==> us[i].entry == ts[i].entry
    ensures EntriesReadable(us)
    decreases |ts|
  {
    if ts != [] {
      var n := |ts| - 1;
      EntriesReadableSameEntries(ts[..n], us[..n]);
    }
  }

  predicate HasParked(ts: seq<Ticket>, plate: string)
  {
    exists i :: 0 <= i < |ts| && ts[i].plate == plate && ts[i].status == Parked
  }

  predicate HasParkedId(ts: seq<Ticket>, id: int)
  {
    exists i :: 0 <= i < |ts| && ts[i].id == id && ts[i].status == Parked
  }

  /** At most one parked ticket per plate. */
  predicate OneParkedPerPlate(ts: seq<Ticket>)
  {
    forall i, j :: 0 <= i < j < |ts| && ts[i].status == Parked && ts[j].status == Parked
      ==> ts[i].plate != ts[j].plate
  }

  /** The table's invariant. */
  predicate WellFormed(ts: seq<Ticket>)
  {
    && IdsArePositions(ts)
    && (forall i :: 0 <= i < |ts| ==> TicketConsistent(ts[i]))
    && EntriesReadable(ts)
    && OneParkedPerPlate(ts)
  }

  /** Ticket ids are 1, 2, 3, ... in table order. */
  predicate IdsArePositions(ts: seq<Ticket>)
  {
    forall i :: 0 <= i < |ts| ==> ts[i].id == i + 1
  }

  /**
   * How the table may change over time: rows are only appended, and an
   * existing row changes only from parked to paid, keeping its id, plate and
   * entry time. A paid ticket never changes again.
   */
  predicate Evolves(before: seq<Ticket>, after: seq<Ticket>)
  {
    && |before| <= |after|
    && forall i :: 0 <= i < |before| ==>
      after[i] == before[i]
      || (&& before[i].status == Parked && after[i].status == Paid
          && after[i].id == before[i].id && after[i].plate == before[i].plate
          && after[i].entry == before[i].entry)
  }

  lemma EvolvesReflexive(ts: seq<Ticket>)
    ensures Evolves(ts, ts)
  {
  }

  /** Any number of check-ins and payments, taken together, is still such a change. */
  lemma EvolvesTransitive(a: seq<Ticket>, b: seq<Ticket>, c: seq<Ticket>)
    requires Evolves(a, b) && Evolves(b, c)
    ensures Evolves(a, c)
  {
  }

  /** The row a check-in appends. */
  function NewTicket(ts: seq<Ticket>, plate: string, entry: string): Ticket
  {
    Ticket(|ts| + 1, plate, entry, None, None, Parked)
  }

  /** Appending a parked ticket for a plate with no parked ticket keeps the invariant. */
  lemma CheckInKeepsWellFormed(ts: seq<Ticket>, p: string, now: DateTime)
    requires WellFormed(ts) && ValidDateTime(now)
    requires Plate.IsStored(p) && !HasParked(ts, p)
    ensures var ts' := ts + [NewTicket(ts, p, FormatIso(now))];
      WellFormed(ts') && Evolves(ts, ts')
  {
    var ts' := ts + [NewTicket(ts, p, FormatIso(now))];
    ParseFormatIso(now);
    EntriesReadableAppend(ts, NewTicket(ts, p, FormatIso(now)));
    assert TicketConsistent(ts'[|ts|]);
    forall i, j | 0 <= i < j < |ts'| && ts'[i].status == Parked && ts'[j].status == Parked
      ensures ts'[i].plate != ts'[j].plate
    {
      if j == |ts| {
        assert ts[i].plate != p;
      }
    }
  }

  /** The row a payment leaves in place of the parked ticket at index `k`. */
  function Settle(t: Ticket, exit: string, amount: real): Ticket
  {
    t.(exit := Some(exit), amount := Some(amount), status := Paid)
  }

  /** Closing one parked ticket keeps the invariant. */
  lemma PayKeepsWellFormed(ts: seq<Ticket>, k: int, exit: string, amount: real)
    requires WellFormed(ts) && 0 <= k < |ts| && ts[k].status == Parked
    ensures var ts' := ts[k := Settle(ts[k], exit, amount)];
      WellFormed(ts') && Evolves(ts, ts')
  {
    var ts' := ts[k := Settle(ts[k], exit, amount)];
    forall i | 0 <= i < |ts'|
      ensures ts'[i].id == i + 1 && TicketConsistent(ts'[i])
      ensures ts'[i].status == Parked ==> ts'[i] == ts[i]
      ensures ts'[i] == ts[i] || (ts[i].status == Parked && ts'[i].status == Paid)
    {
      if i == k {
        assert TicketConsistent(ts[k]);
      }
    }
    EntriesReadableSameEntries(ts, ts');
  }

  /**
   * A stored ticket is always charged for its real stay when paid: its entry
   * text parses, so the charge is the fewest whole hours covering the time from
   * entry to the payment's clock reading (one when that is not later), priced at
   * the rate and capped at 50.00.
   */
  lemma PaymentChargesStay(t: Ticket, now: Moment, tariff: Option<real>)
    requires Parse(t.entry).Some? && ValidMoment(now)
    ensures var c := Fee.Calculate(t.entry, Some(FormatIso(now.at)), now, tariff);
      var secs := ElapsedSeconds(Parse(t.entry).value, now.at);
      && (secs <= 0 ==> c.hours == 1)
      && (secs > 0 ==> (c.hours - 1) * 3600 < secs <= c.hours * 3600)
      && c.amount == Fee.Amount(c.hours, Fee.HourlyRate(tariff))
  {
    ParseFormatIso(now.at);
    Fee.CalculateBetweenTexts(t.entry, FormatIso(now.at), now, tariff);
  }

  /** Looks up the parked ticket of a plate: `SELECT * FROM TICKETS WHERE placa = ? AND status = 'ESTACIONADO'`. */
  method FindParkedByPlate(ts: seq<Ticket>, plate: string) returns (r: Option<nat>)
    ensures r.Some? ==> r.value < |ts| && ts[r.value].plate == plate && ts[r.value].status == Parked
    ensures r.None? <==> !HasParked(ts, plate)
  {
    var i := 0;
    while i < |ts|
      invariant 0 <= i <= |ts|
      invariant forall j :: 0 <= j < i ==> !(ts[j].plate == plate && ts[j].status == Parked)
    {
      if ts[i].plate == plate && ts[i].status == Parked {
        return Some(i);
      }
      i := i + 1;
    }
    return None;
  }

  /** Looks up a parked ticket by id: `SELECT ... FROM TICKETS WHERE id = ? AND status = 'ESTACIONADO'`. */
  method FindParkedById(ts: seq<Ticket>, id: int) returns (r: Option<nat>)
    ensures r.Some? ==> r.value < |ts| && ts[r.value].id == id && ts[r.value].status == Parked
    ensures r.None? <==> !HasParkedId(ts, id)
  {
    var i := 0;
    while i < |ts|
      invariant 0 <= i <= |ts|
      invariant forall j :: 0 <= j < i ==> !(ts[j].id == id && ts[j].status == Parked)
    {
      if ts[i].id == id && ts[i].status == Parked {
        return Some(i);
      }
      i := i + 1;
    }
    return None;
  }

  /** The parked tickets of a table, in table order. */
  function ParkedTickets(ts: seq<Ticket>): (r: seq<Ticket>)
    ensures |r| <= |ts|
    ensures forall i :: 0 <= i < |r| ==> r[i].status == Parked
  {
    if ts == [] then []
    else ParkedTickets(ts[..|ts| - 1]) + (if ts[|ts| - 1].status == Parked then [ts[|ts| - 1]] else [])
  }

  lemma ParkedTicketsStep(ts: seq<Ticket>, k: int)
    requires 0 <= k < |ts|
    ensures ParkedTickets(ts[..k + 1])
      == ParkedTickets(ts[..k]) + (if ts[k].status == Parked then [ts[k]] else [])
  {
    assert ts[..k + 1][..k] == ts[..k];
  }

  /** The list holds exactly the parked tickets of the table. */
  lemma {:induction false} ParkedTicketsMembers(ts: seq<Ticket>, t: Ticket)
    ensures t in ParkedTickets(ts) <==> t in ts && t.status == Parked
  {
    if ts != [] {
      ParkedTicketsMembers(ts[..|ts| - 1], t);
      assert ts == ts[..|ts| - 1] + [ts[|ts| - 1]];
    }
  }

  /** In a well-formed table no plate appears twice among the parked tickets. */
  predicate DistinctPlates(ts: seq<Ticket>)
  {
    forall i, j :: 0 <= i < j < |ts| ==> ts[i].plate != ts[j].plate
  }

  lemma {:induction false} ParkedPlatesDistinct(ts: seq<Ticket>)
    requires OneParkedPerPlate(ts)
    ensures DistinctPlates(ParkedTickets(ts))
  {
    if ts != [] {
      var init := ts[..|ts| - 1];
      var last := ts[|ts| - 1];
      ParkedPlatesDistinct(init);
      var r := ParkedTickets(ts);
      var pi := ParkedTickets(init);
      assert DistinctPlates(pi);
      if last.status == Parked {
        assert r == pi + [last];
        forall i, j | 0 <= i < j < |r| ensures r[i].plate != r[j].plate {
          if j == |r| - 1 {
            assert r[i] == pi[i] && r[j] == last && pi[i] in pi;
            ParkedTicketsMembers(init, pi[i]);
            var m :| 0 <= m < |init| && init[m] == pi[i];
            assert ts[m] == pi[i] && ts[|ts| - 1] == last;
            assert ts[m].status == Parked && m < |ts| - 1;
          } else {
            assert r[i] == pi[i] && r[j] == pi[j];
            assert pi[i].plate != pi[j].plate;
          }
        }
      } else {
        assert r == pi;
      }
    }
  }

  /** One row of the parked list: number, dashed plate, entry time and the amount due now. */
  function RowOf(t: Ticket, now: Moment, tariff: Option<real>): (row: ParkedRow)
    requires ValidMoment(now)
    ensures row.id == t.id && |row.ticketNumber| >= 10 && row.ticketNumber[..4] == "TCK-"
    ensures row.hours >= 1 && row.amountDue <= Fee.MaximumAmount
    ensures Fee.HourlyRate(tariff) >= 0.0 ==> row.amountDue >= 0.0
  {
    var charge := Fee.Calculate(t.entry, None, now, tariff);
    ParkedRow(t.id, Display.FormatTicketId(t.id), Display.FormatPlate(t.plate),
              Display.FormatDateTime(Some(t.entry)), charge.hours, charge.amount)
  }

  /** The rows for a list of tickets, one per ticket, in order. */
  function Rows(ts: seq<Ticket>, now: Moment, tariff: Option<real>): (rows: seq<ParkedRow>)
    requires ValidMoment(now)
    ensures |rows| == |ts|
  {
    if ts == [] then [] else Rows(ts[..|ts| - 1], now, tariff) + [RowOf(ts[|ts| - 1], now, tariff)]
  }

  lemma {:induction false} RowsAt(ts: seq<Ticket>, now: Moment, tariff: Option<real>, i: int)
    requires ValidMoment(now) && 0 <= i < |ts|
    ensures Rows(ts, now, tariff)[i] == RowOf(ts[i], now, tariff)
  {
    if i < |ts| - 1 {
      RowsAt(ts[..|ts| - 1], now, tariff, i);
    }
  }

  lemma RowsAppend(ts: seq<Ticket>, t: Ticket, now: Moment, tariff: Option<real>)
    requires ValidMoment(now)
    ensures Rows(ts + [t], now, tariff) == Rows(ts, now, tariff) + [RowOf(t, now, tariff)]
  {
    assert (ts + [t])[..|ts|] == ts;
  }

  /** Looking at one more ticket adds its row exactly when it is parked. */
  lemma RowsStep(ts: seq<Ticket>, k: int, now: Moment, tariff: Option<real>)
    requires ValidMoment(now) && 0 <= k < |ts|
    ensures ts[k].status == Parked ==>
      Rows(ParkedTickets(ts[..k + 1]), now, tariff)
        == Rows(ParkedTickets(ts[..k]), now, tariff) + [RowOf(ts[k], now, tariff)]
    ensures ts[k].status != Parked ==> ParkedTickets(ts[..k + 1]) == ParkedTickets(ts[..k])
  {
    ParkedTicketsStep(ts, k);
    var parked := ParkedTickets(ts[..k]);
    if ts[k].status == Parked {
      RowsAppend(parked, ts[k], now, tariff);
    } else {
      assert parked + [] == parked;
    }
  }

  /** `listar_estacionados`: one row per parked ticket, in table order, priced against the clock reading `now`. */
  method ListParked(ts: seq<Ticket>, now: Moment, tariff: Option<real>) returns (rows: seq<ParkedRow>)
    requires ValidMoment(now)
    ensures rows == Rows(ParkedTickets(ts), now, tariff)
  {
    rows := [];
    var k := 0;
    while k < |ts|
      invariant 0 <= k <= |ts|
      invariant rows == Rows(ParkedTickets(ts[..k]), now, tariff)
    {
      RowsStep(ts, k, now, tariff);
      if ts[k].status == Parked {
        rows := rows + [RowOf(ts[k], now, tariff)];
      }
      k := k + 1;
    }
    assert ts[..|ts|] == ts;
  }

  /**
   * `visualizar_pagamento`: the amount a parked ticket would pay at the clock
   * reading `now`, or nothing when the id has no parked ticket.
   */
  method Preview(ts: seq<Ticket>, id: int, now: Moment, tariff: Option<real>) returns (r: Option<real>)
    requires ValidMoment(now)
    ensures r.None? <==> !HasParkedId(ts, id)
    ensures r.Some? ==> exists k :: 0 <= k < |ts| && ts[k].id == id && ts[k].status == Parked
                                 && r.value == Fee.Calculate(ts[k].entry, None, now, tariff).amount
  {
    var found := FindParkedById(ts, id);
    if found.None? {
      return None;
    }
    var k := found.value;
    return Some(Fee.Calculate(ts[k].entry, None, now, tariff).amount);
  }

  /** The TICKETS table. */
  class TicketTable {
    var tickets: seq<Ticket>

    ghost predicate Valid()
      reads this
    {
      WellFormed(tickets)
    }

    constructor ()
      ensures Valid() && tickets == []
    {
      tickets := [];
    }

    /**
     * `dar_entrada`: normalise the typed plate, reject it when empty, when not
     * seven letters or digits, or when it already has a parked ticket, and
     * otherwise append a parked ticket entered at the clock reading `now`.
     */
    method CheckIn(raw: string, now: Moment) returns (r: CheckInOutcome)
      requires Valid() && ValidMoment(now)
      modifies this
      ensures Valid() && Evolves(old(tickets), tickets)
      ensures var p := Plate.Normalize(raw);
        && (r.EmptyPlate? <==> p == [])
        && (r.InvalidPlate? <==> p != [] && !Plate.IsValid(p))
        && (r.AlreadyParked? <==> Plate.IsValid(p) && HasParked(old(tickets), p))
        && (r.Registered? <==> Plate.IsValid(p) && !HasParked(old(tickets), p))
      ensures r.AlreadyParked? ==>
        1 <= r.id <= |tickets| && tickets[r.id - 1].plate == Plate.Normalize(raw)
        && tickets[r.id - 1].status == Parked
      ensures !r.Registered? ==> tickets == old(tickets)
      ensures r.Registered? ==>
        && r.id == |old(tickets)| + 1
        && tickets == old(tickets) + [Ticket(r.id, Plate.Normalize(raw), FormatIso(now.at), None, None, Parked)]
    {
      var p := Plate.Normalize(raw);
      if p == [] {
        EvolvesReflexive(tickets);
        return EmptyPlate;
      }
      if !Plate.IsValid(p) {
        EvolvesReflexive(tickets);
        return InvalidPlate;
      }
      var existing := FindParkedByPlate(tickets, p);
      if existing.Some? {
        var k := existing.value;
        assert tickets[k].id == k + 1 by {
          assert IdsArePositions(tickets);
        }
        assert HasParked(tickets, p);
        EvolvesReflexive(tickets);
        return AlreadyParked(k + 1);
      }
      Plate.NormalizeValidIsStored(raw);
      var id := Admit(p, now.at);
      return Registered(id);
    }

    /** The `INSERT` of a check-in: a parked ticket for `p`, entered at `now`, with the next id. */
    method Admit(p: string, now: DateTime) returns (id: int)
      requires Valid() && ValidDateTime(now)
      requires Plate.IsStored(p) && !HasParked(tickets, p)
      modifies this
      ensures Valid() && Evolves(old(tickets), tickets)
      ensures id == |old(tickets)| + 1
      ensures tickets == old(tickets) + [Ticket(id, p, FormatIso(now), None, None, Parked)]
    {
      CheckInKeepsWellFormed(tickets, p, now);
      tickets := tickets + [NewTicket(tickets, p, FormatIso(now))];
      id := |tickets|;
    }

    /**
     * `finalizar_pagamento`: when the id names a parked ticket, store the exit
     * time `now` (as text), the amount due between the stored entry and that
     * exit, and the paid status, all in one update; otherwise change nothing.
     */
    method Pay(id: int, now: Moment, tariff: Option<real>) returns (r: PayOutcome)
      requires Valid() && ValidMoment(now)
      modifies this
      ensures Valid() && Evolves(old(tickets), tickets)
      ensures r.NotFoundOrPaid? <==> !HasParkedId(old(tickets), id)
      ensures r.NotFoundOrPaid? ==> tickets == old(tickets)
      ensures r.Settled? ==>
        var k := id - 1;
        && 0 <= k < |old(tickets)| && old(tickets)[k].status == Parked
        && r.exit == FormatIso(now.at)
        && r.amount == Fee.Calculate(old(tickets)[k].entry, Some(r.exit), now, tariff).amount
        && tickets == old(tickets)[k := Settle(old(tickets)[k], r.exit, r.amount)]
    {
      var found := FindParkedById(tickets, id);
      if found.None? {
        assert Evolves(tickets, tickets);
        return NotFoundOrPaid;
      }
      var k := found.value;
      var exit := FormatIso(now.at);
      var amount := Fee.Calculate(tickets[k].entry, Some(exit), now, tariff).amount;
      var settled := tickets[k := Settle(tickets[k], exit, amount)];
      assert k == id - 1 && WellFormed(settled) && Evolves(tickets, settled) by {
        assert IdsArePositions(tickets);
        assert tickets[k].id == k + 1;
        PayKeepsWellFormed(tickets, k, exit, amount);
      }
      tickets := settled;
      r := Settled(exit, amount);
    }
  }
}
