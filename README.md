# Parking lot ticketing: a Dafny model

This project models the core of a small parking-lot web application, all of which lives in `app.py`:

- **Fee calculation** (`calcular_tempo_e_valor`). The fee takes an entry time and an optional exit time, both stored as `YYYY-MM-DD HH:MM:SS` text. When no exit is given, the current clock reading stands in for it. The result is the number of hours charged and the amount due. Hours are at least one, partial hours round up, the rate comes from the tariff table (10.00 when it has no row), and every amount is capped at a flat 50.00. When either text does not parse, the result is `(1, 0.0)`.
- **The ticket table** and the two handlers that change it. Check-in (`dar_entrada`) normalises the typed plate, rejects it, or appends a parked (`ESTACIONADO`) ticket. Payment (`finalizar_pagamento`) closes a parked ticket: one update sets its exit time, its amount and the paid (`PAGO`) status. The read-only views over the table are modelled too: the list of parked vehicles (`listar_estacionados`) and the price preview before payment (`visualizar_pagamento`).
- **Display formatters.** `formatar_placa` adds the dash to a plate, `formatar_datahora` reorders a stored time into `DD/MM/YYYY HH:MM:SS`, and `formatar_ticket_id` produces `TCK-` plus at least six digits (more for ids of 1000000 and above).

Modules, one per concern:

| file | module | contents |
|---|---|---|
| `wrappers.dfy` | `Wrappers` | `Option`, standing in for Python's `None` |
| `calendar.dfy` | `Calendar` | date-times, clock readings with microseconds, the proleptic Gregorian day number (Python's `toordinal`), seconds between two date-times |
| `timestamp_text.dfy` | `TimestampText` | the strict parse of `YYYY-MM-DD HH:MM:SS` and its inverse, the formatter |
| `fee.dfy` | `Fee` | hours charged, rate, cap, the whole fee function |
| `plate.dfy` | `Plate` | upper-casing, dash removal, `strip()`, the seven-character rule |
| `display.dfy` | `Display` | the three formatters |
| `ledger.dfy` | `Ledger` | the ticket records, the table invariant, the `TicketTable` class with `CheckIn` and `Pay`, the parked list and the preview |

The SQL table becomes the `tickets: seq<Ticket>` field of a `TicketTable` object. Its invariant `WellFormed` states four things:

- Ids run 1, 2, 3, … in table order. Rows are never deleted, so SQLite's `INTEGER PRIMARY KEY` numbers them that way.
- Every plate is in stored form: seven upper-case letters or digits, which normalisation leaves unchanged. Every entry text parses back to a date-time (`EntriesReadable`).
- A ticket's exit and amount are both set exactly when it is paid.
- No plate has two parked tickets.

`Evolves(before, after)` says how the table may change: rows are only appended, and a row only moves from parked to paid. `CheckIn` and `Pay` both keep the invariant and `Evolves`.

The clock, the tariff row and the form input are parameters:

- `now: Moment` is a clock reading, a date-time with microseconds.
- `tariff: Option<real>` is the first row of the tariff table, if there is one.
- `raw: string` is the plate as typed. A missing form field is the empty string, as `request.form.get('placa', '')` gives.

Money is an exact `real`. Elapsed time is an exact count of microseconds, the resolution of Python's `timedelta`.

Three facts about the fee in `app.py` shape the model:

- The cap at `app.py:110` is a flat 50.00, whatever the length of the stay.
- An unparseable time text makes `calcular_tempo_e_valor` return `(1, 0.0)`.
- A stay of zero or negative length is charged one hour.

## Model

| member | source | states |
|---|---|---|
| Calendar.OrdinalOfNextDate | app.py:99-100 | the day after any valid date has the next day number, so the subtraction of two date-times counts calendar days without gaps or repeats, across month and leap-year ends |
| Calendar.DaysBeforeNextYear | app.py:99-100 | each year contributes 366 days if it is a leap year and 365 otherwise to the day count |
| Calendar.ElapsedSeconds | app.py:99-100 | the seconds from `a` to `b` are positive exactly when `b` is later on the calendar and clock, and zero exactly when `a` and `b` are the same date-time |
| Calendar.ElapsedPositiveIffBefore | app.py:99-102 | counting seconds keeps the order of date-times: the later date-time has the larger count, in both directions |
| Calendar.ToSecondsInjective | app.py:99-100 | two valid date-times are the same instant exactly when all six fields agree |
| TimestampText.Parse | app.py:85-93 | `strptime` with `%Y-%m-%d %H:%M:%S` yields only real dates and times (month 1-12, day within the month, leap years, hour < 24, minute and second < 60) |
| TimestampText.FormatIso | app.py:175 | `strftime('%Y-%m-%d %H:%M:%S')` always yields 19 characters |
| TimestampText.ParseFormatIso | app.py:175 | a time stored by check-in or payment parses back to the same date-time |
| TimestampText.FormatIsoOfParse | app.py:86-91 | any text that parses is exactly the stored form of what it parses to, so parsing loses nothing |
| TimestampText.PadValue | app.py:175 | zero-padding a field to its width keeps its value |
| TimestampText.PadOfValue | app.py:91 | every fixed-width digit field is the zero-padding of its own value |
| Fee.ChargeableHours | app.py:102-106 | hours are at least 1; exactly 1 when elapsed time is <= 0; otherwise h with (h-1) hours < elapsed <= h hours (ceil of elapsed/3600) |
| Fee.ChargeableHoursIsLeast | app.py:102-106 | the hours charged are the fewest whole hours, at least one, that cover the stay |
| Fee.ChargeableHoursMonotone | app.py:102-106 | a longer stay is never charged fewer hours |
| Fee.HourlyRate | app.py:95-97 | the rate is the tariff row's value when there is a row, and 10.00 when the tariff table has none |
| Fee.ElapsedMicros | app.py:99-100 | the stay in microseconds lies within the whole-second stay and the second after it, and equals the whole-second stay when the clock reading has no fraction of a second |
| Fee.Amount | app.py:108-110 | the amount is min(hours * rate, 50.00): never above 50.00 nor above hours * rate, and equal to one of them; non-negative for a non-negative rate |
| Fee.AmountMonotone | app.py:108-110 | with a non-negative rate, more hours never cost less |
| Fee.ExitMoment | app.py:81-88 | with no exit text the exit is the clock reading; with a text, there is an exit exactly when the text parses, and it is the parsed date-time at zero microseconds; any exit is a valid instant |
| Fee.Calculate | app.py:78-112 | hours >= 1 and amount <= 50.00 always; `(1, 0.0)` when the exit text or the entry text does not parse, whatever the other argument; amount >= 0 for a non-negative rate; with no exit text and a parseable entry, the hours are the fewest whole hours covering the stay in microseconds up to the clock reading (one when it is not positive) and the amount is min(hours * rate, 50.00) |
| Fee.CalculateBetweenTexts | app.py:99-110 | between two parseable texts the result is the least covering number of hours (one when the exit is not after the entry), priced as min(hours * rate, 50.00) |
| Fee.ExitNotLaterChargesOneHour | app.py:99-103 | an exit that is not later than the entry on the calendar and clock is charged exactly one hour |
| Fee.LiveAndStoredExitAgree | app.py:229-231 | the preview priced against the live clock and the payment priced against the same reading stored as text agree on a whole second; otherwise the preview is at most one hour more |
| Plate.Upper | app.py:150 | `upper()` keeps the length and upper-cases each letter in place |
| Plate.RemoveDashes | app.py:150 | `replace('-', '')` leaves no dash and never lengthens the text |
| Plate.RemoveDashesSingle | app.py:150 | a single character is dropped when it is a dash and kept otherwise |
| Plate.RemoveDashesAppend | app.py:150 | dash removal works part by part on a concatenation; with the single-character case this fixes the result as the non-dash characters in their original order |
| Plate.RemoveDashesMembers | app.py:150 | a character survives dash removal exactly when it occurs in the input and is not a dash |
| Plate.StripLeft | app.py:150 | the result is a suffix of the input, everything dropped is white space, and it does not start with white space |
| Plate.StripRight | app.py:150 | the result is a prefix of the input, everything dropped is white space, and it does not end with white space |
| Plate.Strip | app.py:150 | `strip()` leaves no white space at either end |
| Plate.Normalize | app.py:150 | `placa.upper().replace('-', '').strip()` never lengthens the typed text |
| Plate.IsValid | app.py:159 | the seven-alphanumeric check; a plate passing it with no lower-case letter is exactly a plate in stored form |
| Plate.NormalizeShape | app.py:150 | a normalised plate has no dash, no lower-case letter and no white space at either end |
| Plate.NormalizeIdempotent | app.py:150 | normalising a normalised plate changes nothing |
| Plate.NormalizeValidIsStored | app.py:150-161 | a normalised plate that passes the seven-character check is seven upper-case letters or digits, and such a plate normalises to itself |
| Display.FormatPlate | app.py:114-118 | a 7-character plate becomes 8 characters with `-` at index 3, and deleting it gives the plate back; any other length is returned unchanged |
| Display.NormalizeFormattedPlate | app.py:114-118 | a plate as displayed, typed into check-in again, normalises to the stored plate |
| Display.FormatBr | app.py:126 | `strftime('%d/%m/%Y %H:%M:%S')` is the stored form's day, month and year in that order, separated by `/`, followed by the same clock time |
| Display.FormatDateTime | app.py:120-128 | no text or empty text gives "N/A"; a parseable time gives DD/MM/YYYY followed by the same clock time, built from the input's own fields; anything else is returned unchanged |
| Display.IntToString | app.py:132 | `str(id)` is non-empty, starts with `-` exactly for a negative id, and its digits (after the sign) denote the id's magnitude |
| Display.NatToString | app.py:132 | `str(n)` is a non-empty digit string with no leading zero whose value is n |
| Display.ZFill | app.py:132 | `zfill(6)` never shortens: the length is max(6, len) |
| Display.FormatTicketId | app.py:130-132 | the ticket number always starts with `TCK-` and has at least 10 characters |
| Display.TicketIdDigits | app.py:130-132 | for an id >= 0 the digit part has length max(6, len(str(id))), ends with str(id) untruncated, is padded with '0' only, and denotes the id |
| Display.NegativeTicketIdDigits | app.py:130-132 | for a negative id the sign comes first and the zeros after it, as `zfill` places them |
| Display.TicketTextOfDigits | app.py:132 | `TCK-` and any digit string zero-filled to six: the digits come last, untruncated, after '0's only, and keep their value |
| Display.TicketTextOfNegative | app.py:132 | `TCK-` and a minus sign before a digit string zero-filled to six: the sign stays first, the zeros go after it, and the digits keep their value |
| Ledger.CheckInKeepsWellFormed | app.py:163-181 | appending a parked ticket, entered at a formatted clock time, for a stored-form plate with no parked ticket keeps ids, per-ticket consistency, readable entry times and one parked ticket per plate |
| Ledger.PayKeepsWellFormed | app.py:267-270 | marking one parked ticket paid, with its exit and amount, keeps the invariant, and the change is a parked-to-paid move |
| Ledger.PaymentChargesStay | app.py:264-265 | paying a stored ticket never falls back to `(1, 0.0)`: the amount is min(hours * rate, 50.00) for the least hours covering entry to payment time |
| Ledger.EvolvesTransitive | app.py:146-286 | any sequence of check-ins and payments only appends rows and only moves rows from parked to paid |
| Ledger.FindParkedByPlate | app.py:164-167 | finds a parked ticket of the plate exactly when one exists |
| Ledger.FindParkedById | app.py:254-257 | finds a parked ticket with the id exactly when one exists; a missing id or a paid ticket gives nothing |
| Ledger.ParkedTickets | app.py:195-197 | the `status = 'ESTACIONADO'` selection holds only parked tickets and is no longer than the table |
| Ledger.ParkedTicketsMembers | app.py:195-197 | the parked list holds exactly the table's tickets with status parked |
| Ledger.ParkedPlatesDistinct | app.py:195-197 | in a table with one parked ticket per plate, no plate appears twice in the parked list |
| Ledger.RowOf | app.py:201-211 | a row keeps the ticket's id, has a `TCK-` number of at least ten characters, at least one hour, and an amount at most 50.00 (and not negative at a non-negative rate) |
| Ledger.Rows | app.py:200-211 | one row per ticket given, in order |
| Ledger.RowsAt | app.py:200-211 | row i of the list is built from parked ticket i: its number, dashed plate, formatted entry, and hours and amount priced against the clock |
| Ledger.RowsStep | app.py:200-211 | looking at one more ticket adds its row exactly when it is parked, and adds nothing otherwise |
| Ledger.ListParked | app.py:191-213 | the loop builds exactly one row per parked ticket, in order |
| Ledger.Preview | app.py:216-231 | nothing when the id has no parked ticket; otherwise the amount for that ticket priced against the clock reading |
| Ledger.TicketTable.constructor | app.py:51-60 | a fresh table is empty and well formed |
| Ledger.TicketTable.CheckIn | app.py:146-189 | empty plate, invalid plate, already parked (with that ticket's id) or registered, each exactly in its case; a rejection leaves the table unchanged; a registration appends exactly one parked ticket with the next id, the normalised plate and the clock time as text; the invariant is kept |
| Ledger.TicketTable.Admit | app.py:175-184 | the insert appends exactly one parked ticket with the next id, the plate and the clock time as text, and no exit or amount; the invariant is kept |
| Ledger.TicketTable.Pay | app.py:249-286 | fails without change exactly when the id has no parked ticket; otherwise only that ticket changes, getting the clock time as exit text, the fee from its stored entry to that exit, and status paid; the invariant is kept and no paid ticket changes |

## Left out

- Flask routing, templates, `flash` messages and redirects. Each handler returns an outcome value instead.
- The printing view (`imprimir_ticket`) and the history view (`historico`). They only read and format rows.
- SQLite connections, schema creation and the default tariff insert (`get_db`, `close_connection`, `init_db`). The table is an in-memory sequence, and the tariff row is a parameter.
- The `pytz` clock `obter_hora_br`. The clock reading is a parameter, assumed to be a valid date-time.
- Ledger.ListParked: rows come in table order. The `ORDER BY hora_entrada DESC` of the query is database behaviour and is not modelled.
- Ledger.ListParked: one clock reading `now` prices every row. The source reads the clock again for each row (`app.py:201` reaches `app.py:83`), so near an hour boundary two rows with the same entry time could show different hours there.
- Ledger.Preview: one clock reading stands for the whole request. The source reads the clock once for the amount (`app.py:231`) and again for the displayed exit time (`app.py:237`).
- Ledger.FindParkedByPlate: returns the first matching row. SQL `fetchone` makes no ordering promise, and the invariant allows only one match anyway.
- Fee.Calculate: Python floats are replaced by exact arithmetic. `total_seconds()` and the division by 3600 are exact here. Between two stored texts (whole seconds) the float computation gives the same ceiling. For a live clock reading with microseconds it can differ on stays longer than about a century, where a double no longer holds the stay to the microsecond.
- TimestampText.Parse: accepts only the strict fixed-width form. Python's `strptime` also accepts fields without zero padding, such as `2024-1-5 3:4:5`; that leniency is not modelled.
- TimestampText.FormatIso: always writes four year digits. On glibc, `strftime('%Y')` writes years before 1000 without padding.
- Display.FormatDateTime: always writes four year digits, for the same reason.
- Plate.Upper: upper-cases ASCII letters only. Python's Unicode case mapping (which can change the length, as in `'ß'.upper()`) is not modelled.
- Plate.IsValid: counts only ASCII letters and digits as alphanumeric. Python's `isalnum` also accepts other Unicode letters and digits.
- Concurrency between requests: each handler runs as one atomic step.
