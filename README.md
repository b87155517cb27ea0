# Supplier check-in: order status and duration engine

A Dafny model of the decision logic of the supplier check-in form in
`app.py` ("Control de Proveedores"). Warehouse staff register the time a
supplier's truck arrives for a booked delivery slot. Later they register
when service of that delivery started and ended. The form derives the
arrival's delay against the booked slot, the wait, service and total
minutes, and each order's status for the day: not arrived, awaiting
service, or service done.

The model keeps the form's own data:

- the reservation sheet (`proveedor_reservas`: `Fecha`, `Hora`,
  `Orden_de_compra`, `Proveedor`, `Numero_de_bultos`);
- the management sheet (`proveedor_gestion`: `Orden_de_compra`,
  `Proveedor`, `Numero_de_bultos`, `Hora_llegada`, `Hora_inicio_atencion`,
  `Hora_fin_atencion`, `Tiempo_espera`, `Tiempo_atencion`, `Tiempo_total`,
  `Tiempo_retraso`).

Cells that the sheet stores as text stay text. This covers the dates, the
slot `"09:00-09:30"`, and the timestamps `YYYY-MM-DD HH:MM:SS`. The
formatter and parsers between text and datetimes are modelled too. An
empty timestamp, minutes or delay cell (`None`/NaN) is `Option.None`. The clock is a parameter:
`today` (a `Date`) and `now` (a `TimeOfDay`).

Modules, one per concern:

- `Wrappers` (wrappers.dfy): `Option`, `Result`.
- `Chars` (chars.dfy): digits, zero padding, Python's `str.strip()`,
  first-occurrence search, substring containment.
- `Calendar` (calendar.dfy): Python `datetime` semantics. This covers the
  proleptic Gregorian ordinal (`toordinal`), lexicographic comparison,
  subtraction in seconds, `combine_date_time` and
  `calculate_time_difference` with its truncation toward zero.
- `TimeText` (timetext.dfy): `strftime('%Y-%m-%d %H:%M:%S')`,
  `fromisoformat`, `strptime('%H:%M')` and `parse_time_range`.
- `Records` (records.dfy): the row types, `get_today_reservations`,
  `get_existing_arrivals`, `get_arrival_record` and the order status.
- `Engine` (engine.dfy): the arrival delay, the arrival row, service
  validation and durations, and the picker defaults.
- `Table` (table.dfy): class `ManagementTable` over an `array<Record>`.
  A pandas masked write `gestion_df.loc[mask, col] = v` becomes a parallel
  `forall` assignment to the array in place. `pd.concat` becomes a fresh
  array one row longer.

The model follows the code, including these behaviours:

- Today's reservations are picked by substring containment of
  `YYYY-MM-DD` in the date cell, not by date equality.
- Registering an arrival again only overwrites `Hora_llegada`. The delay
  is not recomputed.
- An order counts as arrived if any of its rows has today's date in
  `Hora_llegada`. Its service state, however, is read from the order's
  first row on any day. So an order id whose first row was completed on
  another day is counted as done as soon as it arrives today
  (`StatusAfterUpsert`).
- There is no "unknown reservation" error. The order is chosen from
  today's reservations.

## Model

| member | source | states |
|---|---|---|
| `Chars.TrimStart` | app.py:144 | the result is a suffix of the input, everything dropped is whitespace, and the result does not start with whitespace |
| `Chars.TrimEnd` | app.py:144 | the result is a prefix of the input, everything dropped is whitespace, and the result does not end with whitespace |
| `Chars.StripPadded` | app.py:144 | `strip()` removes exactly the whitespace around a text that neither starts nor ends with whitespace |
| `Chars.IndexOf` | app.py:143-144 | `None` iff the character is absent; otherwise the index of its first occurrence |
| `Chars.Pad2` | app.py:420 | the two-digit numeral of `n` reads back as `n` |
| `Chars.Pad4` | app.py:420 | the four-digit numeral of `n` reads back as `n` |
| `Chars.Pad2OfNumber` | app.py:549 | every two-digit string is the padding of its own value |
| `Chars.Pad4OfNumber` | app.py:549 | every four-digit string is the padding of its own value |
| `Chars.Strip` | app.py:144 | `str.strip()`: leading then trailing whitespace removed; the result is no longer than the text (its shape is stated by `StripShape` and `StripEnds`) |
| `Chars.StripShape` | app.py:144 | the text is whitespace, then the stripped result, then whitespace |
| `Chars.StripEnds` | app.py:144 | the stripped result is empty or neither starts nor ends with whitespace, so nothing more could be removed |
| `Chars.IsSpace` | app.py:144 | the characters Python's `str.isspace()` accepts and `strip()` removes: U+0009-U+000D, U+001C-U+0020, U+0085, U+00A0, U+1680, U+2000-U+200A, U+2028, U+2029, U+202F, U+205F and U+3000 |
| `Chars.Contains` | app.py:137 | pandas `str.contains`: the needle occurs at some position of the text, not necessarily at its start and not necessarily as the whole text (see `ContainsPrefix` and `ContainsInfix`) |
| `Chars.ContainsInfix` | app.py:178 | a text contains a needle found anywhere inside it, such as a date after other text |
| `Chars.ContainsPrefix` | app.py:178 | a text contains each of its prefixes |
| `Calendar.Combine` | app.py:163-165 | combining a valid date and time gives a valid datetime on that date, a whole number of minutes into the day |
| `Calendar.DaysBeforeYearStep` | app.py:159 | consecutive years' ordinals differ by 365 or, after a leap year, 366 days |
| `Calendar.OrdinalMonotone` | app.py:159 | an earlier calendar date has a smaller ordinal |
| `Calendar.Ordinal` | app.py:159 | `date.toordinal()`: days before the year, plus days before the month (one more after February in a leap year), plus the day; 0001-01-01 is day 1 |
| `Calendar.Seconds` | app.py:159 | the elapsed seconds whose differences are the `timedelta`: day ordinal times 86400 plus the time of day, so every instant lies inside its own day's 86400 seconds |
| `Calendar.Before` | app.py:552-554 | datetime `<` (and, negated, `>=`): lexicographic on date, hour, minute and second |
| `Calendar.BeforeIffEarlier` | app.py:552-554 | Python's datetime comparison agrees exactly with the order of elapsed seconds, and equality with equal seconds |
| `Calendar.TruncMinutes` | app.py:160 | `int(seconds/60)` truncates toward zero: within one minute of the elapsed time, on the side of zero |
| `Calendar.TimeDifference` | app.py:150-161 | `None` exactly when either argument is missing |
| `Calendar.TruncMinutesOdd` | app.py:160 | truncation is odd: reversing the interval negates the minutes |
| `Calendar.TruncMinutesAddWhole` | app.py:160 | adding whole minutes to a non-negative interval adds exactly those minutes |
| `Calendar.TruncMinutesWhole` | app.py:160 | a whole number of minutes converts exactly |
| `Calendar.TimeDifferenceSelf` | app.py:150-161 | the difference of an instant with itself is 0 |
| `Calendar.TimeDifferenceAntisymmetric` | app.py:150-161 | diff(a, b) = -diff(b, a) |
| `Calendar.TimeDifferenceSign` | app.py:150-161 | a positive result means `a < b` and a negative one `b < a`; a gap of a minute or more always gives a nonzero result of the right sign |
| `TimeText.FormatDate` | app.py:136 | today's date text is 10 characters long |
| `TimeText.FormatDateTime` | app.py:420 | the stored timestamp is 19 characters long and starts with the date text |
| `TimeText.ParseDateTime` | app.py:549 | a parsed timestamp is a valid datetime and the text has the `YYYY-MM-DD?HH:MM:SS` shape |
| `TimeText.ParseFormatDateTime` | app.py:549 | every written timestamp reads back as the same datetime |
| `TimeText.FormatParseDateTime` | app.py:549 | every timestamp that parses is written back unchanged, except for a space separator |
| `TimeText.FormatDateInjective` | app.py:136 | two valid dates with the same `YYYY-MM-DD` text are the same date |
| `TimeText.FormatDateTimeContainsDate` | app.py:176-179 | a timestamp written on a day contains that day's date text |
| `TimeText.ParseClock` | app.py:145 | a parsed `%H:%M` is a valid time of day (exactly which texts parse, and to what, is `ParseClockExact`) |
| `TimeText.ParseClockExact` | app.py:145 | `strptime('%H:%M')` gives `t` iff `t` is valid and the text is one colon between one- or two-digit fields spelling `t.hour` and `t.minute`; everything else ("24:00", "ab:cd", "09:00:00") is refused |
| `TimeText.ParseTimeRange` | app.py:139-148 | the result is a valid time, and `None` when the text has no `-` (exactly which texts give which start is `ParseTimeRangeExact`) |
| `TimeText.ParseTimeRangeExact` | app.py:139-148 | the slot gives `t` iff it is whitespace, a text `strptime('%H:%M')` reads as `t` (one- or two-digit fields, by `ParseClockExact`), whitespace, a dash and anything; every other text, including a dash text whose stripped head is not a clock, gives `None` |
| `TimeText.ClockText` | app.py:140 | the slot start text has the `HH:MM` shape |
| `TimeText.ParseClockText` | app.py:145 | `HH:MM` reads back as the same time |
| `TimeText.ParseTimeRangeStart` | app.py:139-148 | for any surrounding whitespace and ANY text after the dash, the booked start is the `HH:MM` before the first dash |
| `TimeText.ParseTimeRangeCompactExample` | app.py:140-145 | `"09:00-09:30"` gives 09:00 |
| `TimeText.ParseTimeRangeSpacedExample` | app.py:140-145 | `"09:00 - 09:30"` gives 09:00 |
| `TimeText.ParseTimeRangeInvalidExample` | app.py:143-146 | `"invalid"` gives `None` |
| `Records.BookedOn` | app.py:137 | the `Fecha` mask: the reservation's date cell contains today's `YYYY-MM-DD` |
| `Records.ArrivedOn` | app.py:178 | the `Hora_llegada` mask with `na=False`: an empty cell is never today's, a filled one is when it contains today's `YYYY-MM-DD` |
| `Records.TodayReservations` | app.py:134-137 | the result is no longer than the input, and each result row is an input row booked today |
| `Records.TodayReservationsComplete` | app.py:134-137 | a row is in the result iff it is an input row whose date cell contains today's date |
| `Records.TodayReservationsAppend` | app.py:134-137 | the filter distributes over concatenation, so it keeps the input order; an empty table gives an empty result |
| `Records.ExistingArrivals` | app.py:170-180 | at most one id per row |
| `Records.ExistingArrivalsMembership` | app.py:170-180 | an id is listed iff some row of that order has today's date in its arrival cell |
| `Records.ExistingArrivalsAppend` | app.py:170-180 | the filter distributes over concatenation (it keeps the table order) |
| `Records.FirstMatch` | app.py:187-188 | the index of the first row with the order id, or `None` iff no row has it |
| `Records.HasOrder` | app.py:229 | `mask.any()`: some row carries the order id (also `existing_record is not None` at line 201) |
| `Records.ArrivalRecord` | app.py:182-188 | `Some` iff the order has a row; then it is the first such row, on any day |
| `Records.ServiceRegistered` | app.py:472-475 | a row counts as serviced when both its service start and service end cells are filled |
| `Records.Classify` | app.py:461-487 | not arrived iff no row of the order arrived today; service done iff arrived and the first row has both service timestamps; otherwise awaiting service |
| `Records.FirstMatchSameOrders` | app.py:234-238 | rewriting cells other than the order id does not change which row is first |
| `Records.OtherDayIsNotArrived` | app.py:176-179 | a row whose stored arrival is on another day does not make the order arrived today |
| `Engine.SameDayGap` | app.py:545-546 | two times combined with the same date are their minutes of day apart, and compare the same way |
| `Engine.ArrivalDelay` | app.py:409-413 | `None` iff the slot does not parse; otherwise the arrival's minute of day minus the booked start's |
| `Engine.ArrivalDelaySign` | app.py:433-439 | delay > 0 iff late, < 0 iff early, 0 iff punctual |
| `Engine.ArrivalDelayExamples` | app.py:409-413 | with a slot starting at 09:00 (such as `"09:00-09:30"`), arrival 09:15 gives 15 and 08:50 gives -10 |
| `Engine.Notice` | app.py:433-439 | "Retraso" iff the delay is positive, "Adelanto" iff negative (with its absolute value), "puntual" iff 0, nothing iff no delay |
| `Engine.ArrivalData` | app.py:416-427 | the new row carries the reservation's order, supplier and packages, counts as today's arrival, stores the arrival exactly as the `%Y-%m-%d %H:%M:%S` text of today at `t` (which reads back as that instant), has no service data, and has the computed delay |
| `Engine.Durations` | app.py:556-560 | for a start not before the arrival and an end after the start on the same day, the wait is non-negative, the service time is the minutes between the two picked times, and wait plus service is the total |
| `Engine.Readable` | app.py:549 | `fromisoformat` does not raise: the arrival cell is filled and parses as a timestamp |
| `Engine.ServiceTimes` | app.py:544-569 | unreadable arrival, end not after start, and start before arrival are refused exactly in those cases; on success wait is the minute difference from the stored arrival to the start, total the one from the arrival to the end, service = end - start in minutes, wait >= 0, service > 0, total >= 0, wait + service = total, and the start and end are stored exactly as the `%Y-%m-%d %H:%M:%S` texts of today at the picked times, which read back as those instants |
| `Engine.ServiceTimesExample` | app.py:556-560 | arrival 09:15 with service from 09:20 to 10:05 gives 5, 45 and 50 minutes |
| `Engine.PickerMinute` | app.py:385-390 | the preselected minute is the largest multiple of 5 not above the given minute |
| `Engine.PickerMinuteNotClosest` | app.py:388 | minute 4 preselects 0, although 5 is closer |
| `Engine.DefaultArrivalTime` | app.py:357-391 | the preselected arrival is the booked start when the slot parses, otherwise now, with the minute rounded down to the 5-minute grid |
| `Table.Serviced` | app.py:234-238 | exactly the five service cells change; arrival and delay are kept; the row is then service-registered |
| `Table.WithArrival` | app.py:203-206 | every row of the order has the new `Hora_llegada`; all its other cells and all other rows are as before |
| `Table.WithService` | app.py:234-238 | every row of the order is `Serviced` with the given data; all other rows are as before |
| `Table.StatusAfterUpsert` | app.py:199-206 | after re-registering today, the order is done iff its first row already had service times, otherwise awaiting service |
| `Table.StatusAfterAppend` | app.py:208-211 | a first arrival leaves the order awaiting service |
| `Table.ServiceCompletes` | app.py:234-238 | writing service data to an arrived order's rows completes it |
| `Table.ServiceDecision` | app.py:461-487 | not arrived is refused, an order already done is refused, an order awaiting service gets the service validation, and success only for an order awaiting service |
| `Table.ManagementTable.SaveArrival` | app.py:199-211 | if the order has rows, the same array keeps every row except that `Hora_llegada` of each row of the order is the new value (`Tiempo_retraso` is kept); otherwise one row is appended to a new array |
| `Table.ManagementTable.UpdateServiceTimes` | app.py:224-238 | fails and leaves the table unchanged iff no row has the order; otherwise the five service cells of every row of the order are overwritten, even on a completed row, and nothing else changes |
| `Table.ManagementTable.RegisterArrival` | app.py:399-431 | upsert of the new arrival row; afterwards the order's status is done or awaiting service as `StatusAfterUpsert`/`StatusAfterAppend` say |
| `Table.ManagementTable.RegisterService` | app.py:542-573 | the result is `ServiceDecision` on the table before the call; on failure the table is unchanged, on success every row of the order gets the service data, and the order is then done |
| `Table.ArrivalTwice` | app.py:199-206 | two registrations of one order leave a single row with the later arrival and the first delay |

## Left out

- SharePoint authentication, download, upload, Excel serialisation and the 5-minute cache (app.py:31-129, app.py:246-279). These are network and file I/O. The `reservas_df is None` and upload failures are I/O results, so `SaveArrival` and `UpdateServiceTimes` model only the table change.
- Streamlit widgets, tabs, messages and `st.rerun`. Only the decisions behind them are modelled: status, the delay notice, validation and picker defaults.
- Configuration from the environment and secrets (app.py:19-26).
- The unguarded read-modify-write against the shared file between sessions (last write wins). This is concurrency.
- `datetime.now()`. It is the `today`/`now` parameter.
- Floating-point `total_seconds() / 60` and microseconds. Times are whole seconds, and `int(x/60)` is exact truncation toward zero.
- pandas NaN and `astype(str)`. Empty timestamp, minutes and delay cells are `None`, and filled text cells are the text they hold. `str.contains` with regular expressions on is substring search, exact here because the date text contains no regular-expression operators.
- The string-argument branch of `calculate_time_difference` (app.py:154-157). No caller passes strings.
- `fromisoformat` forms other than the 19-character one the form writes (date only, `T` with fractions, offsets). Such cells are treated as unreadable.
- `TimeText.ParseClock`: non-ASCII decimal digits, which Python's `strptime` also accepts (its `\d` matches any Unicode digit), are refused.
- Years below 1000. `strftime('%Y')` zero-padding for them depends on the platform; the model pads them to four digits.
- Choosing the reservation row by order id among today's reservations (`.iloc[0]`, app.py:329-331, 402-404). `RegisterArrival` receives the reservation itself.
- Empty order, supplier and package cells. `Reservation` and the `order`, `supplier` and `packages` fields of `Record` are not optional, and `packages` is an integer, so an empty `Proveedor` or `Numero_de_bultos` cell, which app.py:418-419 would copy into the new row as NaN, cannot be represented; these cells are assumed filled.
- Order ids are compared as text. pandas `==` across mixed cell types (a number in one sheet, text in another) is not modelled.
