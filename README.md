# Parking gate-out backend: a verified model of its core

This project models the computational core of the `parking_gateout_app` Flask service and proves what that core does. The service is a parking-facility back end: it issues tickets, prices stays, records payments, authenticates staff with bearer tokens, and serves reports and dashboard statistics over a relational store.

The model covers four source files:

- `services.py`, in `Services` and `Tally`:
  - the fee rule and the rate resolution behind it;
  - the active-ticket lookup;
  - the append-only transaction and activity log, as the class `SessionStore`;
  - the statistics loop that groups exited tickets by vehicle type.
- `utils.py`, in `Utils`, `Calendar` and `Common`:
  - the ticket-number and transaction-id formats;
  - the duration text;
  - licence-plate validation, input sanitising and truncation;
  - the overstay fee, business hours and the date ranges of a reporting period.
- `routes.py`, in `Auth`, `Parking` and `Reports`:
  - the header checks of the `jwt_required` decorator;
  - `process_exit` and `process_payment`, as methods of the class `ParkingDatabase` that update its tables in place;
  - the daily, monthly and custom reports, including the monthly report's grouping loop. The daily and custom reports appear twice: as written, and with the listing corrected as described under Findings.
- `dashboard_routes.py`, in `Dashboard`:
  - the real-time statistics, with space utilisation;
  - the five-minute hardware window;
  - the vehicle list's status filter;
  - a vehicle's recent parking history.

Conventions:

- Time is an integer count of seconds from 0001-01-01 00:00:00 on the proleptic Gregorian calendar, so a day index is a timestamp divided by 86400. Calendar dates agree with Python's `date.toordinal` and `weekday`.
- The clock and the random draws are parameters, and so is what the JWT library makes of a token.
- Money is a real number. Rounding to cents is left out.
- Database columns that may be NULL are `Option` values.
- A comparison with NULL never selects a row, and `filter_by(col=None)` matches NULL.
- Each handler module reads the tables under the field names its own code uses.
- A handler's exception turns into its 500 response. Flask gives the same 500 for an error raised outside the handler's `try`.

The source and this model differ in a few places:

- **Exit.** `process_exit` guards on the vehicle's `IsParked` flag. It sets only the vehicle's exit time and parked flag. The ticket stays as it was, no transaction is created, and no space is freed. The fee is hours × hourly rate, with no base rate. The model follows the code in every one of these points.
- **Field names in `services.py`.** This file does not match `models.py` in several places:
  - It reads and writes `created_at`, `amount`, `status`, `ticket_id`, `transaction_number` and `payment_method`. `models.py` declares `CreatedAt`, `Amount`, `Status`, `TicketId`, `TransactionNumber` and `PaymentMethod`.
  - `create_transaction` writes a uuid string as `Id`, which is an integer primary key.
  - `get_active_ticket` filters on `ParkingTickets.VehicleId.has(plate_number=...)`, and `get_parking_statistics` reads `ticket.VehicleId.vehicle_type`. `VehicleId` is an integer column, not a relationship, and `Vehicles` declares `PlateNumber` and `VehicleType`.

  As the schema stands, `create_transaction`'s constructor, the statistics query and the plate lookup would all fail. The model reads the fields as the code intends: a ticket's plate and vehicle type are looked up through its vehicle (`Services.HasPlate`, `Services.TypeOf`), and a transaction's id is the given uuid.
- **Field names in `routes.py`.** This file uses `Vehicles.IsParked`, `EntryTime` and `ParkingSpaceId`, `ParkingSpaces.HourlyRate`, `ParkingTransactions.PaymentAmount`, `PaymentStatus` and `ProcessedAt`, `ParkingTickets.IsPaid`, and the configuration key `DEFAULT_HOURLY_RATE`. None of these is declared anywhere. As the schema stands, every report query and the payment's transaction constructor would fail on them. The model reads them as the code intends. The default rate is an optional parameter: when it is missing, the handler fails with a 500.
- **Field names in `dashboard_routes.py`.** This file filters on `ParkingTransactions.ProcessedAt` and lists `Vehicles.IsParked`, which `models.py` does not declare either. The model reads them as the code intends.

## Model

| member | source | states |
|---|---|---|
| Utils.TicketNumber | parking_gateout_app/utils.py:10-19 | the number is "TKT-", an eight-digit date stamp that reads back as today's date, "-", and the four drawn characters |
| Utils.TicketNumberExact | parking_gateout_app/utils.py:17-19 | every string of the ticket-number shape is the number issued on its date with its suffix, so the format is unambiguous |
| Utils.DateStampRoundTrip | parking_gateout_app/utils.py:17 | `%Y%m%d` of a valid date reads back as that date |
| Utils.TransactionId | parking_gateout_app/utils.py:185-194 | the id is "TRX-", a fourteen-digit time stamp that reads back as the current instant, "-", and the six drawn characters |
| Utils.TransactionIdExact | parking_gateout_app/utils.py:192-194 | every string of the transaction-id shape is the id generated at its instant with its suffix |
| Utils.TimeStampRoundTrip | parking_gateout_app/utils.py:192 | `%Y%m%d%H%M%S` of a valid instant reads back as that instant |
| Utils.DurationParts | parking_gateout_app/utils.py:64-68 | the hours and minutes of the floor divisions: minutes in 0..59, and the whole minutes lie within the last minute of the duration |
| Utils.DurationTextRoundTrip | parking_gateout_app/utils.py:64-73 | the duration text names the hours exactly when there is at least one whole hour, and reading it back yields those hours and minutes |
| Utils.ValidLicensePlate | parking_gateout_app/utils.py:76-97 | a plate is valid exactly when it has 3 to 10 characters and contains a letter and a digit |
| Utils.SpacesIrrelevant | parking_gateout_app/utils.py:90-95 | removing spaces keeps every letter and digit, so the letter and digit tests do not depend on it |
| Utils.Sanitize | parking_gateout_app/utils.py:167-182 | empty in gives empty out; the result is the input's alphanumerics and ` -_.,` in order, less the spaces at the two ends: a slice of them with only spaces outside it and no space at either end of it |
| Utils.SanitizeIdempotent | parking_gateout_app/utils.py:177-182 | sanitising twice gives the same as sanitising once |
| Utils.Truncate | parking_gateout_app/utils.py:249-266 | empty in gives empty out; a text within the limit is returned unchanged; a longer one becomes its first max_length-3 characters followed by "..." when max_length is at least 3 |
| Utils.OverstayHours | parking_gateout_app/utils.py:209-217 | no hours when the exit is not after the expected exit; otherwise the overstay rounded up to whole hours |
| Utils.OverstayFeeCharges | parking_gateout_app/utils.py:197-219 | no fee without an overstay; each started hour is charged in full; a later exit never costs less |
| Utils.IsBusinessHours | parking_gateout_app/utils.py:222-233 | true exactly from 08:00:00 up to, but not including, 20:00:00 |
| Utils.DateRange | parking_gateout_app/utils.py:120-149 | the range ends at now and starts at a midnight no later than now: the Monday of the week, the first of the month, the first of January, or today for any other period |
| Utils.WeekStart | parking_gateout_app/utils.py:137 | the Monday of the week is at most six days back and exists on the calendar |
| Calendar.MonthWindowExact | parking_gateout_app/routes.py:448-452 | a date falls in the days of the month window exactly when its year and month are the month's |
| Calendar.PrevDay | parking_gateout_app/utils.py:137 | the previous day of a valid date is valid and its ordinal is one less |
| Calendar.DaysBack | parking_gateout_app/utils.py:137 | going back n days from a date stays on the calendar and lowers the ordinal by n |
| Services.RateFor | parking_gateout_app/services.py:22 | no rate row exactly when no row has the vehicle type, otherwise a row of the table |
| Services.TariffResolution | parking_gateout_app/services.py:21-29 | without a matching row the tariff is 5.0 and 2.0; otherwise the first matching row decides: a NULL base rate fails (`float(None)`), else its base rate and its additional rate, or 2.0 when that is NULL |
| Services.TariffIgnoresOtherColumns | parking_gateout_app/services.py:22 | two rate tables that agree on vehicle type and both rates resolve to the same tariff, whatever IsActive, DurationType and the other columns hold |
| Services.FeeClosedForm | parking_gateout_app/services.py:32-41 | a stay of at most one hour (exit before entry included) costs the base rate; a longer one costs the base rate plus the hourly rate per hour beyond the first |
| Services.FeeMonotone | parking_gateout_app/services.py:37-41 | with a non-negative hourly rate the fee is at least the base rate and never decreases as the exit moves later |
| Services.ZeroAdditionalRateDiscarded | parking_gateout_app/services.py:29 | a configured additional rate of 0 is replaced by 2.0 as written: a two-hour stay costs 5.0 instead of 3.0 |
| Services.TariffsAgreeWithoutZero | parking_gateout_app/services.py:28-29 | the tariff as written and the corrected one agree whenever no rate row has an additional rate of 0 |
| Services.GetActiveTicket | parking_gateout_app/services.py:46-65 | only an active ticket from the table is returned; the ticket number decides when given, then the plate; with neither given there is no result |
| Services.SessionStore.CreateTransaction | parking_gateout_app/services.py:68-92 | appends exactly one completed cash transaction with the ticket's id as text, the amount, and "TX-" plus the time stamp; the activity log is unchanged |
| Services.SessionStore.LogActivity | parking_gateout_app/services.py:95-118 | appends exactly one entry with the action, details, status (default "success") and time; transactions are unchanged |
| Services.TallyByType | parking_gateout_app/services.py:148-166 | the loop builds exactly the per-type dictionary of the exited tickets |
| Services.TotalAsWritten | parking_gateout_app/services.py:144 | the sum fails (`float(None)`) exactly when some transaction lacks an amount, and is otherwise the sum of the amounts |
| Services.GetParkingStatistics | parking_gateout_app/services.py:121-174 | default window today's midnight to now; a 500 exactly when a completed transaction in the inclusive window has no amount (the per-ticket read at line 166 only reaches those same transactions); otherwise the totals count and sum those transactions, the per-type counts add up to the exited tickets, the revenues to their first payments, and each type appears once |
| Services.StatsPerType | parking_gateout_app/services.py:154-166 | a type's entry counts exactly the exited tickets of that type and its revenue is the sum of their first payments; a type has an entry exactly when one such ticket exists |
| Services.TicketRevenueIsFirstPayment | parking_gateout_app/services.py:164-166 | a ticket's revenue is the amount of its first transaction when that amount is present, and 0 when it has no transaction |
| Tally.Bump | parking_gateout_app/services.py:157-163 | one pass of the loop body: on a dictionary with one entry per key, the counts grow by one and the totals by the amount, the key's own count grows by one, and every key keeps a single entry |
| Tally.GroupTotals | parking_gateout_app/routes.py:460-466 | after the grouping loop the counts add up to the number of rows, the totals to the sum of the amounts, and no key appears twice |
| Tally.GroupCountPerKey | parking_gateout_app/routes.py:460-466 | each key's count is the number of rows with that key, and a key has an entry exactly when some row has it |
| Tally.GroupTotalPerKey | parking_gateout_app/routes.py:460-466 | each key's total is the sum of the amounts of exactly the rows with that key |
| Auth.HeaderOutcomes | parking_gateout_app/routes.py:31-46 | "No authorization header" exactly when the header is missing or empty; a 500 exactly when it does not split into two parts on single spaces; "Invalid token type" exactly when it does but the scheme is not "bearer" |
| Auth.HeaderCheckedBeforeDecoding | parking_gateout_app/routes.py:31-46 | a refused header is refused whatever the token decoder and the user table are |
| Auth.BearerHeaderReachesDecoder | parking_gateout_app/routes.py:40-70 | a "bearer token" header hands exactly that token to the decoder; the request proceeds exactly for a decoded, existing user; an expired or invalid token gets its own message |
| Auth.SchemeCaseInsensitive | parking_gateout_app/routes.py:41 | "Bearer", "BEARER" and "bearer" are treated alike |
| Parking.ParkingDatabase.ProcessExit | parking_gateout_app/routes.py:227-276 | the response and the new tables are those of the exit rule applied to the old tables |
| Parking.ExitUnknownTicket | parking_gateout_app/routes.py:232-237 | an unknown ticket number gives a 404 "Invalid ticket number" and changes nothing |
| Parking.ExitSucceeds | parking_gateout_app/routes.py:239-258 | an exit succeeds exactly when the ticket's vehicle exists, is parked, has an entry time and has a rate; only that vehicle changes: it gets the exit time now and is no longer parked, and its other columns stay |
| Parking.SecondExitRefused | parking_gateout_app/routes.py:240-244 | after a successful exit the same ticket is refused with 404 at any later time, and nothing changes |
| Parking.ExitFeeLinear | parking_gateout_app/routes.py:247-253 | the fee is hours times the hourly rate: zero at the entry time, and one hourly rate more for each further hour |
| Parking.ParkingDatabase.ProcessPayment | parking_gateout_app/routes.py:305-347 | the response and the new tables are those of the payment rule applied to the old tables |
| Parking.PaymentUnknownTicket | parking_gateout_app/routes.py:311-316 | an unknown ticket gives a 404 and records no transaction |
| Parking.PaymentRecorded | parking_gateout_app/routes.py:319-330 | a known ticket and a logged-in user append exactly one COMPLETED transaction for the ticket, by that user and with the given method, whose id is the new table size; the ticket is marked paid and nothing else changes |
| Parking.RepeatedPaymentAppendsAgain | parking_gateout_app/routes.py:311-330 | paying twice for one ticket records two identical transactions, since nothing guards a repeat payment |
| Reports.RangeReportContents | parking_gateout_app/routes.py:410-428 | the corrected report counts and lists exactly the transactions processed in the half-open window, and its total revenue is the sum of the amounts its lines show, NULL as 0 |
| Reports.RangeReportAgrees | parking_gateout_app/routes.py:415-428 | the report as written is a 500 exactly when a transaction of the window has no amount, and otherwise equals the corrected report |
| Reports.ListingAsWrittenFails | parking_gateout_app/routes.py:423-428 | the listing as written fails exactly when a transaction in the window has no amount, and otherwise equals the corrected listing |
| Reports.MissingAmountFailsReport | parking_gateout_app/routes.py:415-425 | a single in-window transaction without an amount turns the report into a 500 as written, while the corrected report lists it with amount 0 |
| Reports.DailyWindowIsTheDay | parking_gateout_app/routes.py:406-413 | the daily window selects exactly the transactions processed on the requested calendar day |
| Reports.DailyReportLastDay | parking_gateout_app/routes.py:407-408 | on 9999-12-31 the daily report, as written and corrected, is a 500, since the next day does not exist |
| Reports.DailyReportOutcome | parking_gateout_app/routes.py:405-428 | on any other day the corrected daily report always reports; the one as written reports exactly when every transaction of the day has an amount, and then reports the same |
| Reports.CustomReportOutcome | parking_gateout_app/routes.py:495-517 | both custom reports are a 500 without both dates; with them the corrected one always reports, and the one as written reports exactly when every transaction of the window has an amount, and then the same |
| Reports.CustomReportEmptyWindow | parking_gateout_app/routes.py:495-517 | a window whose end is not after its start reports no vehicles, no revenue and no lines, as written and corrected |
| Reports.WindowsAdd | parking_gateout_app/routes.py:498-503 | adjacent windows split a report: the counts and the revenues of [a, c) are those of [a, b) plus those of [b, c) |
| Reports.MonthWindowCoversMonth | parking_gateout_app/routes.py:448-457 | December's window ends at the next January; an instant is in a month's window exactly when it lies in that month |
| Reports.GroupByDay | parking_gateout_app/routes.py:460-466 | the grouping loop builds exactly the per-day dictionary of the month's transactions |
| Reports.GetMonthlyReport | parking_gateout_app/routes.py:443-487 | a 500 exactly when the month's window does not exist; otherwise the days are strictly ascending, their counts add up to the month's transactions and their revenues to the month's revenue |
| Reports.SortedTotals | parking_gateout_app/routes.py:477 | sorting the distinct days puts them in strictly ascending order and keeps every count and total |
| Reports.DailyCountsPerDay | parking_gateout_app/routes.py:461-466 | each day's entry counts exactly the transactions processed that day, and its revenue is the sum of their amounts with a missing amount as 0 |
| Dashboard.UtilisationBounds | parking_gateout_app/dashboard_routes.py:112-129 | occupied and available add up to the total; the rate lies between 0 and 100 and is 0 with no spaces; it is 100 exactly when every space is occupied and 0 exactly when none is |
| Dashboard.RatePercent | parking_gateout_app/dashboard_routes.py:129 | the guarded percentage lies between 0 and 100, and hits either bound exactly at the matching count |
| Dashboard.AvailableCountsUnknownStatus | parking_gateout_app/dashboard_routes.py:112-128 | the real-time "available" count is the spaces whose status is 'available' plus those whose status is NULL |
| Dashboard.DashboardAvailableAtMostRealtime | parking_gateout_app/dashboard_routes.py:56 | the dashboard's available count never exceeds the real-time one, and equals it exactly when no space has a NULL status |
| Dashboard.HourlyWindowExact | parking_gateout_app/dashboard_routes.py:95-105 | entries and exits count exactly the tickets with an entry or exit time at or after one hour ago, and there are no entries exactly when no ticket entered then |
| Dashboard.HourWindowMoves | parking_gateout_app/dashboard_routes.py:96-105 | a later clock never counts more entries or exits over the same tickets |
| Dashboard.HourlyRevenueNonNegative | parking_gateout_app/dashboard_routes.py:107-109 | with no negative amount, the last hour's revenue is not negative |
| Dashboard.HardwareWindow | parking_gateout_app/dashboard_routes.py:65-67 | a device is listed exactly when it pinged at most five minutes ago; a device that never pinged is not listed |
| Dashboard.VehicleStatusFilter | parking_gateout_app/dashboard_routes.py:180-184 | no status lists every vehicle; 'parked' lists exactly the parked vehicles; any other non-empty status lists exactly those recorded as not parked |
| Dashboard.HistoryBounded | parking_gateout_app/dashboard_routes.py:218-222 | the history holds min(10, the vehicle's ticket count) tickets, all of them the vehicle's |
| Dashboard.HistoryNewestFirst | parking_gateout_app/dashboard_routes.py:220 | the history is ordered by entry time, newest first, with tickets without an entry time last |
| Dashboard.HistoryMostRecent | parking_gateout_app/dashboard_routes.py:218-222 | an unlisted dated ticket of the vehicle entered no later than every listed ticket |
| Dashboard.UnknownVehicleIsServerError | parking_gateout_app/dashboard_routes.py:213-244 | an unknown vehicle id answers 500 as written and 404 once corrected; for a known id the two agree |

## Left out

- Rounding of fees to cents (`round(x, 2)`) and float precision: money is a real number.
- Durations are whole seconds. `total_seconds()` fractions below a second are dropped.
- Character classes are ASCII only: `isalpha`, `isdigit`, `isalnum` and `lower` on other Unicode letters are not modelled.
- Parsing of request values is not modelled: `strptime`, `fromisoformat`, `int()` of the month or year, and `request.get_json()`. The handlers receive parsed values, so the 500 that a malformed value causes is not modelled.
- A request body that is missing or not JSON is not modelled.
- Token decoding is a parameter. So the signature check is not modelled, and neither is the 500 that a decoded token without `user_id` causes.
- Rate limiting, pagination, logging and JSON formatting are out, including the `f'{hours:.2f} hours'` text and `isoformat` output.
- `generate_qr_code`, `format_currency`, `parse_datetime`, `format_timestamp` and `get_day_name` wrap libraries or only format output.
- `get_recent_activities` and the page routes only render or paginate.
- Commit and rollback, concurrent requests and the uniqueness of drawn ids are out. Each handler is one atomic step over the tables.
- `Parking.PaymentResult`: the new transaction id is the table size after the append, which stands for the database's autoincrement.
- `Services.GetParkingStatistics`: SQL `BETWEEN` is inclusive at both ends. The ticket query reads `ExitTime` and `Status` as the code does.
- `Services.SessionStore.CreateTransaction`: the uuid and the clock are parameters. `created_at` is the given time.
- The ordering of tickets with equal entry times in `Dashboard.History` is fixed as table order. SQL leaves it unspecified.
- `Services.GetActiveTicket`, `Services.RateFor`, `Services.TariffResolution` and `Services.TicketRevenue`: "first" is read as table order. `.first()` without `ORDER BY` and `next(...)` over an unordered `.all()` leave it unspecified in SQL.
- Utils.Truncate: for a max_length below 3 the contract states only that the result is longer than the limit, ends in "..." and keeps a subsequence of the text. It does not spell out the negative Python slice, although the function computes it.
- The dashboard's today revenue is modelled in `Dashboard.DashboardDataAt`, but no property is proved about it beyond its definition.

## Findings

| source | as written | input that shows it | evidently intended | confidence | as-written member | corrected member |
|---|---|---|---|---|---|---|
| parking_gateout_app/services.py:29 | `float(rate.AdditionalRate or 2.0)` replaces a configured additional rate of 0 by 2.0, because Decimal 0 is falsy | a rate row with base 3.0 and additional rate 0.0, and a two-hour stay: the fee is 5.0 instead of 3.0 | only a NULL additional rate defaults to 2.0 | high (not executed) | Services.ZeroAdditionalRateDiscarded | Services.TariffsAgreeWithoutZero |
| parking_gateout_app/routes.py:425 and :514 | the daily and custom report listings call `float(t.PaymentAmount)` without the `or 0` used for the totals | one transaction processed in the window with a NULL amount: the report is a 500 | list the amount as 0, as the total counts it | high (not executed) | Reports.MissingAmountFailsReport | Reports.DailyReportOutcome |
| parking_gateout_app/dashboard_routes.py:215 | `get_or_404` raises NotFound inside a `try` whose `except Exception` answers 500 | any vehicle id not in the table, e.g. id 1 on an empty table | a 404 for an unknown vehicle | high (not executed) | Dashboard.EmptyTableDetails | Dashboard.UnknownVehicleIsServerError |
