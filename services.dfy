/** ParkingService of parking_gateout_app/services.py: the fee engine, the
    active-ticket lookup, the append-only transaction and activity records, and
    the parking statistics. Tables are sequences in their insertion order, which
    is the order `.first()` and `.all()` see them in. */
module Services {
  import opened Common
  import opened Calendar
  import opened Seqs
  import Utils
  import opened Tally

  // ---------------------------------------------------------------------------
  // Rates

  /** A row of the ParkingRate table. */
  datatype ParkingRate = ParkingRate(
    vehicleType: string,
    durationType: string,
    baseDuration: Option<int>,
    baseRate: Option<real>,
    additionalRate: Option<real>,
    maxDailyRate: Option<real>,
    isActive: bool)

  const DefaultBaseRate: real := 5.0
  const DefaultAdditionalRate: real := 2.0

  /** The two numbers the fee rule uses: the first-hour rate and the rate per further hour. */
  datatype Tariff = Tariff(baseRate: real, hourlyRate: real)

  predicate RateMatches(rate: ParkingRate, vehicleType: string)
  {
    rate.vehicleType == vehicleType
  }

  /** ParkingRate.query.filter_by(VehicleType=vehicle_type).first() */
  function RateFor(rates: seq<ParkingRate>, vehicleType: string): (r: Option<ParkingRate>)
    ensures r.None? <==> forall i :: 0 <= i < |rates| ==> !RateMatches(rates[i], vehicleType)
    ensures r.Some? ==> exists i :: 0 <= i < |rates| && rates[i] == r.value
                          && RateMatches(rates[i], vehicleType)
                          && forall j :: 0 <= j < i ==> !RateMatches(rates[j], vehicleType)
  {
    var i := FirstIndex(rates, (rate: ParkingRate) => RateMatches(rate, vehicleType));
    if i.None? then None else Some(rates[i.value])
  }

  /** The tariff as the source computes it: `float(rate.AdditionalRate or 2.0)`
      replaces a missing additional rate AND a zero one by 2.0. None when the matching
      row's BaseRate is NULL: float(None) raises TypeError, which nothing catches. */
  function TariffAsWritten(rates: seq<ParkingRate>, vehicleType: string): Option<Tariff>
  {
    match RateFor(rates, vehicleType)
    case None => Some(Tariff(DefaultBaseRate, DefaultAdditionalRate))
    case Some(rate) =>
      if rate.baseRate.None? then None
      else
        var additional :=
          if rate.additionalRate.None? || rate.additionalRate.value == 0.0 then DefaultAdditionalRate
          else rate.additionalRate.value;
        Some(Tariff(rate.baseRate.value, additional))
  }

  /** The tariff with a missing additional rate defaulted to 2.0 and a configured
      zero kept; the rest of the model charges with this one. A NULL BaseRate still
      fails, as in the source. */
  function ResolveTariff(rates: seq<ParkingRate>, vehicleType: string): Option<Tariff>
  {
    match RateFor(rates, vehicleType)
    case None => Some(Tariff(DefaultBaseRate, DefaultAdditionalRate))
    case Some(rate) =>
      if rate.baseRate.None? then None
      else Some(Tariff(rate.baseRate.value,
                       if rate.additionalRate.None? then DefaultAdditionalRate else rate.additionalRate.value))
  }

  /** Without a rate row for the vehicle type, the base rate is 5.0 and the hourly rate 2.0;
      otherwise the first row for the type decides: a NULL base rate fails, and a NULL
      additional rate is read as 2.0. */
  lemma TariffResolution(rates: seq<ParkingRate>, vehicleType: string, i: nat)
    requires i <= |rates|
    requires forall j :: 0 <= j < i ==> rates[j].vehicleType != vehicleType
    ensures i == |rates| ==> ResolveTariff(rates, vehicleType) == Some(Tariff(5.0, 2.0))
    ensures i < |rates| && rates[i].vehicleType == vehicleType ==>
      ResolveTariff(rates, vehicleType)
        == if rates[i].baseRate.None? then None
           else Some(Tariff(rates[i].baseRate.value,
                            if rates[i].additionalRate.None? then 2.0 else rates[i].additionalRate.value))
  {
    var r := RateFor(rates, vehicleType);
    if i < |rates| && rates[i].vehicleType == vehicleType {
      var k :| 0 <= k < |rates| && rates[k] == r.value && RateMatches(rates[k], vehicleType)
               && forall j :: 0 <= j < k ==> !RateMatches(rates[j], vehicleType);
      assert !(k < i) && !(i < k);
    }
  }

  /** Two rate rows agree wherever resolution looks: vehicle type and the two rates. */
  predicate SamePricing(a: ParkingRate, b: ParkingRate)
  {
    a.vehicleType == b.vehicleType && a.baseRate == b.baseRate && a.additionalRate == b.additionalRate
  }

  /** Resolution ignores IsActive, DurationType, BaseDuration and MaxDailyRate: tables
      that differ only there resolve every vehicle type to the same tariff. */
  lemma TariffIgnoresOtherColumns(rates: seq<ParkingRate>, others: seq<ParkingRate>, vehicleType: string)
    requires |rates| == |others|
    requires forall i :: 0 <= i < |rates| ==> SamePricing(rates[i], others[i])
    ensures ResolveTariff(rates, vehicleType) == ResolveTariff(others, vehicleType)
    ensures TariffAsWritten(rates, vehicleType) == TariffAsWritten(others, vehicleType)
  {
    var p := (rate: ParkingRate) => RateMatches(rate, vehicleType);
    FirstIndexAgrees(rates, others, p);
  }

  // ---------------------------------------------------------------------------
  // Fees

  /** duration.total_seconds() / 3600 */
  function Hours(entryTime: int, exitTime: int): real
  {
    (exitTime - entryTime) as real / 3600.0
  }

  /** The fee rule of calculate_parking_fee, before rounding to cents. */
  function Fee(t: Tariff, entryTime: int, exitTime: int): real
  {
    var hours := Hours(entryTime, exitTime);
    if hours <= 1.0 then t.baseRate
    else t.baseRate + t.hourlyRate * (hours - 1.0)
  }

  /** calculate_parking_fee(entry_time, exit_time, vehicle_type) over the rate table;
      None is the TypeError of a NULL base rate. */
  function CalculateParkingFee(rates: seq<ParkingRate>, entryTime: int, exitTime: int, vehicleType: string): Option<real>
  {
    var t := ResolveTariff(rates, vehicleType);
    if t.None? then None else Some(Fee(t.value, entryTime, exitTime))
  }

  /** The same with the tariff exactly as the source resolves it. */
  function CalculateParkingFeeAsWritten(rates: seq<ParkingRate>, entryTime: int, exitTime: int, vehicleType: string): Option<real>
  {
    var t := TariffAsWritten(rates, vehicleType);
    if t.None? then None else Some(Fee(t.value, entryTime, exitTime))
  }

  /** The fee in one formula: the base rate, plus the hourly rate for every second
      beyond the first hour. Stays of at most an hour, exits before entries included,
      cost exactly the base rate. */
  lemma FeeClosedForm(t: Tariff, entryTime: int, exitTime: int)
    ensures var extra := if exitTime - entryTime > 3600 then exitTime - entryTime - 3600 else 0;
      Fee(t, entryTime, exitTime) == t.baseRate + t.hourlyRate * (extra as real / 3600.0)
    ensures exitTime - entryTime <= 3600 ==> Fee(t, entryTime, exitTime) == t.baseRate
  {
    var d := exitTime - entryTime;
    if d > 3600 {
      assert Hours(entryTime, exitTime) - 1.0 == (d - 3600) as real / 3600.0;
    } else {
      assert Hours(entryTime, exitTime) <= 1.0;
    }
  }

  /** With a non-negative hourly rate a longer stay never costs less, and nothing costs
      less than the base rate. */
  lemma FeeMonotone(t: Tariff, entryTime: int, exitTime: int, laterExit: int)
    requires t.hourlyRate >= 0.0 && exitTime <= laterExit
    ensures t.baseRate <= Fee(t, entryTime, exitTime) <= Fee(t, entryTime, laterExit)
  {
    FeeClosedForm(t, entryTime, exitTime);
    FeeClosedForm(t, entryTime, laterExit);
    var e1 := if exitTime - entryTime > 3600 then exitTime - entryTime - 3600 else 0;
    var e2 := if laterExit - entryTime > 3600 then laterExit - entryTime - 3600 else 0;
    assert 0.0 <= e1 as real / 3600.0 <= e2 as real / 3600.0;
    MulMonotone(t.hourlyRate, e1 as real / 3600.0, e2 as real / 3600.0);
  }

  lemma MulMonotone(k: real, a: real, b: real)
    requires k >= 0.0 && 0.0 <= a <= b
    ensures 0.0 <= k * a <= k * b
  {
  }

  /** The only difference the source's `or` makes: a configured additional rate of zero
      is charged at 2.0 per hour, where the intended reading keeps it at zero. */
  lemma ZeroAdditionalRateDiscarded(entryTime: int, exitTime: int)
    requires exitTime - entryTime == 2 * 3600
    ensures var rates := [ParkingRate("Car", "hourly", Some(60), Some(3.0), Some(0.0), None, true)];
      && CalculateParkingFeeAsWritten(rates, entryTime, exitTime, "Car") == Some(5.0)
      && CalculateParkingFee(rates, entryTime, exitTime, "Car") == Some(3.0)
  {
    var rates := [ParkingRate("Car", "hourly", Some(60), Some(3.0), Some(0.0), None, true)];
    assert RateFor(rates, "Car") == Some(rates[0]);
    assert Hours(entryTime, exitTime) == 2.0;
  }

  /** Both tariffs agree on every table whose matching row has no zero additional rate. */
  lemma TariffsAgreeWithoutZero(rates: seq<ParkingRate>, vehicleType: string)
    requires forall i :: 0 <= i < |rates| ==> rates[i].additionalRate != Some(0.0)
    ensures TariffAsWritten(rates, vehicleType) == ResolveTariff(rates, vehicleType)
  {
    var r := RateFor(rates, vehicleType);
    if r.Some? {
      var i :| 0 <= i < |rates| && rates[i] == r.value;
    }
  }

  // ---------------------------------------------------------------------------
  // Tickets

  datatype Vehicle = Vehicle(plateNumber: string, vehicleType: string)

  /** A row of ParkingTickets as ParkingService reads it. */
  datatype Ticket = Ticket(
    id: nat,
    ticketNumber: string,
    vehicleId: Option<int>,
    exitTime: Option<int>,
    status: string)

  predicate IsActive(t: Ticket)
  {
    t.status == "active"
  }

  /** The ticket's vehicle (the VehicleId relationship) has the given plate. */
  predicate HasPlate(vehicles: map<int, Vehicle>, t: Ticket, plate: string)
  {
    t.vehicleId.Some? && t.vehicleId.value in vehicles && vehicles[t.vehicleId.value].plateNumber == plate
  }

  /** get_active_ticket(ticket_id, plate_number): the first active ticket with the given
      number; without a number, the first active ticket of a vehicle with the given plate;
      without either, none. Empty strings count as absent, as Python's `if` reads them. */
  function GetActiveTicket(tickets: seq<Ticket>, vehicles: map<int, Vehicle>,
                           ticketId: Option<string>, plateNumber: Option<string>): (r: Option<Ticket>)
    ensures r.Some? ==> r.value in tickets && IsActive(r.value)
    ensures Truthy(ticketId) ==>
      && (r.Some? ==> r.value.ticketNumber == ticketId.value)
      && (r.None? <==> forall i :: 0 <= i < |tickets| ==>
            !(IsActive(tickets[i]) && tickets[i].ticketNumber == ticketId.value))
    ensures !Truthy(ticketId) && Truthy(plateNumber) ==>
      && (r.Some? ==> HasPlate(vehicles, r.value, plateNumber.value))
      && (r.None? <==> forall i :: 0 <= i < |tickets| ==>
            !(IsActive(tickets[i]) && HasPlate(vehicles, tickets[i], plateNumber.value)))
    ensures !Truthy(ticketId) && !Truthy(plateNumber) ==> r.None?
  {
    if Truthy(ticketId) then
      var i := FirstIndex(tickets, (t: Ticket) => IsActive(t) && t.ticketNumber == ticketId.value);
      if i.None? then None else Some(tickets[i.value])
    else if Truthy(plateNumber) then
      var i := FirstIndex(tickets, (t: Ticket) => IsActive(t) && HasPlate(vehicles, t, plateNumber.value));
      if i.None? then None else Some(tickets[i.value])
    else None
  }

  // ---------------------------------------------------------------------------
  // Transactions and the activity log

  /** A ParkingTransactions row as create_transaction builds it. The amount column may be
      NULL; create_transaction itself always supplies one. */
  datatype Transaction = Transaction(
    id: string,
    ticketId: string,
    transactionNumber: string,
    amount: Option<real>,
    paymentMethod: string,
    status: string,
    createdAt: int)

  datatype Activity = Activity(action: string, details: string, status: string, createdAt: int)

  /** The database session: the transaction table and the activity log, both only ever appended to. */
  class SessionStore {
    var transactions: seq<Transaction>
    var activities: seq<Activity>

    constructor ()
      ensures transactions == [] && activities == []
    {
      transactions := [];
      activities := [];
    }

    /** create_transaction(ticket, amount): one new completed cash transaction for the ticket.
        The uuid and the clock are parameters. */
    method CreateTransaction(ticket: Ticket, amount: real, uuid: string, now: DateTime) returns (t: Transaction)
      requires ValidDateTime(now)
      modifies this
      ensures transactions == old(transactions) + [t]
      ensures activities == old(activities)
      ensures t.amount == Some(amount) && t.paymentMethod == "cash" && t.status == "completed"
      ensures t.id == uuid && t.ticketId == Decimal(ticket.id) && t.createdAt == ToTimestamp(now)
      ensures t.transactionNumber == "TX-" + Utils.TimeStamp(now)
    {
      t := Transaction(uuid, Decimal(ticket.id), "TX-" + Utils.TimeStamp(now), Some(amount), "cash", "completed", ToTimestamp(now));
      transactions := transactions + [t];
    }

    /** log_activity(action, details, status='success'): one new log entry. */
    method LogActivity(action: string, details: string, now: int, status: string := "success") returns (a: Activity)
      modifies this
      ensures activities == old(activities) + [a]
      ensures transactions == old(transactions)
      ensures a.action == action && a.details == details && a.status == status && a.createdAt == now
    {
      a := Activity(action, details, status, now);
      activities := activities + [a];
    }
  }

  // ---------------------------------------------------------------------------
  // Statistics

  /** SQL BETWEEN: both ends included. */
  predicate Between(t: int, low: int, high: int)
  {
    low <= t <= high
  }

  predicate CompletedBetween(t: Transaction, low: int, high: int)
  {
    t.status == "completed" && Between(t.createdAt, low, high)
  }

  predicate ExitedBetween(t: Ticket, low: int, high: int)
  {
    t.exitTime.Some? && Between(t.exitTime.value, low, high) && t.status == "completed"
  }

  /** float(t.amount) where the amount is present; the statistics only reach it when every
      transaction in the window has one (see TotalAsWritten). */
  /** The completed transactions created in [low, high]. */
  function CompletedIn(transactions: seq<Transaction>, low: int, high: int): seq<Transaction>
  {
    Filter(transactions, (t: Transaction) => CompletedBetween(t, low, high))
  }

  /** The completed tickets that exited in [low, high]. */
  function ExitedIn(tickets: seq<Ticket>, low: int, high: int): seq<Ticket>
  {
    Filter(tickets, (t: Ticket) => ExitedBetween(t, low, high))
  }

  function Amount(t: Transaction): real
  {
    if t.amount.Some? then t.amount.value else 0.0
  }

  /** sum(float(t.amount) for t in transactions): float(None) raises TypeError on the first
      transaction without an amount, and nothing catches it (None stands for the 500). */
  function TotalAsWritten(txs: seq<Transaction>): (r: Option<real>)
    ensures r.None? <==> exists i :: 0 <= i < |txs| && txs[i].amount.None?
    ensures r.Some? ==> r.value == Sum(txs, Amount)
    decreases |txs|
  {
    if txs == [] then Some(0.0)
    else
      var init := txs[..|txs| - 1];
      var last := txs[|txs| - 1];
      var total := TotalAsWritten(init);
      assert forall i :: 0 <= i < |init| ==> init[i] == txs[i];
      if total.None? || last.amount.None? then None
      else Some(total.value + last.amount.value)
  }

  /** The ticket's vehicle type, "Unknown" when it has no vehicle. */
  function TypeOf(vehicles: map<int, Vehicle>, t: Ticket): string
  {
    if t.vehicleId.Some? && t.vehicleId.value in vehicles then vehicles[t.vehicleId.value].vehicleType
    else "Unknown"
  }

  /** The revenue a ticket contributes: the amount of the first transaction for it, if any. */
  function TicketRevenue(txs: seq<Transaction>, t: Ticket): real
  {
    var i := FirstIndex(txs, (x: Transaction) => x.ticketId == Decimal(t.id));
    if i.None? then 0.0 else Amount(txs[i.value])
  }

  function TypeKey(vehicles: map<int, Vehicle>): Ticket -> string
  {
    (t: Ticket) => TypeOf(vehicles, t)
  }

  function RevenueOf(txs: seq<Transaction>): Ticket -> real
  {
    (t: Ticket) => TicketRevenue(txs, t)
  }

  /** vehicle_stats after the loop over the given tickets: per vehicle type, in order of
      first appearance, the number of tickets (count) and their revenue (total). */
  function StatsOf(tickets: seq<Ticket>, vehicles: map<int, Vehicle>, txs: seq<Transaction>): seq<Bucket<string>>
  {
    Group(tickets, TypeKey(vehicles), RevenueOf(txs))
  }

  /** The loop over the exited tickets, building vehicle_stats. */
  method TallyByType(exited: seq<Ticket>, vehicles: map<int, Vehicle>, txs: seq<Transaction>) returns (stats: seq<Bucket<string>>)
    ensures stats == StatsOf(exited, vehicles, txs)
  {
    stats := [];
    var i := 0;
    assert exited[..0] == [];
    while i < |exited|
      invariant 0 <= i <= |exited|
      invariant stats == StatsOf(exited[..i], vehicles, txs)
    {
      var ticket := exited[i];
      var vehicleType := TypeOf(vehicles, ticket);
      var revenue := TicketRevenue(txs, ticket);
      GroupPrefix(exited, i, TypeKey(vehicles), RevenueOf(txs));
      stats := Bump(stats, vehicleType, revenue);
      i := i + 1;
      assert stats == StatsOf(exited[..i], vehicles, txs);
    }
    assert exited[..|exited|] == exited;
  }

  /** The result of get_parking_statistics. */
  datatype Statistics = Statistics(
    totalVehicles: nat,
    totalRevenue: real,
    vehicleStats: seq<Bucket<string>>,
    startDate: int,
    endDate: int)

  /** get_parking_statistics(start_date, end_date): a missing start is today's midnight, a
      missing end is now. Completed transactions created in [start, end] give the totals;
      completed tickets that exited in [start, end] are counted per vehicle type, each
      adding the amount of the first such transaction for it. A transaction in the window
      without an amount makes the sum raise TypeError (None). The per-ticket
      `float(vehicle_trans.amount)` reads one of those same transactions, so once the sum
      has gone through it cannot fail. */
  method GetParkingStatistics(transactions: seq<Transaction>, tickets: seq<Ticket>,
                              vehicles: map<int, Vehicle>, startDate: Option<int>,
                              endDate: Option<int>, now: int) returns (s: Option<Statistics>)
    ensures var start := if startDate.Some? then startDate.value else DayStart(now);
      var end := if endDate.Some? then endDate.value else now;
      var txs := CompletedIn(transactions, start, end);
      s.None? <==> exists i :: 0 <= i < |txs| && txs[i].amount.None?
    ensures s.Some? ==> s.value.startDate == (if startDate.Some? then startDate.value else DayStart(now))
    ensures s.Some? ==> s.value.endDate == (if endDate.Some? then endDate.value else now)
    ensures s.Some? ==>
      var txs := CompletedIn(transactions, s.value.startDate, s.value.endDate);
      var exited := ExitedIn(tickets, s.value.startDate, s.value.endDate);
      && s.value.totalVehicles == |txs|
      && s.value.totalRevenue == Sum(txs, Amount)
      && s.value.vehicleStats == StatsOf(exited, vehicles, txs)
      && Counts(s.value.vehicleStats) == |exited|
      && Totals(s.value.vehicleStats) == Sum(exited, RevenueOf(txs))
    ensures s.Some? ==> Distinct(s.value.vehicleStats)
  {
    var start := if startDate.Some? then startDate.value else DayStart(now);
    var end := if endDate.Some? then endDate.value else now;
    var txs := CompletedIn(transactions, start, end);
    var totalRevenue := TotalAsWritten(txs);
    if totalRevenue.None? {
      return None;
    }
    var totalVehicles := |txs|;
    var exited := ExitedIn(tickets, start, end);
    var stats := TallyByType(exited, vehicles, txs);
    GroupTotals(exited, TypeKey(vehicles), RevenueOf(txs));
    s := Some(Statistics(totalVehicles, totalRevenue.value, stats, start, end));
  }

  /** Each vehicle type's entry counts exactly the exited tickets of that type, its revenue
      is the sum of their first payments, and a type has an entry exactly when one of them
      has it. */
  lemma StatsPerType(tickets: seq<Ticket>, vehicles: map<int, Vehicle>, txs: seq<Transaction>, vehicleType: string)
    ensures var n := Count(tickets, (t: Ticket) => TypeOf(vehicles, t) == vehicleType);
      && (Find(StatsOf(tickets, vehicles, txs), vehicleType).Some? <==> n > 0)
      && CountOf(StatsOf(tickets, vehicles, txs), vehicleType) == n
    ensures TotalOf(StatsOf(tickets, vehicles, txs), vehicleType)
         == Sum(Filter(tickets, (t: Ticket) => TypeOf(vehicles, t) == vehicleType), RevenueOf(txs))
  {
    GroupCountPerKey(tickets, TypeKey(vehicles), RevenueOf(txs), vehicleType);
    CountSameFilter(tickets, HasKey(TypeKey(vehicles), vehicleType), (t: Ticket) => TypeOf(vehicles, t) == vehicleType);
    GroupTotalPerKey(tickets, TypeKey(vehicles), RevenueOf(txs), vehicleType);
    FilterSame(tickets, HasKey(TypeKey(vehicles), vehicleType), (t: Ticket) => TypeOf(vehicles, t) == vehicleType);
  }

  /** A ticket's revenue is the amount of one transaction for it, the first, or 0 without one. */
  lemma TicketRevenueIsFirstPayment(txs: seq<Transaction>, t: Ticket)
    ensures (forall i :: 0 <= i < |txs| ==> txs[i].ticketId != Decimal(t.id)) ==> TicketRevenue(txs, t) == 0.0
    ensures forall i :: (0 <= i < |txs| && txs[i].ticketId == Decimal(t.id) && txs[i].amount.Some?
                         && forall j :: 0 <= j < i ==> txs[j].ticketId != Decimal(t.id))
                        ==> TicketRevenue(txs, t) == txs[i].amount.value
  {
    var p := (x: Transaction) => x.ticketId == Decimal(t.id);
    var r := FirstIndex(txs, p);
    forall i | 0 <= i < |txs| && txs[i].ticketId == Decimal(t.id) && (forall j :: 0 <= j < i ==> txs[j].ticketId != Decimal(t.id))
               && txs[i].amount.Some?
      ensures TicketRevenue(txs, t) == txs[i].amount.value
    {
      assert r.Some?;
      assert !(r.value < i) && !(i < r.value);
    }
  }
}
