/** The JSON endpoints of parking_gateout_app/dashboard_routes.py: the dashboard summary
    with its five-minute hardware window, the real-time statistics (the last hour's entries,
    exits and revenue, and space utilisation), the vehicle list's status filter and a
    vehicle's recent parking history. Each handler is a query over the tables, so each is a
    function of the tables and of the clock, which is a parameter. Timestamps are seconds,
    as elsewhere in the model. A comparison with a NULL column never selects the row. */
module Dashboard {
  import opened Common
  import opened Seqs
  import opened Tally

  const SecondsPerDay := 86400
  /** timedelta(hours=1) */
  const HourSeconds := 3600
  /** timedelta(minutes=5) */
  const PingWindowSeconds := 300
  /** .limit(10) on the parking history */
  const HistoryLimit := 10

  datatype Ticket = Ticket(ticketNumber: Option<string>, vehicleId: Option<int>, entryTime: Option<int>,
                           exitTime: Option<int>, status: Option<string>)
  datatype Transaction = Transaction(amount: Option<real>, processedAt: Option<int>)
  datatype Space = Space(status: Option<string>)
  datatype Device = Device(deviceId: Option<string>, deviceType: Option<string>, status: Option<string>,
                           location: Option<string>, lastPing: Option<int>)
  datatype Vehicle = Vehicle(id: int, plateNumber: Option<string>, vehicleType: Option<string>,
                             isParked: Option<bool>, entryTime: Option<int>)

  /** `column >= since` in SQL: false for NULL. */
  predicate AtOrAfter(t: Option<int>, since: int)
  {
    t.Some? && t.value >= since
  }

  /** SQL SUM skips NULL amounts, and `or 0` turns the NULL of an empty sum into 0. */
  function AmountOf(t: Transaction): real
  {
    if t.amount.Some? then t.amount.value else 0.0
  }

  function EnteredSince(since: int): Ticket -> bool
  {
    (t: Ticket) => AtOrAfter(t.entryTime, since)
  }

  function ExitedSince(since: int): Ticket -> bool
  {
    (t: Ticket) => AtOrAfter(t.exitTime, since)
  }

  function ProcessedSince(since: int): Transaction -> bool
  {
    (t: Transaction) => AtOrAfter(t.processedAt, since)
  }

  // ---------------------------------------------------------------------------
  // get_realtime_stats

  /** `ParkingSpaces.Status != 'available'`: a space whose status is NULL is not counted. */
  predicate Occupied(s: Space)
  {
    s.status.Some? && s.status.value != "available"
  }

  predicate NotOccupied(s: Space)
  {
    !Occupied(s)
  }

  datatype HourlyStats = HourlyStats(entries: nat, exits: nat, revenue: real)
  datatype Utilisation = Utilisation(total: nat, occupied: nat, available: int, rate: real)
  datatype RealtimeStats = RealtimeStats(hourly: HourlyStats, spaces: Utilisation)

  function SpaceUtilisation(spaces: seq<Space>): Utilisation
  {
    var total := |spaces|;
    var occupied := Count(spaces, Occupied);
    Utilisation(total, occupied, total - occupied,
                if total > 0 then occupied as real / total as real * 100.0 else 0.0)
  }

  function HourlyStatsAt(tickets: seq<Ticket>, txs: seq<Transaction>, now: int): HourlyStats
  {
    var hourAgo := now - HourSeconds;
    HourlyStats(Count(tickets, EnteredSince(hourAgo)), Count(tickets, ExitedSince(hourAgo)),
                Sum(Filter(txs, ProcessedSince(hourAgo)), AmountOf))
  }

  function RealtimeStatsAt(tickets: seq<Ticket>, txs: seq<Transaction>, spaces: seq<Space>, now: int): RealtimeStats
  {
    RealtimeStats(HourlyStatsAt(tickets, txs, now), SpaceUtilisation(spaces))
  }

  /** Occupied and available spaces make up the total, the rate is a percentage, there is
      no division by zero, and the rate is 0 or 100 exactly when no space or every space
      is occupied. */
  lemma UtilisationBounds(spaces: seq<Space>)
    ensures var u := SpaceUtilisation(spaces);
      && u.occupied <= u.total
      && u.available == Count(spaces, NotOccupied) >= 0
      && 0.0 <= u.rate <= 100.0
      && (u.total == 0 ==> u.rate == 0.0)
      && (u.rate == 100.0 <==> u.total > 0 && forall i :: 0 <= i < |spaces| ==> Occupied(spaces[i]))
      && (u.rate == 0.0 <==> forall i :: 0 <= i < |spaces| ==> !Occupied(spaces[i]))
  {
    CountComplement(spaces, Occupied, NotOccupied);
    AllOrNoneOccupied(spaces);
    RatePercent(Count(spaces, Occupied), |spaces|);
  }

  /** occupied / total * 100 with the zero guard. */
  lemma RatePercent(occupied: nat, total: nat)
    requires occupied <= total
    ensures var rate := if total > 0 then occupied as real / total as real * 100.0 else 0.0;
      && 0.0 <= rate <= 100.0
      && (rate == 100.0 <==> total > 0 && occupied == total)
      && (rate == 0.0 <==> occupied == 0)
  {
    if total > 0 {
      var o := occupied as real;
      var t := total as real;
      assert (o / t) * t == o;
      if occupied < total {
        assert o / t < 1.0;
      } else {
        assert o / t == 1.0;
      }
    }
  }

  lemma {:induction false} AllOrNoneOccupied(spaces: seq<Space>)
    ensures Count(spaces, Occupied) == |spaces| <==> forall i :: 0 <= i < |spaces| ==> Occupied(spaces[i])
    ensures Count(spaces, Occupied) == 0 <==> forall i :: 0 <= i < |spaces| ==> !Occupied(spaces[i])
    decreases |spaces|
  {
    if spaces != [] {
      var init := spaces[..|spaces| - 1];
      AllOrNoneOccupied(init);
      assert forall i :: 0 <= i < |init| ==> init[i] == spaces[i];
    }
  }

  /** The real-time "available" is every space not counted as occupied, so it also counts
      the spaces whose status is NULL, which the dashboard's `Status == 'available'` count
      leaves out. */
  lemma AvailableCountsUnknownStatus(spaces: seq<Space>)
    ensures SpaceUtilisation(spaces).available
         == Count(spaces, IsAvailable) + Count(spaces, (s: Space) => s.status.None?)
  {
    UtilisationBounds(spaces);
    CountSplit(spaces);
  }

  lemma {:induction false} CountSplit(spaces: seq<Space>)
    ensures Count(spaces, NotOccupied) == Count(spaces, IsAvailable) + Count(spaces, (s: Space) => s.status.None?)
    decreases |spaces|
  {
    if spaces != [] {
      CountSplit(spaces[..|spaces| - 1]);
    }
  }

  /** The hour window moves with the clock: a later `now` counts no more entries or exits
      than an earlier one over the same tickets. */
  lemma HourWindowMoves(tickets: seq<Ticket>, txs: seq<Transaction>, now1: int, now2: int)
    requires now1 <= now2
    ensures HourlyStatsAt(tickets, txs, now2).entries <= HourlyStatsAt(tickets, txs, now1).entries
    ensures HourlyStatsAt(tickets, txs, now2).exits <= HourlyStatsAt(tickets, txs, now1).exits
  {
    CountMonotone(tickets, EnteredSince(now2 - HourSeconds), EnteredSince(now1 - HourSeconds));
    CountMonotone(tickets, ExitedSince(now2 - HourSeconds), ExitedSince(now1 - HourSeconds));
  }

  /** The hourly figures count exactly the tickets that entered (exited) at or after one
      hour before `now`; a ticket without a time never counts, and there are no entries
      exactly when no ticket entered in the window. */
  lemma HourlyWindowExact(tickets: seq<Ticket>, txs: seq<Transaction>, now: int)
    ensures var h := HourlyStatsAt(tickets, txs, now);
      && h.entries == |Filter(tickets, EnteredSince(now - HourSeconds))|
      && h.exits == |Filter(tickets, ExitedSince(now - HourSeconds))|
      && (h.entries == 0 <==> forall i :: 0 <= i < |tickets| ==>
            tickets[i].entryTime.None? || tickets[i].entryTime.value < now - HourSeconds)
  {
    CountIsFilterLength(tickets, EnteredSince(now - HourSeconds));
    CountIsFilterLength(tickets, ExitedSince(now - HourSeconds));
    NoEntries(tickets, now - HourSeconds);
  }

  lemma {:induction false} NoEntries(tickets: seq<Ticket>, since: int)
    ensures Count(tickets, EnteredSince(since)) == 0 <==>
      forall i :: 0 <= i < |tickets| ==> tickets[i].entryTime.None? || tickets[i].entryTime.value < since
    decreases |tickets|
  {
    if tickets != [] {
      var init := tickets[..|tickets| - 1];
      NoEntries(init, since);
      assert forall i :: 0 <= i < |init| ==> init[i] == tickets[i];
    }
  }

  /** With no negative amount, the hour's revenue is not negative. */
  lemma HourlyRevenueNonNegative(tickets: seq<Ticket>, txs: seq<Transaction>, now: int)
    requires forall i :: 0 <= i < |txs| ==> AmountOf(txs[i]) >= 0.0
    ensures HourlyStatsAt(tickets, txs, now).revenue >= 0.0
  {
    var w := Filter(txs, ProcessedSince(now - HourSeconds));
    forall i | 0 <= i < |w| ensures AmountOf(w[i]) >= 0.0 {
      var j :| 0 <= j < |txs| && txs[j] == w[i];
    }
    SumNonNegative(w);
  }

  lemma {:induction false} SumNonNegative(txs: seq<Transaction>)
    requires forall i :: 0 <= i < |txs| ==> AmountOf(txs[i]) >= 0.0
    ensures Sum(txs, AmountOf) >= 0.0
    decreases |txs|
  {
    if txs != [] {
      SumNonNegative(txs[..|txs| - 1]);
    }
  }

  // ---------------------------------------------------------------------------
  // get_dashboard_data

  predicate IsAvailable(s: Space)
  {
    s.status == Some("available")
  }

  function PingedSince(since: int): Device -> bool
  {
    (d: Device) => AtOrAfter(d.lastPing, since)
  }

  /** `func.date(ProcessedAt) == today` */
  function ProcessedOn(day: int): Transaction -> bool
  {
    (t: Transaction) => t.processedAt.Some? && t.processedAt.value / SecondsPerDay == day
  }

  datatype DashboardData = DashboardData(activeSessions: nat, totalVehicles: nat, availableSpaces: nat,
                                         todayRevenue: real, hardware: seq<Device>)

  function DashboardDataAt(tickets: seq<Ticket>, vehicles: seq<Vehicle>, spaces: seq<Space>,
                           txs: seq<Transaction>, devices: seq<Device>, now: int): DashboardData
  {
    DashboardData(Count(tickets, (t: Ticket) => t.status == Some("active")),
                  |vehicles|,
                  Count(spaces, IsAvailable),
                  Sum(Filter(txs, ProcessedOn(now / SecondsPerDay)), AmountOf),
                  Filter(devices, PingedSince(now - PingWindowSeconds)))
  }

  /** The hardware list holds exactly the devices that pinged in the last five minutes; a
      device that never pinged is not listed. */
  lemma HardwareWindow(tickets: seq<Ticket>, vehicles: seq<Vehicle>, spaces: seq<Space>,
                       txs: seq<Transaction>, devices: seq<Device>, now: int, d: Device)
    ensures d in DashboardDataAt(tickets, vehicles, spaces, txs, devices, now).hardware
        <==> d in devices && d.lastPing.Some? && now - PingWindowSeconds <= d.lastPing.value
  {
    var hw := DashboardDataAt(tickets, vehicles, spaces, txs, devices, now).hardware;
    if d in hw {
      var i :| 0 <= i < |hw| && hw[i] == d;
    }
    if d in devices {
      var i :| 0 <= i < |devices| && devices[i] == d;
    }
  }

  /** The dashboard's available spaces never exceed the real-time "available", and the two
      agree exactly when no space has a NULL status. */
  lemma DashboardAvailableAtMostRealtime(tickets: seq<Ticket>, vehicles: seq<Vehicle>, spaces: seq<Space>,
                                         txs: seq<Transaction>, devices: seq<Device>, now: int)
    ensures var a := DashboardDataAt(tickets, vehicles, spaces, txs, devices, now).availableSpaces;
      && a <= SpaceUtilisation(spaces).available
      && (a == SpaceUtilisation(spaces).available <==> forall i :: 0 <= i < |spaces| ==> spaces[i].status.Some?)
  {
    AvailableCountsUnknownStatus(spaces);
    NoUnknownStatus(spaces);
  }

  lemma {:induction false} NoUnknownStatus(spaces: seq<Space>)
    ensures Count(spaces, (s: Space) => s.status.None?) == 0 <==> forall i :: 0 <= i < |spaces| ==> spaces[i].status.Some?
    decreases |spaces|
  {
    if spaces != [] {
      var init := spaces[..|spaces| - 1];
      NoUnknownStatus(init);
      assert forall i :: 0 <= i < |init| ==> init[i] == spaces[i];
    }
  }

  // ---------------------------------------------------------------------------
  // get_vehicles

  function ParkedIs(b: bool): Vehicle -> bool
  {
    (v: Vehicle) => v.isParked == Some(b)
  }

  /** A non-empty status filters on IsParked == (status == 'parked'); no status, or an
      empty one, lists every vehicle. Pagination is outside the model. */
  function ListVehicles(vehicles: seq<Vehicle>, status: Option<string>): seq<Vehicle>
  {
    if Truthy(status) then Filter(vehicles, ParkedIs(status.value == "parked")) else vehicles
  }

  /** 'parked' lists the parked vehicles, every other non-empty status the vehicles
      recorded as not parked, and a vehicle whose IsParked is NULL only when there is no
      filter. */
  lemma VehicleStatusFilter(vehicles: seq<Vehicle>, status: Option<string>, v: Vehicle)
    ensures !Truthy(status) ==> ListVehicles(vehicles, status) == vehicles
    ensures Truthy(status) && status.value == "parked" ==>
      (v in ListVehicles(vehicles, status) <==> v in vehicles && v.isParked == Some(true))
    ensures Truthy(status) && status.value != "parked" ==>
      (v in ListVehicles(vehicles, status) <==> v in vehicles && v.isParked == Some(false))
  {
    if Truthy(status) {
      var r := ListVehicles(vehicles, status);
      if v in r {
        var i :| 0 <= i < |r| && r[i] == v;
      }
      if v in vehicles {
        var i :| 0 <= i < |vehicles| && vehicles[i] == v;
      }
    }
  }

  // ---------------------------------------------------------------------------
  // get_vehicle_details

  function OfVehicle(id: int): Ticket -> bool
  {
    (t: Ticket) => t.vehicleId == Some(id)
  }

  function HasEntry(): Ticket -> bool
  {
    (t: Ticket) => t.entryTime.Some?
  }

  function NoEntry(): Ticket -> bool
  {
    (t: Ticket) => t.entryTime.None?
  }

  /** Sort key for ORDER BY EntryTime DESC. */
  function NewestFirst(t: Ticket): int
  {
    if t.entryTime.Some? then -t.entryTime.value else 0
  }

  /** ORDER BY EntryTime DESC in SQLite: NULLs sort as the smallest value, so they come
      last; tickets with equal entry times keep table order. */
  function ByEntryDesc(ts: seq<Ticket>): seq<Ticket>
  {
    SortBy(Filter(ts, HasEntry()), NewestFirst) + Filter(ts, NoEntry())
  }

  function Take<T>(s: seq<T>, n: nat): (r: seq<T>)
    ensures |r| == if |s| <= n then |s| else n
    ensures forall i :: 0 <= i < |r| ==> r[i] == s[i]
  {
    if |s| <= n then s else s[..n]
  }

  /** The ten most recent tickets of the vehicle. */
  function History(tickets: seq<Ticket>, id: int): seq<Ticket>
  {
    Take(ByEntryDesc(Filter(tickets, OfVehicle(id))), HistoryLimit)
  }

  /** A 200 with the vehicle and its history, a 404, or a 500. */
  datatype DetailsResponse = Details(vehicle: Vehicle, history: seq<Ticket>) | DetailsNotFound | DetailsFailed

  function DetailsStatus(r: DetailsResponse): int
  {
    match r
    case Details(_, _) => 200
    case DetailsNotFound => 404
    case DetailsFailed => 500
  }

  function FindVehicle(vehicles: seq<Vehicle>, id: int): (r: Option<Vehicle>)
    ensures r.Some? ==> r.value in vehicles && r.value.id == id
    ensures r.None? ==> forall i :: 0 <= i < |vehicles| ==> vehicles[i].id != id
  {
    var i := FirstIndex(vehicles, (v: Vehicle) => v.id == id);
    if i.Some? then Some(vehicles[i.value]) else None
  }

  /** The history part of the response; `ticket.EntryTime.isoformat()` fails on a listed
      ticket without an entry time. */
  function DetailsOf(v: Vehicle, tickets: seq<Ticket>): DetailsResponse
  {
    var h := History(tickets, v.id);
    if exists i :: 0 <= i < |h| && h[i].entryTime.None? then DetailsFailed else Details(v, h)
  }

  /** As written: get_or_404 raises NotFound inside the handler's `try`, and the
      `except Exception` around it answers 500 instead. */
  function VehicleDetailsAsWritten(vehicles: seq<Vehicle>, tickets: seq<Ticket>, id: int): DetailsResponse
  {
    var v := FindVehicle(vehicles, id);
    if v.None? then DetailsFailed else DetailsOf(v.value, tickets)
  }

  /** With the 404 reaching the client, as get_or_404 intends. */
  function VehicleDetails(vehicles: seq<Vehicle>, tickets: seq<Ticket>, id: int): DetailsResponse
  {
    var v := FindVehicle(vehicles, id);
    if v.None? then DetailsNotFound else DetailsOf(v.value, tickets)
  }

  /** An unknown vehicle id answers 500 as written and 404 once corrected; for a known one
      the two agree. */
  lemma UnknownVehicleIsServerError(vehicles: seq<Vehicle>, tickets: seq<Ticket>, id: int)
    ensures (forall i :: 0 <= i < |vehicles| ==> vehicles[i].id != id) <==>
      DetailsStatus(VehicleDetailsAsWritten(vehicles, tickets, id)) == 500 &&
      DetailsStatus(VehicleDetails(vehicles, tickets, id)) == 404
    ensures (exists i :: 0 <= i < |vehicles| && vehicles[i].id == id) ==>
      VehicleDetailsAsWritten(vehicles, tickets, id) == VehicleDetails(vehicles, tickets, id)
  {
  }

  /** Concretely: no vehicles at all, and the details of vehicle 1 are a 500. */
  lemma EmptyTableDetails()
    ensures VehicleDetailsAsWritten([], [], 1) == DetailsFailed
    ensures VehicleDetails([], [], 1) == DetailsNotFound
  {
  }

  lemma ByEntryDescLength(ts: seq<Ticket>)
    ensures |ByEntryDesc(ts)| == |ts|
  {
    CountIsFilterLength(ts, HasEntry());
    CountIsFilterLength(ts, NoEntry());
    CountComplement(ts, HasEntry(), NoEntry());
  }

  /** The history holds at most ten tickets, all of them the vehicle's, and exactly ten
      when the vehicle has at least that many. */
  lemma HistoryBounded(tickets: seq<Ticket>, id: int)
    ensures var h := History(tickets, id);
      var n := Count(tickets, OfVehicle(id));
      && |h| == (if n <= HistoryLimit then n else HistoryLimit)
      && forall i :: 0 <= i < |h| ==> h[i].vehicleId == Some(id) && h[i] in tickets
  {
    var mine := Filter(tickets, OfVehicle(id));
    CountIsFilterLength(tickets, OfVehicle(id));
    ByEntryDescLength(mine);
    var h := History(tickets, id);
    forall i | 0 <= i < |h| ensures h[i].vehicleId == Some(id) && h[i] in tickets {
      InByEntryDesc(mine, h[i]);
    }
  }

  /** Every ticket of the ordering is one of the input's. */
  lemma InByEntryDesc(ts: seq<Ticket>, t: Ticket)
    requires t in ByEntryDesc(ts)
    ensures t in ts
  {
    var s := SortBy(Filter(ts, HasEntry()), NewestFirst);
    if t in s {
      assert t in multiset(s);
    }
  }

  /** The ordering puts the dated tickets, sorted, before the undated ones. */
  lemma DatedFirst(ts: seq<Ticket>)
    ensures var s := SortBy(Filter(ts, HasEntry()), NewestFirst);
      && SortedBy(s, NewestFirst)
      && (forall k :: 0 <= k < |s| ==> s[k].entryTime.Some?)
      && (forall k :: |s| <= k < |ByEntryDesc(ts)| ==> ByEntryDesc(ts)[k].entryTime.None?)
  {
    var dated := Filter(ts, HasEntry());
    var s := SortBy(dated, NewestFirst);
    SortBySorted(dated, NewestFirst);
    forall k | 0 <= k < |s| ensures s[k].entryTime.Some? {
      assert s[k] in multiset(dated);
    }
  }

  /** The history is newest first: a ticket with an entry time is preceded only by tickets
      that entered no earlier. */
  lemma HistoryNewestFirst(tickets: seq<Ticket>, id: int)
    ensures var h := History(tickets, id);
      forall i, j :: 0 <= i < j < |h| && h[j].entryTime.Some? ==>
        h[i].entryTime.Some? && h[i].entryTime.value >= h[j].entryTime.value
  {
    var mine := Filter(tickets, OfVehicle(id));
    var s := SortBy(Filter(mine, HasEntry()), NewestFirst);
    var order := ByEntryDesc(mine);
    var h := History(tickets, id);
    DatedFirst(mine);
    forall i, j | 0 <= i < j < |h| && h[j].entryTime.Some?
      ensures h[i].entryTime.Some? && h[i].entryTime.value >= h[j].entryTime.value
    {
      assert h[j] == order[j] && h[i] == order[i];
      assert j < |s|;
      assert NewestFirst(s[i]) <= NewestFirst(s[j]);
    }
  }

  /** The history is the most recent: a ticket of the vehicle that has an entry time and
      is not listed entered no later than every listed ticket, all of which have entry
      times then. */
  lemma HistoryMostRecent(tickets: seq<Ticket>, id: int, u: Ticket)
    requires u in tickets && u.vehicleId == Some(id) && u.entryTime.Some?
    ensures var h := History(tickets, id);
      u !in h ==> forall i :: 0 <= i < |h| ==>
        h[i].entryTime.Some? && h[i].entryTime.value >= u.entryTime.value
  {
    var mine := Filter(tickets, OfVehicle(id));
    var dated := Filter(mine, HasEntry());
    var s := SortBy(dated, NewestFirst);
    var order := ByEntryDesc(mine);
    var h := History(tickets, id);
    if u !in h {
      var k := SortedPosition(tickets, id, u);
      assert k >= HistoryLimit by {
        if k < HistoryLimit {
          ByEntryDescLength(mine);
          assert false;
        }
      }
      DatedFirst(mine);
      forall i | 0 <= i < |h|
        ensures h[i].entryTime.Some? && h[i].entryTime.value >= u.entryTime.value
      {
        assert h[i] == order[i] == s[i];
        assert NewestFirst(s[i]) <= NewestFirst(s[k]);
      }
    }
  }

  /** Where a dated ticket of the vehicle sits in the sorted part of the ordering. */
  lemma SortedPosition(tickets: seq<Ticket>, id: int, u: Ticket) returns (k: nat)
    requires u in tickets && u.vehicleId == Some(id) && u.entryTime.Some?
    ensures var s := SortBy(Filter(Filter(tickets, OfVehicle(id)), HasEntry()), NewestFirst);
      k < |s| && s[k] == u && ByEntryDesc(Filter(tickets, OfVehicle(id)))[k] == u
  {
    var mine := Filter(tickets, OfVehicle(id));
    var dated := Filter(mine, HasEntry());
    var s := SortBy(dated, NewestFirst);
    var a :| 0 <= a < |tickets| && tickets[a] == u;
    var b :| 0 <= b < |mine| && mine[b] == u;
    assert u in dated;
    assert u in multiset(s);
    k :| 0 <= k < |s| && s[k] == u;
  }
}
