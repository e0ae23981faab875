/** The exit and payment handlers of parking_gateout_app/routes.py (process_exit,
    process_payment) over the tables they read and update in place. The records carry
    the columns as the handlers use them. The clock, the configured default hourly rate
    and the logged-in user are parameters. */
module Parking {
  import opened Common
  import opened Seqs

  /** A ParkingTickets row. */
  datatype Ticket = Ticket(id: int, ticketNumber: Option<string>, vehicleId: Option<int>, isPaid: Option<bool>)

  /** A Vehicles row. */
  datatype Vehicle = Vehicle(
    plateNumber: Option<string>,
    isParked: Option<bool>,
    entryTime: Option<int>,
    exitTime: Option<int>,
    parkingSpaceId: Option<int>)

  /** A ParkingSpaces row. */
  datatype Space = Space(hourlyRate: Option<real>)

  /** A ParkingTransactions row. */
  datatype Payment = Payment(
    ticketId: Option<int>,
    paymentMethod: Option<string>,
    paymentStatus: string,
    processedBy: Option<string>,
    paymentAmount: Option<real>,
    processedAt: Option<int>)

  /** The tables the handlers touch; vehicles and spaces are looked up by primary key. */
  datatype Tables = Tables(
    tickets: seq<Ticket>,
    vehicles: map<int, Vehicle>,
    spaces: map<int, Space>,
    payments: seq<Payment>)

  /** ParkingTickets.query.filter_by(TicketNumber=ticket_number).first(); a missing
      number matches a ticket whose number is NULL, as filter_by(col=None) does. */
  function FindTicket(tickets: seq<Ticket>, ticketNumber: Option<string>): (r: Option<nat>)
    ensures r.Some? ==> r.value < |tickets| && tickets[r.value].ticketNumber == ticketNumber
    ensures r.None? <==> forall i :: 0 <= i < |tickets| ==> tickets[i].ticketNumber != ticketNumber
  {
    FirstIndex(tickets, (t: Ticket) => t.ticketNumber == ticketNumber)
  }

  // ---------------------------------------------------------------------------
  // process_exit

  datatype ExitResponse =
    | ExitProcessed(ticketNumber: Option<string>, hours: real, fee: real)
    | ExitNotFound(message: string)
    | ExitFailed

  function ExitStatus(r: ExitResponse): int
  {
    match r
    case ExitProcessed(_, _, _) => 200
    case ExitNotFound(_) => 404
    case ExitFailed => 500
  }

  /** The hourly rate for a vehicle: its space's rate when it has a space (a NULL rate
      fails in float()), otherwise the configured default (a missing key fails). */
  function HourlyRate(spaces: map<int, Space>, v: Vehicle, defaultRate: Option<real>): Option<real>
  {
    if v.parkingSpaceId.Some? && v.parkingSpaceId.value in spaces then spaces[v.parkingSpaceId.value].hourlyRate
    else defaultRate
  }

  /** The vehicle the exit applies to: the ticket's vehicle, when it exists and is parked. */
  function ParkedVehicleId(s: Tables, ticketNumber: Option<string>): Option<int>
  {
    var k := FindTicket(s.tickets, ticketNumber);
    if k.None? then None
    else
      var vid := s.tickets[k.value].vehicleId;
      if vid.Some? && vid.value in s.vehicles && s.vehicles[vid.value].isParked == Some(true) then vid
      else None
  }

  /** The response of process_exit at time now. */
  function ExitResult(s: Tables, ticketNumber: Option<string>, now: int, defaultRate: Option<real>): ExitResponse
  {
    if FindTicket(s.tickets, ticketNumber).None? then ExitNotFound("Invalid ticket number")
    else if ParkedVehicleId(s, ticketNumber).None? then ExitNotFound("Vehicle not found or already exited")
    else
      var v := s.vehicles[ParkedVehicleId(s, ticketNumber).value];
      var rate := HourlyRate(s.spaces, v, defaultRate);
      if v.entryTime.None? || rate.None? then ExitFailed
      else
        var hours := (now - v.entryTime.value) as real / 3600.0;
        ExitProcessed(ticketNumber, hours, hours * rate.value)
  }

  /** The tables after process_exit: only a successful exit changes anything, and then only
      the vehicle, whose exit time becomes now and which is no longer parked. */
  function ExitTables(s: Tables, ticketNumber: Option<string>, now: int, defaultRate: Option<real>): Tables
  {
    if ExitResult(s, ticketNumber, now, defaultRate).ExitProcessed? then
      var vid := ParkedVehicleId(s, ticketNumber).value;
      s.(vehicles := s.vehicles[vid := s.vehicles[vid].(exitTime := Some(now), isParked := Some(false))])
    else s
  }

  /** An unknown ticket number is a 404 that changes nothing. */
  lemma ExitUnknownTicket(s: Tables, ticketNumber: Option<string>, now: int, defaultRate: Option<real>)
    requires forall i :: 0 <= i < |s.tickets| ==> s.tickets[i].ticketNumber != ticketNumber
    ensures ExitResult(s, ticketNumber, now, defaultRate) == ExitNotFound("Invalid ticket number")
    ensures ExitStatus(ExitResult(s, ticketNumber, now, defaultRate)) == 404
    ensures ExitTables(s, ticketNumber, now, defaultRate) == s
  {
  }

  /** An exit succeeds exactly when the ticket, its vehicle and a rate exist, the vehicle
      is parked and has an entry time; the vehicle then gets the exit time and is no longer
      parked, its other columns stay, and nothing else in any table changes. */
  lemma ExitSucceeds(s: Tables, ticketNumber: Option<string>, now: int, defaultRate: Option<real>)
    ensures var r := ExitResult(s, ticketNumber, now, defaultRate);
      r.ExitProcessed? <==>
        exists k :: 0 <= k < |s.tickets| && FindTicket(s.tickets, ticketNumber) == Some(k)
          && s.tickets[k].vehicleId.Some? && s.tickets[k].vehicleId.value in s.vehicles
          && var v := s.vehicles[s.tickets[k].vehicleId.value];
             v.isParked == Some(true) && v.entryTime.Some? && HourlyRate(s.spaces, v, defaultRate).Some?
    ensures var r := ExitResult(s, ticketNumber, now, defaultRate);
      var t := ExitTables(s, ticketNumber, now, defaultRate);
      r.ExitProcessed? ==>
        && ParkedVehicleId(s, ticketNumber).Some?
        && var vid := ParkedVehicleId(s, ticketNumber).value;
        && t.vehicles.Keys == s.vehicles.Keys
        && t.vehicles[vid] == s.vehicles[vid].(exitTime := Some(now), isParked := Some(false))
        && (forall id :: id in s.vehicles && id != vid ==> t.vehicles[id] == s.vehicles[id])
        && t.tickets == s.tickets && t.spaces == s.spaces && t.payments == s.payments
  {
  }

  /** After a successful exit, exiting again with the same ticket is refused with 404 and
      changes nothing, whatever the time. */
  lemma SecondExitRefused(s: Tables, ticketNumber: Option<string>, now: int, later: int, defaultRate: Option<real>)
    requires ExitResult(s, ticketNumber, now, defaultRate).ExitProcessed?
    ensures var t := ExitTables(s, ticketNumber, now, defaultRate);
      && ExitResult(t, ticketNumber, later, defaultRate) == ExitNotFound("Vehicle not found or already exited")
      && ExitTables(t, ticketNumber, later, defaultRate) == t
  {
    var t := ExitTables(s, ticketNumber, now, defaultRate);
    assert t.tickets == s.tickets;
    assert FindTicket(t.tickets, ticketNumber) == FindTicket(s.tickets, ticketNumber);
  }

  /** The fee is the hourly rate times the hours, with no minimum charge: it is zero for
      an exit at the entry time, and every hour more costs exactly one hourly rate more. */
  lemma ExitFeeLinear(s: Tables, ticketNumber: Option<string>, now: int, defaultRate: Option<real>)
    requires ExitResult(s, ticketNumber, now, defaultRate).ExitProcessed?
    ensures var v := s.vehicles[ParkedVehicleId(s, ticketNumber).value];
      var rate := HourlyRate(s.spaces, v, defaultRate).value;
      && ExitResult(s, ticketNumber, v.entryTime.value, defaultRate).fee == 0.0
      && ExitResult(s, ticketNumber, now + 3600, defaultRate).fee == ExitResult(s, ticketNumber, now, defaultRate).fee + rate
  {
    var v := s.vehicles[ParkedVehicleId(s, ticketNumber).value];
    var rate := HourlyRate(s.spaces, v, defaultRate).value;
    var h := (now - v.entryTime.value) as real / 3600.0;
    assert (now + 3600 - v.entryTime.value) as real / 3600.0 == h + 1.0;
    assert (h + 1.0) * rate == h * rate + rate;
  }

  // ---------------------------------------------------------------------------
  // process_payment

  datatype PaymentResponse =
    | PaymentProcessed(transactionId: nat, paymentStatus: string)
    | PaymentNotFound(message: string)
    | PaymentFailed

  function PaymentStatusCode(r: PaymentResponse): int
  {
    match r
    case PaymentProcessed(_, _) => 200
    case PaymentNotFound(_) => 404
    case PaymentFailed => 500
  }

  /** The response of process_payment: 404 for an unknown ticket; a 500 when no user is
      logged in (current_user.Id does not exist); otherwise the new transaction, whose
      autoincrement id is its position in the append-only table, counted from 1. */
  function PaymentResult(s: Tables, ticketNumber: Option<string>, currentUser: Option<string>): PaymentResponse
  {
    if FindTicket(s.tickets, ticketNumber).None? then PaymentNotFound("Invalid ticket number")
    else if currentUser.None? then PaymentFailed
    else PaymentProcessed(|s.payments| + 1, "COMPLETED")
  }

  /** The tables after process_payment: one COMPLETED transaction more for the ticket,
      and the ticket marked paid. */
  function PaymentTables(s: Tables, ticketNumber: Option<string>, paymentMethod: Option<string>,
                         currentUser: Option<string>): Tables
  {
    if PaymentResult(s, ticketNumber, currentUser).PaymentProcessed? then
      var k := FindTicket(s.tickets, ticketNumber).value;
      s.(payments := s.payments + [Payment(Some(s.tickets[k].id), paymentMethod, "COMPLETED", currentUser, None, None)],
         tickets := s.tickets[k := s.tickets[k].(isPaid := Some(true))])
    else s
  }

  /** An unknown ticket is a 404 that records no transaction. */
  lemma PaymentUnknownTicket(s: Tables, ticketNumber: Option<string>, paymentMethod: Option<string>, currentUser: Option<string>)
    requires forall i :: 0 <= i < |s.tickets| ==> s.tickets[i].ticketNumber != ticketNumber
    ensures PaymentStatusCode(PaymentResult(s, ticketNumber, currentUser)) == 404
    ensures PaymentTables(s, ticketNumber, paymentMethod, currentUser) == s
  {
  }

  /** A payment for a known ticket by a logged-in user appends exactly one COMPLETED
      transaction for that ticket and marks it paid, touching nothing else. */
  lemma PaymentRecorded(s: Tables, ticketNumber: Option<string>, paymentMethod: Option<string>, user: string)
    requires exists i :: 0 <= i < |s.tickets| && s.tickets[i].ticketNumber == ticketNumber
    ensures var t := PaymentTables(s, ticketNumber, paymentMethod, Some(user));
      var k := FindTicket(s.tickets, ticketNumber).value;
      && PaymentResult(s, ticketNumber, Some(user)) == PaymentProcessed(|t.payments|, "COMPLETED")
      && |t.payments| == |s.payments| + 1 && t.payments[..|s.payments|] == s.payments
      && t.payments[|s.payments|].ticketId == Some(s.tickets[k].id)
      && t.payments[|s.payments|].paymentStatus == "COMPLETED"
      && t.payments[|s.payments|].paymentMethod == paymentMethod
      && t.payments[|s.payments|].processedBy == Some(user)
      && |t.tickets| == |s.tickets| && t.tickets[k].isPaid == Some(true)
      && (forall j :: 0 <= j < |s.tickets| && j != k ==> t.tickets[j] == s.tickets[j])
      && t.vehicles == s.vehicles && t.spaces == s.spaces
  {
    var t := PaymentTables(s, ticketNumber, paymentMethod, Some(user));
    assert t.payments[..|s.payments|] == s.payments;
  }

  /** Paying twice for the same ticket records two transactions: nothing guards against a
      second payment. */
  lemma RepeatedPaymentAppendsAgain(s: Tables, ticketNumber: Option<string>, paymentMethod: Option<string>, user: string)
    requires exists i :: 0 <= i < |s.tickets| && s.tickets[i].ticketNumber == ticketNumber
    ensures var once := PaymentTables(s, ticketNumber, paymentMethod, Some(user));
      var twice := PaymentTables(once, ticketNumber, paymentMethod, Some(user));
      && PaymentResult(once, ticketNumber, Some(user)).PaymentProcessed?
      && |twice.payments| == |s.payments| + 2
      && twice.payments[|s.payments|] == twice.payments[|s.payments| + 1]
  {
    var once := PaymentTables(s, ticketNumber, paymentMethod, Some(user));
    var k := FindTicket(s.tickets, ticketNumber).value;
    assert once.tickets[k].ticketNumber == ticketNumber;
    assert FindTicket(once.tickets, ticketNumber) == Some(k) by {
      FirstIndexAgrees(once.tickets, s.tickets, (t: Ticket) => t.ticketNumber == ticketNumber);
    }
  }

  // ---------------------------------------------------------------------------
  // The database the handlers update in place

  class ParkingDatabase {
    var tickets: seq<Ticket>
    var vehicles: map<int, Vehicle>
    var spaces: map<int, Space>
    var payments: seq<Payment>

    constructor (s: Tables)
      ensures Contents() == s
    {
      tickets := s.tickets;
      vehicles := s.vehicles;
      spaces := s.spaces;
      payments := s.payments;
    }

    function Contents(): Tables
      reads this
    {
      Tables(tickets, vehicles, spaces, payments)
    }

    /** process_exit: look the ticket up, check its vehicle is parked, price the stay,
        then mark the vehicle exited. */
    method ProcessExit(ticketNumber: Option<string>, now: int, defaultRate: Option<real>) returns (r: ExitResponse)
      modifies this
      ensures r == ExitResult(old(Contents()), ticketNumber, now, defaultRate)
      ensures Contents() == ExitTables(old(Contents()), ticketNumber, now, defaultRate)
    {
      var k := FindTicket(tickets, ticketNumber);
      if k.None? {
        return ExitNotFound("Invalid ticket number");
      }
      var vid := tickets[k.value].vehicleId;
      if vid.None? || vid.value !in vehicles || vehicles[vid.value].isParked != Some(true) {
        return ExitNotFound("Vehicle not found or already exited");
      }
      var vehicle := vehicles[vid.value];
      if vehicle.entryTime.None? {
        return ExitFailed;
      }
      var hours := (now - vehicle.entryTime.value) as real / 3600.0;
      var rate := HourlyRate(spaces, vehicle, defaultRate);
      if rate.None? {
        return ExitFailed;
      }
      var fee := hours * rate.value;
      vehicles := vehicles[vid.value := vehicle.(exitTime := Some(now), isParked := Some(false))];
      r := ExitProcessed(ticketNumber, hours, fee);
    }

    /** process_payment: look the ticket up, record a COMPLETED transaction processed by
        the current user, and mark the ticket paid. */
    method ProcessPayment(ticketNumber: Option<string>, paymentMethod: Option<string>,
                          currentUser: Option<string>) returns (r: PaymentResponse)
      modifies this
      ensures r == PaymentResult(old(Contents()), ticketNumber, currentUser)
      ensures Contents() == PaymentTables(old(Contents()), ticketNumber, paymentMethod, currentUser)
    {
      var k := FindTicket(tickets, ticketNumber);
      if k.None? {
        return PaymentNotFound("Invalid ticket number");
      }
      if currentUser.None? {
        return PaymentFailed;
      }
      var transaction := Payment(Some(tickets[k.value].id), paymentMethod, "COMPLETED", currentUser, None, None);
      tickets := tickets[k.value := tickets[k.value].(isPaid := Some(true))];
      payments := payments + [transaction];
      r := PaymentProcessed(|payments|, transaction.paymentStatus);
    }
  }
}
