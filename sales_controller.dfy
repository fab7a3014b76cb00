/**
 * The v1 sales controller: the sale creation pipeline, and the delete and
 * update endpoints that find a sale and hand it to the sale store.
 */
module SaleService {
  import opened Wrappers
  import opened Dates
  import opened Models
  import opened Keyed
  import opened AirCraftRules
  import opened PassengerRules
  import opened SaleConnections
  import opened FlightConnections

  /** The two queue names; the controller declares both before publishing. */
  const SalesQueue: string := "Sales"
  const ReservationQueue: string := "Reservation"

  /** The kinds of ActionResult the endpoints return. */
  datatype HttpStatus = HttpOk | HttpBadRequest | HttpNotFound | HttpUnauthorized

  /** Why CreateSaleAsync refuses a request, one case per early return. */
  datatype CreateError =
    | NullPassengers
    | InvalidSaleStatus
    | InvalidRabLength
    | InvalidRab
    | InvalidDate
    | FlightNotFound
    | PassengerNotFound
    | PassengerRestricted
    | MinorHolder
    | DuplicatePassenger
    | CapacityExceeded

  datatype CreateResult = Created(sale: Sale) | Rejected(error: CreateError)

  /** The ActionResult kind behind each outcome. */
  function StatusOf(r: CreateResult): (s: HttpStatus)
    ensures s == HttpOk <==> r.Created?
    ensures s == HttpUnauthorized <==> r == Rejected(MinorHolder)
    ensures s == HttpNotFound <==> r == Rejected(FlightNotFound) || r == Rejected(PassengerNotFound)
  {
    match r
    case Created(_) => HttpOk
    case Rejected(e) =>
      match e
      case FlightNotFound => HttpNotFound
      case PassengerNotFound => HttpNotFound
      case MinorHolder => HttpUnauthorized
      case _ => HttpBadRequest
  }

  /** string.Replace("-", ""): the code with every '-' removed, the rest kept in order. */
  function RemoveDashes(s: string): (r: string)
    ensures '-' !in r
    ensures forall c :: c in r <==> c in s && c != '-'
    ensures multiset(r) == multiset(s)['-' := 0]
    ensures |r| <= |s|
    ensures '-' !in s ==> r == s
  {
    if |s| == 0 then ""
    else
      assert s == [s[0]] + s[1..];
      if s[0] == '-' then RemoveDashes(s[1..])
      else [s[0]] + RemoveDashes(s[1..])
  }

  /** Removing dashes works piece by piece, so the characters that stay keep their order. */
  lemma {:induction false} RemoveDashesConcat(a: string, b: string)
    ensures RemoveDashes(a + b) == RemoveDashes(a) + RemoveDashes(b)
    decreases |a|
  {
    if |a| > 0 {
      assert (a + b)[0] == a[0];
      assert (a + b)[1..] == a[1..] + b;
      RemoveDashesConcat(a[1..], b);
    } else {
      assert a + b == b;
    }
  }

  /** What the passenger service answers for a CPF: None for a non-success response. */
  function Lookup(registry: map<string, Passenger>, cpf: string): (r: Option<Passenger>)
    ensures r.Some? <==> cpf in registry
    ensures r.Some? ==> r.value == registry[cpf]
  {
    if cpf in registry then Some(registry[cpf]) else None
  }

  /** The check applied to one roster entry; isHolder holds while no entry has been accepted yet. */
  function EntryError(p: Option<Passenger>, now: Date, isHolder: bool): (r: Option<CreateError>)
    ensures r.None? <==> p.Some? && p.value.status && (isHolder ==> AnniversaryReached(p.value.dateBirth, now, 18))
    ensures p.None? <==> r == Some(PassengerNotFound)
    ensures p.Some? && !p.value.status <==> r == Some(PassengerRestricted)
    ensures r == Some(MinorHolder) <==>
              p.Some? && p.value.status && isHolder && !AnniversaryReached(p.value.dateBirth, now, 18)
  {
    match p
    case None => Some(PassengerNotFound)
    case Some(q) =>
      if !q.status then Some(PassengerRestricted)
      else if isHolder && !AnniversaryReached(q.dateBirth, now, 18) then Some(MinorHolder)
      else None
  }

  /**
   * The first n entries of the roster scanned in order, as the first loop of
   * CreateSaleAsync does: the CPFs of the fetched passengers, or the first error.
   */
  function Screen(cpfs: seq<string>, registry: map<string, Passenger>, now: Date, n: nat): (r: Result<seq<string>, CreateError>)
    requires n <= |cpfs|
    ensures r.Ok? ==> |r.value| == n
    ensures r.Ok? ==> forall i :: 0 <= i < n ==> cpfs[i] in registry && r.value[i] == registry[cpfs[i]].cpf
    ensures r.Err? ==> r.error == PassengerNotFound || r.error == PassengerRestricted || r.error == MinorHolder
    decreases n
  {
    if n == 0 then Ok([])
    else match Screen(cpfs, registry, now, n - 1)
      case Err(e) => Err(e)
      case Ok(acc) =>
        match EntryError(Lookup(registry, cpfs[n - 1]), now, |acc| == 0)
        case Some(e) => Err(e)
        case None => Ok(acc + [registry[cpfs[n - 1]].cpf])
  }

  /** passengers.FindAll(p => p == x).Count */
  function Occurrences(s: seq<string>, x: string): (n: nat)
    ensures n <= |s|
    ensures n == multiset(s)[x]
    ensures n == 0 <==> x !in s
    decreases |s|
  {
    if |s| == 0 then 0
    else
      assert s == [s[0]] + s[1..];
      (if s[0] == x then 1 else 0) + Occurrences(s[1..], x)
  }

  /** Some CPF occurs at two different positions. */
  predicate HasDuplicates(s: seq<string>) {
    exists i, j :: 0 <= i < j < |s| && s[i] == s[j]
  }

  /**
   * The outcome of CreateSaleAsync, given the active flights, the passenger
   * service's answers and today's date: the checks in the source's order.
   */
  function Decide(saleDto: SaleDto, flights: seq<Flight>, registry: map<string, Passenger>, now: Date): (r: CreateResult)
    ensures r.Created? ==>
              r.sale.reserved == saleDto.reserved && r.sale.sold == saleDto.sold && r.sale.reserved != r.sale.sold
              && r.sale.flight in flights && !HasDuplicates(r.sale.passengers)
              && |r.sale.passengers| + r.sale.flight.sales <= r.sale.flight.plane.capacity
  {
    if saleDto.passengers.None? then Rejected(NullPassengers)
    else if saleDto.reserved == saleDto.sold then Rejected(InvalidSaleStatus)
    else
      var rab := RemoveDashes(saleDto.rab);
      if |rab| != 5 then Rejected(InvalidRabLength)
      else if !RabValidation(rab) then Rejected(InvalidRab)
      else if !IsValidDate(saleDto.departure) then Rejected(InvalidDate)
      else match Find(flights, FlightKeyOf, FlightKey(saleDto.iata, rab, saleDto.departure))
        case None => Rejected(FlightNotFound)
        case Some(flight) =>
          var cpfs := saleDto.passengers.value;
          match Screen(cpfs, registry, now, |cpfs|)
          case Err(e) => Rejected(e)
          case Ok(passengers) =>
            if HasDuplicates(passengers) then Rejected(DuplicatePassenger)
            else if |passengers| + flight.sales > flight.plane.capacity then Rejected(CapacityExceeded)
            else Created(Sale(flight, passengers, saleDto.reserved, saleDto.sold))
  }

  /** The HTTP passenger service, as the answers it would give. */
  class PassengerService {
    var registry: map<string, Passenger>

    constructor (registry: map<string, Passenger>)
      ensures this.registry == registry
    {
      this.registry := registry;
    }

    /** GetPassengerAsync: the passenger, or None when the service does not answer with success. */
    function GetPassengerAsync(cpf: string): (r: Option<Passenger>)
      reads this
      ensures r.Some? <==> cpf in registry
      ensures r.Some? ==> r.value == registry[cpf]
    {
      Lookup(registry, cpf)
    }
  }

  /** The message broker: one sequence of published sales per queue. */
  class MessageBroker {
    var salesQueue: seq<Sale>
    var reservationQueue: seq<Sale>

    constructor ()
      ensures salesQueue == [] && reservationQueue == []
    {
      salesQueue, reservationQueue := [], [];
    }

    /** BasicPublish on the default exchange: the message goes to the queue named by the routing key. */
    method BasicPublish(routingKey: string, body: Sale)
      requires routingKey == SalesQueue || routingKey == ReservationQueue
      modifies this
      ensures routingKey == SalesQueue ==>
                salesQueue == old(salesQueue) + [body] && reservationQueue == old(reservationQueue)
      ensures routingKey == ReservationQueue ==>
                reservationQueue == old(reservationQueue) + [body] && salesQueue == old(salesQueue)
    {
      if routingKey == SalesQueue {
        salesQueue := salesQueue + [body];
      } else {
        reservationQueue := reservationQueue + [body];
      }
    }
  }

  class SalesController {
    const saleConnection: SaleConnection
    const flightConnection: FlightConnection
    const passengerService: PassengerService
    const factory: MessageBroker

    constructor (saleConnection: SaleConnection, flightConnection: FlightConnection,
                 passengerService: PassengerService, factory: MessageBroker)
      ensures this.saleConnection == saleConnection && this.flightConnection == flightConnection
      ensures this.passengerService == passengerService && this.factory == factory
    {
      this.saleConnection := saleConnection;
      this.flightConnection := flightConnection;
      this.passengerService := passengerService;
      this.factory := factory;
    }

    /**
     * The first loop of CreateSaleAsync: each CPF is looked up in order; a
     * missing passenger, a restricted one, or a holder under 18 stops the scan.
     */
    method ScreenPassengers(cpfs: seq<string>, now: Date) returns (r: Result<seq<string>, CreateError>)
      ensures r == Screen(cpfs, passengerService.registry, now, |cpfs|)
    {
      var passengers: seq<string> := [];
      var i := 0;
      while i < |cpfs|
        invariant 0 <= i <= |cpfs|
        invariant Screen(cpfs, passengerService.registry, now, i) == Ok(passengers)
      {
        var passenger := passengerService.GetPassengerAsync(cpfs[i]);
        if passenger.None? {
          ScreenErrPersists(cpfs, passengerService.registry, now, i + 1, |cpfs|);
          return Err(PassengerNotFound);
        }
        if !passenger.value.status {
          ScreenErrPersists(cpfs, passengerService.registry, now, i + 1, |cpfs|);
          return Err(PassengerRestricted);
        }
        var age := ValidateAge(passenger.value, now);
        UnderAgeIff(passenger.value.dateBirth, now, age, 18);
        if age < 18 && |passengers| == 0 {
          ScreenErrPersists(cpfs, passengerService.registry, now, i + 1, |cpfs|);
          return Err(MinorHolder);
        }
        passengers := passengers + [passenger.value.cpf];
        i := i + 1;
      }
      r := Ok(passengers);
    }

    /**
     * CreateSaleAsync. The outcome is Decide's. A rejection changes nothing. A
     * success overwrites the flight's Sales with the roster size and publishes
     * the sale to exactly one queue, "Reservation" when Reserved and "Sales"
     * otherwise. The sale store is never written.
     */
    method CreateSaleAsync(saleDto: SaleDto, now: Date) returns (res: CreateResult)
      modifies flightConnection, factory
      ensures res == Decide(saleDto, old(flightConnection.activated), passengerService.registry, now)
      ensures res.Rejected? ==>
                flightConnection.activated == old(flightConnection.activated)
                && factory.salesQueue == old(factory.salesQueue)
                && factory.reservationQueue == old(factory.reservationQueue)
      ensures res.Created? ==>
                flightConnection.activated
                == SetSales(old(flightConnection.activated), FlightKeyOf(res.sale.flight), |res.sale.passengers|)
      ensures res.Created? && res.sale.reserved ==>
                factory.reservationQueue == old(factory.reservationQueue) + [res.sale]
                && factory.salesQueue == old(factory.salesQueue)
      ensures res.Created? && !res.sale.reserved ==>
                factory.salesQueue == old(factory.salesQueue) + [res.sale]
                && factory.reservationQueue == old(factory.reservationQueue)
      ensures flightConnection.deletedFlights == old(flightConnection.deletedFlights)
      ensures unchanged(saleConnection)
    {
      if saleDto.passengers.None? { return Rejected(NullPassengers); }
      if saleDto.reserved == saleDto.sold { return Rejected(InvalidSaleStatus); }

      var rab := RemoveDashes(saleDto.rab);
      if |rab| != 5 { return Rejected(InvalidRabLength); }
      if !RabValidation(rab) { return Rejected(InvalidRab); }
      if !IsValidDate(saleDto.departure) { return Rejected(InvalidDate); }

      var found := flightConnection.GetAsync(saleDto.iata, rab, saleDto.departure);
      if found.None? { return Rejected(FlightNotFound); }
      var flight := found.value;

      var cpfs := saleDto.passengers.value;
      var screened := ScreenPassengers(cpfs, now);
      if screened.Err? { return Rejected(screened.error); }
      var passengers := screened.value;
      var repeated := HasRepeatedPassenger(passengers);
      if repeated { return Rejected(DuplicatePassenger); }

      if |passengers| + flight.sales > flight.plane.capacity { return Rejected(CapacityExceeded); }

      var _ := flightConnection.UpdateSales(flight.destiny.iata, flight.plane.rab, flight.departure, |passengers|);

      var sale := Sale(flight, passengers, saleDto.reserved, saleDto.sold);
      var queue;
      if sale.reserved {
        queue := ReservationQueue;
      } else {
        queue := SalesQueue;
      }
      factory.BasicPublish(queue, sale);
      res := Created(sale);
    }

    /**
     * GetSaleAsync: an unparsable date is a bad request; otherwise the first
     * active sale on that flight whose first passenger is cpf, or NotFound.
     */
    function GetSaleAsync(cpf: string, iata: string, rab: string, departure: Option<Date>): (r: Result<Sale, HttpStatus>)
      reads saleConnection
      ensures departure.None? ==> r == Err(HttpBadRequest)
      ensures departure.Some? && r.Err? ==>
                r.error == HttpNotFound
                && forall s :: s in saleConnection.active ==> SaleKeyOf(s) != Some(SaleKey(cpf, iata, rab, departure.value))
      ensures r.Ok? ==>
                departure.Some? && r.value in saleConnection.active
                && SaleKeyOf(r.value) == Some(SaleKey(cpf, iata, rab, departure.value))
      ensures r.Ok? ==>
                IsFirstMatch(saleConnection.active, SaleKeyOf, Some(SaleKey(cpf, iata, rab, departure.value)), r.value)
    {
      if departure.None? then Err(HttpBadRequest)
      else match saleConnection.FindSaleAsync(cpf, iata, rab, departure.value)
        case None => Err(HttpNotFound)
        case Some(sale) => Ok(sale)
    }

    /**
     * DeleteSaleAsync: an unparsable date is a bad request; no matching active
     * sale is NotFound with nothing changed; otherwise the store's DeleteAsync
     * runs and the answer is Ok whatever it returned.
     */
    method DeleteSaleAsync(cpf: string, iata: string, rab: string, departure: Option<Date>, fault: Fault) returns (res: HttpStatus)
      modifies saleConnection
      ensures departure.None? ==> res == HttpBadRequest && unchanged(saleConnection)
      ensures departure.Some? && old(saleConnection.FindSaleAsync(cpf, iata, rab, departure.value)).None? ==>
                res == HttpNotFound && unchanged(saleConnection)
      ensures departure.Some? && old(saleConnection.FindSaleAsync(cpf, iata, rab, departure.value)).Some? ==>
                var m := Transfer(old(saleConnection.active), old(saleConnection.deleted), SaleKeyOf,
                                  Some(SaleKey(cpf, iata, rab, departure.value)), fault);
                res == HttpOk && saleConnection.active == m.source && saleConnection.deleted == m.target
    {
      if departure.None? { return HttpBadRequest; }
      var date := departure.value;
      var sale := saleConnection.FindSaleAsync(cpf, iata, rab, date);
      if sale.None? { return HttpNotFound; }
      var _ := saleConnection.DeleteAsync(cpf, iata, rab, date, fault);
      res := HttpOk;
    }

    /**
     * UpdateSaleAsync: an unparsable date is a bad request; no matching active
     * sale is NotFound; otherwise the found sale's two flags are negated in the
     * store (they swap when exactly one was set) and the answer is Ok.
     */
    method UpdateSaleAsync(cpf: string, iata: string, rab: string, departure: Option<Date>) returns (res: HttpStatus)
      modifies saleConnection
      ensures departure.None? ==> res == HttpBadRequest && unchanged(saleConnection)
      ensures departure.Some? ==>
                var i := IndexOf(old(saleConnection.active), SaleKeyOf, Some(SaleKey(cpf, iata, rab, departure.value)));
                (i.None? ==> res == HttpNotFound && unchanged(saleConnection))
                && (i.Some? ==>
                      res == HttpOk
                      && saleConnection.active
                         == old(saleConnection.active)[i.value := Toggled(old(saleConnection.active)[i.value], old(saleConnection.active)[i.value])]
                      && saleConnection.deleted == old(saleConnection.deleted))
    {
      if departure.None? { return HttpBadRequest; }
      var date := departure.value;
      var sale := saleConnection.FindSaleAsync(cpf, iata, rab, date);
      if sale.None? { return HttpNotFound; }
      var updated := saleConnection.Update(cpf, iata, rab, date, sale.value);
      if updated {
        res := HttpOk;
      } else {
        res := HttpBadRequest;
      }
    }
  }

  /**
   * The second loop of CreateSaleAsync: a CPF whose FindAll count is not 1
   * means the roster names someone twice.
   */
  method HasRepeatedPassenger(passengers: seq<string>) returns (repeated: bool)
    ensures repeated == HasDuplicates(passengers)
  {
    var j := 0;
    while j < |passengers|
      invariant 0 <= j <= |passengers|
      invariant forall k :: 0 <= k < j ==> Occurrences(passengers, passengers[k]) == 1
    {
      var elements := Occurrences(passengers, passengers[j]);
      if elements != 1 {
        OccurrenceCheckIff(passengers);
        return true;
      }
      j := j + 1;
    }
    OccurrenceCheckIff(passengers);
    repeated := false;
  }

  /** Once the scan has failed, scanning further entries keeps the same error. */
  lemma {:induction false} ScreenErrPersists(cpfs: seq<string>, registry: map<string, Passenger>, now: Date, n: nat, m: nat)
    requires n <= m <= |cpfs|
    requires Screen(cpfs, registry, now, n).Err?
    ensures Screen(cpfs, registry, now, m) == Screen(cpfs, registry, now, n)
    decreases m
  {
    if m > n {
      ScreenErrPersists(cpfs, registry, now, n, m - 1);
    }
  }

  /** A CPF at two different positions occurs at least twice. */
  lemma {:induction false} RepeatCountsTwice(s: seq<string>, i: nat, j: nat)
    requires i < j < |s| && s[i] == s[j]
    ensures Occurrences(s, s[i]) >= 2
    decreases |s|
  {
    if i == 0 {
      assert s[1..][j - 1] == s[j];
    } else {
      assert s[1..][i - 1] == s[i] && s[1..][j - 1] == s[j];
      RepeatCountsTwice(s[1..], i - 1, j - 1);
    }
  }

  /** In a duplicate-free roster every CPF occurs exactly once. */
  lemma {:induction false} DistinctCountsOnce(s: seq<string>, k: nat)
    requires k < |s| && !HasDuplicates(s)
    ensures Occurrences(s, s[k]) == 1
    decreases |s|
  {
    if k == 0 {
      forall j | 0 <= j < |s[1..]| ensures s[1..][j] != s[0] {
        assert s[1..][j] == s[j + 1];
      }
      assert s[0] !in s[1..];
    } else {
      assert s[0] != s[k];
      assert s[1..][k - 1] == s[k];
      forall a, b | 0 <= a < b < |s[1..]| ensures s[1..][a] != s[1..][b] {
        assert s[1..][a] == s[a + 1] && s[1..][b] == s[b + 1];
      }
      DistinctCountsOnce(s[1..], k - 1);
    }
  }

  /**
   * The duplicate loop's test (every CPF's FindAll count is 1) holds exactly
   * when no CPF occurs at two positions, wherever the two are.
   */
  lemma OccurrenceCheckIff(s: seq<string>)
    ensures (forall k :: 0 <= k < |s| ==> Occurrences(s, s[k]) == 1) <==> !HasDuplicates(s)
  {
    if HasDuplicates(s) {
      var i, j :| 0 <= i < j < |s| && s[i] == s[j];
      RepeatCountsTwice(s, i, j);
    } else {
      forall k | 0 <= k < |s| ensures Occurrences(s, s[k]) == 1 {
        DistinctCountsOnce(s, k);
      }
    }
  }

  /**
   * The scan succeeds exactly when every entry is in the passenger service and
   * active, and the first one, the holder, has had an 18th birthday; minors
   * after the first entry are accepted.
   */
  lemma {:induction false} ScreenOkIff(cpfs: seq<string>, registry: map<string, Passenger>, now: Date, n: nat)
    requires n <= |cpfs|
    ensures Screen(cpfs, registry, now, n).Ok?
        <==> forall i :: 0 <= i < n ==>
               cpfs[i] in registry && registry[cpfs[i]].status
               && (i == 0 ==> AnniversaryReached(registry[cpfs[i]].dateBirth, now, 18))
    decreases n
  {
    if n > 0 {
      ScreenOkIff(cpfs, registry, now, n - 1);
    }
  }

  /**
   * A failed scan reports the error of the first failing entry: every entry
   * before it passed, and that entry gave exactly this error.
   */
  lemma {:induction false} ScreenFirstError(cpfs: seq<string>, registry: map<string, Passenger>, now: Date, n: nat)
    requires n <= |cpfs| && Screen(cpfs, registry, now, n).Err?
    ensures exists i :: 0 <= i < n
              && EntryError(Lookup(registry, cpfs[i]), now, i == 0) == Some(Screen(cpfs, registry, now, n).error)
              && forall j :: 0 <= j < i ==> EntryError(Lookup(registry, cpfs[j]), now, j == 0).None?
    decreases n
  {
    var prev := Screen(cpfs, registry, now, n - 1);
    if prev.Err? {
      ScreenFirstError(cpfs, registry, now, n - 1);
    } else {
      ScreenOkIff(cpfs, registry, now, n - 1);
      var i := n - 1;
      assert EntryError(Lookup(registry, cpfs[i]), now, i == 0) == Some(Screen(cpfs, registry, now, n).error);
    }
  }

  /**
   * Every sale CreateSaleAsync publishes satisfies the rules: exactly one of
   * Reserved and Sold, a valid registration, the flight the request names, the
   * fetched CPFs in roster order, all active, an adult holder, no CPF twice, and
   * room on the plane.
   */
  lemma CreatedSaleSatisfiesRules(saleDto: SaleDto, flights: seq<Flight>, registry: map<string, Passenger>, now: Date)
    requires Decide(saleDto, flights, registry, now).Created?
    ensures var s := Decide(saleDto, flights, registry, now).sale;
      var rab := RemoveDashes(saleDto.rab);
      var cpfs := saleDto.passengers.value;
      saleDto.passengers.Some?
      && s.reserved == saleDto.reserved && s.sold == saleDto.sold && s.reserved != s.sold
      && |rab| == 5 && RabValidation(rab) && IsValidDate(saleDto.departure)
      && s.flight in flights && FlightKeyOf(s.flight) == FlightKey(saleDto.iata, rab, saleDto.departure)
      && |s.passengers| == |cpfs|
      && (forall i :: 0 <= i < |cpfs| ==>
            cpfs[i] in registry && registry[cpfs[i]].status && s.passengers[i] == registry[cpfs[i]].cpf)
      && (|cpfs| > 0 ==> AnniversaryReached(registry[cpfs[0]].dateBirth, now, 18))
      && !HasDuplicates(s.passengers)
      && |s.passengers| + s.flight.sales <= s.flight.plane.capacity
  {
    var cpfs := saleDto.passengers.value;
    ScreenOkIff(cpfs, registry, now, |cpfs|);
  }

  /**
   * Conversely, a request that meets every rule is accepted, and the sale it
   * yields names the first matching active flight.
   */
  lemma RulesSufficeForCreation(saleDto: SaleDto, flights: seq<Flight>, registry: map<string, Passenger>, now: Date, flight: Flight)
    requires saleDto.passengers.Some? && saleDto.reserved != saleDto.sold
    requires |RemoveDashes(saleDto.rab)| == 5 && RabValidation(RemoveDashes(saleDto.rab))
    requires IsValidDate(saleDto.departure)
    requires Find(flights, FlightKeyOf, FlightKey(saleDto.iata, RemoveDashes(saleDto.rab), saleDto.departure)) == Some(flight)
    requires forall i :: 0 <= i < |saleDto.passengers.value| ==>
               saleDto.passengers.value[i] in registry && registry[saleDto.passengers.value[i]].status
    requires |saleDto.passengers.value| > 0 ==>
               AnniversaryReached(registry[saleDto.passengers.value[0]].dateBirth, now, 18)
    requires forall i, j :: 0 <= i < j < |saleDto.passengers.value| ==>
               registry[saleDto.passengers.value[i]].cpf != registry[saleDto.passengers.value[j]].cpf
    requires |saleDto.passengers.value| + flight.sales <= flight.plane.capacity
    ensures Decide(saleDto, flights, registry, now).Created?
    ensures Decide(saleDto, flights, registry, now).sale.flight == flight
  {
    var cpfs := saleDto.passengers.value;
    ScreenOkIff(cpfs, registry, now, |cpfs|);
    var screened := Screen(cpfs, registry, now, |cpfs|);
    assert screened.Ok?;
    var roster := screened.value;
    assert forall i :: 0 <= i < |cpfs| ==> roster[i] == registry[cpfs[i]].cpf;
    assert !HasDuplicates(roster);
    assert |roster| + flight.sales <= flight.plane.capacity;
  }

  /**
   * A roster that names the same passenger twice is refused as a duplicate,
   * wherever the two entries stand, once every entry is eligible.
   */
  lemma RepeatedPassengerRejected(saleDto: SaleDto, flights: seq<Flight>, registry: map<string, Passenger>, now: Date, i: nat, j: nat)
    requires saleDto.passengers.Some? && saleDto.reserved != saleDto.sold
    requires |RemoveDashes(saleDto.rab)| == 5 && RabValidation(RemoveDashes(saleDto.rab))
    requires IsValidDate(saleDto.departure)
    requires Find(flights, FlightKeyOf, FlightKey(saleDto.iata, RemoveDashes(saleDto.rab), saleDto.departure)).Some?
    requires Screen(saleDto.passengers.value, registry, now, |saleDto.passengers.value|).Ok?
    requires i < j < |saleDto.passengers.value| && saleDto.passengers.value[i] == saleDto.passengers.value[j]
    ensures Decide(saleDto, flights, registry, now) == Rejected(DuplicatePassenger)
  {
    var cpfs := saleDto.passengers.value;
    var roster := Screen(cpfs, registry, now, |cpfs|).value;
    assert roster[i] == roster[j];
  }

  /** A holder under 18 is refused with Unauthorized, whoever follows. */
  lemma MinorHolderRejected(saleDto: SaleDto, flights: seq<Flight>, registry: map<string, Passenger>, now: Date)
    requires saleDto.passengers.Some? && saleDto.reserved != saleDto.sold
    requires |RemoveDashes(saleDto.rab)| == 5 && RabValidation(RemoveDashes(saleDto.rab))
    requires IsValidDate(saleDto.departure)
    requires Find(flights, FlightKeyOf, FlightKey(saleDto.iata, RemoveDashes(saleDto.rab), saleDto.departure)).Some?
    requires |saleDto.passengers.value| > 0
    requires saleDto.passengers.value[0] in registry
    requires registry[saleDto.passengers.value[0]].status
    requires !AnniversaryReached(registry[saleDto.passengers.value[0]].dateBirth, now, 18)
    ensures Decide(saleDto, flights, registry, now) == Rejected(MinorHolder)
    ensures StatusOf(Decide(saleDto, flights, registry, now)) == HttpUnauthorized
  {
    var cpfs := saleDto.passengers.value;
    ScreenErrPersists(cpfs, registry, now, 1, |cpfs|);
  }

  /** The same minor behind an adult holder passes the scan. */
  lemma MinorAcceptedBehindAdult(registry: map<string, Passenger>, now: Date, adult: string, minor: string)
    requires adult in registry && registry[adult].status && AnniversaryReached(registry[adult].dateBirth, now, 18)
    requires minor in registry && registry[minor].status && !AnniversaryReached(registry[minor].dateBirth, now, 18)
    ensures Screen([adult, minor], registry, now, 2) == Ok([registry[adult].cpf, registry[minor].cpf])
  {
    ScreenOkIff([adult, minor], registry, now, 2);
    var r := Screen([adult, minor], registry, now, 2);
    assert r.Ok?;
    assert r.value[0] == registry[adult].cpf && r.value[1] == registry[minor].cpf;
    assert r.value == [registry[adult].cpf, registry[minor].cpf];
  }

  /**
   * The checks before the flight lookup do not consult the stores: a request
   * that fails one of them gets the same answer whatever the flights, the
   * passengers and the date.
   */
  lemma EarlyChecksIgnoreStores(saleDto: SaleDto, flights1: seq<Flight>, registry1: map<string, Passenger>, now1: Date,
                                flights2: seq<Flight>, registry2: map<string, Passenger>, now2: Date)
    requires saleDto.passengers.None? || saleDto.reserved == saleDto.sold
          || |RemoveDashes(saleDto.rab)| != 5 || !RabValidation(RemoveDashes(saleDto.rab))
          || !IsValidDate(saleDto.departure)
    ensures Decide(saleDto, flights1, registry1, now1) == Decide(saleDto, flights2, registry2, now2)
    ensures Decide(saleDto, flights1, registry1, now1).Rejected?
  {
  }

  /** The request alone passes the checks CreateSaleAsync makes before it reads any store. */
  predicate PassesRequestChecks(saleDto: SaleDto) {
    saleDto.passengers.Some? && saleDto.reserved != saleDto.sold
    && |RemoveDashes(saleDto.rab)| == 5 && RabValidation(RemoveDashes(saleDto.rab))
    && IsValidDate(saleDto.departure)
  }

  /**
   * Which error a rejected request gets: the first check it fails, in the
   * order null roster, flags, registration length, registration grammar,
   * date, flight lookup, roster scan, duplicates, capacity. Each error is
   * reported exactly when every earlier check passed and its own failed.
   */
  lemma DecideReportsFirstFailedCheck(saleDto: SaleDto, flights: seq<Flight>, registry: map<string, Passenger>, now: Date, e: CreateError)
    ensures var r := Decide(saleDto, flights, registry, now);
      var rab := RemoveDashes(saleDto.rab);
      (r == Rejected(NullPassengers) <==> saleDto.passengers.None?)
      && (r == Rejected(InvalidSaleStatus) <==> saleDto.passengers.Some? && saleDto.reserved == saleDto.sold)
      && (r == Rejected(InvalidRabLength) <==>
            saleDto.passengers.Some? && saleDto.reserved != saleDto.sold && |rab| != 5)
      && (r == Rejected(InvalidRab) <==>
            saleDto.passengers.Some? && saleDto.reserved != saleDto.sold && |rab| == 5 && !RabValidation(rab))
      && (r == Rejected(InvalidDate) <==>
            saleDto.passengers.Some? && saleDto.reserved != saleDto.sold && |rab| == 5 && RabValidation(rab)
            && !IsValidDate(saleDto.departure))
      && (r == Rejected(FlightNotFound) <==>
            PassesRequestChecks(saleDto) && Find(flights, FlightKeyOf, FlightKey(saleDto.iata, rab, saleDto.departure)).None?)
      && (r == Rejected(FlightNotFound) ==> StatusOf(r) == HttpNotFound)
    ensures var r := Decide(saleDto, flights, registry, now);
      var rab := RemoveDashes(saleDto.rab);
      e == PassengerNotFound || e == PassengerRestricted || e == MinorHolder ==>
        (r == Rejected(e) <==>
           PassesRequestChecks(saleDto) && Find(flights, FlightKeyOf, FlightKey(saleDto.iata, rab, saleDto.departure)).Some?
           && Screen(saleDto.passengers.value, registry, now, |saleDto.passengers.value|) == Err(e))
    ensures var r := Decide(saleDto, flights, registry, now);
      var rab := RemoveDashes(saleDto.rab);
      var found := Find(flights, FlightKeyOf, FlightKey(saleDto.iata, rab, saleDto.departure));
      PassesRequestChecks(saleDto) && found.Some? ==>
      var cpfs := saleDto.passengers.value;
      Screen(cpfs, registry, now, |cpfs|).Ok? ==>
        (r == Rejected(DuplicatePassenger) <==> HasDuplicates(Screen(cpfs, registry, now, |cpfs|).value))
        && (r == Rejected(CapacityExceeded) <==>
              !HasDuplicates(Screen(cpfs, registry, now, |cpfs|).value)
              && |cpfs| + found.value.sales > found.value.plane.capacity)
  {
  }

  /**
   * An empty (but present) passenger list is accepted when everything else is
   * valid, and the booking then writes 0 over the flight's count.
   */
  lemma EmptyRosterResetsSales(saleDto: SaleDto, flights: seq<Flight>, registry: map<string, Passenger>, now: Date, flight: Flight)
    requires saleDto.passengers == Some([]) && saleDto.reserved != saleDto.sold
    requires |RemoveDashes(saleDto.rab)| == 5 && RabValidation(RemoveDashes(saleDto.rab))
    requires IsValidDate(saleDto.departure)
    requires Find(flights, FlightKeyOf, FlightKey(saleDto.iata, RemoveDashes(saleDto.rab), saleDto.departure)) == Some(flight)
    requires flight.sales <= flight.plane.capacity
    ensures Decide(saleDto, flights, registry, now) == Created(Sale(flight, [], saleDto.reserved, saleDto.sold))
    ensures var i := IndexOf(flights, FlightKeyOf, FlightKeyOf(flight)).value;
      SetSales(flights, FlightKeyOf(flight), 0)[i] == flight.(sales := 0)
  {
    assert !HasDuplicates([]);
  }

  /**
   * Because Sales is overwritten with the roster size rather than increased,
   * single-passenger bookings keep passing the capacity check: on a two-seat
   * plane three bookings in a row are all accepted, and the stored count
   * still reads 1 afterwards.
   */
  lemma OverwriteOversells(saleDto: SaleDto, registry: map<string, Passenger>, now: Date, flight: Flight, cpf: string)
    requires saleDto.passengers == Some([cpf]) && saleDto.reserved != saleDto.sold
    requires |RemoveDashes(saleDto.rab)| == 5 && RabValidation(RemoveDashes(saleDto.rab))
    requires IsValidDate(saleDto.departure)
    requires FlightKeyOf(flight) == FlightKey(saleDto.iata, RemoveDashes(saleDto.rab), saleDto.departure)
    requires cpf in registry && registry[cpf].status && AnniversaryReached(registry[cpf].dateBirth, now, 18)
    requires flight.plane.capacity == 2 && flight.sales == 0
    ensures var d1 := Decide(saleDto, [flight], registry, now);
      d1.Created?
      && var f1 := SetSales([flight], FlightKeyOf(d1.sale.flight), |d1.sale.passengers|);
      var d2 := Decide(saleDto, f1, registry, now);
      d2.Created?
      && var f2 := SetSales(f1, FlightKeyOf(d2.sale.flight), |d2.sale.passengers|);
      var d3 := Decide(saleDto, f2, registry, now);
      d3.Created?
      && |d1.sale.passengers| + |d2.sale.passengers| + |d3.sale.passengers| > flight.plane.capacity
      && SetSales(f2, FlightKeyOf(d3.sale.flight), |d3.sale.passengers|) == [flight.(sales := 1)]
  {
    var k := FlightKeyOf(flight);
    var booked := flight.(sales := 1);
    assert FlightKeyOf(booked) == k;
    RulesSufficeForCreation(saleDto, [flight], registry, now, flight);
    assert SetSales([flight], k, 1) == [booked];
    RulesSufficeForCreation(saleDto, [booked], registry, now, booked);
    assert SetSales([booked], k, 1) == [booked];
    RulesSufficeForCreation(saleDto, [booked], registry, now, booked);
  }
}
