/** FlightConnection: the activated and deleted flight collections. */
module FlightConnections {
  import opened Wrappers
  import opened Dates
  import opened Models
  import opened Keyed

  /** The collection after UpdateOne(Set("Sales", n)) on the first flight with key k. */
  function SetSales(flights: seq<Flight>, k: FlightKey, n: int): (r: seq<Flight>)
    ensures |r| == |flights|
    ensures IndexOf(flights, FlightKeyOf, k).None? ==> r == flights
    ensures IndexOf(flights, FlightKeyOf, k).Some? ==>
              var i := IndexOf(flights, FlightKeyOf, k).value;
              r[i] == flights[i].(sales := n)
              && forall j :: 0 <= j < |flights| && j != i ==> r[j] == flights[j]
  {
    match IndexOf(flights, FlightKeyOf, k)
    case None => flights
    case Some(i) => flights[i := flights[i].(sales := n)]
  }

  class FlightConnection {
    /** "ActivatedFlight" */
    var activated: seq<Flight>
    /** "DeletedFlight" */
    var deletedFlights: seq<Flight>

    constructor ()
      ensures activated == [] && deletedFlights == []
    {
      activated, deletedFlights := [], [];
    }

    /**
     * InsertAsync: a new flight to the given airport, aircraft and departure,
     * with status and sales count taken from the request, is appended and returned.
     */
    method InsertAsync(flightDto: FlightDto, aircraft: AirCraft, airport: Airport, date: Date) returns (flight: Flight)
      modifies this
      ensures flight.destiny == airport && flight.plane == aircraft && flight.departure == date
      ensures flight.status == flightDto.status && flight.sales == flightDto.sales
      ensures activated == old(activated) + [flight] && deletedFlights == old(deletedFlights)
    {
      flight := Flight(airport, aircraft, flightDto.sales, date, flightDto.status);
      activated := activated + [flight];
    }

    /** GetAsync: the first active flight with that destination, aircraft and departure, or None. */
    function GetAsync(iata: string, rab: string, departure: Date): (r: Option<Flight>)
      reads this
      ensures r.Some? ==>
                r.value in activated && r.value.destiny.iata == iata
                && r.value.plane.rab == rab && r.value.departure == departure
      ensures r.Some? ==> IsFirstMatch(activated, FlightKeyOf, FlightKey(iata, rab, departure), r.value)
      ensures r.None? <==> forall f :: f in activated ==> FlightKeyOf(f) != FlightKey(iata, rab, departure)
    {
      Find(activated, FlightKeyOf, FlightKey(iata, rab, departure))
    }

    /**
     * UpdateSales: the first match gets Sales := salesNumber, overwriting the
     * old count. The guard tests the query object, which is never null, and the
     * update is acknowledged whether or not a flight matched, so the result is
     * always true.
     */
    method UpdateSales(iata: string, rab: string, departure: Date, salesNumber: int) returns (ok: bool)
      modifies this
      ensures activated == SetSales(old(activated), FlightKey(iata, rab, departure), salesNumber)
      ensures deletedFlights == old(deletedFlights)
      ensures ok
    {
      var i := IndexOf(activated, FlightKeyOf, FlightKey(iata, rab, departure));
      if i.Some? {
        activated := activated[i.value := activated[i.value].(sales := salesNumber)];
      }
      ok := true;
    }

    /**
     * UpdateStatus: deactivates the first match. No match, or a flight that is
     * already inactive, gives false with nothing changed; Status is never set to true.
     */
    method UpdateStatus(iata: string, rab: string, departure: Date) returns (ok: bool)
      modifies this
      ensures var i := IndexOf(old(activated), FlightKeyOf, FlightKey(iata, rab, departure));
        ok <==> i.Some? && old(activated)[i.value].status
      ensures var i := IndexOf(old(activated), FlightKeyOf, FlightKey(iata, rab, departure));
        activated == (if ok then old(activated)[i.value := old(activated)[i.value].(status := false)] else old(activated))
      ensures forall f :: f in activated && !(f in old(activated)) ==> !f.status
      ensures deletedFlights == old(deletedFlights)
    {
      var i := IndexOf(activated, FlightKeyOf, FlightKey(iata, rab, departure));
      if i.None? { return false; }
      if activated[i.value].status == false { return false; }
      activated := activated[i.value := activated[i.value].(status := false)];
      ok := true;
    }

    /** DeleteAsync: the first match moves from ActivatedFlight to DeletedFlight (true); no match gives false. */
    method DeleteAsync(iata: string, rab: string, departure: Date) returns (ok: bool)
      modifies this
      ensures Moved(activated, deletedFlights, ok)
        == Transfer(old(activated), old(deletedFlights), FlightKeyOf, FlightKey(iata, rab, departure), NoFault)
    {
      var flight := IndexOf(activated, FlightKeyOf, FlightKey(iata, rab, departure));
      if flight.None? { return false; }
      var f := activated[flight.value];
      activated := RemoveAt(activated, flight.value);
      deletedFlights := deletedFlights + [f];
      ok := true;
    }
  }
}
