/**
 * The records the services store and exchange. Database ids, addresses and the
 * nullability of C# strings are not modelled.
 */
module Models {
  import opened Wrappers
  import opened Dates

  datatype Company = Company(
    cnpj: string,
    name: string,
    nameOptional: string,
    dateOpen: Date,
    status: Option<bool>)

  /** An aircraft, identified by its registration code (RAB). */
  datatype AirCraft = AirCraft(
    rab: string,
    capacity: int,
    dateRegistry: Date,
    dateLastFlight: Option<Date>,
    company: Option<Company>)

  /** An airport, identified by its IATA code. */
  datatype Airport = Airport(iata: string)

  /** A flight, identified by destination IATA, aircraft RAB and departure date. */
  datatype Flight = Flight(
    destiny: Airport,
    plane: AirCraft,
    sales: int,
    departure: Date,
    status: bool)

  datatype Passenger = Passenger(
    cpf: string,
    name: string,
    gender: string,
    phone: string,
    dateBirth: Date,
    dateRegister: Date,
    status: bool)

  /** A sale: a snapshot of the flight, the CPFs on board (the first is the holder) and two flags. */
  datatype Sale = Sale(
    flight: Flight,
    passengers: seq<string>,
    reserved: bool,
    sold: bool)

  /** The body of a sale request; a null passenger list is None. */
  datatype SaleDto = SaleDto(
    iata: string,
    rab: string,
    departure: Date,
    passengers: Option<seq<string>>,
    reserved: bool,
    sold: bool)

  datatype FlightDto = FlightDto(
    iata: string,
    rab: string,
    sales: int,
    departure: Date,
    status: bool)

  /** The composite key of a flight. */
  datatype FlightKey = FlightKey(iata: string, rab: string, departure: Date)

  /** The composite key of a sale: holder CPF, destination, aircraft and departure. */
  datatype SaleKey = SaleKey(cpf: string, iata: string, rab: string, departure: Date)

  function FlightKeyOf(f: Flight): FlightKey {
    FlightKey(f.destiny.iata, f.plane.rab, f.departure)
  }

  /** A sale's key; a sale with no passengers has no holder ("Passengers.0" matches nothing). */
  function SaleKeyOf(s: Sale): (r: Option<SaleKey>)
    ensures r.Some? <==> |s.passengers| > 0
  {
    if |s.passengers| == 0 then None
    else Some(SaleKey(s.passengers[0], s.flight.destiny.iata, s.flight.plane.rab, s.flight.departure))
  }

  /** A flight matches a key exactly when its destination IATA, aircraft RAB and departure all equal the key's. */
  lemma FlightKeyMatchesIff(f: Flight, iata: string, rab: string, departure: Date)
    ensures FlightKeyOf(f) == FlightKey(iata, rab, departure)
        <==> f.destiny.iata == iata && f.plane.rab == rab && f.departure == departure
  {
  }

  /**
   * A sale matches a key exactly when its flight's departure, destination IATA
   * and aircraft RAB equal the key's and its first passenger is the key's CPF.
   */
  lemma SaleKeyMatchesIff(s: Sale, cpf: string, iata: string, rab: string, departure: Date)
    ensures SaleKeyOf(s) == Some(SaleKey(cpf, iata, rab, departure))
        <==> s.flight.departure == departure && s.flight.destiny.iata == iata
             && s.flight.plane.rab == rab && |s.passengers| > 0 && s.passengers[0] == cpf
  {
  }

  function CpfOf(p: Passenger): string { p.cpf }

  function CnpjOf(c: Company): string { c.cnpj }

  function RabOf(a: AirCraft): string { a.rab }
}
