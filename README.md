# OnTheFly booking core in Dafny

A model of the booking pipeline of the OnTheFly sale service, with proofs about it. The pipeline is the v1
`SalesController`. Its create endpoint works in this order:

- It validates a sale request.
- It looks up the flight.
- It checks every passenger of the roster against the passenger service: present, not restricted, and an adult
  holder first.
- It refuses a roster that names a passenger twice and refuses a booking larger than the plane's free seats.
- It writes the flight's sales count.
- It publishes the sale to the "Reservation" or the "Sales" queue.

Around the controller the model covers:

- the MongoDB stores it relies on: flights and sales, plus the passenger, company and aircraft stores with the
  same soft-delete design;
- the two validators of the models: the RAB (aircraft registration) grammar and the CPF check digits;
- the age computation.

Layout, one module per source unit:

| module | file | models |
|---|---|---|
| `Wrappers` | wrappers.dfy | `Option`, `Result` |
| `Dates` | dates.dfy | calendar dates, their order, calendar validity |
| `Models` | models.dfy | Company, AirCraft, Airport, Flight, Passenger, Sale, the DTOs, the lookup keys |
| `Keyed` | keyed.dfy | the collection operations of the stores: first match, ReplaceOne, FindOneAndDelete followed by InsertOne |
| `AirCraftRules` | aircraft.dfy | `AirCraft.RabValidation` |
| `PassengerRules` | passenger.dfy | `Passenger.ValidateCpf`, `Passenger.ValidateAge` |
| `SaleConnections`, `FlightConnections`, `PassengerConnections`, `CompanyConnections`, `AirCraftConnections` | *_connection.dfy | one class per store, one `seq` field per collection |
| `SaleService` | sales_controller.dfy | the passenger service, the broker, the v1 `SalesController` |

How the source's entities are represented:

- A MongoDB collection is a sequence of records in insertion order.
- A one-field filter is equality of a key function with a search key.
- `FirstOrDefault`, `FindOneAndDelete`, `UpdateOne` and `ReplaceOne` act on the first matching record.
- A soft delete or restriction moves a record between two collections. It is `Keyed.Transfer`, and a `Fault`
  parameter says whether the database throws on the take or on the insert. Every move with a try/catch turns
  either exception into false. The passenger moves end with a lookup that can also throw, given as `lookupFails`.
- The controller is proved against a pure function, `SaleService.Decide`, so its outcome is a function of:
  - the request;
  - the active flights;
  - the passenger service's answers;
  - today's date.
  The lemmas on `Decide` give the booking rules in both directions.

The model keeps these behaviours of the code as written:

- `UpdateSales` overwrites the flight's count with the roster size instead of adding to it. The capacity check
  is a read followed by a separate write, not one conditional update.
- Nothing is written to the sale store when a sale is created, and there is no compensation step.
- A sale carries two booleans, `Reserved` and `Sold`, rather than a single tag. The controller refuses requests
  where they are equal.
- A present but empty passenger list is accepted.

`SaleService.OverwriteOversells` shows the consequence of the overwrite: three single-passenger bookings are all
accepted on a two-seat plane.

## Model

| member | source | states |
|---|---|---|
| Keyed.IndexOf | OnTheFly.Connections/PassengerConnection.cs:20 | the position of the first record with the key: no earlier record has it, and None exactly when no record has it |
| Keyed.Find | OnTheFly.Connections/PassengerConnection.cs:27 | FirstOrDefault: the record at the first position holding the key, with no earlier record holding it; None exactly when no record has the key |
| Keyed.RemoveAt | OnTheFly.Connections/PassengerConnection.cs:67 | FindOneAndDelete's removal: one record shorter, the same multiset less that record, the order of the others kept |
| Keyed.ReplaceFirst | OnTheFly.Connections/PassengerConnection.cs:53-57 | ReplaceOne: the first match is replaced and nothing else changes; with no match, nothing changes |
| Keyed.CountKey | OnTheFly.Connections/SaleConnection.cs:84-90 | the number of records with the key is the multiplicity of the key among the records' keys, and it is 0 exactly when there is no first match |
| Keyed.Transfer | OnTheFly.Connections/PassengerConnection.cs:98-111 | FindOneAndDelete then InsertOne inside try/catch: true exactly when nothing throws and the source holds the key; then the first match leaves the source and is appended to the target; a throw on the take or no match changes nothing; a throw on the insert leaves the target as it was |
| Keyed.TransferMovesFirstMatch | OnTheFly.Connections/PassengerConnection.cs:100-105 | a successful move takes the first match out of the source, appends it to the target, and conserves the multiset and the size of the two collections together |
| Keyed.TransferInsertFailureLosesRecord | OnTheFly.Connections/SaleConnection.cs:90-102 | an exception on InsertOne after FindOneAndDelete reports false, yet the record has left the source and is not in the target |
| Keyed.CountKeyRemoveAt | OnTheFly.Connections/SaleConnection.cs:90 | removing a record with the key lowers that key's count by exactly one |
| Keyed.CountKeyAppend | OnTheFly.Connections/SaleConnection.cs:95 | appending a record raises only its own key's count, by one |
| Keyed.TransferShiftsOneMatch | OnTheFly.Connections/SaleConnection.cs:90-97 | a successful move lowers the key's count in the source by one and raises it in the target by one |
| Keyed.TransferRoundTrip | OnTheFly.Connections/PassengerConnection.cs:93-133 | moving a record and moving it back restores the target exactly and the source as a multiset, when the target had no record with that key |
| Keyed.IndexOfPastMisses | OnTheFly.Connections/PassengerConnection.cs:103-104 | a key absent from a collection is first found at the record just appended |
| Keyed.IndexOfSameKeyUpdate | OnTheFly.Connections/SaleConnection.cs:65-68 | rewriting a record without changing its key keeps the position of every first match |
| Keyed.FindAfterAppend | OnTheFly.Connections/PassengerConnection.cs:103-105 | after an InsertOne, the lookup by the inserted record's key finds something |
| AirCraftRules.LowerChar | OnTheFly.Models/AirCraft.cs:22 | ToLower on one character: a capital A to Z becomes the letter 32 code points higher, from a to z; every other character is kept |
| AirCraftRules.Lower | OnTheFly.Models/AirCraft.cs:22 | ToLower on a string: the same length, lowered character by character |
| AirCraftRules.RabValidation | OnTheFly.Models/AirCraft.cs:20-54 | a five-character code is accepted exactly when, lowered, its first letter is p, its second one of p r s t u, its third not q, its fourth not w, its last three not a banned tail, and it is not "putas" |
| AirCraftRules.LowerIdempotent | OnTheFly.Models/AirCraft.cs:22 | lowering twice is lowering once |
| AirCraftRules.RabValidationCaseInsensitive | OnTheFly.Models/AirCraft.cs:20-54 | a code and its lower-case form are accepted or refused alike |
| AirCraftRules.RabRejections | OnTheFly.Models/AirCraft.cs:38-51 | each of the five rules refuses on its own: first letter not p, second not one of p r s t u, third q or fourth w, a banned three-letter tail, the literal "putas" |
| AirCraftRules.RabAcceptance | OnTheFly.Models/AirCraft.cs:20-54 | a code that breaks none of the five rules is accepted |
| AirCraftRules.BannedLiteralNeedsItsOwnRule | OnTheFly.Models/AirCraft.cs:50-51 | "PUTAS" passes the first four rules and is refused only by the last |
| Models.SaleKeyOf | OnTheFly.Connections/SaleConnection.cs:42 | a sale has a key exactly when its roster is not empty ("Passengers.0" matches nothing otherwise) |
| Models.SaleKeyMatchesIff | OnTheFly.Connections/SaleConnection.cs:38-42 | a sale matches a key exactly when its flight's departure, destination IATA and aircraft RAB are the key's and its first passenger is the key's CPF |
| Models.FlightKeyMatchesIff | OnTheFly.Connections/FlightConnection.cs:47 | a flight matches a key exactly when its destination IATA, aircraft RAB and departure are the key's |
| PassengerRules.Digit | OnTheFly.Models/Passenger.cs:47 | int.Parse of one digit character: the value d from 0 to 9 whose character is the d-th of "0123456789" |
| PassengerRules.WeightedSum | OnTheFly.Models/Passenger.cs:44-57 | with weights counting down from top, and top at least the number of digits, the sum is between 0 and 9 times the total weight: at most 486 for the first check digit and 585 for the second |
| PassengerRules.StandardCheckDigit | OnTheFly.Models/Passenger.cs:59-69 | the CPF check digit as the standard states it, a digit from 0 to 9 |
| PassengerRules.TimesTenModElevenIsStandard | OnTheFly.Models/Passenger.cs:59-69 | the code's (10 · sum) mod 11, with 10 read as 0, equals the standard check digit for every sum |
| PassengerRules.ValidateCpf | OnTheFly.Models/Passenger.cs:25-80 | true exactly for eleven digits, not all equal, whose two check digits match the weighted sums of the first nine and the first ten |
| PassengerRules.RepeatedDigitsRefused | OnTheFly.Models/Passenger.cs:36-42 | eleven equal digits satisfy both check digits and are still refused |
| PassengerRules.KnownCpfAccepted | OnTheFly.Models/Passenger.cs:44-79 | a well-formed CPF is accepted |
| PassengerRules.ValidateAge | OnTheFly.Models/Passenger.cs:81-89 | the number of whole years lived: its anniversary has come by today and the next has not; it is the year difference or one less; never negative for a birth date not in the future |
| PassengerRules.AnniversaryMonotone | OnTheFly.Models/Passenger.cs:81-89 | once the n-th birthday has come, every earlier one has too |
| PassengerRules.UnderAgeIff | OnTheFly.SaleService/Controllers/v1/SalesController.cs:104 | for the age ValidateAge returns, "age below the limit" holds exactly when the limit's birthday has not come |
| Dates.DaysInMonth | OnTheFly.SaleService/Controllers/v1/SalesController.cs:79-87 | the Gregorian month lengths: 31 days for months 1, 3, 5, 7, 8, 10 and 12; 30 for 4, 6, 9 and 11; February 29 in leap years and 28 otherwise |
| Dates.LeapDayValidIff | OnTheFly.SaleService/Controllers/v1/SalesController.cs:79-87 | February 29 is an accepted date exactly in the leap years from 1 to 9999 |
| Dates.ThirtyFirstValidIff | OnTheFly.SaleService/Controllers/v1/SalesController.cs:79-87 | a 31st is an accepted date exactly in the seven long months of years 1 to 9999 |
| SaleConnections.Toggled | OnTheFly.Connections/SaleConnection.cs:65-66 | both flags are set to the negation of the snapshot's, and the flight and the roster are kept |
| SaleConnections.ToggleSwapsFlags | OnTheFly.Connections/SaleConnection.cs:53-72 | toggling a sale against itself swaps its flags, keeps "exactly one set", and twice restores it |
| SaleConnections.SaleConnection.InsertAsync | OnTheFly.Connections/SaleConnection.cs:17-30 | the sale is appended to the active sales and returned unchanged |
| SaleConnections.SaleConnection.FindSaleAsync | OnTheFly.Connections/SaleConnection.cs:32-45 | the first active sale on that flight whose first passenger is cpf, and None exactly when there is none |
| SaleConnections.SaleConnection.Update | OnTheFly.Connections/SaleConnection.cs:53-72 | the first match gets both flags negated from the snapshot, nothing else changes, and the result is true |
| SaleConnections.SaleConnection.DeleteAsync | OnTheFly.Connections/SaleConnection.cs:74-105 | the first active match moves to the deleted sales; no match or an exception gives false |
| FlightConnections.SetSales | OnTheFly.Connections/FlightConnection.cs:51-65 | only the first flight with the key gets its sales count replaced by n; with no match, nothing changes |
| FlightConnections.FlightConnection.InsertAsync | OnTheFly.Connections/FlightConnection.cs:18-36 | a flight built from the request, the aircraft, the airport and the date is appended and returned |
| FlightConnections.FlightConnection.GetAsync | OnTheFly.Connections/FlightConnection.cs:44-49 | the first active flight with that destination, aircraft and departure, and None exactly when there is none |
| FlightConnections.FlightConnection.UpdateSales | OnTheFly.Connections/FlightConnection.cs:51-65 | the first match's count is overwritten with salesNumber, and the answer is true even with no match |
| FlightConnections.FlightConnection.UpdateStatus | OnTheFly.Connections/FlightConnection.cs:67-84 | true exactly when an active flight matches and is active; then it goes inactive; status is never set to true |
| FlightConnections.FlightConnection.DeleteAsync | OnTheFly.Connections/FlightConnection.cs:86-106 | the first active match moves to the deleted flights; no match gives false |
| PassengerConnections.PassengerConnection.Insert | OnTheFly.Connections/PassengerConnection.cs:16-22 | appends the passenger and returns the first active passenger with that CPF: the inserted one unless an earlier one has the same CPF |
| PassengerConnections.PassengerConnection.FindPassenger | OnTheFly.Connections/PassengerConnection.cs:24-30 | the first active passenger with that CPF, and None exactly when there is none |
| PassengerConnections.PassengerConnection.FindPassengerRestrict | OnTheFly.Connections/PassengerConnection.cs:32-37 | the first restricted passenger with that CPF, and None exactly when there is none |
| PassengerConnections.PassengerConnection.FindPassengerDeleted | OnTheFly.Connections/PassengerConnection.cs:39-44 | the first deleted passenger with that CPF, and None exactly when there is none |
| PassengerConnections.PassengerConnection.Update | OnTheFly.Connections/PassengerConnection.cs:53-57 | ReplaceOne on the active passengers; the other collections are unchanged; the answer is true |
| PassengerConnections.PassengerConnection.Delete | OnTheFly.Connections/PassengerConnection.cs:59-91 | the passenger moves to deleted from the active passengers when there, otherwise from the restricted ones |
| PassengerConnections.PassengerConnection.Restrict | OnTheFly.Connections/PassengerConnection.cs:93-112 | the collections are those of the move of the first active match to the restricted passengers; the answer is true exactly when the move succeeds and the closing lookup does not throw |
| PassengerConnections.PassengerConnection.Unrestrict | OnTheFly.Connections/PassengerConnection.cs:114-133 | the collections are those of the move of the first restricted match to the active passengers; the answer is true exactly when the move succeeds and the closing lookup does not throw |
| PassengerConnections.PassengerConnection.UndeletPassenger | OnTheFly.Connections/PassengerConnection.cs:135-154 | the collections are those of the move of the first deleted match to the active passengers; the answer is true exactly when the move succeeds and the closing lookup does not throw |
| PassengerConnections.MoveKeepsTotal | OnTheFly.Connections/PassengerConnection.cs:93-154 | a successful move loses and duplicates no passenger: it conserves the size and the multiset, and appends a passenger with that CPF |
| CompanyConnections.CompanyConnection.InsertAsync | OnTheFly.Connections/CompanyConnection.cs:16-22 | appends the company and returns the first active company with that CNPJ |
| CompanyConnections.CompanyConnection.FindByCnpjAsync | OnTheFly.Connections/CompanyConnection.cs:30-34 | the first active company with that CNPJ, and None exactly when there is none |
| CompanyConnections.CompanyConnection.FindByCnpjRestrictedAsync | OnTheFly.Connections/CompanyConnection.cs:36-40 | the first restricted company with that CNPJ, and None exactly when there is none |
| CompanyConnections.CompanyConnection.FindByCnpjDeletedAsync | OnTheFly.Connections/CompanyConnection.cs:42-46 | the first deleted company with that CNPJ, and None exactly when there is none |
| CompanyConnections.CompanyConnection.DeleteAsync | OnTheFly.Connections/CompanyConnection.cs:48-78 | the company moves to deleted from the active companies when there, otherwise from the restricted ones |
| CompanyConnections.CompanyConnection.RestrictAsync | OnTheFly.Connections/CompanyConnection.cs:80-100 | the first active match moves to the restricted companies |
| CompanyConnections.CompanyConnection.UnrestrictAsync | OnTheFly.Connections/CompanyConnection.cs:102-122 | the first restricted match moves back to the active companies |
| CompanyConnections.CompanyConnection.UndeleteCompanyAsync | OnTheFly.Connections/CompanyConnection.cs:124-144 | the first deleted match moves back to the active companies |
| CompanyConnections.CompanyConnection.Update | OnTheFly.Connections/CompanyConnection.cs:146-150 | ReplaceOne on the active companies; the answer is true |
| CompanyConnections.CompanyConnection.UpdateStatusAsync | OnTheFly.Connections/CompanyConnection.cs:152-159 | only the status of the first active match changes |
| AirCraftConnections.AirCraftConnection.Insert | OnTheFly.Connections/AirCraftConnection.cs:16-22 | appends the aircraft and returns the first active aircraft with that RAB |
| AirCraftConnections.AirCraftConnection.FindByRab | OnTheFly.Connections/AirCraftConnection.cs:30-35 | the first active aircraft with that RAB, and None exactly when there is none |
| AirCraftConnections.AirCraftConnection.FindByRabDeleted | OnTheFly.Connections/AirCraftConnection.cs:37-41 | the first deleted aircraft with that RAB, and None exactly when there is none |
| AirCraftConnections.AirCraftConnection.Delete | OnTheFly.Connections/AirCraftConnection.cs:43-55 | the first active match moves to the deleted aircraft; no match gives false |
| AirCraftConnections.AirCraftConnection.UndeleteAirCraft | OnTheFly.Connections/AirCraftConnection.cs:57-69 | the first deleted match moves back to the active aircraft |
| AirCraftConnections.AirCraftConnection.Update | OnTheFly.Connections/AirCraftConnection.cs:71-75 | ReplaceOne on the active aircraft; the answer is true |
| AirCraftConnections.AirCraftConnection.PatchDate | OnTheFly.Connections/AirCraftConnection.cs:77-90 | None exactly when no active aircraft has the RAB; otherwise its last-flight date is set in place and the updated record returned |
| AirCraftConnections.DeleteThenUndeleteRestores | OnTheFly.Connections/AirCraftConnection.cs:43-69 | deleting and then undeleting an aircraft restores the deleted collection exactly and the active one as a multiset |
| SaleService.StatusOf | OnTheFly.SaleService/Controllers/v1/SalesController.cs:65-174 | Ok exactly for a created sale, Unauthorized exactly for a minor holder, NotFound exactly for a missing flight or passenger |
| SaleService.RemoveDashes | OnTheFly.SaleService/Controllers/v1/SalesController.cs:72 | the result holds no '-' and every other character of the input as often as the input does, and nothing more; a code without dashes is kept |
| SaleService.RemoveDashesConcat | OnTheFly.SaleService/Controllers/v1/SalesController.cs:72 | removing dashes from a concatenation is removing them from each part, so the kept characters keep their order |
| SaleService.Lookup | OnTheFly.SaleService/Services/v1/PassengerService.cs:10-22 | a passenger exactly when the service knows the CPF, and then the one it knows |
| SaleService.EntryError | OnTheFly.SaleService/Controllers/v1/SalesController.cs:97-105 | an entry passes exactly when its passenger is known, active, and, for the holder, 18 or older; otherwise NotFound when unknown, restricted when inactive, the minor-holder error exactly for an active holder under 18 |
| SaleService.Screen | OnTheFly.SaleService/Controllers/v1/SalesController.cs:93-108 | a successful scan of n entries yields n CPFs, each the fetched passenger's CPF of that entry; a failed scan fails only with a missing, restricted or minor-holder passenger |
| SaleService.Occurrences | OnTheFly.SaleService/Controllers/v1/SalesController.cs:112 | FindAll(...).Count: the multiplicity of the CPF in the roster, at most the roster size, and 0 exactly when the CPF is absent |
| SaleService.Decide | OnTheFly.SaleService/Controllers/v1/SalesController.cs:65-129 | a created sale carries the request's flags, exactly one of them set, an active flight, no CPF twice, and fits the plane |
| SaleService.PassengerService.GetPassengerAsync | OnTheFly.SaleService/Services/v1/PassengerService.cs:10-22 | the passenger when the service answers with success, None otherwise |
| SaleService.MessageBroker.BasicPublish | OnTheFly.SaleService/Controllers/v1/SalesController.cs:165-170 | the message is appended to the queue the routing key names, and the other queue is untouched |
| SaleService.SalesController.ScreenPassengers | OnTheFly.SaleService/Controllers/v1/SalesController.cs:93-108 | the first loop computes exactly the scan Screen specifies |
| SaleService.HasRepeatedPassenger | OnTheFly.SaleService/Controllers/v1/SalesController.cs:110-115 | the second loop refuses exactly the rosters in which some CPF occurs at two positions |
| SaleService.SalesController.CreateSaleAsync | OnTheFly.SaleService/Controllers/v1/SalesController.cs:65-174 | the outcome is Decide's; a rejection changes nothing; a success overwrites the flight's count with the roster size and publishes the sale to exactly one queue, "Reservation" when reserved and "Sales" otherwise; the sale store is untouched |
| SaleService.SalesController.GetSaleAsync | OnTheFly.SaleService/Controllers/v1/SalesController.cs:43-62 | a bad date is BadRequest; otherwise the first matching active sale, or NotFound exactly when there is none |
| SaleService.SalesController.DeleteSaleAsync | OnTheFly.SaleService/Controllers/v1/SalesController.cs:176-199 | a bad date is BadRequest and no match is NotFound, both changing nothing; otherwise the store's soft delete runs and the answer is Ok |
| SaleService.SalesController.UpdateSaleAsync | OnTheFly.SaleService/Controllers/v1/SalesController.cs:201-225 | a bad date is BadRequest and no match is NotFound; otherwise the found sale's flags are negated in the store and the answer is Ok |
| SaleService.ScreenErrPersists | OnTheFly.SaleService/Controllers/v1/SalesController.cs:97-105 | the first refused entry ends the scan: later entries do not change its error |
| SaleService.RepeatCountsTwice | OnTheFly.SaleService/Controllers/v1/SalesController.cs:112-113 | a CPF at two positions has a FindAll count of at least 2 |
| SaleService.DistinctCountsOnce | OnTheFly.SaleService/Controllers/v1/SalesController.cs:112-113 | in a roster without repeats every CPF's count is exactly 1 |
| SaleService.OccurrenceCheckIff | OnTheFly.SaleService/Controllers/v1/SalesController.cs:110-115 | "every count is 1" holds exactly when no CPF occurs at two positions, in both directions |
| SaleService.ScreenOkIff | OnTheFly.SaleService/Controllers/v1/SalesController.cs:95-108 | the scan succeeds exactly when every entry is known and active and the first entry is at least 18 |
| SaleService.ScreenFirstError | OnTheFly.SaleService/Controllers/v1/SalesController.cs:95-108 | a failed scan reports the error of the first failing entry, and every entry before it passed |
| SaleService.CreatedSaleSatisfiesRules | OnTheFly.SaleService/Controllers/v1/SalesController.cs:65-129 | every created sale has: exactly one of reserved and sold; a valid RAB and date; the requested flight; the fetched CPFs in roster order, all active; an adult holder; no CPF twice; room on the plane |
| SaleService.RulesSufficeForCreation | OnTheFly.SaleService/Controllers/v1/SalesController.cs:65-129 | conversely, a request meeting every rule is accepted, with the first matching active flight |
| SaleService.RepeatedPassengerRejected | OnTheFly.SaleService/Controllers/v1/SalesController.cs:110-115 | a roster naming the same passenger twice, at any two positions, is refused as a duplicate |
| SaleService.MinorHolderRejected | OnTheFly.SaleService/Controllers/v1/SalesController.cs:104-105 | a holder under 18 is refused with Unauthorized, whoever follows |
| SaleService.MinorAcceptedBehindAdult | OnTheFly.SaleService/Controllers/v1/SalesController.cs:104 | a minor behind an adult holder passes the scan |
| SaleService.EarlyChecksIgnoreStores | OnTheFly.SaleService/Controllers/v1/SalesController.cs:67-87 | a request failing a check before the flight lookup is refused, with the same answer whatever the stores and the date |
| SaleService.DecideReportsFirstFailedCheck | OnTheFly.SaleService/Controllers/v1/SalesController.cs:65-118 | each error is reported exactly when every earlier check passed and its own failed, in the order null roster, flags, RAB length, RAB grammar, date, flight lookup, roster scan, duplicates, capacity |
| SaleService.EmptyRosterResetsSales | OnTheFly.SaleService/Controllers/v1/SalesController.cs:93-120 | an empty but present passenger list is accepted and writes 0 over the flight's count |
| SaleService.OverwriteOversells | OnTheFly.SaleService/Controllers/v1/SalesController.cs:117-120 | with the count overwritten rather than increased, three single-passenger bookings on a two-seat plane are all accepted and the stored count stays 1 |

## Left out

- The RabbitMQ connection, queue declaration, JSON serialisation and UTF-8 encoding are not modelled. A queue is
  a sequence of published sales.
- The HTTP call to the passenger service is not modelled. The service is a map from CPF to passenger, and a
  non-success response is a missing key.
- Concurrency and `async` interleavings are not modelled. Every call runs to completion, one at a time, so the
  race between two bookings that each read a stale count is outside this model.
- DateTime parsing and culture are left out. In CreateSaleAsync an unparsable date is approximated by calendar
  validity (years 1 to 9999, months, leap years). The departure strings of the Get, Delete and Update endpoints
  arrive already parsed, as an `Option<Date>`.
- The time of day (" 09:00") is left out.
- DateTime.Now is a `now` parameter. ValidateAge reads it once, where the source reads it up to four times; a
  date change between those reads is not modelled.
- PassengerRules.ValidateCpf: `long.TryParse` accepts an eleven-character string with a sign or a space. The
  source's `int.Parse` then throws when that character is among the first ten, or when it is the last and the
  first check digit matches. Otherwise the source returns false. The model returns false in every such case.
- PassengerRules.ValidateCpf: the `Console.WriteLine` is dropped.
- Mongo field names and collection names appear only as comments.
- Every `IsAcknowledged` is true. A server that does not acknowledge is not modelled.
- In methods without try/catch, an exception propagates to the caller. Those methods have no fault parameter
  and do not model it: the aircraft and flight moves, the updates and the inserts.
- AirCraftConnections.AirCraftConnection.PatchDate: in the database the update targets the field name
  "DtLastFlight". The model sets the last-flight date of the record and does not model a field-name mismatch.
- The FindAll and FindAllAsync methods of every store, and the controller's GetAllSalesAsync, are not
  modelled. They list a collection with no rule to prove.
- The other controllers, the older non-versioned SalesController, AirportConnection and StateConnection are not
  part of this model.
- The `Id`, address and nullable-reference details of the models are left out. A missing document is `None`.
- C# `int` overflow of the sales count, the capacity and the CPF weighted sums is not modelled. Integers are
  unbounded; the CPF sums are at most 486 and 585.
- `ToLower` is modelled for ASCII letters only.

