# Parking lot: levels, spots, vehicles, tickets and rates

This project models the core of a small parking-lot system written in JavaScript.

- **Facility.** The facility is made of numbered levels. Each level holds an ordered list of spots of three sizes: COMPACT, MOTORCYCLE and LARGE.
- **Registration.** Vehicles of three types (CAR, MOTORCYCLE, BUS) are registered by licence plate.
- **Parking.** Parking a vehicle runs a first-fit search. It scans the levels in creation order and the spots of each level in order, and takes the first available spot whose size fits the vehicle's type. It binds the vehicle to that spot and issues an open ticket, stamped with the entry time, in an append-only ticket log with auto-incrementing ids.
- **Unparking.** Unparking closes the ticket at the exit time (an exit before the entry is refused). It prices the stay as rate × hours for the vehicle's type, records the charge on the ticket and frees the spot.
- **Rate table.** The rate table can be updated per type.

The system has two orchestrators:

- `ParkingLotService` works through the spot, ticket, vehicle and pricing services. Its pricing service treats a rate of 0 as unset.
- `ParkingLot` works on the repositories directly. Its rate table is unchecked and inherited.

The model takes the source's own form:

- **Entities.** Spot, Vehicle, Ticket and ParkingLevel are classes whose setters change fields in place.
- **Repositories.** These are classes holding a `seq` (spots, levels) or an id-keyed `map` (tickets, vehicles) together with their counters.
- **Services and orchestrators.** These are classes whose methods are proved against the repositories' state.
- **Allocation loops.** The nested loops of the allocation are a method with loop invariants, proved equal to a recursive specification (`Allocation.ScanLevels`).
- **Timestamps** are integer milliseconds. Hours and charges are `real`.
- **Errors.** The errors the source throws are the constructors of `Errors.Error`, returned through `Result` and `Outcome`.

Across the stores the orchestrators keep these invariants (`Facility.Consistent`):

- a spot is available exactly when it holds no vehicle;
- no vehicle occupies two spots;
- every occupant is registered;
- plates are unique in the registry;
- every open ticket's spot holds a vehicle with the ticket's plate;
- no plate has two open tickets;
- a closed ticket never exits before it entered;
- ticket ids are 1, 2, 3, … in issue order;
- levels are numbered 1, 2, 3, … in creation order;
- every level's spots are in the spot store.

Every state-changing operation of both orchestrators preserves them.

Where the source is broken, the model follows the evidently intended behaviour. Each divergence is either listed under "Findings", with the as-written behaviour modelled beside it, or listed under "Left out".

## Model

| member | source | states |
|---|---|---|
| VehicleEntity.VehicleTypeNamed | entities/Vehicle.js:1-5 | A type name is recognised exactly when it is CAR, MOTORCYCLE or BUS, and the type found carries that name |
| VehicleEntity.Vehicle.constructor | entities/Vehicle.js:17-22 | Plate, type and entry time are stored as given; the exit time starts unset |
| VehicleEntity.Vehicle.SetExitTime | entities/Vehicle.js:52-54 | The exit time read back is the one set |
| SpotEntity.SpotSizeNamed | entities/Spot.js:5-9 | A size name is recognised exactly when it is COMPACT, MOTORCYCLE or LARGE, and the size found carries that name |
| SpotEntity.Spot.constructor | entities/Spot.js:22-28 | A new spot has the given size, level and row, is available and holds no vehicle |
| SpotEntity.Spot.SetAvailable | entities/Spot.js:49-51 | Only the availability flag changes; the occupant is untouched, so the entity alone does not keep the flag and the occupant in step |
| SpotEntity.Spot.SetVehicle | entities/Spot.js:65-67 | Only the occupant changes; the flag is untouched |
| TicketEntity.Ticket.constructor | entities/Ticket.js:14-21 | Id, plate, entry time and spot are stored as given; the exit time is unset (the ticket is open) and the price is 0 |
| TicketEntity.Ticket.SetExitTimestamp | entities/Ticket.js:62-64 | Only the exit time changes (the ticket becomes closed); the price is kept |
| TicketEntity.Ticket.SetPrice | entities/Ticket.js:78-80 | Only the price changes; the exit time is kept |
| LevelEntity.ParkingLevel.constructor | entities/ParkingLevel.js:8-11 | A new level has the given number and no spots |
| LevelEntity.ParkingLevel.AddRow | entities/ParkingLevel.js:33-35 | The spot is appended at the end and every earlier spot keeps its position |
| SpotRepo.IndexOfVehicle | repositories/SpotRepository.js:29-31 | The position of the first spot occupied by that vehicle (compared by reference); when none is found, no spot holds it |
| SpotRepo.OccupiedByType | repositories/SpotRepository.js:39-48 | Exactly the spots of the list whose occupant has the given type, never more spots than the list |
| SpotRepo.FirstOfSize | repositories/SpotRepository.js:56-59 | The position of the first spot of that size; when none is found, no spot has it |
| SpotRepo.WithAvailability | repositories/SpotRepository.js:67-72 | Exactly the spots of the list whose flag equals the one asked for |
| SpotRepo.OccupiedByTypeAppend | repositories/SpotRepository.js:39-48 | The type filter keeps list order: filtering a concatenation concatenates the filtered parts |
| SpotRepo.WithAvailabilityAppend | repositories/SpotRepository.js:67-72 | The availability filter keeps list order in the same way |
| SpotRepo.FirstPassNeverMatches | services/ParkingLotService.js:115-136 | When every available spot is empty, the first allocation pass (available spots already holding a vehicle of the type) finds nothing, so that pass is dead |
| SpotRepo.SpotRepository.constructor | repositories/SpotRepository.js:7-9 | The store starts empty |
| SpotRepo.SpotRepository.CreateSpot | repositories/SpotRepository.js:18-22 | Exactly one new spot is appended and returned; it has the given size, level and row, is available and is empty |
| SpotRepo.SpotRepository.FindSpotByVehicle | repositories/SpotRepository.js:29-31 | The first stored spot holding that vehicle (no earlier spot holds it); nothing exactly when no stored spot holds it |
| SpotRepo.SpotRepository.FindSpotsByVehicleType | repositories/SpotRepository.js:39-48 | Exactly the spots of the list (or of the store) occupied by a vehicle of that type; empty on a list of empty spots |
| SpotRepo.SpotRepository.FindSpotBySize | repositories/SpotRepository.js:56-59 | The first spot of that size in the list (or the store), no earlier spot having it; nothing exactly when none has that size |
| SpotRepo.SpotRepository.FindAllSpotByAvailability | repositories/SpotRepository.js:67-72 | Exactly the spots of the list (or the store) whose flag equals the one asked for |
| LevelRepo.IndexOfLevel | repositories/PakingLotRepository.js:33-35 | The first present slot holding a level with that number; when none is found, no present level has it |
| LevelRepo.PushesAsWrittenNeverStops | repositories/PakingLotRepository.js:58-60 | As written, a positive count makes the append loop push on every step it is given, so it never ends |
| LevelRepo.PakingLotRepository.constructor | repositories/PakingLotRepository.js:13-17 | No levels, the counter at 1, and the spot store shared |
| LevelRepo.PakingLotRepository.AddPakingLevel | repositories/PakingLotRepository.js:21-26 | A new empty level is appended, numbered one more than the number of levels so far, which keeps the rule that slot i holds level i + 1 |
| LevelRepo.PakingLotRepository.FindPakingLevelByLevelNumber | repositories/PakingLotRepository.js:33-35 | The stored level with that number, or nothing exactly when no present level has it; under the numbering rule, found exactly for the numbers of present slots |
| LevelRepo.PakingLotRepository.AddParkingRow | repositories/PakingLotRepository.js:43-47 | One new empty, available spot with that level, row and size is added both to the store and to the end of the level |
| LevelRepo.PakingLotRepository.AddVehicleSpot | repositories/PakingLotRepository.js:55-61 | Fails, changing nothing, exactly when the level is absent. Otherwise it appends exactly the count of new empty, available spots of the size to the store and to the level, in the same order, with row numbers continuing from the level's count |
| LevelRepo.PakingLotRepository.FindAllPakingLevel | repositories/PakingLotRepository.js:67-69 | The level slots in creation order: one per level ever added, numbers increasing; slot i is present exactly when level i + 1 can be found, and then holds the level found |
| LevelRepo.PakingLotRepository.RemovePakingLevelById | repositories/PakingLotRepository.js:75-79 | Refuses id 0 and an empty or missing slot, changing nothing; succeeds exactly when slot id is present, and then empties exactly that slot, keeping the numbering rule and the counter |
| TicketRepo.FirstOpenFor | repositories/TicketRepository.js:53-59 | The position of the first open ticket with that plate; when none is found, there is none |
| TicketRepo.ClosedFor | repositories/TicketRepository.js:66-72 | Exactly the closed tickets of the list with that plate |
| TicketRepo.ExitCheck | repositories/TicketRepository.js:79-84 | Passes exactly for an open ticket whose entry is not after the exit (an exit at the entry instant passes); otherwise "already exited", then "invalid exit time" |
| TicketRepo.AddOpenTicket | repositories/TicketRepository.js:19-29 | Logging an open ticket keeps one open ticket per plate exactly when its plate had none, and leaves the closed tickets as they were |
| TicketRepo.TicketRepository.constructor | repositories/TicketRepository.js:8-11 | An empty log with the counter at 1 |
| TicketRepo.TicketRepository.GetAllTickets | repositories/TicketRepository.js:44-46 | Every logged ticket, in id order, one per id handed out (nothing is ever removed) |
| TicketRepo.TicketRepository.AddTicket | repositories/TicketRepository.js:19-29 | A new open ticket with price 0 is stored under the next id, larger than every id before; the counter advances by one; the open-ticket-per-plate rule survives exactly when the plate had no open ticket |
| TicketRepo.TicketRepository.FindTicketById | repositories/TicketRepository.js:36-38 | The ticket stored under that id; one is found exactly for the ids handed out |
| TicketRepo.TicketRepository.FindEntryTicketByVehicleLicensePlate | repositories/TicketRepository.js:53-59 | The open ticket with that plate and the smallest id; nothing exactly when the plate has no open ticket |
| TicketRepo.TicketRepository.FindExitTicketByVehicleLicensePlate | repositories/TicketRepository.js:66-72 | Exactly the closed tickets with that plate |
| TicketRepo.TicketRepository.EntryExitPartition | repositories/TicketRepository.js:53-72 | With one open ticket per plate, each of a plate's tickets is either the one the open lookup returns or among the closed ones, never both |
| TicketRepo.TicketRepository.SetExitTimestamp | repositories/TicketRepository.js:79-86 | The outcome is `ExitCheck` on the ticket as it was; on success only the exit time is set, and on failure the ticket is unchanged |
| TicketRepo.TicketRepository.SetTicketPrice | repositories/TicketRepository.js:102-104 | Only the price changes |
| VehicleRepo.FirstWithPlate | repositories/VehicleRepository.js:38-44 | The position of the first vehicle with that plate; when none is found, there is none |
| VehicleRepo.OfType | repositories/VehicleRepository.js:59-67 | Exactly the vehicles of the list of that type |
| VehicleRepo.VehicleRepository.constructor | repositories/VehicleRepository.js:8-11 | An empty registry with the counter at 1 |
| VehicleRepo.VehicleRepository.FindAllVehicles | repositories/VehicleRepository.js:50-52 | Every stored vehicle, one entry per id |
| VehicleRepo.VehicleRepository.AddVehicle | repositories/VehicleRepository.js:17-22 | A new copy (same plate and type, no entry time) is stored under the next id, and that id then finds it. The counter and the number stored each grow by exactly one, with no duplicate-plate check |
| VehicleRepo.VehicleRepository.FindVehicleById | repositories/VehicleRepository.js:29-31 | The vehicle under that id; nothing exactly for a key not stored, and always nothing for ids never handed out |
| VehicleRepo.VehicleRepository.FindVehicleByLicensePlate | repositories/VehicleRepository.js:38-44 | Refuses exactly the empty plate; otherwise a stored vehicle with that plate, or nothing exactly when none has it |
| VehicleRepo.VehicleRepository.FindVehicleByVehicleType | repositories/VehicleRepository.js:59-67 | Refuses an empty, then an unknown type name; otherwise exactly the stored vehicles of that type |
| VehicleRepo.VehicleRepository.RemoveVehicle | repositories/VehicleRepository.js:73-77 | Refuses id 0 and an id with no vehicle, changing nothing; succeeds exactly when a vehicle is stored under the id, and then removes exactly that entry and the count drops by one |
| VehicleRepo.VehicleRepository.CountVehicles | repositories/VehicleRepository.js:83-85 | The number of stored vehicles |
| VehicleRepo.VehicleRepository.CountVehiculesByType | repositories/VehicleRepository.js:92-94 | Refuses the type names the type lookup refuses, with the same error. Otherwise returns exactly the number of stored ids whose vehicle has that type, which is never more than the total count |
| VehicleRepo.OfTypeAppend | repositories/VehicleRepository.js:59-67 | Filtering by type distributes over concatenation, so the filter keeps list order |
| VehicleRepo.OfTypeCountsKeys | repositories/VehicleRepository.js:59-67 | Filtering the id-ordered listing of ids in a range by type leaves exactly as many vehicles as there are ids of that type in the range |
| SpotServices.FitsMatrix | services/SpotService.js:114-125 | The compatibility rule read positively: a motorcycle fits every size, a car fits compact and large, a bus fits only large |
| SpotServices.CanVehicleFit | services/SpotService.js:110-126 | An occupied spot is refused; otherwise true exactly when the vehicle's type fits the spot's size |
| SpotServices.AsWrittenAcceptsBusInMotorcycleSpot | services/SpotService.js:119-124 | As written, a bus is accepted into an empty motorcycle spot, which the intended rule refuses |
| SpotServices.SpotService.constructor | services/SpotService.js:15-18 | The service keeps the given spot store |
| SpotServices.SpotService.Park | services/SpotService.js:86-91 | Succeeds exactly on an empty spot whose size fits. Then the spot holds the vehicle and is unavailable; otherwise the spot is unchanged and the error says whether it was occupied or did not fit |
| SpotServices.SpotService.Unpark | services/SpotService.js:97-102 | Fails, leaving the spot unchanged, exactly on a vacant spot; otherwise the spot is empty and available again |
| TicketServices.DurationHours | services/TicketService.js:109-114 | Hours × 3 600 000 equals the milliseconds stayed; not negative when the exit is not before the entry; 0 exactly when they are equal |
| TicketServices.DurationAdds | services/TicketService.js:109-114 | Durations of consecutive stays add up |
| TicketServices.TicketService.constructor | services/TicketService.js:14-17 | The service keeps the given ticket log |
| TicketServices.TicketService.CreateTicket | services/TicketService.js:26-39 | Logs a new open ticket with price 0 for the vehicle's plate, the entry time and the spot, under the next id; keeps one open ticket per plate exactly when the plate had none |
| TicketServices.TicketService.FindTicketByVehicleForExit | services/TicketService.js:46-53 | The vehicle's open ticket, or nothing exactly when its plate has none |
| TicketServices.TicketService.FindTicketBySpot | services/TicketService.js:60-67 | Refuses exactly an empty spot; otherwise the occupant's open ticket, or nothing exactly when there is none |
| TicketServices.TicketService.AddExitTime | services/TicketService.js:75-84 | Succeeds exactly when the log's exit checks pass, returning the same ticket now closed at that time; on failure the exit time is unchanged; the price is never touched |
| TicketServices.TicketService.AddPrice | services/TicketService.js:92-102 | Succeeds exactly for a positive price, setting only the price and returning the same ticket; otherwise 0 is "required" and a negative price "not positive", and the price is unchanged |
| TicketServices.TicketService.CalculateDuration | services/TicketService.js:109-114 | For a closed ticket, the hours from entry to exit, with the properties of `DurationHours` |
| VehicleServices.VehicleService.constructor | services/VehicleService.js:12-15 | The service keeps the given registry |
| VehicleServices.VehicleService.AddVehicle | services/VehicleService.js:23-30 | Refuses an empty plate, then an unknown type, storing nothing. Otherwise it registers exactly one new vehicle with that plate and type under the next id |
| VehicleServices.VehicleService.GetVehicleById | services/VehicleService.js:37-41 | The vehicle under that id, or "vehicle not found" exactly when there is none (always for id 0) |
| VehicleServices.VehicleService.GetVehicleByLicensePlate | services/VehicleService.js:48-51 | Refuses exactly the empty plate; otherwise the registry's lookup by plate |
| VehicleServices.VehicleService.GetAllVehicles | services/VehicleService.js:57-59 | Every registered vehicle, one entry per id |
| VehicleServices.VehicleService.GetVehicleTypes | services/VehicleService.js:61-63 | The three vehicle types, each exactly once, each recognised by its own name |
| Pricing.PriceCheck | services/TicketService.js:94-99 | Passes exactly for a positive price; 0 is "required" and a negative price "not positive" |
| Pricing.PricingService.constructor | services/PricingService.js:14-16 | The whole table is replaced by the one given |
| Pricing.PricingService.CalculateCharge | services/PricingService.js:23-27 | Fails with "pricing not found" exactly when the type's rate is absent or 0; otherwise rate × duration, which is 0 for no time and not negative for a positive rate and a non-negative duration |
| Pricing.PricingService.CheckPrice | services/PricingService.js:40-45 | Refuses an empty, then an unknown type name; otherwise the charge for one hour, which on success is the stored rate |
| Pricing.PricingService.SetSpotPrice | services/PricingService.js:29-33 | Refuses an unknown type name, leaving the table unchanged; otherwise only that type's rate changes, and a nonzero rate set this way is what `CheckPrice` then reports |
| Pricing.PricingStrategy.constructor | services/PricingStrategy.js:14-16 | The whole table is replaced by the one given, which has a rate for every type |
| Pricing.PricingStrategy.CalculateCharge | services/PricingStrategy.js:23-26 | Rate × duration with no unset check: a stay of no time costs 0 and one hour costs the rate |
| Pricing.PricingStrategy.SetSpotPrice | services/PricingStrategy.js:28-30 | Exactly that type's rate is overwritten, and one hour is then charged at it |
| KeyOrder.ValuesInKeyOrder | repositories/TicketRepository.js:44-46 | Listing a dictionary's values in ascending key order yields exactly the values stored in the range; over a range with no gaps, the value of key lo + i at position i |
| KeyOrder.ValuesInKeyOrderLength | repositories/VehicleRepository.js:50-52 | The listing has one entry per key present, even after removals leave gaps |
| KeyOrder.ValuesInKeyOrderExtend | repositories/TicketRepository.js:19-29 | Storing under the next key appends that value to the end of the listing |
| Allocation.ScanRows | services/ParkingLotService.js:143-153 | Within one level: the first spot from the given position that is available, empty and fits; nothing when there is none; the occupied-spot error only when some available spot holds a vehicle |
| Allocation.ScanLevels | services/ParkingLotService.js:137-155 | Over the levels in order and their spots in order: the first candidate, with no candidate before it; nothing when no present level has one; the occupied-spot error only when some available spot holds a vehicle |
| Allocation.FirstFitSpot | services/ParkingLot.js:131-151 | The spot the search settles on is a spot of some level and is a candidate for the type; there is none exactly when the search finds none |
| Allocation.ScanSucceedsWhenCoherent | services/ParkingLotService.js:142-144 | While every available spot is empty, the search never meets an occupied spot, so "spot is already occupied" cannot arise during allocation |
| Allocation.FindFirstFit | services/ParkingLotService.js:137-155 | The nested loops over levels and spots return exactly what `ScanLevels` specifies |
| Facility.UnparkedHasNoOpenTicket | services/ParkingLotService.js:111-112 | A registered vehicle that occupies no spot has no open ticket, so issuing it one keeps one open ticket per plate |
| Facility.UnknownPlateHasNoOpenTicket | services/ParkingLotService.js:103-110 | A plate that no registered vehicle carries has no open ticket |
| Facility.OpenTicketSpotHoldsVehicle | services/ParkingLotService.js:176-177 | The vehicle of an open ticket sits in that ticket's spot and in no other, so "vehicle is not parked" never arises |
| Facility.OpenTicketVehicleRegistered | services/ParkingLot.js:168-171 | The plate of an open ticket finds, in the registry, the vehicle occupying the ticket's spot, so "vehicle is not found" never arises after the ticket is found |
| Facility.RegistrationKeepsPlatesDistinct | services/ParkingLot.js:97-104 | Registering a vehicle under a plate no vehicle carries keeps plates unique and every occupant registered |
| Facility.IssueKeepsTicketsHeld | services/ParkingLot.js:139-145 | Issuing an open ticket for the vehicle just placed in a stored spot keeps every open ticket's spot holding its vehicle |
| Facility.AppendVacantKeepsSpots | repositories/PakingLotRepository.js:55-61 | Appending new empty, available spots keeps the spot invariants and the open tickets' spots |
| Facility.RegisteredVehicle | services/ParkingLot.js:94-96 | A registered vehicle with that plate; for a non-empty plate, nothing exactly when no registered vehicle carries it |
| Facility.AddLevel | repositories/PakingLotRepository.js:21-26 | Appends a new empty level with the next number, which is then found by that number, and keeps the facility consistent |
| Facility.GrowLevel | repositories/PakingLotRepository.js:55-61 | Appends exactly the count of new empty, available spots of the size to a present level and to the store, in the same order, keeping the facility consistent |
| LotService.SetSpotNewPriceAsWrittenOnlyMotorcycle | services/ParkingLotService.js:199-201 | As written, a rate update passes only for MOTORCYCLE; CAR and BUS are refused as invalid spot sizes |
| LotService.ZeroStayRefusedAsWritten | services/ParkingLotService.js:178-184 | As written, the charge of a stay of no time is refused by the price check, whatever the rate |
| LotService.ParkingLotService.constructor | services/ParkingLotService.js:21-37 | A new, empty level store sharing the spot service's store, over the given services |
| LotService.ParkingLotService.AddPakingLevel | services/ParkingLotService.js:43-46 | Adds an empty level that is found by the number returned, one more than the levels before, leaving earlier levels in place |
| LotService.ParkingLotService.GetParkingLevel | services/ParkingLotService.js:52-54 | The level slots in creation order; slot i holds level i + 1, is present exactly when that level can be found, and then holds the level found |
| LotService.ParkingLotService.GetSpotInLevel | services/ParkingLotService.js:80-86 | Refuses level 0, then a missing level; otherwise that level's spots, all of them in the spot store |
| LotService.ParkingLotService.AddSpotInLevelByVehicleType | services/ParkingLotService.js:62-73 | The source's checks in its order (level 0, empty size, zero and negative count, unknown size, missing level), each with its own error and changing nothing. Succeeds exactly when all pass, appending exactly the count of empty, available spots of that size to the level and to the store |
| LotService.ParkingLotService.ParkVehicle | services/ParkingLotService.js:95-158 | Refuses an empty plate, a zero entry time, an empty type, and an unknown type for a new plate. Success is an open ticket for the plate at the entry time, whose stored spot holds a vehicle with that plate. "Spot is already occupied" never arises |
| LotService.ParkingLotService.ParkAt | services/ParkingLotService.js:144-151 | The chosen spot takes the vehicle and an open ticket for it at that spot is logged under the next id |
| LotService.ParkingLotService.Occupy | services/ParkingLotService.js:144-145 | The chosen empty, fitting spot holds the vehicle and is unavailable, the facility stays consistent, and the vehicle has no open ticket yet |
| LotService.ParkingLotService.IssueTicket | services/ParkingLotService.js:146-150 | A new open ticket for the vehicle at its spot and entry time is logged under the next id, keeping the facility consistent |
| LotService.ParkingLotService.ParkRegistered | services/ParkingLotService.js:111-157 | An already-parked vehicle is refused. "No spot available" holds exactly when the first-fit search finds none. Failures change no spot and log no ticket. On success the ticket is new, open and under the next id, at exactly the first-fit spot, which now holds the vehicle; every other spot is unchanged |
| LotService.ParkingLotService.RegisterIfNew | services/ParkingLotService.js:100-110 | A registered plate yields its vehicle and registers nothing. An unseen plate with an unknown type is refused with nothing registered. Otherwise exactly one new vehicle of that type is registered under the next id. Spots are untouched |
| LotService.ParkingLotService.UnParkVehicle | services/ParkingLotService.js:166-187 | Refuses an empty plate, a zero exit time, an unregistered plate, a plate with no open ticket and an exit before the entry, changing no ticket and no spot. "Not parked" never arises. Only the plate's open ticket and that ticket's spot may change. After an unset rate or a negative charge, the ticket keeps its exit time and its old price and the spot is unchanged. Succeeds exactly when the plate is registered, has an open ticket, the exit is not before its entry and the rate gives a defined, non-negative charge; then the ticket is closed at the exit time and priced at the rate for the vehicle's type × hours, its spot is empty and available, and the charge is returned |
| LotService.ParkingLotService.UnParkRegistered | services/ParkingLotService.js:170-186 | For a given plate and exit time: refuses an unregistered plate, then a plate with no open ticket, then an exit before the entry, changing no ticket and no spot; the only other errors are an unset rate and a negative charge, after which the ticket keeps its exit time and its old price and the spot is unchanged. Only the plate's open ticket and its spot may change. Succeeds exactly when the exit is chargeable, with the same effects as the whole operation |
| LotService.ParkingLotService.Release | services/ParkingLotService.js:176-186 | An exit before the entry is refused, changing no ticket and no spot. An unset rate is refused after closing. No failure changes the spot. Success holds exactly when the exit is valid and the charge is defined and not negative; then the charge is recorded and the spot freed. A stay of no time is charged 0 |
| LotService.ParkingLotService.Close | services/ParkingLotService.js:178 | The ticket closes at the exit time exactly when the exit is not before the entry; after that the plate has no open ticket; the price is untouched |
| LotService.ParkingLotService.RecordCharge | services/ParkingLotService.js:184 | The closed ticket's price becomes the charge, keeping the facility consistent |
| LotService.ParkingLotService.Vacate | services/ParkingLotService.js:185 | The vehicle's spot becomes empty and available, keeping the facility consistent |
| LotService.ParkingLotService.SetSpotNewPrice | services/ParkingLotService.js:194-202 | Refuses an empty name, a zero price, a negative price, then a name that is no vehicle type, leaving the rates unchanged. Otherwise only that type's rate becomes the new price, which `CheckPrice` then reports |
| Lot.SetSpotNewPriceAsWrittenMissesRates | services/ParkingLot.js:192-194 | As written, CAR and BUS rates can never be set, while COMPACT, which is no vehicle type, is written into the table |
| Lot.ParkingLot.constructor | services/ParkingLot.js:21-31 | New empty stores (the level store sharing the spot store) and the three given rates, one per vehicle type |
| Lot.ParkingLot.AddPakingLevel | services/ParkingLot.js:37-40 | Adds an empty level that is found by the number returned, one more than the levels before, leaving earlier levels in place |
| Lot.ParkingLot.GetParkingLevel | services/ParkingLot.js:46-48 | The level slots in creation order; slot i holds level i + 1, is present exactly when that level can be found, and then holds the level found |
| Lot.ParkingLot.GetSpotInLevel | services/ParkingLot.js:74-80 | Refuses level 0, then a missing level; otherwise that level's spots, all of them in the spot store |
| Lot.ParkingLot.AddSpotInLevelByVehicleType | services/ParkingLot.js:56-67 | The same checks in the same order as the service variant (level 0, empty size, zero and negative count, unknown size, missing level), each with its own error and changing nothing. Succeeds exactly when all pass, appending exactly the count of empty, available spots of that size to the level and to the store |
| Lot.ParkingLot.ParkVehicle | services/ParkingLot.js:89-152 | Refuses an empty plate, a zero entry time, an empty type, and an unknown type for a new plate. Success is an open ticket for the plate at the entry time, whose stored spot holds a vehicle with that plate. "Spot is already occupied" never arises |
| Lot.ParkingLot.RegisterIfNew | services/ParkingLot.js:94-104 | A registered plate yields its vehicle and registers nothing. An unseen plate with an unknown type is refused with nothing registered. Otherwise exactly one new vehicle of that type is registered under the next id |
| Lot.ParkingLot.Enrol | services/ParkingLot.js:100-103 | A new copy of the vehicle is registered under the next id, keeping plates unique and the facility consistent |
| Lot.ParkingLot.ParkRegistered | services/ParkingLot.js:105-151 | An already-parked vehicle is refused. "No spot available" holds exactly when the first-fit search finds none. Failures change no spot and log no ticket. On success the ticket is new, open and under the next id, at exactly the first-fit spot, which now holds the vehicle; every other spot is unchanged |
| Lot.ParkingLot.Occupy | services/ParkingLot.js:138-139 | The chosen empty, fitting spot holds the vehicle and is unavailable, the facility stays consistent, and the vehicle has no open ticket yet |
| Lot.ParkingLot.IssueTicket | services/ParkingLot.js:140-145 | A new open ticket for the vehicle at its spot and entry time is logged under the next id, keeping the facility consistent |
| Lot.ParkingLot.Depart | services/ParkingLot.js:172-179 | For a registered vehicle and its open ticket, changing only that ticket and its spot: succeeds exactly when the exit is not before the entry. A failure is an invalid exit time and changes neither. On success the ticket is closed at the exit time and priced at the rate for the vehicle's type × hours, the charge is returned and the spot is empty and available |
| Lot.ParkingLot.UnParkVehicle | services/ParkingLot.js:160-180 | Refuses an empty plate, a zero exit time and a plate with no open ticket. Only the plate's open ticket and that ticket's spot may change. Every failure changes no ticket and no spot, and the vehicle and spot checks never fail. Success holds exactly when an open ticket exists and the exit is not before its entry. Then the ticket is closed and priced at the rate for the registered vehicle's type × hours, and its spot is freed. A stay of no time is charged 0 |
| Lot.ParkingLot.Settle | services/ParkingLot.js:175-178 | The closed ticket's price becomes the rate for the vehicle's type × hours stayed, and its spot becomes empty and available |
| Lot.ParkingLot.Close | services/ParkingLot.js:174 | The ticket closes exactly when the exit is not before the entry, and is untouched otherwise; after closing the plate has no open ticket |
| Lot.ParkingLot.RecordCharge | services/ParkingLot.js:177 | The closed ticket's price becomes the charge, with no positivity check |
| Lot.ParkingLot.Vacate | services/ParkingLot.js:178 | The vehicle's spot becomes empty and available, keeping the facility consistent |
| Lot.ParkingLot.SetSpotNewPrice | services/ParkingLot.js:187-195 | Refuses an empty name, a zero price, a negative price, then a name that is no vehicle type, leaving the rates unchanged. Otherwise only that type's rate becomes the new price, and one hour is then charged at it |

## Left out

- **Console front end.** The prompts, the console output and the promise chain of index.js are not modelled. The parking-row holder class is folded into the spot's row number.
- **JavaScript dynamic checks.** `typeof` tests and missing-argument checks are not modelled. Object arguments are non-null references, and names and counts are typed values.
- **Falsy values.** A falsy string is the empty string, a falsy count or price is 0, and a falsy timestamp is 0.
- **Time and arithmetic.** `Date` objects are integer milliseconds since the epoch, so time 0 counts as missing. Hours and charges are exact reals, not IEEE doubles.
- **Construction order.** `services/ParkingLot.js` assigns fields before calling `super` (lines 22-26), which JavaScript refuses. The model constructs in a legal order.
- **Rate-table inheritance.** `ParkingLot` inherits its rate table from `PricingStrategy`. The model holds a `PricingStrategy` as a field.
- **Default rate tables.** The inherited table's default of zeros (services/PricingStrategy.js:4-8) is overwritten by every constructor before use. The pricing service's default of `null` (services/PricingService.js:14) is not modelled: the model's constructor always takes a table.
- **getPrice and getAllPrice** (services/PricingService.js:52-63) are not modelled. They are not used by the core, and `getPrice` as written returns nothing.
- **Pass-through lookups.** The spot service's `createSpot`, `findSpotByVehicle`, `findSpotsByVehicleType`, `findSpotBySize` and `findAllSpotByAvailability` only forward to the spot store. The orchestrators call the store's own members for them.
- **First allocation pass.** The first pass of `parkVehicle` is not modelled because it is dead. It looks, among available spots, for spots holding a vehicle of the requested type. `SpotRepo.FirstPassNeverMatches` shows that it finds nothing while the facility is consistent.
- **Second pass iterates indices.** The second allocation pass iterates with `for…in`, which yields index strings rather than spots (services/ParkingLotService.js:143, services/ParkingLot.js:137). The model iterates the spots, as intended.
- **Const reassigned.** `parkVehicle` reassigns a `const` vehicle when it registers a new plate (services/ParkingLotService.js:100-106, services/ParkingLot.js:94-100), which would throw. The model uses the newly registered vehicle.
- **Vehicle object passed as plate and type.** `ParkingLot.parkVehicle` passes the vehicle object where `addTicket` expects a plate (services/ParkingLot.js:122, 140). It also passes two strings to `addVehicle`, which expects a vehicle. The model passes the plate, and a vehicle built from the two strings.
- **Methods the spot store lacks.** `ParkingLot.parkVehicle` and `unParkVehicle` call `park`, `unpark` and `canVehicleFit` on the spot store, which has none of them. The model binds and frees the spot with the spot's setters, after the same compatibility rule decides the first fit.
- **Missing calculateDuration.** `ParkingLot.unParkVehicle` calls `calculateDuration` on the ticket log, which has no such method (services/ParkingLot.js:175). The model uses `TicketServices.DurationHours`.
- **Charge looked up by the vehicle object.** Both orchestrators pass the vehicle object to `calculateCharge` where a type is expected (services/ParkingLotService.js:180-183, services/ParkingLot.js:176). The model looks up the rate of the vehicle's type.
- **TicketServices.TicketService.CreateTicket:** omits the source's check that the spot is still available (services/TicketService.js:31), because its only caller has just made the spot unavailable. Ticket issue after binding is the evident intent. It also omits the missing-entry-time check (line 29), which its callers make first.
- **TicketServices.TicketService.AddExitTime:** omits the missing-exit-time check (services/TicketService.js:77), which its caller makes first.
- **TicketServices.TicketService.FindTicketByVehicleForExit:** omits the `get_type()` test, which always throws as written (services/TicketService.js:48); see the first finding.
- **Holes in levels.** `removePakingLevelById` deletes by slot index and leaves a hole. Holes are kept as `null` slots that the lookups and the search skip. In the source, `find` and `for…of` would pass `undefined` to their callbacks and throw.
- **Order in ParkingLotService.unParkVehicle.** The service closes the ticket before it computes the charge. An unset rate or a refused charge then fails after the ticket is closed, with the vehicle still in its spot; the model keeps that order.
- **Lot.ParkingLot.ParkVehicle, LotService.ParkingLotService.ParkVehicle:** state the validation, the ticket and its spot. The first-fit choice and the "nothing else changes" facts are stated on `ParkRegistered`, which they call after registering. Registration persists when no spot is found, as in the source.
- **Numeric keys.** `Object.values` on the id-keyed dictionaries lists values in ascending numeric key order. `KeyOrder.ValuesInKeyOrder` states that order; the repositories' lookups return the same tickets and vehicles.
- **Spot level.** A `Spot` keeps the number of its level where the source keeps the `ParkingLevel` object (entities/Spot.js:26, repositories/PakingLotRepository.js:45). Nothing in the modelled operations reads `get_level`, so only the number is kept.
- **Enum shorthand.** `VehicleType` and `SpotSize` (entities/Vehicle.js:1-5, entities/Spot.js:5-9) are written with shorthand properties that name identifiers declared nowhere, so as written loading either module fails. The model gives each member the string of its own name, the evident intent.
- **Concurrency.** There is none: every operation runs to completion on its own.

## Findings

| source | as written | input that shows it | evidently intended | confidence | as-written member | corrected member |
|---|---|---|---|---|---|---|
| entities/Vehicle.js:36-38 | `get_type` returns the field `type`, which is never assigned (the constructor stores `vehicle_type`), so it yields `undefined`. `canVehicleFit` then never rejects a type, and `addVehicle` stores copies without a type | a BUS and an empty MOTORCYCLE spot: `canVehicleFit` returns true | return the stored vehicle type, so that a bus fits only a large spot and a car no motorcycle spot | not executed | SpotServices.AsWrittenAcceptsBusInMotorcycleSpot | SpotServices.CanVehicleFit |
| services/ParkingLotService.js:199-201 | `setSpotNewPrice` checks the name against the spot sizes, then the pricing service checks it against the vehicle types | `setSpotNewPrice("CAR", 5)` fails with "Invalid spot size"; only MOTORCYCLE can ever be updated | validate the name as a vehicle type, the key of the rate table | not executed | LotService.SetSpotNewPriceAsWrittenOnlyMotorcycle | LotService.ParkingLotService.SetSpotNewPrice |
| services/TicketService.js:94-99 | `addPrice` treats 0 as a missing price | `unParkVehicle` at the entry instant: the charge is 0, `addPrice` throws "price is required" after the ticket was closed | a stay of no time is charged 0 | not executed | LotService.ZeroStayRefusedAsWritten | LotService.ParkingLotService.Release |
| repositories/PakingLotRepository.js:58 | the loop bound re-reads `level.rows.length`, which grows with each push | `addVehicleSpot(1, "LARGE", 1)` on an existing level: the loop never ends | append exactly `noOfSpots` spots | not executed | LevelRepo.PushesAsWrittenNeverStops | LevelRepo.PakingLotRepository.AddVehicleSpot |
| services/ParkingLot.js:192-194 | `setSpotNewPrice` checks the name against the spot sizes, then writes it into the table keyed by vehicle type | `setSpotNewPrice("CAR", 5)` fails with "Invalid spot size"; `setSpotNewPrice("COMPACT", 5)` adds a COMPACT entry that no charge reads | validate the name as a vehicle type and update that type's rate | not executed | Lot.SetSpotNewPriceAsWrittenMissesRates | Lot.ParkingLot.SetSpotNewPrice |
