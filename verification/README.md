# Seat control of an airline inventory

A Dafny model of the AirInv inventory engine: the seat controls of the
segment-cabins of one flight-date, the reservations and optimisations that change
them, the availability of travel solutions, the routing of segments over legs, the
daily snapshots, and the HTTP request parser of the server.  `dafny verify
dfyconfig.toml` checks everything.

Each operation that changes objects is a method over classes (`Bom`), proved
against a specification function over values; the properties of the system are
lemmas about those functions.  Seats and money are real numbers, as the counters,
capacities, bid prices and yields of the program are doubles; rounding is not
modelled.

* `NestedControls`, `BidPrices`, `BookingControls`, `Pools`: the meaning of nested
  availability, booking limits, authorization levels and pools.
* `SegmentCabinHelper`, `YieldNesting`, `Policies`: the loops over one
  segment-cabin.
* `FlightRuns`, `FlightHistories`, `GuardedSales`, `LegLoads`: runs of sales and
  cancellations on a whole flight, and what a guard on availability protects.
* `FlightEvents`: runs of sales, cancellations, optimisations and snapshots in any
  order.
* `FlightDateHelper`, `InventoryHelper`, `Optimisation`: the same on objects.
* `TravelSolutions`: availability by authorization level, RAE and IBP.
* `Routing`, `DirectAccesses`, `Loading`: segments, routing walk, two-way links, and
  the loading of a flight-date up to the state every run starts from.
* `Snapshots`: counters and attribution per day to departure.
* `RequestParser`, `RequestGrammar`: the parser and what it accepts.

The inputs that come from elsewhere are parameters: the ceiling on availability
pools, the "no value" sentinels, the maximum number of legs, the bid-price vectors
left by the optimiser.  The classes of the underlying library are modelled from
how this program uses them: a sale adds to the bookings of a class, a cancellation
subtracts from them and counts itself, and a reservation on a leg-cabin adds to its
committed space and sets its pool to the capacity less that space.

## Where the code is not what one would expect

* A pool is the least room on the legs only under a ceiling;
  `FlightRuns.PoolIsTheLeastRoom` says exactly when the ceiling shows.
* A loaded flight shows no seat: levels and pools are set, but availabilities only
  by the first reservation, snapshot or optimisation.  Runs start from such a flight
  (`FlightRuns.Loaded`, `FlightRuns.LoadedIsConserved`), not from an up-to-date one.
* Every segment guards its own availability, but segments share legs.  Guarded sales
  overbook a leg unless the seats that the nestings of all segments crossing it can
  sell fit it together (`LegLoads.NeverOverbookedIffSeatsFit`).  On a loaded flight
  these are the whole seats of the segments' capacities
  (`LegLoads.LoadedNeverOverbooksIff`), so every loaded flight of two or more legs
  that have a seat, with a nested class on each segment, can be overbooked on every
  leg (`Loading.SeveralLegsOverbook`).  An optimisation after that shows negative
  availabilities (`FlightEvents.SafeToOptimiseIffSeatsFit` has the exact condition).
  Where no two segments share a leg neither can happen
  (`FlightEvents.UnsharedLegsStaySafe`).
* Classes of negative yield are never recalculated, so a guard on the availability
  they show would never close them (`GuardedSales.OutsideSalesNeverStop`).  Loaded
  flights show no seat on them and no event ever puts one there
  (`FlightEvents.EventsStayClosed`), so in reachable states they stay closed;
  `GuardedSales.BookingsStayWithinIff` says what the guard relies on.
* Building the nesting fails exactly when the greatest yield is -1, the value that
  stands for "no node yet" (`YieldNesting.InitYieldBasedNestingStructure`).
* The leg counter of the routing walk starts at 1 and is checked after the loop, so
  a segment needs strictly fewer legs than the maximum, although the comment speaks
  of more legs than the maximum (`Routing.RoutingIsTheLegsBetween`).
* The multi-segment bid-price control offers one seat on a path whose segments have
  none, whenever the fare reaches the total (`TravelSolutions.ControlOpensClosedPaths`).
* Of several classes tied at the lowest yield, only the first is attributed to one
  of the two snapshot tables (`Snapshots.WhoIsAttributed`).
* `Request.hpp` lacks the method, URI and version fields the parser writes; they
  are part of the model.

## Model

| member | source | states |
|---|---|---|
| NestedControls.NestedAvailabilityIsTheMinimum | airinv/bom/SegmentCabinHelper.cpp:239-329 | the availability the two sweeps leave on node k is the minimum, reached, of the room left by the levels of nodes 0..k |
| NestedControls.AvailabilityFollowsYield | airinv/bom/SegmentCabinHelper.cpp:288-328 | availability never increases as the yield decreases |
| NestedControls.RecalculatedIsStable | airinv/bom/SegmentCabinHelper.cpp:239-329 | recalculating availabilities a second time changes nothing |
| NestedControls.BookingShiftsAvailability | airinv/bom/SegmentCabinHelper.cpp:239-329 | d more (or fewer) bookings in a node move nodes of equal or higher yield by exactly d, and lower ones the same way by something between nothing and d |
| NestedControls.BookingOutsideTheNesting | airinv/bom/SegmentCabinHelper.cpp:254-256 | bookings on classes of negative yield move no nested availability |
| NestedControls.SaleEffect | airinv/bom/InventoryHelper.cpp:296-325 | a sale of p lowers equal and higher yields by exactly p and lower yields by between 0 and p |
| NestedControls.AuthorizedGap | airinv/bom/SegmentCabinHelper.cpp:186-236 | after the levels are set, each nested node has room for exactly its limit, whatever is booked |
| NestedControls.AvailabilityIsTheLimit | airinv/bom/SegmentCabinHelper.cpp:186-329 | with limits ordered by yield the cascade changes nothing and availability equals the limit |
| BidPrices.PayableRunStops | airinv/bom/SegmentCabinHelper.cpp:157-169 | the limit scan stops at the first bid price above the yield, counted from the current price |
| BidPrices.BookingLimitIs | airinv/bom/SegmentCabinHelper.cpp:155-169 | the limit is the pool when no price exceeds the yield, and otherwise the number of prices after the last one that does |
| BidPrices.LimitsFollowYield | airinv/bom/SegmentCabinHelper.cpp:157-169 | limits never increase as the yield decreases and never exceed the pool |
| BidPrices.LimitCountsPayableSeats | airinv/bom/SegmentCabinHelper.cpp:157-169 | on a non-increasing vector with one entry per seat, the limit is the number of payable seats |
| BidPrices.AffordableAfterCut | airinv/bom/InventoryHelper.cpp:178-180 | cutting a non-increasing vector to the pool removes payable seats first |
| BidPrices.AffordableInTail | airinv/bom/SegmentCabinHelper.cpp:97-112 | keeping the last entries of a non-increasing vector removes the dear prices first |
| BidPrices.PseudoVectorNonIncreasing | airinv/bom/SegmentCabinHelper.cpp:76-124 | the pseudo bid-price vector is non-increasing whenever every leg vector is |
| BidPrices.PseudoVectorOfOneLeg | airinv/bom/SegmentCabinHelper.cpp:88-108 | over one leg the pseudo vector is the tail of the leg's vector |
| BidPrices.PseudoVectorAdds | airinv/bom/SegmentCabinHelper.cpp:97-112 | the pseudo prices over two lists of legs are, entry by entry, the sums of those over each |
| BookingControls.OptimisedAvailability | airinv/bom/SegmentCabinHelper.cpp:127-329 | after an optimisation every nested class has availability equal to its limit, within the pool and ordered by yield, bookings untouched |
| Pools.LeastIsTheMinimum | airinv/bom/FlightDateHelper.cpp:109-121 | the running minimum of leg pools is the minimum of the pools and the ceiling |
| Bom.BookingClass.Sell | airinv/bom/InventoryHelper.cpp:299-300 | a sale adds the party to the bookings of the class |
| Bom.BookingClass.Cancel | airinv/bom/InventoryHelper.cpp:378-379 | a cancellation subtracts the party and counts it |
| Bom.LegCabin.UpdateFromReservation | airinv/bom/FlightDateHelper.cpp:70-80 | a reservation moves a leg's committed space and resets its pool |
| Bom.NestingFacts | airinv/bom/SegmentCabinHelper.cpp:332-381 | nodes that hold the classes of their own yield share none, and form a well-formed nesting |
| SegmentCabinHelper.SetOwnGaps | airinv/bom/SegmentCabinHelper.cpp:240-286 | the first sweep leaves on every nested class the room of its own level |
| SegmentCabinHelper.Cascade | airinv/bom/SegmentCabinHelper.cpp:288-328 | the cascade turns these into nested availabilities, one value per node |
| SegmentCabinHelper.UpdateAvailabilities | airinv/bom/SegmentCabinHelper.cpp:239-329 | the two sweeps compute the closed form on every nested class and touch nothing else |
| SegmentCabinHelper.UpdateAUs | airinv/bom/SegmentCabinHelper.cpp:186-236 | every nested class gets the bookings at its yield and below plus its limit |
| SegmentCabinHelper.CumulativeLimit | airinv/bom/SegmentCabinHelper.cpp:155-169 | the scan over the pseudo bid prices computes the cumulative booking limit |
| SegmentCabinHelper.UpdateBookingControlsUsingPseudoBidPriceVector | airinv/bom/SegmentCabinHelper.cpp:127-183 | limits from the vector and the pool, then levels from the limits |
| SegmentCabinHelper.BuildPseudoBidPriceVector | airinv/bom/SegmentCabinHelper.cpp:76-124 | the in-place additions give the right-aligned pointwise sum, as long as the truncated pool |
| SegmentCabinHelper.InitialiseAU | airinv/bom/SegmentCabinHelper.cpp:28-60 | capacity, pool and every level become the least capacity of the legs |
| YieldNesting.Insert | airinv/bom/SegmentCabinHelper.cpp:341-351 | inserting a class keeps the map sorted and equal yields in order |
| YieldNesting.ClassMap | airinv/bom/SegmentCabinHelper.cpp:341-351 | the map holds the classes sorted by yield, equal yields in list order |
| YieldNesting.InitYieldBasedNestingStructure | airinv/bom/SegmentCabinHelper.cpp:332-381 | one node per yield in strictly decreasing order with all its classes, last inserted first; fails exactly when the greatest yield is -1 |
| YieldNesting.SortedEntriesAreGrouped | airinv/bom/SegmentCabinHelper.cpp:353-380 | the backward sweep over the sorted map groups it by yield |
| YieldNesting.NodesPartitionTheClasses | airinv/bom/SegmentCabinHelper.cpp:353-380 | every class is in exactly one place of the one node of its yield, and nothing else is |
| YieldNesting.NodesAreReady | airinv/bom/SegmentCabinHelper.cpp:50-59 | a nesting of freshly opened classes meets what the control updates demand |
| Policies.PolicyTable.CreatePolicies | airinv/bom/SegmentCabinHelper.cpp:404-466 | the recursion appends all extensions of the current policy, numbered on, and the counter grows by their number |
| Policies.PolicyTable.InitListOfUsablePolicies | airinv/bom/SegmentCabinHelper.cpp:384-401 | the table receives the empty policy and all others, keyed 0, 1, 2, ... |
| Policies.PoliciesAreTheDecreasingChoices | airinv/bom/SegmentCabinHelper.cpp:404-466 | a list of classes is generated if and only if it is a strictly yield-decreasing choice from the first families |
| Policies.PoliciesDiffer | airinv/bom/SegmentCabinHelper.cpp:404-466 | no policy is generated twice |
| FlightRuns.StepSettles | airinv/bom/FlightDateHelper.cpp:66-141 | on any conserved flight, up to date or not, a reservation keeps legs equal to the bookings crossing them and segments to their own, and brings pools and availabilities up to date |
| FlightRuns.RunSettles | airinv/bom/FlightDateHelper.cpp:66-141 | conservation in every state reached by any run of sales and cancellations; pools and availabilities up to date from the first reservation on |
| FlightRuns.StepKeepsShape | airinv/bom/InventoryHelper.cpp:296-404 | reservations change no route, yield, level, limit, nor availability outside the nesting |
| FlightRuns.ReservationOnLegs | airinv/bom/FlightDateHelper.cpp:66-80 | a sale takes its seats on every leg of its segment and resets their pools, a cancellation gives them back, no other leg changes |
| FlightRuns.DemandAddsUp | airinv/bom/FlightDateHelper.cpp:66-80 | the bookings a leg is to hold add up over the segments, each with all its bookings on every leg of its route |
| FlightRuns.SaleOnFlight | airinv/bom/InventoryHelper.cpp:296-325 | the effect of a sale, on a class of any yield, on the availability of every class of every segment of the flight |
| FlightRuns.LoadedIsConserved | airinv/bom/SegmentDateHelper.cpp:57-67 | a flight as it is loaded, with no availability computed yet, is a valid start of a run |
| FlightRuns.PoolIsTheLeastRoom | airinv/bom/FlightDateHelper.cpp:91-123 | a pool is the least room left by the bookings crossing its legs, exactly when some leg is within the ceiling |
| FlightHistories.RunClass | airinv/bom/InventoryHelper.cpp:296-404 | a run leaves each class its net bookings and its count of cancellations |
| FlightHistories.BookingsDetermineState | airinv/bom/FlightDateHelper.cpp:66-141 | committed spaces, pools and availabilities are functions of the bookings |
| FlightHistories.OnlyNetBookingsMatter | airinv/bom/InventoryHelper.cpp:296-404 | from any conserved flight, non-empty histories with equal net bookings leave equal states up to cancellation counters; from an up-to-date one the empty history too |
| FlightHistories.ReservationsCommute | airinv/bom/InventoryHelper.cpp:296-404 | any two reservations give the same flight in either order |
| FlightHistories.CancellationUndoesSale | airinv/bom/InventoryHelper.cpp:375-404 | cancelling a sold party restores everything but one cancellation counter if and only if the flight was up to date before |
| GuardedSales.GuardedRunKeepsNonNegative | airinv/bom/InventoryHelper.cpp:296-325 | no run of guarded sales and of cancellations drives a nested availability below zero |
| GuardedSales.GuardedRunsStayWithinTheTopLevel | airinv/bom/SegmentCabinHelper.cpp:239-329 | in guarded runs the nested bookings stay within the level of the top node |
| GuardedSales.GuardedRunsStayWithinCapacity | airinv/bom/SegmentCabinHelper.cpp:28-60 | from a loaded flight, all bookings of a segment-cabin, of whatever yield, stay within its initial capacity |
| GuardedSales.LoadedIsHonest | airinv/bom/SegmentCabinHelper.cpp:47-59 | no class of a loaded flight shows more than it can sell |
| GuardedSales.OutsideSalesNeverStop | airinv/bom/SegmentCabinHelper.cpp:254-256 | where a class of negative yield shows one seat, guarded sales can book any number |
| GuardedSales.BookingsStayWithinIff | airinv/bom/SegmentCabinHelper.cpp:239-329 | guarded runs keep all bookings of a segment-cabin within a bound if and only if no class of negative yield shows a seat and the bookings taken, with the whole seats the top node has left, fit the bound |
| LegLoads.GuardedRunsTakeTheSeats | airinv/bom/FlightDateHelper.cpp:66-80 | a guarded run takes no more seats from a leg than the nestings of the segments crossing it can sell |
| LegLoads.SomeRunTakesTheSeats | airinv/bom/FlightDateHelper.cpp:66-80 | some guarded run takes exactly these seats |
| LegLoads.NeverOverbookedIffSeatsFit | airinv/bom/FlightDateHelper.cpp:66-123 | guarded runs never overbook a leg if and only if no segment crossing it shows a seat on a class of negative yield and the seats that all their nestings can sell fit the leg |
| LegLoads.TwoSegmentsOverbook | airinv/bom/FlightDateHelper.cpp:66-123 | two segments that show a seat over a leg with less than two left overbook it with two guarded sales |
| LegLoads.LoadedNeverOverbooksIff | airinv/bom/SegmentCabinHelper.cpp:28-60 | on a loaded flight, guarded runs never overbook a leg if and only if the whole seats of all segments crossing it fit its capacity |
| LegLoads.LoadedSegmentsOverbook | airinv/bom/SegmentCabinHelper.cpp:28-60 | two nested segments of a loaded flight whose whole seats exceed the capacity of a common leg overbook it |
| FlightEvents.OptimisationConserves | airinv/bom/FlightDateHelper.cpp:21-48 | an optimisation in the middle of a run keeps it conserved, and up to date where it was |
| FlightEvents.SnapshotConserves | airinv/bom/SegmentSnapshotTableHelper.cpp:50-51 | so does the recalculation of a snapshot, for whatever segment-cabins are seen |
| FlightEvents.EventsConserve | airinv/service/AIRINV_Service.cpp:1192-1195 | conservation in every state reached by any run of sales, cancellations, optimisations and snapshots |
| FlightEvents.OptimisedShowsThePool | airinv/bom/SegmentCabinHelper.cpp:127-183 | an optimised nested class shows what its node can sell, within the pool, and not negative if and only if the pool is not |
| FlightEvents.OptimisationShowsNoNegativeIff | airinv/bom/SegmentCabinHelper.cpp:127-183 | after an optimisation no availability is negative if and only if no pool of a segment-cabin with a nested class is |
| FlightEvents.SafeToOptimiseIff | airinv/service/AIRINV_Service.cpp:1192-1195 | from any conserved flight, guarded runs can be optimised without negative availabilities if and only if pools are not negative to begin with and no leg of a segment with a nested class is overbooked |
| FlightEvents.SafeToOptimiseIffSeatsFit | airinv/service/AIRINV_Service.cpp:1192-1195 | the same in terms of pools, shown availabilities and the seats that the nestings crossing each leg can sell |
| FlightEvents.SettledSafeToOptimiseIff | airinv/service/AIRINV_Service.cpp:1192-1195 | on an up-to-date flight without negative availabilities the seats alone decide |
| FlightEvents.UnsharedLegsStaySafe | airinv/bom/FlightDateHelper.cpp:66-141 | where no two segments share a leg, guarded runs with optimisations and snapshots never overbook a leg nor leave a class short of seats |
| FlightEvents.LoadedIsSafe | airinv/bom/SegmentCabinHelper.cpp:28-60 | a loaded flight is a valid start of such a run |
| FlightEvents.EventsStayClosed | airinv/bom/SegmentCabinHelper.cpp:254-256 | no reservation, optimisation or snapshot puts a seat on show on a class of negative yield |
| FlightDateHelper.UpdateLegs | airinv/bom/FlightDateHelper.cpp:70-80 | the loop commits space on exactly the legs of the segment |
| FlightDateHelper.UpdateAvailabilityPool | airinv/bom/FlightDateHelper.cpp:91-123 | every segment-cabin gets the least pool of its legs |
| FlightDateHelper.RecalculateAvailability | airinv/bom/FlightDateHelper.cpp:126-141 | every segment-cabin gets its nested availabilities |
| FlightDateHelper.UpdateFromReservation | airinv/bom/SegmentCabinHelper.cpp:63-73 | segment, legs, pools and availabilities are updated, in that order, and nothing else |
| InventoryHelper.Sell | airinv/bom/InventoryHelper.cpp:296-325 | selling on a class object is one Sale step of the whole flight |
| InventoryHelper.Cancel | airinv/bom/InventoryHelper.cpp:375-404 | cancelling on a class object is one Cancellation step of the whole flight |
| Optimisation.UpdateBookingControls | airinv/bom/FlightDateHelper.cpp:21-48 | every segment-cabin is priced and controlled from its own legs and pool |
| Optimisation.Optimise | airinv/service/AIRINV_Service.cpp:1192-1195 | controls, then availabilities, are one optimisation step of the whole flight, from the bid prices of its legs |
| Optimisation.OptimisedFlight | airinv/service/AIRINV_Service.cpp:1192-1195 | availability equals the limit read off the legs' bid prices, for any bookings |
| TravelSolutions.SegmentVector | airinv/bom/InventoryHelper.cpp:135-180 | the leg's vector or the sum of current prices, empty if any leg has none, cut to the pool |
| TravelSolutions.UpperBound | airinv/command/InventoryManager.cpp:291-292 | bisection finds the first price above the yield |
| TravelSolutions.SegmentAvailability | airinv/command/InventoryManager.cpp:284-294 | reversing and bisecting counts the payable bid prices |
| TravelSolutions.LeastAffordableIsTheMinimum | airinv/command/InventoryManager.cpp:242-299 | the value the RAE loop is proved to reach is the minimum of the segments' counts |
| TravelSolutions.Browse | airinv/command/InventoryManager.cpp:479-562 | starting from the first vector and skipping at zero gives the plain minimum; total and greatest price on the way |
| TravelSolutions.TravelSolution.CalculateAvailabilityByAU | airinv/command/InventoryManager.cpp:119-204 | each option gets the least availability of its classes |
| TravelSolutions.TravelSolution.CalculateAvailabilityByRAE | airinv/command/InventoryManager.cpp:210-306 | each option gets the least number of payable seats of its segments |
| TravelSolutions.TravelSolution.CalculateAvailabilityByIBP | airinv/command/InventoryManager.cpp:311-445 | each option is controlled by the total bid price |
| TravelSolutions.TravelSolution.CalculateAvailabilityByProtectiveIBP | airinv/command/InventoryManager.cpp:451-599 | each option is controlled by the protective total |
| TravelSolutions.AuIsTheLeastOverMaps | airinv/command/InventoryManager.cpp:162-198 | an option gets the least of the maximum and of the availabilities found under the first class of each segment's list, and nothing else of it changes |
| TravelSolutions.RaeIsTheLeastOverMaps | airinv/command/InventoryManager.cpp:242-299 | an option gets the least, over the segments, of the seats that the yield found under the first class can pay for at the prices found under it |
| TravelSolutions.IbpOverMaps | airinv/command/InventoryManager.cpp:352-431 | on several segments an option shows the seats of RAE or one, when every class found has a price and the fare covers the sum of the last ones, and nothing otherwise |
| TravelSolutions.ProtectiveIbpOverMaps | airinv/command/InventoryManager.cpp:491-586 | the same when the fare covers the number of segments times each of the last prices |
| TravelSolutions.FewSegmentsAreNotControlled | airinv/command/InventoryManager.cpp:420-431 | on one segment both controls do what RAE does, and without segments the option stays as it is |
| TravelSolutions.TotalStartsOver | airinv/command/InventoryManager.cpp:407-413 | the total bid price is the no-price value plus the current prices after the last segment without one |
| TravelSolutions.RaeOnOneLeg | airinv/bom/InventoryHelper.cpp:163-180 | on one leg RAE offers the seats within pool and vector less those priced above the yield |
| TravelSolutions.RaeOnSeveralLegs | airinv/bom/InventoryHelper.cpp:145-180 | on several legs RAE offers one seat exactly when every leg has a price, their sum is a price within the yield, and the pool has a seat; none otherwise |
| TravelSolutions.CurrentPricesAddUp | airinv/bom/InventoryHelper.cpp:147-158 | the sums of last prices over two lists of legs add up, and over one leg give its last price |
| TravelSolutions.RaeAgreesWithTheLimitIff | airinv/bom/SegmentCabinHelper.cpp:155-169 | on one leg RAE never offers more than the booking limit of the authorization path, and as much if and only if the pool takes the whole vector or nothing of it, or the yield pays all prices or none |
| TravelSolutions.IbpComparesFareWithSum | airinv/command/InventoryManager.hpp:64-68 | available if and only if every segment is priced and the fare covers the sum of the bid prices |
| TravelSolutions.ProtectivePriceIsTheScaledMax | airinv/command/InventoryManager.hpp:70-76 | the protective total is the number of segments times the greatest bid price |
| TravelSolutions.ProtectiveIbpCoversEveryShare | airinv/command/InventoryManager.hpp:70-76 | available if and only if an equal share of the fare covers every partner's bid price |
| TravelSolutions.ProtectiveIsStricter | airinv/command/InventoryManager.cpp:566-586 | protective availability never exceeds plain IBP availability |
| TravelSolutions.ControlOpensClosedPaths | airinv/command/InventoryManager.cpp:420-431 | the control exceeds RAE exactly when RAE finds no seat and the fare reaches the total |
| TravelSolutions.ClosedPathOpened | airinv/command/InventoryManager.cpp:420-431 | a path of two segments, both without a payable seat, on which the control offers one |
| Routing.FlightPeriod.AddAirport | airinv/bom/FlightPeriodStruct.cpp:62-75 | airports are listed once, in order of first call |
| Routing.ReadAirports | airinv/command/ScheduleParserHelper.cpp:141-157 | reading the legs notes the boarding and then the off point of each |
| Routing.AirportsAreTheStopsIff | airinv/bom/FlightPeriodStruct.cpp:62-75 | the airports noted for chained legs are their stops in order if and only if no stop is revisited |
| Routing.FlightPeriod.BuildSegments | airinv/bom/FlightPeriodStruct.cpp:78-107 | the nested loops build the segments of all airport pairs and clear the airports |
| Routing.SegmentsAre | airinv/bom/FlightPeriodStruct.cpp:78-107 | a segment is built if and only if it links an airport to a later one |
| Routing.NumberOfSegments | airinv/bom/FlightPeriodStruct.cpp:78-107 | n airports give n(n-1)/2 segments |
| Routing.SegmentsDiffer | airinv/bom/FlightPeriodStruct.cpp:78-107 | the segments are all different |
| Routing.SegmentsFromInOrder | airinv/bom/FlightPeriodStruct.cpp:78-107 | the segments from one airport come in the order of their off airports |
| Routing.RoutingLegKeys | airinv/command/InventoryGenerator.cpp:180-209 | the loop is the walk from boarding to off point, with its two failures |
| Routing.RoutingIsTheLegsBetween | airinv/command/InventoryGenerator.cpp:180-209 | the walk of segment (i,j) collects legs i..j-1 in order if and only if they are fewer than the maximum |
| Routing.RoutingMeetsADeadEnd | airinv/command/InventoryGenerator.cpp:186-209 | where the legs end before the off point, the walk fails for want of a leg, unless it has used up the maximum |
| DirectAccesses.CreateDirectAccesses | airinv/command/InventoryManager.cpp:812-924 | segments list the legs their keys lead to, in order, skipping keys without a leg, and legs the segments whose keys name them |
| DirectAccesses.LinksAreMutual | airinv/command/InventoryManager.cpp:861-924 | a segment-cabin lists a leg-cabin if and only if the leg-cabin lists it, that is, if its keys name the leg |
| DirectAccesses.CrossingsInOrder | airinv/command/InventoryManager.cpp:861-924 | a leg lists its segments in their own order |
| DirectAccesses.CrossingsOnce | airinv/command/InventoryManager.cpp:861-924 | a segment with different keys is listed once by each leg it names |
| DirectAccesses.LinkedIsRouted | airinv/command/InventoryManager.cpp:861-924 | linked by the keys of a route, a segment-cabin lists the consecutive legs of the route |
| Loading.RouteAll | airinv/command/InventoryGenerator.cpp:166-211 | all segments get their keys, unless the walk of one fails |
| Loading.RoutedAlong | airinv/command/InventoryGenerator.cpp:166-211 | routing succeeds if and only if all legs of the flight are fewer than the maximum, and gives every segment the keys of its route |
| Loading.NestedOwns | airinv/bom/SegmentCabinHelper.cpp:332-381 | the nesting built from a segment-cabin's new classes holds these classes only, each once, all at its level |
| Loading.Load | airinv/service/AIRINV_Service.cpp:608-643 | routing, linking, opening and nesting leave a well-formed flight-date that shows a loaded flight; they fail exactly with too many legs or a greatest yield of -1 |
| Loading.LoadSchedule | airinv/command/InventoryGenerator.cpp:128-164 | the same from the legs of a schedule, whose airports are noted as they are read and give the segments |
| Loading.SeveralLegsOverbook | airinv/bom/FlightDateHelper.cpp:66-123 | on a loaded flight of several legs, each with a seat, and a nested class on each segment, guarded sales can overbook every leg |
| Snapshots.SnapshotTable.TakeCounters | airinv/bom/SegmentSnapshotTableHelper.cpp:60-112 | one day's counters of the cabin and its classes are written, other days kept |
| Snapshots.RegisterBookings | airinv/bom/SegmentSnapshotTableHelper.cpp:115-214 | the loop with its flag attributes every class as the closed form says, other days kept |
| Snapshots.TakeDay | airinv/bom/SegmentSnapshotTableHelper.cpp:60-214 | counters and attribution of one day are the recorded table, every other day kept |
| Snapshots.TakeSnapshots | airinv/bom/SegmentSnapshotTableHelper.cpp:26-57 | over all segment-cabins: within the range of days the availabilities are refreshed and the day recorded; outside it nothing changes |
| Snapshots.SnapshotIsTakenOnItsDay | airinv/bom/SegmentSnapshotTableHelper.cpp:42-55 | a snapshot is recorded for one day more than those left until departure, from none to the greatest the table covers |
| Snapshots.CountersAreRecorded | airinv/bom/SegmentSnapshotTableHelper.cpp:80-111 | the cells of the day hold the pool and committed space of the cabin and the counters of each class |
| Snapshots.OtherDaysAreKept | airinv/bom/SegmentSnapshotTableHelper.cpp:60-214 | a snapshot changes no cell of another day |
| Snapshots.LowestIsPriceOriented | airinv/bom/SegmentSnapshotTableHelper.cpp:133-168 | the first class of the lowest yield has the change of its counters in the price cells, its product cells untouched |
| Snapshots.ClassAboveIsAttributed | airinv/bom/SegmentSnapshotTableHelper.cpp:170-212 | a class above the lowest yield has it in the price cells exactly when the lowest class and every class above the lowest yield after it show less than one seat, and else in the product cells |
| Snapshots.TiedClassIsNotAttributed | airinv/bom/SegmentSnapshotTableHelper.cpp:184-205 | any other class has its counters recorded and its price and product cells untouched |
| Snapshots.AttributionSwitchesOnce | airinv/bom/SegmentSnapshotTableHelper.cpp:171-212 | along the reversed list the attribution switches at most once, from price to product |
| Snapshots.WhoIsAttributed | airinv/bom/SegmentSnapshotTableHelper.cpp:133-212 | a class is attributed to neither table if and only if it is tied for the lowest yield with a class before it |
| Snapshots.DayIsAttributed | airinv/bom/SegmentSnapshotTableHelper.cpp:190-211 | the recorded day holds a class's net and gross bookings in one of the two tables, and nothing for a tied class |
| Snapshots.NetBookingsTelescope | airinv/bom/SegmentSnapshotTableHelper.cpp:190-205 | in the table after consecutive snapshots, the net bookings of a class that is not tied add up to the change of its booking counter, gross to that plus the cancellations |
| Snapshots.TiedClassesAreLost | airinv/bom/SegmentSnapshotTableHelper.cpp:181-205 | a tied class leaves nothing in the two tables over consecutive snapshots |
| Snapshots.OneTablePerDay | airinv/bom/SegmentSnapshotTableHelper.cpp:196-211 | in the table after consecutive snapshots, every day has a class's bookings in one of the two tables only |
| RequestParser.Parser.Consume | airinv/server/RequestParser.cpp:23-252 | one character changes state and request as the step function says |
| RequestParser.Parser.ParseInput | airinv/server/RequestParser.hpp:29-42 | the loop stops at the first definite answer or the end of the input |
| RequestParser.ParseConcat | airinv/server/RequestParser.hpp:29-42 | parsing goes on from where it stopped |
| RequestParser.ParsingIgnoresCuts | airinv/server/RequestParser.hpp:29-42 | any way of cutting the input gives the same answer, state, request and consumption |
| RequestGrammar.RenderedIsAccepted | airinv/server/RequestParser.cpp:23-252 | every well-formed request head is accepted, with its method, URI and decimal version |
| RequestGrammar.AcceptedIsRendered | airinv/server/RequestParser.cpp:23-252 | every accepted input is a well-formed request head |
| RequestGrammar.AcceptsExactlyTheGrammar | airinv/server/RequestParser.cpp:23-280 | from reset the parser accepts exactly the grammar |
| RequestGrammar.ReadHead | airinv/server/RequestParser.cpp:18-252 | a reset parser object accepts an input at its end if and only if it is a well-formed request head, and fills the request with its method, URI and the numbers its version numerals stand for |
| RequestGrammar.NumeralIsRead | airinv/server/RequestParser.cpp:121-164 | the decimal numeral of a number is read back as that number |
| RequestGrammar.DecimalGrows | airinv/server/RequestParser.cpp:121-164 | a further digit, leading zeros included, adds its value to ten times the number before |
| RequestGrammar.TokenCharacters | airinv/server/RequestParser.cpp:255-275 | a token is made of letters, digits and fifteen other characters, listed |
| RequestGrammar.ValidCharacters | airinv/server/RequestParser.cpp:23-280 | the characters each part of a request head may hold, as ranges and lists |
| RequestGrammar.RenderedText | airinv/server/RequestParser.cpp:23-252 | the text of a request head, with its separators and line ends |
| RequestGrammar.MoreIsNeededIff | airinv/server/RequestParser.hpp:25-42 | the parser asks for more exactly when what it has read is the beginning of some request head and not all of it |
| RequestGrammar.TrueIff | airinv/server/RequestParser.hpp:25-42 | it answers true exactly when the input begins with a request head, and then has consumed that head and nothing more |
| RequestGrammar.NoAcceptedProperPrefix | airinv/server/RequestParser.cpp:23-252 | no accepted input is a proper prefix of another |
| RequestGrammar.TwoStatesAreNeverEntered | airinv/server/RequestParser.cpp:46-54 | the URI-start and folded-header states are never entered |

## Left out

- One cabin at a time: a flight-date holds one segment-cabin per segment; the
  program repeats the same operations for each cabin code, on disjoint objects.
- DirectAccesses.CreateDirectAccesses: builds the cabin-level links only. The program goes through the segment-date, with a flag that is never reset, and for a segment without any leg asks the library for a list that was never made; what the library then does is not part of this model.
- TravelSolutions.UpperBound: the vector must have its payable prices after the others, as the library search it stands for demands; nothing is said of other vectors.
- RequestParser.Parser.Consume: version numbers are unbounded, so the overflow of the program's int on very long versions is not modelled.
- Snapshots.SnapshotTable.TakeCounters: the seven blocks of the snapshot table are one block of seven-field cells for each segment-cabin.
- Policies.PolicyTable.CreatePolicies: policy keys are numbers rather than their decimal rendering, and classes are values since no policy changes them.
- SegmentCabinHelper.CumulativeLimit: compares a yield with the bid prices exactly, where the program lets them differ by a few units in the last place; rounding of doubles is not modelled.
- Filling the class-availability and class-yield maps of a travel solution: they are inputs.
- Codeshare partner accesses, the generic display nesting, EMSRb levels, forecasting and optimisation, file parsing, event queue, servers and displays.
