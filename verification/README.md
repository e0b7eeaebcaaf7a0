# A model of the railway booking platform

The platform sells seats on legs of a train's route. inventory-service owns the seats: a hold inserts one
interval row (from stop, to stop, status) per seat, and booking status events later confirm or cancel the rows.
booking-service owns the bookings: a nine-state machine moved by HTTP calls and by replies from inventory and
payment, each move under a version guard. The two talk through outbox events that may be repeated, reordered or
lost. This project models that core, and around it the schedule projections, the Redis keys and leases, the money
chain and the schema pruning of the web client generator.

The files, from the ground up:

- `Prelude`, `Decimals`, `Money`: sequences and sorting, decimal numerals, prices in paise and their total.
- `Inventory`, `InventoryAdapter`: what a hold request resolves to, and seat ids turned into inventory rows.
- `Allocations`, `OwnerMap`: the interval table, its overlap query, and the plain map from (schedule, seat, leg)
  to booking that it stands for.
- `SeatTransactions`, `HoldRuns`: hold, confirm and cancel as transactions that interleave statement by statement.
  A run is any list of actions; an action that is not possible changes nothing, so every list is a run.
- `BookingLifecycle`, `BookingRuns`: the statuses and transitions, and booking transactions whose read and write
  halves interleave in any way.
- `CrossedScans`: two holds that lock the same seats in different orders.
- `StuckBookings`: runs of `BookingRuns` in which each caller goes on to its second transaction, and the bookings that
  can never move again.
- `EndToEnd`, `Guarantees`: both machines together. Messages are never consumed, so every delivery, repetition,
  reordering and loss is a run.
- `OwnerRefinement`: in those runs, each step is a claim, a release or nothing on the owner map.
- `StrandedSeats`: those runs with callers as in `StuckBookings`, and the seats that are held for good.
- `PaidRuns`: those runs again, with what each booking is charged.
- `AuditTrail`: whole transactions on the tables with their history rows.
- `LockStore`, `SeatAllocationService`, `SeatMap`: the inventory service in the form it is written in.
- `SeatServiceRuns`: its transactions, run alone, are runs of `SeatTransactions`.
- `BookingService`, `BookingSaga`: the booking service and its saga handlers in the form they are written in. Their
  `Valid()` says that the rows and the outbox are those of a run of `BookingRuns`, so what holds of every run holds
  of the service.
- `IdempotencyLease`, `LegLocks`, `ScheduleProjection`, `SchemaPruning`: the supporting parts.

UUIDs are natural numbers (their text is the decimal numeral where a key is printed), times are integers, fares are
ten-thousandths of a rupee and prices are paise. Calls to other services, clocks, fresh ids and infrastructure
failures are parameters.

What the proofs found that a reader of the code would not expect:

- FAILED and EXPIRED bookings never give seats back. The saga handlers call `updateStatus` themselves and write no
  outbox row, although the service documentation promises one per transition
  (apps/booking-service/src/services/booking.service.ts:60-68), and the consumer releases seats only on such a row.
  `FinishedKeepsSeats` says exactly when a finished booking keeps its seats, `FailedBookingCanKeepItsSeat` shows it.
- `confirmPayment` and `cancelBooking` make two transitions in two transactions. A booking in CONFIRMING or CANCELLING
  can still move exactly while some caller holds its second transaction; if the caller is lost, no later delivery, call
  or timer changes its status or version (`StuckExactly`, `LostSecondHalfStrands`), and its seats stay its own for good
  (`StrandedExactly`, `CancellationCanStrand`). Each payment success then throws (`HandlePaymentSuccess`).
- `lockSeats` sorts the ids but sends no ORDER BY. Holds cannot deadlock while the database scans the rows in one common
  order, whichever it is (`DeadlockFree`); if it does not, two holds of the same two seats can (`DeadlockWithoutOrder`).
- A seat that the map shows as AVAILABLE is refused exactly when an expired, still active HELD row overlaps
  (`AvailableButRefused`, `ExpiredHoldStillRefuses`), and the map shows an unrounded price when the segment has no
  length (`DisplayedPriceIsCharged`, `UnroundedPriceIsShown`).
- The whole-schedule lock key is a different key from every leg key, so a request without usable legs does not keep
  out requests with legs (`FallbackMissesLegs`, `FallbackPassesLegs`). Legs are ordered by number, not
  lexicographically as documented.
- Releasing an idempotency reservation can free the reservation of another attempt. In every run it does so exactly
  when a reservation of the key is live and the releasing attempt has lost its own mark: another attempt was granted
  the key after a lapse, another one marked the key processed, or another one's release had already deleted the mark
  (`ForeignReleaseExactly`). While every attempt ends within its lease it never happens (`ForeignReleaseNeedsLapse`),
  but after one lapse even a release in time can do it (`LateReleaseFreesAnotherLease`).
- Schedule statuses SCHEDULED and COMPLETED are accepted by the request schema but always rolled back, because the
  event contract does not know them (`UpdateScheduleStatus`).
- Pruning can leave a dangling reference: from another section of `components`, which the seed leaves out although the
  comment counts it, or from below a property called "schemas" (`DanglingExactly`, `NothingDanglesExactly`,
  `PruningCanDangle`).

## Model

| member | source | states |
|---|---|---|
| Money.ToFixed2IsNearest | apps/inventory-service/src/services/seat-allocation.service.ts:293-299 | the charged price is the one integer that section 21.1.3.3 of ECMA-262 allows: nearest, and the larger of two |
| Money.SeatPriceIsFare | apps/inventory-service/src/services/seat-allocation.service.ts:291-299 | the price of a seat is the distance at its rate, or the bare rate, to the nearest paisa |
| Money.DisplayedPriceIsCharged | apps/inventory-service/src/services/seat-allocation.service.ts:799-803 | the displayed price is the charged one exactly when the segment has a length or the rate is a whole number of paise |
| Money.UnroundedPriceIsShown | apps/inventory-service/src/services/seat-allocation.service.ts:799-803 | a rate at which the map shows 1.2345 and a hold charges 1.23 |
| Money.RupeeTotalIsSum | apps/booking-service/src/services/booking-saga.orchestrator.ts:84-88 | the running total in rupees is the sum of the prices in paise |
| Money.RoundsToNearest | apps/booking-service/src/services/booking.service.ts:562 | the amount sent is the nearest integer to the total times a hundred, and the larger of two |
| Money.PaymentAmountIsSeatSum | apps/booking-service/src/services/booking.service.ts:562 | the amount sent to payment is the sum of the seat prices in paise |
| Money.StoredAmountExact | apps/payment-service/src/services/payment.service.ts:105 | the stored decimal string denotes exactly the amount it was made from |
| Money.StoredAmountReadsBack | apps/payment-service/src/services/payment.service.ts:391-408 | reading the stored string back gives the same paise |
| Money.MoneyIsConserved | apps/payment-service/src/services/payment.service.ts:104-105 | seat prices, total, paise amount and stored string all denote one amount |
| Inventory.ResolveSegmentExactly | apps/inventory-service/src/services/seat-allocation.service.ts:208-261 | a request resolves exactly to the stops it means, by sequence number if the route has it and else by station, when they are in route order; the distance is never negative |
| Inventory.FindManyByIds | apps/inventory-service/src/repository/seat-inventory.repo.ts:87-98 | exactly the rows of the schedule whose id is asked for |
| Inventory.FoundSeatsAreUnique | apps/inventory-service/src/repository/seat-inventory.repo.ts:87-98 | no id is found twice |
| Inventory.FetchSeatMapAccepts | apps/inventory-service/src/services/seat-allocation.service.ts:263-275 | the length check accepts exactly the lists of distinct seats of the schedule |
| Inventory.ResolvedIsWellFormed | apps/inventory-service/src/services/seat-allocation.service.ts:127-176 | a resolved hold is for the requested seats, each once, on a non-empty segment |
| Inventory.ResolvesExactly | apps/inventory-service/src/services/seat-allocation.service.ts:127-176 | a request resolves exactly to the hold for the stops it means and, line by line, its seats, their public ids and their fares, and only if no seat is named twice |
| InventoryAdapter.ResolutionAccepts | apps/booking-service/src/grpc/inventory.adapter.ts:92-133 | seat ids resolve exactly when they are distinct seats of the schedule |
| InventoryAdapter.ResolutionKeepsOrder | apps/booking-service/src/grpc/inventory.adapter.ts:109-124 | entry i of the answer is the inventory row of seat i |
| InventoryAdapter.HoldReturnsTheSeatIds | apps/inventory-service/src/services/seat-allocation.service.ts:291-311 | the hold of resolved seats carries, line by line, the seat ids the booking began with |
| Allocations.HoldKeepsNoDoubleBooking | apps/inventory-service/src/services/seat-allocation.service.ts:342-377 | inserting a hold's rows keeps active rows disjoint exactly when the overlap query finds nothing |
| Allocations.RowsAreInserted | apps/inventory-service/src/services/seat-allocation.service.ts:291-313 | the insert adds exactly one row per line: its seat, segment and price, HELD until the time of the hold |
| Allocations.HoldKeepsOneRowEach | apps/inventory-service/prisma/schema.prisma:133 | a booking keeps at most one row per seat exactly when it has none on the seats of the hold |
| Allocations.StatusChangeKeepsNoDoubleBooking | apps/inventory-service/src/repository/seat-allocation.repo.ts:136-176 | a bulk status update that activates nothing keeps active rows disjoint |
| OwnerMap.AbstractMeaning | apps/inventory-service/src/repository/seat-allocation.repo.ts:96-113 | a cell is owned exactly when an active row covers it, by that row's booking |
| OwnerMap.OverlapQueryIsFreeness | apps/inventory-service/src/repository/seat-allocation.repo.ts:96-113 | the overlap query is false exactly when every requested cell is free |
| OwnerMap.HoldClaims | apps/inventory-service/src/services/seat-allocation.service.ts:342-377 | a hold claims exactly its cells |
| OwnerMap.ConfirmKeepsOwners | apps/inventory-service/src/services/seat-allocation.service.ts:436-503 | confirming changes no cell |
| OwnerMap.CancelReleases | apps/inventory-service/src/services/seat-allocation.service.ts:511-581 | cancelling frees exactly the booking's own cells |
| OwnerMap.BookedLegsAreCovered | apps/inventory-service/src/services/seat-allocation.service.ts:342-355 | the legs booked on a seat, summed over its rows, are the number of its owned cells |
| OwnerMap.CapacityBound | apps/inventory-service/src/services/seat-allocation.service.ts:208-261 | a seat never carries more legs than its route has |
| SeatTransactions.NeverDoubleBooked | apps/inventory-service/src/services/seat-allocation.service.ts:277-428 | in every run of interleaved transactions active rows of one schedule and seat never overlap |
| SeatTransactions.StepKeepsInvariant | apps/inventory-service/src/services/seat-allocation.service.ts:333-377 | every statement keeps row locks exclusive, reads still true and rows disjoint |
| SeatTransactions.LockedGrows | apps/inventory-service/src/repository/seat-inventory.repo.ts:106-113 | taking the next seat of the scan, in whatever order the database scans, locks that seat and nothing else |
| SeatTransactions.InsertKeepsOtherQueries | apps/inventory-service/src/services/seat-allocation.service.ts:337-355 | inserting behind row locks cannot falsify what another transaction has read |
| HoldRuns.DeadlockFree | apps/inventory-service/src/repository/seat-inventory.repo.ts:106-113 | whatever total order the row scans share, in every reachable state with transactions some transaction can step |
| HoldRuns.StatementsRunOut | apps/inventory-service/src/services/seat-allocation.service.ts:277-428 | each statement of a transaction lowers the number still to come |
| HoldRuns.RunsDrain | apps/inventory-service/src/services/seat-allocation.service.ts:277-428 | from every state reached with scans in a common order some continuation ends all transactions |
| CrossedScans.CrossedScansDeadlock | apps/inventory-service/src/repository/seat-inventory.repo.ts:106-113 | from any state without transactions, two new holds of the same two seats scanned in opposite orders can come to wait for each other, and no statement can be taken |
| CrossedScans.DeadlockWithoutOrder | apps/inventory-service/src/repository/seat-inventory.repo.ts:106-113 | a reachable state of that kind |
| HoldRuns.HoldsCommitAtMostOnce | apps/inventory-service/src/services/seat-allocation.service.ts:333-428 | the table is one full batch of rows per SeatsHeld reply, and the replies are for exactly the recorded event keys, once each |
| HoldRuns.RedeliveryAddsNothing | apps/inventory-service/src/services/seat-allocation.service.ts:112-125 | a hold whose key is recorded adds no row, key or SeatsHeld reply, even after cancellation |
| HoldRuns.RowsAreAsTold | apps/inventory-service/src/services/seat-allocation.service.ts:296-330 | in every run each row is one that a SeatsHeld reply has told of, with its seat, price and expiry |
| HoldRuns.CapacityInEveryRun | apps/inventory-service/src/services/seat-allocation.service.ts:342-355 | the capacity bound holds in every run |
| HoldRuns.CommitClaimsFreeCells | apps/inventory-service/src/services/seat-allocation.service.ts:342-377 | a committing hold finds its cells free at commit and claims exactly them |
| HoldRuns.WriteReleasesLocked | apps/inventory-service/src/repository/seat-allocation.repo.ts:136-176 | a confirm changes no owner and a cancel frees exactly the cells of the rows it has locked |
| HoldRuns.StepSimulatesOwnerMap | apps/inventory-service/src/services/seat-allocation.service.ts:333-581 | every step claims free cells for a committing hold, frees the cells of the rows a cancel has locked, or leaves the owner map alone |
| AuditTrail.ChangeIsIdempotent | apps/inventory-service/src/services/seat-allocation.service.ts:436-581 | handling one event again changes nothing |
| AuditTrail.ChangesCommute | apps/inventory-service/src/services/seat-allocation.service.ts:436-581 | a confirm and a cancel of one booking have the same effect on statuses in either order |
| AuditTrail.AnyOrderSameOutcome | apps/inventory-service/src/consumers/booking-status-changed.consumer.ts:59-87 | any order and repetition of the events gives the statuses that the set of events determines |
| AuditTrail.ChangeKeepsAudit | apps/inventory-service/src/services/seat-allocation.service.ts:457-487 | a status change extends each row's history by a link that starts at its old status |
| AuditTrail.HoldKeepsAuditExactly | apps/inventory-service/src/services/seat-allocation.service.ts:357-366 | a hold keeps history and table in step exactly when its rows are new to the history |
| AuditTrail.RunsAreAudited | apps/inventory-service/src/services/seat-allocation.service.ts:532-565 | in every run of whole transactions, one hold event per booking, each row's history is a chain ending at its status and moving only along HELD, CONFIRMED, CANCELLED |
| BookingLifecycle.EdgeRaisesRank | apps/booking-service/src/services/booking.service.ts:432-471 | each transition raises the rank and leaves no final status |
| BookingLifecycle.LawfulShape | apps/booking-service/src/services/booking.service.ts:511-539 | a history has at most seven statuses, final ones last, and one road to CONFIRMED |
| BookingRuns.CasIsExact | apps/booking-service/src/repository/booking.repo.ts:137-154 | the guard version < seen + 1 matches exactly when the row is still the one that was read |
| BookingRuns.EveryWinIsExact | apps/booking-service/src/services/booking.service.ts:644-721 | so in every run, and the status is still one the transition allows |
| BookingRuns.StepOutcome | apps/booking-service/src/services/booking.service.ts:644-721 | apart from creations only a winning write changes rows or outbox, by one transition and its event |
| BookingRuns.RunsKeepInvariant | apps/booking-service/src/services/booking.service.ts:644-721 | every interleaving keeps rows, histories and outbox consistent |
| BookingRuns.LifecycleOfEveryRun | apps/booking-service/src/services/booking-saga.orchestrator.ts:100-130 | in every run a version counts the statuses so far, is at most 7, and CONFIRMED was reached by the one road |
| BookingRuns.HistoryIsNeverRewritten | apps/booking-service/src/repository/booking.repo.ts:137-154 | histories only grow |
| BookingRuns.FinalStatusIsKept | apps/booking-service/src/services/booking-saga.orchestrator.ts:211-217 | FAILED, EXPIRED and CANCELLED rows never change again |
| BookingRuns.OutboxOfEveryRun | apps/booking-service/src/services/booking.service.ts:694-719 | events are true and their versions rise; a transition has an event exactly when the saga handlers did not make it themselves |
| StuckBookings.CallerRunIsARun | apps/booking-service/src/services/booking.service.ts:610-631 | runs in which a caller's second transaction begins only as it wins its first are runs of the unrestricted machine |
| StuckBookings.StuckExactly | apps/booking-service/src/services/booking.service.ts:511-631 | in every such run a booking can no longer move exactly when it is final, or in CONFIRMING or CANCELLING with no caller left that holds its second transaction |
| StuckBookings.LostSecondHalfStrands | apps/booking-service/src/services/booking-saga.orchestrator.ts:349-375 | runs that lose the second transaction of a payment and of a cancellation, and leave their bookings stuck |
| EndToEnd.AskedExactly | apps/inventory-service/src/consumers/booking-status-changed.consumer.ts:59-87 | an event asks to confirm exactly for CONFIRMED, and to release exactly for CANCELLED, FAILED and EXPIRED |
| EndToEnd.NotifiedStatus | apps/inventory-service/src/consumers/booking-status-changed.consumer.ts:59-87 | in every state an event of the outbox asks for a release only if the booking is CANCELLED |
| EndToEnd.RunsKeepInvariant | apps/inventory-service/src/consumers/booking-status-changed.consumer.ts:59-87 | the joint invariant of both services holds in every run |
| OwnerRefinement.WriteIsBulkUpdate | apps/inventory-service/src/repository/seat-allocation.repo.ts:136-176 | the committing write of a confirm or cancel is the whole bulk update of its event |
| OwnerRefinement.EveryStepRefines | apps/inventory-service/src/services/seat-allocation.service.ts:333-581 | in every run of both services a committing hold claims its cells, a committing cancel frees exactly its booking's cells, and no other step changes the owner map |
| OwnerRefinement.CommitFindsCellsFree | apps/inventory-service/src/services/seat-allocation.service.ts:342-377 | no hold commits on a taken cell |
| OwnerRefinement.RefusedExactlyWhenTaken | apps/inventory-service/src/services/seat-allocation.service.ts:342-355 | in every run the overlap statement refuses a hold exactly when one of its cells has an owner |
| OwnerRefinement.InsertsExactlyOnce | apps/inventory-service/src/services/seat-allocation.service.ts:342-377 | in every run a hold past its overlap statement commits exactly when its event key is new; the unique index on booking and seat never stops it |
| Guarantees.LiveBookingsOwnTheirSeats | apps/booking-service/src/services/booking-saga.orchestrator.ts:90-151 | in every run a live booking has exactly one active row per requested seat, on its segment, and no other row |
| Guarantees.NoSharedLeg | apps/inventory-service/src/services/seat-allocation.service.ts:333-377 | in every run two live bookings never own the same seat on the same leg |
| Guarantees.AgreementWhenHandled | apps/inventory-service/src/services/seat-allocation.service.ts:436-581 | once its events are handled, a CONFIRMED booking has only CONFIRMED rows and a CANCELLED one only CANCELLED rows |
| Guarantees.FinishedKeepsSeats | apps/booking-service/src/services/booking-saga.orchestrator.ts:211-217 | a finished booking keeps no active row exactly when it was cancelled, its hold never committed, or it asked for no seat |
| Guarantees.FailedBookingCanKeepItsSeat | apps/booking-service/src/services/booking-saga.orchestrator.ts:187-246 | a run in which a FAILED booking with all events handled still has an active row |
| StrandedSeats.StrandedExactly | apps/booking-service/src/services/booking.service.ts:511-631 | in every run of both services a booking in CONFIRMING or CANCELLING keeps its status and exactly its seats through all continuations exactly when no caller is left that holds its second transaction |
| StrandedSeats.CancellationCanStrand | apps/booking-service/src/services/booking.service.ts:528-539 | a run in which a cancellation loses its second transaction and the seat stays taken in every continuation |
| LockStore.LockStore.Acquire | apps/inventory-service/src/lua/seat-lock.lua:1-22 | all keys or none: granted exactly when no key is taken or repeated, otherwise the store is as before |
| LockStore.LockStore.Release | apps/inventory-service/src/lua/seat-unlock.lua:1-16 | deletes exactly the keys still held by the token and counts them |
| SeatAllocationService.LockKeysMeaning | apps/inventory-service/src/services/seat-lock.service.ts:55-59 | the locks of a request are granted exactly when its seats are distinct and their keys free |
| SeatAllocationService.LockKeysInOrder | apps/inventory-service/src/services/seat-lock.service.ts:82-93 | the keys of a hold are those of its seats, in ascending order |
| SeatAllocationService.NoObstacleExactly | apps/inventory-service/src/services/seat-allocation.service.ts:112-176 | nothing stands in the way of a hold exactly when its schedule is active, its stops and distinct seats are found, their locks and cells are free and its booking has no row on them |
| SeatAllocationService.ObstacleOnJourney | apps/inventory-service/src/services/seat-allocation.service.ts:146-176 | which failure a refused request gets whose stops are found |
| SeatAllocationService.ObstacleWithoutJourney | apps/inventory-service/src/services/seat-allocation.service.ts:117-138 | an inactive schedule is SCHEDULE_NOT_FOUND, and stops that are missing or out of order are a SEGMENT_CONFLICT |
| SeatAllocationService.HoldDecision | apps/inventory-service/src/services/seat-allocation.service.ts:333-428 | a resolved hold commits exactly when its event is new, every requested cell is free and its booking has no row for its seats; then it claims exactly its cells |
| SeatAllocationService.SeatAllocationService.HoldSeats | apps/inventory-service/src/services/seat-allocation.service.ts:102-189 | a hold is a duplicate, or fails for the first obstacle, or commits: one HELD row per line until now plus its time to live, history, key and reply; Redis is left as it was |
| SeatAllocationService.SeatAllocationService.CommitHoldTransaction | apps/inventory-service/src/services/seat-allocation.service.ts:277-428 | a key recorded since the fast check answers as held and writes nothing; otherwise the rows are inserted, HELD until now plus the time to live, or only the failure reply is left |
| SeatAllocationService.SeatAllocationService.Fail | apps/inventory-service/src/services/seat-allocation.service.ts:592-632 | a failure writes one reply and nothing else, so the event can be tried again |
| SeatAllocationService.SeatAllocationService.ConfirmSeats | apps/inventory-service/src/services/seat-allocation.service.ts:436-503 | unless handled before, exactly the HELD rows of the booking become CONFIRMED, with history and key |
| SeatAllocationService.SeatAllocationService.CancelSeats | apps/inventory-service/src/services/seat-allocation.service.ts:511-581 | unless handled before, exactly the HELD and CONFIRMED rows of the booking become CANCELLED, with history and key |
| SeatServiceRuns.UndisturbedHold | apps/inventory-service/src/services/seat-allocation.service.ts:333-428 | a hold transaction of the service, its refusals included, is an undisturbed run of the interleaved machine in whatever order the seats are scanned |
| SeatServiceRuns.UndisturbedChange | apps/inventory-service/src/services/seat-allocation.service.ts:436-581 | so is a confirm or cancel transaction |
| SeatServiceRuns.ServiceRunIsARun | apps/inventory-service/src/services/seat-allocation.service.ts:277-581 | any list of transactions of the service is a run that ends with the same tables |
| SeatServiceRuns.ServiceIsSafe | apps/inventory-service/src/services/seat-allocation.service.ts:277-581 | so no calls of the service double-book a seat |
| SeatMap.StatusBySeat | apps/inventory-service/src/services/seat-allocation.service.ts:710-713 | the map built by the loop gives each seat the status of its last shown row |
| SeatMap.TakenMeansRefused | apps/inventory-service/src/repository/seat-allocation.repo.ts:186-210 | a seat is marked booked exactly when a CONFIRMED or unexpired HELD row overlaps, and then a hold of it is refused |
| SeatMap.FreshHoldIsMarked | apps/inventory-service/src/services/seat-allocation.service.ts:710-727 | a seat just held is marked as held until the hold expires, and as available after that |
| SeatMap.MapShowsHoldPrice | apps/inventory-service/src/services/seat-allocation.service.ts:799-803 | on one journey the map shows the price of the hold's line exactly when there is a distance or the rate is a whole number of paise |
| SeatMap.AvailableButRefused | apps/inventory-service/src/repository/seat-allocation.repo.ts:186-210 | a seat shown as available is refused exactly when an expired HELD row overlaps |
| SeatMap.ExpiredHoldStillRefuses | apps/inventory-service/src/repository/seat-allocation.repo.ts:186-210 | a reachable table on which an available seat is refused |
| SeatMap.BuildCoachesMap | apps/inventory-service/src/services/seat-allocation.service.ts:774-846 | the loop builds each coach with its seats in input order, under their public ids, and the coaches in order of first appearance |
| SeatMap.GetSeatMap | apps/inventory-service/src/services/seat-allocation.service.ts:682-727 | refused for an unknown or inactive schedule and for stops missing or out of order, otherwise every seat under its coach, at its fare over the distance of the stops, BOOKED or HELD by its last shown row |
| SeatMap.CoachOrderIsFirstAppearance | apps/inventory-service/src/services/seat-allocation.service.ts:782-794 | the coach order lists every coach once, by first appearance |
| SeatMap.GroupingIsPartition | apps/inventory-service/src/services/seat-allocation.service.ts:774-846 | the coaches together hold every seat as often as the input, each under its own coach |
| IdempotencyLease.IdempotencyRepository.ReserveIfNew | packages/redis/src/idempotency.repository.ts:77-86 | reserves exactly when the key is absent or expired |
| IdempotencyLease.IdempotencyRepository.Release | packages/redis/src/idempotency.repository.ts:108-119 | deletes the key only while it says PROCESSING |
| IdempotencyLease.ProcessedUntilExpiry | packages/redis/src/idempotency.repository.ts:77-119 | in every interleaving a PROCESSED key answers until its TTL is over |
| IdempotencyLease.OneHandlerPerKey | packages/redis/src/idempotency.repository.ts:25-31 | if every handler ends within its lease, one at a time runs per key and marks of a key are a TTL apart |
| IdempotencyLease.SecondHandlerIffLapsed | packages/redis/src/idempotency.repository.ts:25-31 | a second handler gets in exactly when the first one's lease has lapsed |
| IdempotencyLease.ForeignReleaseExactly | packages/redis/src/idempotency.repository.ts:108-119 | in every run, timely or not, a release deletes another attempt's live reservation exactly when one is live and the releasing attempt lost its own mark earlier |
| IdempotencyLease.ForeignReleaseNeedsLapse | packages/redis/src/idempotency.repository.ts:108-119 | while every attempt ends within its lease, a release gives back only its own reservation |
| IdempotencyLease.LapsedReleaseTakesNext | packages/redis/src/idempotency.repository.ts:77-119 | a newcomer is granted the key of an attempt under way, and loses it to that attempt's release, exactly when the key is free |
| IdempotencyLease.LateReleaseFreesAnotherLease | packages/redis/src/idempotency.repository.ts:108-119 | runs in which a late release frees the reservation of a second attempt, and then that one, in time, that of a third |
| LegLocks.GetLockKeys | apps/booking-service/src/services/seat-lock.service.ts:94-113 | the loops list the keys seat by seat in order, leg by leg in order |
| LegLocks.KeysAreInOrder | apps/booking-service/src/services/seat-lock.service.ts:94-113 | the keys are taken seat by seat in one total order of the seats, and leg by leg ascending, each leg once |
| LegLocks.LegsBetweenMeaning | apps/booking-service/src/services/booking.service.ts:141-153 | the derived legs are exactly those from the first stop to before the last |
| LegLocks.LegKeyInjective | apps/booking-service/src/services/seat-lock.service.ts:106-110 | a key determines schedule, seat and leg when ids have no colon |
| LegLocks.LockKeysMeaning | apps/booking-service/src/services/seat-lock.service.ts:94-113 | the keys are those of every seat and leg, or of every seat when there is no leg |
| LegLocks.ContendExactly | apps/booking-service/src/services/seat-lock.service.ts:94-113 | two requests share a key exactly when schedule, a seat, and a leg or the lack of legs agree |
| LegLocks.DerivedLegsMatchSegments | apps/booking-service/src/services/booking.service.ts:141-153 | with derived legs, sharing a key is exactly sharing a seat on overlapping half-open segments |
| LegLocks.FallbackMissesLegs | apps/booking-service/src/services/seat-lock.service.ts:101-103 | a request without legs contends with another on its seats exactly when that one has none either |
| LegLocks.FallbackPassesLegs | apps/booking-service/src/services/seat-lock.service.ts:101-103 | two requests for one seat, one without legs, that share no key |
| LegLocks.LockKeysDistinct | apps/booking-service/src/services/seat-lock.service.ts:105-111 | distinct seats give distinct keys |
| LegLocks.GrantedBehind | apps/booking-service/src/services/booking.service.ts:155-169 | behind a holder, a request is granted exactly when schedule, seats or segments keep them apart |
| LegLocks.RepeatedSeatIsRefused | apps/booking-service/src/lua/seat-lock.lua:10-20 | an empty store refuses a request exactly when it names a seat twice |
| ScheduleProjection.OneMoreJourney | apps/admin-service/src/services/schedule.service.ts:106-118 | a new schedule keeps every train to one journey a day exactly when the last check of the creation passes |
| ScheduleProjection.AdminScheduleService.CreateSchedule | apps/admin-service/src/services/schedule.service.ts:50-156 | each refusal has its own cause, and otherwise version 1 and its event are written together; no train gets two journeys on one day |
| ScheduleProjection.AdminScheduleService.UpdateScheduleStatus | apps/admin-service/src/services/schedule.service.ts:185-230 | a status change raises the version by one and writes its event; SCHEDULED and COMPLETED are always refused |
| ScheduleProjection.LogGrows | apps/admin-service/src/services/schedule.service.ts:185-230 | the log tells every schedule's versions 1, 2, ... once each, the last with the row's status |
| ScheduleProjection.InventoryScheduleService.ProcessCreated | apps/inventory-service/src/services/schedule.service.ts:54-171 | replaces the projection only for a higher version, CANCELLED exactly for CANCELLED, with one notice |
| ScheduleProjection.InventoryScheduleService.ProcessStatusChanged | apps/inventory-service/src/services/schedule.service.ts:182-253 | refused for an unknown schedule; only a higher version is stored and announced, CANCELLED exactly for CANCELLED |
| ScheduleProjection.InventoryScheduleService.UpdateStatus | apps/inventory-service/src/repository/schedule-inventory.repo.ts:69-86 | the guarded update applies exactly to a lower stored version |
| ScheduleProjection.TrainSearchRepository.Upsert | apps/search service/src/repository/train-search.repo.ts:172-185 | writes the document unless a higher version is stored |
| ScheduleProjection.TrainSearchRepository.UpdateStatus | apps/search service/src/repository/train-search.repo.ts:196-237 | applied, stale or not found, by the stored version |
| ScheduleProjection.SearchTracks | apps/search service/src/services/schedule-projection.service.ts:86-236 | whatever is delivered, attempts dropped behind one in flight included, the document exists once the creation was handled and shows the highest version handled since |
| ScheduleProjection.InventoryIsSearchCollapsed | apps/inventory-service/src/services/schedule.service.ts:54-223 | on the same deliveries the inventory has the index's schedules, versions and layouts, and is CANCELLED exactly where the index is |
| ScheduleProjection.ProjectionIsConfluent | apps/inventory-service/src/services/schedule.service.ts:54-223 | deliveries that count the same events leave the same projections |
| ScheduleProjection.AnyOrderAnyRepeats | apps/search service/src/repository/train-search.repo.ts:172-237 | creation first, then any order and repeats of the same events: the same projections |
| ScheduleProjection.CaughtUpExactly | apps/admin-service/src/services/schedule.service.ts:185-230 | both projections show the admin row exactly when its last event was delivered after the creation |
| SchemaPruning.CollectedExactly | apps/web/scripts/orval-transformer.ts:341-378 | a name is collected exactly when a path that enters no "schemas" entry ends at a record whose `$ref` or `x-sdk-ref` names it |
| SchemaPruning.OwnRefsExactly | apps/web/scripts/orval-transformer.ts:356-365 | a record refers to a schema exactly when its `$ref` is `#/components/schemas/` and the name, or its `x-sdk-ref` is the name |
| SchemaPruning.GetExactly | apps/web/scripts/orval-transformer.ts:356-365 | a property is found exactly when the record has it, keys being distinct |
| SchemaPruning.Visit | apps/web/scripts/orval-transformer.ts:350-375 | the recursive visit adds exactly the names used in the node, by `$ref` or by marker |
| SchemaPruning.ExpandReachableFrontier | apps/web/scripts/orval-transformer.ts:380-400 | the frontier loop ends with exactly the names reachable from the seeds |
| SchemaPruning.ReachableIsLeast | apps/web/scripts/orval-transformer.ts:380-400 | every closed set around the seeds contains the reachable names |
| SchemaPruning.Spec.DeleteUnreachableSchemas | apps/web/scripts/orval-transformer.ts:402-413 | keeps exactly the reachable schemas and counts the others |
| SchemaPruning.Spec.PruneOrphanSchemas | apps/web/scripts/orval-transformer.ts:415-433 | keeps exactly the schemas reachable from outside `components` and counts the others |
| SchemaPruning.MarkerKeepsSchema | packages/openapi/src/responses/error-responses.ts:26-33 | a document in which the shared error schema survives only through the marker |
| SchemaPruning.SurvivorsAreClosed | apps/web/scripts/orval-transformer.ts:415-433 | a survivor's collected reference to a schema is to a survivor |
| SchemaPruning.SurvivorsAreLeast | apps/web/scripts/orval-transformer.ts:415-433 | no smaller selection contains the seeds and follows its references |
| SchemaPruning.PruningIsIdempotent | apps/web/scripts/orval-transformer.ts:415-433 | a second pass removes nothing |
| SchemaPruning.DanglingExactly | apps/web/scripts/orval-transformer.ts:415-433 | a reference dangles exactly when it is to an unreachable schema, from another section of components or below a "schemas" entry |
| SchemaPruning.NothingDanglesExactly | apps/web/scripts/orval-transformer.ts:415-433 | pruning leaves nothing dangling exactly when every schema that references of any kind lead to is also led to from outside `components` by references the collector sees |
| SchemaPruning.PruningCanDangle | apps/web/scripts/orval-transformer.ts:421-425 | two documents that show it |
| SchemaPruning.CleanDocumentStaysWhole | apps/web/scripts/orval-transformer.ts:367-373 | without "schemas" entries only other sections of components can dangle |
| BookingService.RequestsContendExactly | apps/booking-service/src/services/booking.service.ts:141-161 | two booking requests contend for a lock exactly when they are for one schedule and a common seat and cover a common leg, or both cover none |
| BookingService.JourneysOverlap | apps/booking-service/src/services/booking.service.ts:141-153 | two journeys between stops cover a common leg exactly when their half-open segments overlap |
| BookingService.RequestAsksJourney | apps/booking-service/src/services/booking.service.ts:276-289 | the hold request means the stops of the booking request, by sequence number or station; an absent last number is sent as the largest integer, and means a stop only if one has that number |
| BookingService.TransitionFollows | apps/booking-service/src/services/booking.service.ts:644-721 | a transition of the service is an undisturbed transaction of the interleaved machine |
| BookingService.EveryBookingIsLawful | apps/booking-service/src/services/booking.service.ts:644-721 | every booking of the service has a lawful history as long as its version, with true and complete events |
| BookingService.BookingService.CreateBooking | apps/booking-service/src/services/booking.service.ts:105-349 | a known key answers alone; otherwise the first refusal changes nothing, a lost transaction gives its locks back, and a success writes the booking as requested, its saga rows, its event and the hold request for its seats and journey, key and locks |
| BookingService.BookingService.Persist | apps/booking-service/src/services/booking.service.ts:172-323 | inside the transaction a key recorded meanwhile answers and nothing is written; else booking, saga rows, event and a hold request for its journey; the locks stay taken |
| BookingService.BookingService.UpdateStatus | apps/booking-service/src/repository/booking.repo.ts:137-154 | the guarded update applies exactly to a lower stored version |
| BookingService.BookingService.WriteTransition | apps/booking-service/src/services/booking.service.ts:672-719 | after a read that may be stale, the write takes effect exactly when the row is still the one read, else leaves no trace |
| BookingService.BookingService.Transit | apps/booking-service/src/services/booking.service.ts:644-721 | refused for a missing booking or a wrong status, otherwise one transition and its event |
| BookingService.BookingService.CancelBooking | apps/booking-service/src/services/booking.service.ts:511-539 | a missing booking, another user and a wrong status are refused; else two transitions with two events, only from CONFIRMED or SEATS_HELD |
| BookingService.BookingService.CreatePaymentOrder | apps/booking-service/src/services/booking.service.ts:548-600 | only for its user: asks for the sum of the seat prices in paise in any status, and moves only a SEATS_HELD booking, which keeps the order |
| BookingService.BookingService.ConfirmPayment | apps/booking-service/src/services/booking.service.ts:610-631 | only for its user: confirms from SEATS_HELD or PAYMENT_PENDING, one transition and event at a time |
| BookingSaga.RowsTakeWhatLands | apps/booking-service/src/repository/booking.repo.ts:220-247 | the seat rows together cost what the allocations for them cost |
| BookingSaga.AcceptedIsConservedExactly | apps/booking-service/src/services/booking-saga.orchestrator.ts:73-136 | the accepted total is the sum of the seat rows exactly when every charged allocation is for one of them |
| BookingSaga.HoldIsChargedInFull | apps/booking-service/src/services/booking-saga.orchestrator.ts:73-136 | a booking's own hold is charged in full: total, seat rows, paise amount and inventory prices agree, and each seat has its line's inventory row and price |
| BookingSaga.BookingAsksExactly | apps/booking-service/src/services/booking.service.ts:117-131 | the request of a booking, with its seats resolved against the same inventory, resolves exactly to the hold for its stops, its seats, their rows and their fares |
| PaidRuns.ReplyIsOwnHold | apps/inventory-service/src/services/seat-allocation.service.ts:367-377 | in every run of both services, each SeatsHeld reply of a booking carries the hold its own request resolves to |
| PaidRuns.TotalsInEveryRun | apps/booking-service/src/services/booking-saga.orchestrator.ts:73-136 | in every run of both services, a booking that accepted its hold has, seat by seat, the inventory row and price of the hold, and their sum as total and as payment amount |
| BookingSaga.BookingSagaOrchestrator.UpdatePassengers | apps/booking-service/src/repository/booking.repo.ts:220-247 | each row gets the inventory row and price of the last allocation for its seat |
| BookingSaga.BookingSagaOrchestrator.CommitHeld | apps/booking-service/src/services/booking-saga.orchestrator.ts:115-144 | seats, status, total, lock expiry and saga row change together, exactly when the row is still the one read |
| BookingSaga.BookingSagaOrchestrator.HandleSeatsHeld | apps/booking-service/src/services/booking-saga.orchestrator.ts:54-180 | once per key: accepts a PENDING booking and moves it on to PAYMENT_PENDING; a missing booking is retried; conservation of money is kept |
| BookingSaga.BookingSagaOrchestrator.ProcessHeld | apps/booking-service/src/services/booking-saga.orchestrator.ts:72-157 | the transaction either completes and the key is marked, or the booking is missing and the reservation is given back |
| BookingSaga.BookingSagaOrchestrator.HandleSeatsHoldFailed | apps/booking-service/src/services/booking-saga.orchestrator.ts:187-246 | once per key: fails a PENDING booking without any event |
| BookingSaga.BookingSagaOrchestrator.HandleSeatHoldExpired | apps/booking-service/src/services/booking-saga.orchestrator.ts:254-307 | once per key: expires a PENDING or SEATS_HELD booking without any event |
| BookingSaga.BookingSagaOrchestrator.HandlePaymentSuccess | apps/booking-service/src/services/booking-saga.orchestrator.ts:315-392 | once per key: confirms from SEATS_HELD or PAYMENT_PENDING, throws in CONFIRMING and gives the reservation back, else nothing |

## Left out

- LockStore.LockStore.Acquire: granted keys carry no expiry, because expiry is left to the interleaved machine, which
  runs without these locks.
- The exclusion constraint that the migration of seat_allocations puts on overlapping active rows: the proofs do not
  rely on it.
- Redis locks in the interleaved machine: transactions run whether or not they hold one, which covers every way locks
  can expire. `SeatAllocationService` and `LegLocks` model them.
- History rows under concurrent confirm and cancel of one booking: `AuditTrail` takes each transaction as one step.
- Denormalised columns: station ids and versions on allocations, passengers, PNR, coach and seat labels, timestamps.
- `markSeatsHeld`, `markFailed` and `markExpired`: they have no caller.
- Saga-log rows under races, where the handlers ignore the result of the guarded update; the sequential effect is in
  the handlers' contracts.
- Payment capture, signatures and the outbox worker: a payment success is an event that may arrive any number of times.
- Races inside the service classes: their methods run undisturbed, apart from `WriteTransition` and `CommitHeld`, which
  take a read that may be stale. `SeatTransactions`, `BookingRuns` and `EndToEnd` interleave.
- Renewal of booking locks and the read-only booking queries.
- Expiry of booking locks while a service method runs, and infrastructure errors other than a lost creation transaction.
- Re-creation of a schedule projection while allocations exist: the inventory of the joint model is fixed.
- The search of the seat map's two stops by station name: the stops found are parameters.
- Numbers beyond two decimals: `ReadDecimal` reads digits, or digits, a point and digits, and no other shape.
- HTTP, gRPC and Kafka plumbing, the other passes of the transformer, pagination and input schemas: easy parts.
