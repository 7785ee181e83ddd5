# Ride-sharing store: a Dafny model of `RideDataHandler`

This project models the domain logic of a small ride-sharing service. Drivers
register and publish rides with a number of available seats. Riders ask to
join a ride, and the driver accepts or rejects each request; acceptance is
refused when the rider's spaces do not fit beside the seats already
confirmed. A ride is then started with a roll call (present riders are
'inprogress', absent confirmed riders 'missing'), riders are unloaded
('completed'), and the ride is ended (riders still aboard become
'notmarked'). A read-only aggregator tallies each rider's past outcomes.

The whole handler is one state-transition system over an immutable `Store`
(a sequence of users and a sequence of rides, each ride holding an ordered
sequence of participations). Each operation is a pure function returning the
new store and what the caller is told: `'ok'` or one of the named error
strings (`Domain.Failure`, whose exact Spanish texts are given by
`Domain.Message`), `True`/`False` for registration, the new ride id for ride
creation.

Modules, following the source's structure:

- `Options`, `Seqs`: `Option`, the first-match search behind every
  `next(...)` lookup, and the order-preserving filter behind the ride listing.
- `Domain`: users, rides, participations, statuses, failures.
- `Registry`: `get_usuario`, `crear_usuario` (the duplicate `crear_usuarioD`
  is the same operation).
- `RideStore`: `get_ride`, `get_rides_por_usuario`, and the in-place update
  of one ride.
- `Ledger`: `request_to_join`, `aceptar_participante`,
  `rechazar_participante`, and the confirmed-seat sum.
- `Lifecycle`: `iniciar_ride`, `terminar_ride`, `bajar_participante`.
- `Statistics`: `get_estadisticas` (as the source's nested loops, proved equal
  to a multiset-count reference) and `get_participantes_estadisticas`.
- `Controller`: the store logic of the `crear_ride`, `rides_usuario` and
  `detalle_ride` routes.
- `Invariants`: every mutating operation as a `Command`. The lemmas show that
  every store reachable from the empty one keeps these invariants:
  - aliases are unique;
  - ride ids are exactly 1..n;
  - on every ride, the confirmed spaces fit in the available seats;
  - each rider has at most one entry per ride;
  - every ride's driver is registered.
- `Scenarios`: concrete walk-throughs. These are the full happy path, an
  acceptance refused for lack of seats, and a rider missing at the roll call.

The permissive spots of the source are modelled as written:

- `rechazar_participante` rejects an entry in any prior state, even one that
  was already confirmed or rejected.
- `iniciar_ride` and `terminar_ride` do not look at the ride's current status.
  A finished ride can be started again, and a ride that was never started can
  be ended.
- The duplicate-join check matches any earlier entry of the rider, even a
  rejected one, so a rejected rider can never ask again.
- `request_to_join` checks no capacity and does not check that the rider is
  registered.
- Every lookup by alias or id acts on the FIRST match, as `next(...)` does.

## Model

| member | source | states |
|---|---|---|
| `Registry.GetUser` | src/data_handler.py:31-32 | the user found has the alias asked for and is registered; absent exactly when no registered user has that alias |
| `Registry.GetUserExact` | src/data_handler.py:31-32 | with unique aliases, lookup by a user's alias returns that user if and only if the user is registered |
| `Registry.GetUserAfterAppend` | src/data_handler.py:56 | appending a user leaves every existing lookup unchanged, makes the new alias findable, and leaves other unknown aliases unknown |
| `Registry.CreateUser` | src/data_handler.py:47-58 | succeeds if and only if the alias is free. On failure the store is unchanged. On success exactly one user is appended, rides are untouched, the new user is found by its alias, and alias uniqueness is preserved |
| `Registry.CreateUserTwice` | src/test_data_handler.py:25-30 | registering the same alias a second time fails and changes nothing |
| `RideStore.GetRideFound` | src/data_handler.py:60-61 | a ride found is a stored ride with the id asked for; nothing is found exactly when no stored ride has that id |
| `RideStore.RideIndex` | src/data_handler.py:60-61 | the slot found holds a ride with that id and no earlier ride has it; none found exactly when no ride has the id |
| `RideStore.RidesByDriver` | src/data_handler.py:63-64 | the listing is no longer than the store, holds only stored rides of that driver, and holds every stored ride of that driver |
| `RideStore.RidesByDriverExact` | src/data_handler.py:63-64 | the listing holds only rides of that driver and every one of them; it is built ride by ride in store order (distributes over concatenation) |
| `RideStore.RideIndexAfterUpdate` | src/data_handler.py:60-61 | replacing a ride in place by one with the same id leaves every id lookup unchanged |
| `RideStore.RideIndexAfterChange` | src/data_handler.py:60-61 | after an operation that changes only one ride's status and entries, every id is still found at the same slot |
| `RideStore.GetRideSequential` | src/controller.py:33 | when ids are 1..n, they are pairwise distinct, `get_ride(k)` returns the k-th ride for k in 1..n, and returns nothing for any other id |
| `Ledger.EntryIndex` | src/data_handler.py:88 | the entry found is the rider's first entry; none found exactly when the rider has no entry |
| `Ledger.ConfirmedLoadBounds` | src/data_handler.py:93 | every confirmed entry's spaces fit within the sum, and the sum is zero exactly when no entry holds a confirmed seat |
| `Ledger.ConfirmedLoadUpdate` | src/data_handler.py:93-96 | changing one entry changes the confirmed-seat sum by exactly that entry's old and new contribution |
| `Ledger.ConfirmedLoadPointwise` | src/data_handler.py:93 | the confirmed-seat sum depends only on each entry's confirmed spaces, so entries that agree on those give the same sum |
| `Ledger.ConfirmedLoadAppendPending` | src/data_handler.py:74-80 | a new unanswered entry adds nothing to the confirmed-seat sum |
| `Ledger.RequestToJoin` | src/data_handler.py:66-82 | each error holds exactly in its case, tested in order: unknown ride, ride not 'ready', rider already has an entry. Every error leaves the store unchanged. On success one waiting, unanswered entry is appended at the end. Nothing else changes, and there is no capacity check |
| `Ledger.AcceptParticipant` | src/data_handler.py:84-99 | each error holds exactly in its case, tested in order: unknown ride, no entry, entry already decided, spaces do not fit. Every error leaves the store unchanged. It succeeds if and only if the rider's first entry is unanswered and its spaces fit beside the confirmed ones. On success only the rider's first entry becomes confirmed and 'waiting', and the confirmed sum grows by its spaces yet stays within the seats |
| `Ledger.RejectParticipant` | src/data_handler.py:101-111 | fails only for an unknown ride or an absent rider, and leaves the store unchanged then. Otherwise the rider's first entry gets confirmation and status 'rejected', whatever its prior state. No other entry or ride field changes, and the confirmed sum does not grow |
| `Ledger.JoinKeepsSeats` | src/data_handler.py:74-80 | seat capacity holds on every ride after a join request |
| `Ledger.AcceptKeepsSeats` | src/data_handler.py:93-98 | seat capacity holds on every ride after an acceptance, whatever its outcome |
| `Ledger.RejectKeepsSeats` | src/data_handler.py:108-109 | seat capacity holds on every ride after a rejection |
| `Ledger.AcceptTwice` | src/data_handler.py:91-92 | after a successful acceptance, accepting the same rider again answers 'Ya fue aceptado o rechazado' and changes nothing |
| `Ledger.EntryIndexSameAliases` | src/data_handler.py:88 | entries that keep every alias in place give the same first entry for every rider |
| `Ledger.JoinKeepsEntriesDistinct` | src/data_handler.py:72-73 | since any earlier entry blocks a request, no ride ever gets two entries of the same rider |
| `Ledger.AcceptKeepsEntriesDistinct` | src/data_handler.py:96-97 | acceptance keeps at most one entry per rider in every ride |
| `Ledger.RejectKeepsEntriesDistinct` | src/data_handler.py:108-109 | rejection keeps at most one entry per rider in every ride |
| `Lifecycle.RollCall` | src/data_handler.py:117-122 | a confirmed entry becomes 'inprogress' if its rider is present, otherwise 'missing'. Unconfirmed entries are untouched. Only statuses change |
| `Lifecycle.CloseTrip` | src/data_handler.py:131-133 | afterwards no entry is 'inprogress'. Those that were become 'notmarked', all others are untouched, and only statuses change |
| `Lifecycle.StartRide` | src/data_handler.py:113-125 | fails only for an unknown ride, leaving the store unchanged. Otherwise the roll call is taken and the ride becomes 'inprogress' whatever its previous status. Nothing else changes |
| `Lifecycle.EndRide` | src/data_handler.py:127-136 | fails only for an unknown ride, leaving the store unchanged. Otherwise riders still aboard become 'notmarked' and the ride becomes 'done' whatever its previous status. Nothing else changes |
| `Lifecycle.UnloadParticipant` | src/data_handler.py:138-147 | succeeds if and only if the rider's first entry is 'inprogress'; that entry then becomes 'completed'. An absent rider or any other status gets 'No estás en viaje' and no change |
| `Lifecycle.StatusOnlyChange` | src/data_handler.py:117-145 | changing only statuses keeps the confirmed-seat sum and the one-entry-per-rider property |
| `Lifecycle.LedgerSoundAfterChange` | src/data_handler.py:113-147 | a change confined to one ride that keeps that ride sound keeps the whole store sound |
| `Lifecycle.StartKeepsLedger` | src/data_handler.py:113-125 | starting a ride keeps seat capacity and one entry per rider on every ride |
| `Lifecycle.EndKeepsLedger` | src/data_handler.py:127-136 | ending a ride keeps seat capacity and one entry per rider on every ride |
| `Lifecycle.UnloadKeepsLedger` | src/data_handler.py:138-147 | unloading keeps seat capacity and one entry per rider on every ride |
| `Lifecycle.MissingIsFinal` | src/data_handler.py:131-145 | an entry that is 'missing' is left exactly as it was by ending the ride and by any unload request (rejection and a second start are not covered: they can change it) |
| `Statistics.Bump` | src/data_handler.py:179-188 | counting one entry raises the total by one and raises the counter of its status by one ('completed', 'missing', 'notmarked' or 'rejected'), leaving the others as they were; any other status raises only the total |
| `Statistics.TallyAppend` | src/data_handler.py:179-188 | counting one more entry of the rider (the source's if/elif chain) agrees with the reference multiset tally of the longer history |
| `Statistics.EntryStatusesStep` | src/data_handler.py:177-178 | scanning one more entry adds its status to the rider's history exactly when the entry is the rider's |
| `Statistics.TallyRide` | src/data_handler.py:177-188 | the inner loop adds exactly this ride's entries of the rider to the tally |
| `Statistics.GetStatistics` | src/data_handler.py:169-196 | the five counters equal the reference tally. The total is the number of the rider's entries across all rides, in any status, and each finished outcome is counted by its multiplicity |
| `Statistics.TallyBound` | src/data_handler.py:176-188 | the four finished-outcome counts never add up to more than the total |
| `Statistics.StatsBound` | src/data_handler.py:190-196 | for every store and rider, completed + missing + notmarked + rejected is at most the total |
| `Statistics.StatsOneOfEach` | src/data_handler.py:176-196 | a rider whose entries are exactly one of each finished outcome gets a total of 4 and one of each |
| `Statistics.RiderStatusesConcat` | src/data_handler.py:176-177 | the rider's history over a split store is the history of each part, in store order |
| `Statistics.TallyConcat` | src/data_handler.py:176-188 | the tally of two histories laid end to end is the sum of their tallies |
| `Statistics.StatsAdditive` | src/data_handler.py:176-188 | the tally over a split store is the sum of the tallies of its parts |
| `Statistics.ParticipantsWithStats` | src/data_handler.py:149-167 | nothing for an unknown ride. Otherwise there is one item per entry, in the ride's order, carrying that entry and its rider's tally |
| `Controller.CreateRide` | src/controller.py:25-43 | an unknown driver gets not-found and no change. Otherwise one ride is appended at the end with id len(rides)+1, status 'ready' and no participants; earlier rides and users are unchanged and the returned id is the new ride's. With ids 1..n before, they are 1..n+1 after and the new id finds the new ride |
| `Controller.UserRides` | src/controller.py:45-50 | not-found exactly for an unregistered alias. Otherwise the result holds exactly the rides driven by that alias |
| `Controller.RideDetail` | src/controller.py:52-56 | the ride is shown if and only if it exists and its driver is the alias in the path; what is shown is exactly the ride `get_ride` finds, with that id and driven by that alias |
| `Invariants.RideChangeKeepsStore` | src/data_handler.py:66-147 | changing one ride's status and entries keeps ids 1..n and registered drivers |
| `Invariants.RegisterKeepsValid` | src/data_handler.py:47-58 | registration keeps every store invariant |
| `Invariants.NewRideKeepsValid` | src/controller.py:25-43 | ride creation keeps every store invariant |
| `Invariants.ApplyKeepsValid` | src/data_handler.py:47-147 | every mutating operation, whatever its outcome, keeps every store invariant. These are unique aliases, ids 1..n, seat capacity, one entry per rider and ride, and registered drivers |
| `Invariants.RunKeepsValid` | src/data_handler.py:47-147 | any sequence of operations from a valid store ends in a valid store |
| `Invariants.ReachableRidesFound` | src/controller.py:33 | in every store reachable from the empty one, `get_ride(k)` finds the k-th ride for k in 1..n and nothing otherwise |
| `Scenarios.SetupRuns` | src/test_data_handler.py:36-50 | registering a driver and a rider, then creating a ride, yields ride 1, 'ready', with no participants |
| `Scenarios.HappyPath` | src/data_handler.py:66-147 | request, accept, start with the rider present, unload and end all answer 'ok'. The rider ends 'completed' on a 'done' ride, with a history of one completed ride |
| `Scenarios.CapacityRejection` | src/test_data_handler.py:78-94 | a request for 2 spaces on a 1-seat ride is recorded, but accepting it answers 'No hay asientos disponibles'. The entry stays unanswered |
| `Scenarios.MissingRider` | src/data_handler.py:117-145 | a confirmed rider absent at the roll call becomes 'missing'. Unloading is then refused, and ending the ride leaves the entry 'missing' |
| `Domain.MessagesDistinct` | src/data_handler.py:69-144 | the error strings of different failures differ, so a caller can tell every failure apart |

## Left out

- JSON persistence (`save_data`, `load_data`) and the unused `participaciones` list are not modelled. They are file I/O. Every mutation is a pure store transition, and the flush after it is not modelled.
- Flask routing, request parsing, `jsonify` and HTTP status codes are not modelled. `listar_usuarios` and `obtener_usuario` pass through to the store, and `obtener_usuario` is `Registry.GetUser`. Which path alias each route passes to the handler is also left out; for example, the unload route passes the path's own alias.
- `detalle_ride`'s overwrite of `ride['participants']` with the enriched items (src/controller.py:57-58) is not modelled. The route shows the ride and the enrichment as `Controller.RideDetail` and `Statistics.ParticipantsWithStats`, and leaves the store as it was. In the source, the overwrite changes the stored ride. Each enriched item keeps the confirmation, status, destination and spaces, but its `'participant'` becomes a nested dictionary (src/data_handler.py:159-162). From then on, no alias test on that ride matches an existing entry. So on that ride:
  - the rider can ask to join again (src/data_handler.py:72);
  - accept and reject answer 'Participante no encontrado' (src/data_handler.py:88 and 105);
  - the roll call marks every earlier confirmed rider 'missing' (src/data_handler.py:119);
  - unload answers 'No estás en viaje' (src/data_handler.py:142);
  - the statistics skip those entries (src/data_handler.py:178).

  The next save persists the change. `Invariants.Valid`, including its one-entry-per-rider part, is proved by `Invariants.RunKeepsValid` for sequences of the modelled operations only. A store that has been through this route is not covered.
- `crear_usuarioD` is the same code as `crear_usuario`, so it is modelled once. The user's `rides` field is never written after creation, so it is omitted.
- Dynamic typing is not modelled: missing keys, `None` values from `data.get(...)` in ride creation, and non-integer or negative spaces and seats. Inputs are typed records, with `nat` seats and spaces and strings for dates and addresses.
- Concurrency is out of scope: the check-then-act races on acceptance and on id allocation. The source is single-threaded.
- The model follows the code in these points: a rejected entry blocks a new request, `occupiedSpaces` is not checked to be positive, rejection is not guarded by "pending", and start and end are not guarded by the ride's status.
- `RideStore.RidesByDriver`: its own contract gives a length bound and membership in both directions, but neither store order nor how often each ride appears. Both are stated by `RideStore.RidesByDriverExact`, whose distribution over concatenation and singleton case fix the listing ride by ride.
- `Controller.UserRides`: its own contract gives membership in both directions but neither order nor multiplicity. Both are stated by `RideStore.RidesByDriverExact`, which the listing is defined by.
