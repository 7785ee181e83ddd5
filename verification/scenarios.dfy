/**
 Concrete runs of the handler: the full happy path, a refused acceptance
 for lack of seats (as the unit tests check), and a confirmed rider who did
 not show up.
 */
module Scenarios {
  import opened Options
  import opened Domain
  import opened Registry
  import opened RideStore
  import opened Ledger
  import opened Lifecycle
  import opened Statistics
  import opened Controller

  const Driver := User("jperez", "Juan Perez", Some("ABC-123"))
  const Rider := User("ana", "Ana", None)

  /** Ride 1 of the driver, with the given seats, status and entries. */
  function Trip(seats: nat, status: RideStatus, ps: seq<Participation>): Ride
  {
    Ride(1, "2025-08-01 10:00", "Centro", "jperez", status, seats, ps)
  }

  /** The rider's entry asking for `spaces` spaces. */
  function Entry(spaces: nat, status: EntryStatus, c: Confirmation): Participation
  {
    Participation("ana", "Centro", spaces, status, c)
  }

  function At(ride: Ride): Store
  {
    Store([Driver, Rider], [ride])
  }

  /** Driver and rider registered, then ride 1 created by the driver. */
  lemma {:induction false} SetupRuns(seats: nat)
    ensures var s := CreateUser(Store([], []), "jperez", "Juan Perez", Some("ABC-123")).store;
            var s := CreateUser(s, "ana", "Ana", None).store;
            CreateRide(s, "jperez", "2025-08-01 10:00", "Centro", seats) == Reply(At(Trip(seats, Ready, [])), Some(1))
  {
    var s1 := CreateUser(Store([], []), "jperez", "Juan Perez", Some("ABC-123"));
    assert s1 == Reply(Store([Driver], []), true);
    var s2 := CreateUser(s1.store, "ana", "Ana", None);
    assert GetUser([Driver], "ana").None?;
    assert s2 == Reply(Store([Driver, Rider], []), true);
    assert GetUser([Driver, Rider], "jperez").Some?;
  }

  lemma FindsTrip(ride: Ride)
    requires ride.id == 1
    ensures RideIndex([ride], 1) == Some(0)
  {
  }

  lemma FindsEntry(p: Participation)
    requires p.participant == "ana"
    ensures EntryIndex([p], "ana") == Some(0)
  {
  }

  lemma {:induction false} JoinStep(seats: nat, spaces: nat)
    ensures RequestToJoin(At(Trip(seats, Ready, [])), 1, "ana", "Centro", spaces)
            == Reply(At(Trip(seats, Ready, [Entry(spaces, Waiting, Pending)])), Ok)
  {
    var ride := Trip(seats, Ready, []);
    FindsTrip(ride);
    assert !HasRequested([], "ana");
    assert [] + [Entry(spaces, Waiting, Pending)] == [Entry(spaces, Waiting, Pending)];
    assert [ride][0 := Trip(seats, Ready, [Entry(spaces, Waiting, Pending)])]
        == [Trip(seats, Ready, [Entry(spaces, Waiting, Pending)])];
  }

  /** The confirmed load of a single unanswered entry is zero. */
  lemma PendingLoad(p: Participation)
    requires p.confirmation == Pending
    ensures ConfirmedLoad([p]) == 0
  {
    assert [p][..0] == [];
  }

  lemma AcceptStep()
    ensures AcceptParticipant(At(Trip(2, Ready, [Entry(1, Waiting, Pending)])), 1, "ana")
            == Reply(At(Trip(2, Ready, [Entry(1, Waiting, Confirmed)])), Ok)
  {
    FindsTrip(Trip(2, Ready, [Entry(1, Waiting, Pending)]));
    FindsEntry(Entry(1, Waiting, Pending));
    PendingLoad(Entry(1, Waiting, Pending));
    assert [Entry(1, Waiting, Pending)][0 := Entry(1, Waiting, Confirmed)] == [Entry(1, Waiting, Confirmed)];
    assert [Trip(2, Ready, [Entry(1, Waiting, Pending)])][0 := Trip(2, Ready, [Entry(1, Waiting, Confirmed)])]
        == [Trip(2, Ready, [Entry(1, Waiting, Confirmed)])];
  }

  lemma RefusedAcceptStep()
    ensures AcceptParticipant(At(Trip(1, Ready, [Entry(2, Waiting, Pending)])), 1, "ana")
            == Reply(At(Trip(1, Ready, [Entry(2, Waiting, Pending)])), Err(NoSeatsAvailable))
  {
    FindsTrip(Trip(1, Ready, [Entry(2, Waiting, Pending)]));
    FindsEntry(Entry(2, Waiting, Pending));
    PendingLoad(Entry(2, Waiting, Pending));
  }

  lemma {:induction false} StartStep(present: seq<string>)
    ensures StartRide(At(Trip(2, Ready, [Entry(1, Waiting, Confirmed)])), 1, present)
            == Reply(At(Trip(2, RideStatus.InProgress,
                             [Entry(1, if "ana" in present then EntryStatus.InProgress else Missing, Confirmed)])), Ok)
  {
    var e' := Entry(1, if "ana" in present then EntryStatus.InProgress else Missing, Confirmed);
    FindsTrip(Trip(2, Ready, [Entry(1, Waiting, Confirmed)]));
    assert RollCall([Entry(1, Waiting, Confirmed)], present) == [e'];
    assert [Trip(2, Ready, [Entry(1, Waiting, Confirmed)])][0 := Trip(2, RideStatus.InProgress, [e'])]
        == [Trip(2, RideStatus.InProgress, [e'])];
  }

  lemma {:induction false} UnloadStep(st: EntryStatus)
    ensures UnloadParticipant(At(Trip(2, RideStatus.InProgress, [Entry(1, st, Confirmed)])), 1, "ana")
            == if st == EntryStatus.InProgress
               then Reply(At(Trip(2, RideStatus.InProgress, [Entry(1, Completed, Confirmed)])), Ok)
               else Reply(At(Trip(2, RideStatus.InProgress, [Entry(1, st, Confirmed)])), Err(NotInTrip))
  {
    FindsTrip(Trip(2, RideStatus.InProgress, [Entry(1, st, Confirmed)]));
    FindsEntry(Entry(1, st, Confirmed));
    assert [Entry(1, st, Confirmed)][0 := Entry(1, Completed, Confirmed)] == [Entry(1, Completed, Confirmed)];
    assert [Trip(2, RideStatus.InProgress, [Entry(1, st, Confirmed)])][0 := Trip(2, RideStatus.InProgress, [Entry(1, Completed, Confirmed)])]
        == [Trip(2, RideStatus.InProgress, [Entry(1, Completed, Confirmed)])];
  }

  lemma {:induction false} EndStep(st: EntryStatus)
    ensures EndRide(At(Trip(2, RideStatus.InProgress, [Entry(1, st, Confirmed)])), 1)
            == Reply(At(Trip(2, Done, [Entry(1, if st == EntryStatus.InProgress then NotMarked else st, Confirmed)])), Ok)
  {
    var e' := Entry(1, if st == EntryStatus.InProgress then NotMarked else st, Confirmed);
    FindsTrip(Trip(2, RideStatus.InProgress, [Entry(1, st, Confirmed)]));
    assert CloseTrip([Entry(1, st, Confirmed)]) == [e'];
    assert [Trip(2, RideStatus.InProgress, [Entry(1, st, Confirmed)])][0 := Trip(2, Done, [e'])]
        == [Trip(2, Done, [e'])];
  }

  lemma CompletedStats()
    ensures StatsFor([Trip(2, Done, [Entry(1, Completed, Confirmed)])], "ana") == Stats(1, 1, 0, 0, 0)
  {
    var rides := [Trip(2, Done, [Entry(1, Completed, Confirmed)])];
    assert rides[..0] == [];
    assert rides[0].participants[..0] == [];
    assert RiderStatuses(rides, "ana") == [Completed];
  }

  /**
   Request, accept, start with the rider present, unload, end: every step
   succeeds, the rider ends 'completed' on a 'done' ride and the rider's
   history shows one completed ride.
   */
  lemma HappyPath()
    ensures RequestToJoin(At(Trip(2, Ready, [])), 1, "ana", "Centro", 1)
            == Reply(At(Trip(2, Ready, [Entry(1, Waiting, Pending)])), Ok)
    ensures AcceptParticipant(At(Trip(2, Ready, [Entry(1, Waiting, Pending)])), 1, "ana")
            == Reply(At(Trip(2, Ready, [Entry(1, Waiting, Confirmed)])), Ok)
    ensures StartRide(At(Trip(2, Ready, [Entry(1, Waiting, Confirmed)])), 1, ["ana"])
            == Reply(At(Trip(2, RideStatus.InProgress, [Entry(1, EntryStatus.InProgress, Confirmed)])), Ok)
    ensures UnloadParticipant(At(Trip(2, RideStatus.InProgress, [Entry(1, EntryStatus.InProgress, Confirmed)])), 1, "ana")
            == Reply(At(Trip(2, RideStatus.InProgress, [Entry(1, Completed, Confirmed)])), Ok)
    ensures EndRide(At(Trip(2, RideStatus.InProgress, [Entry(1, Completed, Confirmed)])), 1)
            == Reply(At(Trip(2, Done, [Entry(1, Completed, Confirmed)])), Ok)
    ensures StatsFor([Trip(2, Done, [Entry(1, Completed, Confirmed)])], "ana") == Stats(1, 1, 0, 0, 0)
  {
    JoinStep(2, 1);
    AcceptStep();
    StartStep(["ana"]);
    UnloadStep(EntryStatus.InProgress);
    EndStep(Completed);
    CompletedStats();
  }

  /**
   A request for more spaces than the ride has is accepted as a request but
   refused at acceptance; the entry stays unanswered and nothing changes.
   */
  lemma CapacityRejection()
    ensures RequestToJoin(At(Trip(1, Ready, [])), 1, "ana", "Centro", 2)
            == Reply(At(Trip(1, Ready, [Entry(2, Waiting, Pending)])), Ok)
    ensures AcceptParticipant(At(Trip(1, Ready, [Entry(2, Waiting, Pending)])), 1, "ana")
            == Reply(At(Trip(1, Ready, [Entry(2, Waiting, Pending)])), Err(NoSeatsAvailable))
  {
    JoinStep(1, 2);
    RefusedAcceptStep();
  }

  /**
   A confirmed rider left out of the roll call becomes 'missing' and stays
   so: the unload request is refused and ending the ride leaves the entry.
   */
  lemma MissingRider()
    ensures StartRide(At(Trip(2, Ready, [Entry(1, Waiting, Confirmed)])), 1, [])
            == Reply(At(Trip(2, RideStatus.InProgress, [Entry(1, Missing, Confirmed)])), Ok)
    ensures UnloadParticipant(At(Trip(2, RideStatus.InProgress, [Entry(1, Missing, Confirmed)])), 1, "ana")
            == Reply(At(Trip(2, RideStatus.InProgress, [Entry(1, Missing, Confirmed)])), Err(NotInTrip))
    ensures EndRide(At(Trip(2, RideStatus.InProgress, [Entry(1, Missing, Confirmed)])), 1)
            == Reply(At(Trip(2, Done, [Entry(1, Missing, Confirmed)])), Ok)
  {
    StartStep([]);
    UnloadStep(Missing);
    EndStep(Missing);
  }
}
