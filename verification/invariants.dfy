/**
 The handler as one state machine: every operation as a command on the
 store, and the invariants every reachable store satisfies.
 */
module Invariants {
  import opened Options
  import opened Domain
  import opened Registry
  import opened RideStore
  import opened Ledger
  import opened Lifecycle
  import opened Controller

  /** One mutating request; read-only queries change nothing and are not commands. */
  datatype Command =
    | Register(alias: string, name: string, carPlate: Option<string>)
    | NewRide(driver: string, dateTime: string, finalAddress: string, seats: nat)
    | Join(rideId: int, participant: string, destination: string, spaces: nat)
    | Accept(rideId: int, participant: string)
    | Reject(rideId: int, participant: string)
    | Start(rideId: int, present: seq<string>)
    | End(rideId: int)
    | Unload(rideId: int, participant: string)

  function Apply(s: Store, c: Command): Store
  {
    match c
    case Register(a, n, p) => CreateUser(s, a, n, p).store
    case NewRide(d, t, f, n) => CreateRide(s, d, t, f, n).store
    case Join(id, a, d, n) => RequestToJoin(s, id, a, d, n).store
    case Accept(id, a) => AcceptParticipant(s, id, a).store
    case Reject(id, a) => RejectParticipant(s, id, a).store
    case Start(id, ps) => StartRide(s, id, ps).store
    case End(id) => EndRide(s, id).store
    case Unload(id, a) => UnloadParticipant(s, id, a).store
  }

  /** The store after a sequence of commands, in order. */
  function Run(s: Store, cs: seq<Command>): Store
    decreases |cs|
  {
    if |cs| == 0 then s else Run(Apply(s, cs[0]), cs[1..])
  }

  /** Every ride's driver is a registered user. */
  predicate DriversRegistered(s: Store)
  {
    forall i :: 0 <= i < |s.rides| ==> GetUser(s.users, s.rides[i].driver).Some?
  }

  /**
   Alias uniqueness, ids 1..n in order, seat capacity on every ride, at most
   one entry per rider and ride, and registered drivers.
   */
  predicate Valid(s: Store)
  {
    && AliasesUnique(s.users)
    && IdsSequential(s.rides)
    && AllSeatsRespected(s.rides)
    && AllEntriesDistinct(s.rides)
    && DriversRegistered(s)
  }

  const Empty := Store([], [])

  /** A change confined to one ride's status and entries keeps ids and drivers. */
  lemma RideChangeKeepsStore(s: Store, s': Store, i: nat)
    requires OnlyRideChanged(s, s', i)
    requires IdsSequential(s.rides) && DriversRegistered(s)
    ensures IdsSequential(s'.rides) && DriversRegistered(s')
  {
    assert SameHeader(s.rides[i], s'.rides[i]);
  }

  lemma RegisterKeepsValid(s: Store, alias: string, name: string, carPlate: Option<string>)
    requires Valid(s)
    ensures Valid(CreateUser(s, alias, name, carPlate).store)
  {
    var r := CreateUser(s, alias, name, carPlate);
    if r.value {
      forall i | 0 <= i < |s.rides|
        ensures GetUser(r.store.users, s.rides[i].driver).Some?
      {
        assert r.store.users == s.users + [User(alias, name, carPlate)];
        GetUserAfterAppend(s.users, User(alias, name, carPlate), s.rides[i].driver);
      }
    }
  }

  lemma NewRideKeepsValid(s: Store, driver: string, dateTime: string, finalAddress: string, seats: nat)
    requires Valid(s)
    ensures Valid(CreateRide(s, driver, dateTime, finalAddress, seats).store)
  {
    var r := CreateRide(s, driver, dateTime, finalAddress, seats);
    if r.value.Some? {
      var n := |s.rides|;
      assert forall i :: 0 <= i < n ==> r.store.rides[i] == s.rides[i] by {
        forall i | 0 <= i < n ensures r.store.rides[i] == s.rides[i] {
          assert r.store.rides[..n][i] == r.store.rides[i];
        }
      }
      assert ConfirmedLoad(r.store.rides[n].participants) == 0;
    }
  }

  lemma JoinKeepsValid(s: Store, id: int, alias: string, destination: string, spaces: nat)
    requires Valid(s)
    ensures Valid(RequestToJoin(s, id, alias, destination, spaces).store)
  {
    var r := RequestToJoin(s, id, alias, destination, spaces);
    JoinKeepsSeats(s, id, alias, destination, spaces);
    JoinKeepsEntriesDistinct(s, id, alias, destination, spaces);
    if r.value == Ok {
      RideChangeKeepsStore(s, r.store, RideIndex(s.rides, id).value);
    }
  }

  lemma AcceptKeepsValid(s: Store, id: int, alias: string)
    requires Valid(s)
    ensures Valid(AcceptParticipant(s, id, alias).store)
  {
    var r := AcceptParticipant(s, id, alias);
    AcceptKeepsSeats(s, id, alias);
    AcceptKeepsEntriesDistinct(s, id, alias);
    if r.value == Ok {
      RideChangeKeepsStore(s, r.store, RideIndex(s.rides, id).value);
    }
  }

  lemma RejectKeepsValid(s: Store, id: int, alias: string)
    requires Valid(s)
    ensures Valid(RejectParticipant(s, id, alias).store)
  {
    var r := RejectParticipant(s, id, alias);
    RejectKeepsSeats(s, id, alias);
    RejectKeepsEntriesDistinct(s, id, alias);
    if r.value == Ok {
      RideChangeKeepsStore(s, r.store, RideIndex(s.rides, id).value);
    }
  }

  lemma StartKeepsValid(s: Store, id: int, present: seq<string>)
    requires Valid(s)
    ensures Valid(StartRide(s, id, present).store)
  {
    var r := StartRide(s, id, present);
    StartKeepsLedger(s, id, present);
    if r.value == Ok {
      RideChangeKeepsStore(s, r.store, RideIndex(s.rides, id).value);
    }
  }

  lemma EndKeepsValid(s: Store, id: int)
    requires Valid(s)
    ensures Valid(EndRide(s, id).store)
  {
    var r := EndRide(s, id);
    EndKeepsLedger(s, id);
    if r.value == Ok {
      RideChangeKeepsStore(s, r.store, RideIndex(s.rides, id).value);
    }
  }

  lemma UnloadKeepsValid(s: Store, id: int, alias: string)
    requires Valid(s)
    ensures Valid(UnloadParticipant(s, id, alias).store)
  {
    var r := UnloadParticipant(s, id, alias);
    UnloadKeepsLedger(s, id, alias);
    if r.value == Ok {
      RideChangeKeepsStore(s, r.store, RideIndex(s.rides, id).value);
    }
  }

  /** Every command keeps every invariant. */
  lemma ApplyKeepsValid(s: Store, c: Command)
    requires Valid(s)
    ensures Valid(Apply(s, c))
  {
    match c
    case Register(a, n, p) => RegisterKeepsValid(s, a, n, p);
    case NewRide(d, t, f, n) => NewRideKeepsValid(s, d, t, f, n);
    case Join(id, a, d, n) => JoinKeepsValid(s, id, a, d, n);
    case Accept(id, a) => AcceptKeepsValid(s, id, a);
    case Reject(id, a) => RejectKeepsValid(s, id, a);
    case Start(id, ps) => StartKeepsValid(s, id, ps);
    case End(id) => EndKeepsValid(s, id);
    case Unload(id, a) => UnloadKeepsValid(s, id, a);
  }

  /**
   Every store reachable from a valid one (in particular from the empty
   store) is valid: seat capacity, unique aliases, ids exactly 1..n, one
   entry per rider and ride, registered drivers.
   */
  lemma {:induction false} RunKeepsValid(s: Store, cs: seq<Command>)
    requires Valid(s)
    ensures Valid(Run(s, cs))
    decreases |cs|
  {
    if |cs| > 0 {
      ApplyKeepsValid(s, cs[0]);
      RunKeepsValid(Apply(s, cs[0]), cs[1..]);
    }
  }

  /** In a reachable store `get_ride` finds ride k at slot k-1 for every k in 1..n. */
  lemma ReachableRidesFound(cs: seq<Command>, id: int)
    ensures var s := Run(Empty, cs);
            (1 <= id <= |s.rides| ==> GetRide(s.rides, id) == Some(s.rides[id - 1]))
            && (!(1 <= id <= |s.rides|) ==> GetRide(s.rides, id).None?)
  {
    RunKeepsValid(Empty, cs);
    GetRideSequential(Run(Empty, cs).rides, id);
  }
}
