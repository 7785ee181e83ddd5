/**
 The ride store: lookup by id, the per-driver listing and the
 in-place update every ride operation performs on the ride it found.
 */
module RideStore {
  import opened Options
  import opened Seqs
  import opened Domain

  /** Position of the first ride with this id. */
  function RideIndex(rides: seq<Ride>, id: int): (r: Option<nat>)
    ensures r.Some? ==> r.value < |rides| && rides[r.value].id == id
    ensures r.Some? ==> forall j :: 0 <= j < r.value ==> rides[j].id != id
    ensures r.None? <==> forall j :: 0 <= j < |rides| ==> rides[j].id != id
  {
    FirstIndex(rides, (x: Ride) => x.id == id)
  }

  /** `get_ride`: the first ride with this id, if any. */
  function GetRide(rides: seq<Ride>, id: int): Option<Ride>
  {
    match RideIndex(rides, id)
    case None => None
    case Some(i) => Some(rides[i])
  }

  /** A ride found is a stored ride with that id; none is found only when no ride has it. */
  lemma GetRideFound(rides: seq<Ride>, id: int)
    ensures GetRide(rides, id).Some? ==> GetRide(rides, id).value in rides && GetRide(rides, id).value.id == id
    ensures GetRide(rides, id).None? <==> forall j :: 0 <= j < |rides| ==> rides[j].id != id
  {
  }

  /** `get_rides_por_usuario`: the rides driven by `alias`, in store order. */
  function RidesByDriver(rides: seq<Ride>, alias: string): (r: seq<Ride>)
    ensures |r| <= |rides|
    ensures forall i :: 0 <= i < |r| ==> r[i] in rides && r[i].driver == alias
    ensures forall j :: 0 <= j < |rides| && rides[j].driver == alias ==> rides[j] in r
  {
    Filter(rides, (x: Ride) => x.driver == alias)
  }

  /**
   The listing holds only rides of this driver, holds every one of them, and
   is built ride by ride in store order.
   */
  lemma RidesByDriverExact(rides: seq<Ride>, more: seq<Ride>, x: Ride, alias: string)
    ensures forall i :: 0 <= i < |RidesByDriver(rides, alias)| ==>
              RidesByDriver(rides, alias)[i] in rides && RidesByDriver(rides, alias)[i].driver == alias
    ensures x in rides && x.driver == alias ==> x in RidesByDriver(rides, alias)
    ensures RidesByDriver(rides + more, alias) == RidesByDriver(rides, alias) + RidesByDriver(more, alias)
    ensures RidesByDriver([x], alias) == if x.driver == alias then [x] else []
  {
    FilterConcat(rides, more, (y: Ride) => y.driver == alias);
    assert [x][1..] == [];
  }

  /** Everything about a ride except its status and participants. */
  predicate SameHeader(a: Ride, b: Ride)
  {
    a.id == b.id && a.dateTime == b.dateTime && a.finalAddress == b.finalAddress
    && a.driver == b.driver && a.availableSeats == b.availableSeats
  }

  /** Replacing a ride by one with the same id keeps every id lookup pointing at the same slot. */
  lemma RideIndexAfterUpdate(rides: seq<Ride>, i: nat, x: Ride, id: int)
    requires i < |rides| && x.id == rides[i].id
    ensures RideIndex(rides[i := x], id) == RideIndex(rides, id)
  {
    FirstIndexSameVerdicts(rides[i := x], (y: Ride) => y.id == id, rides, (y: Ride) => y.id == id);
  }

  /** The ids are exactly 1..n in store order, as repeated creation leaves them. */
  predicate IdsSequential(rides: seq<Ride>)
  {
    forall i :: 0 <= i < |rides| ==> rides[i].id == i + 1
  }

  /** With sequential ids, ids are pairwise distinct and `get_ride` finds ride k at slot k-1. */
  lemma GetRideSequential(rides: seq<Ride>, id: int)
    requires IdsSequential(rides)
    ensures forall i, j :: 0 <= i < j < |rides| ==> rides[i].id != rides[j].id
    ensures 1 <= id <= |rides| ==> GetRide(rides, id) == Some(rides[id - 1])
    ensures !(1 <= id <= |rides|) ==> GetRide(rides, id) == None
  {
    if 1 <= id <= |rides| {
      FirstIndexIs(rides, (x: Ride) => x.id == id, id - 1);
    }
  }

  /**
   `s'` differs from `s` at most in the status and participants of ride `i`:
   users, every other ride and ride `i`'s own fields are as they were.
   */
  predicate OnlyRideChanged(s: Store, s': Store, i: nat)
  {
    && i < |s.rides|
    && s'.users == s.users
    && |s'.rides| == |s.rides|
    && (forall j :: 0 <= j < |s.rides| && j != i ==> s'.rides[j] == s.rides[j])
    && SameHeader(s.rides[i], s'.rides[i])
  }

  /** After such a change every id is still found at the same slot. */
  lemma RideIndexAfterChange(s: Store, s': Store, i: nat, id: int)
    requires OnlyRideChanged(s, s', i)
    ensures RideIndex(s'.rides, id) == RideIndex(s.rides, id)
  {
    assert s'.rides == s.rides[i := s'.rides[i]];
    RideIndexAfterUpdate(s.rides, i, s'.rides[i], id);
  }
}
