/**
 The store logic of the HTTP routes that is not delegated to the data
 handler: ride creation and the driver-ownership filters of the ride
 listing and ride detail routes.
 */
module Controller {
  import opened Options
  import opened Domain
  import opened Registry
  import opened RideStore

  /**
   `crear_ride`: the driver must be registered; the new ride gets id
   `len(rides) + 1`, status 'ready' and no participants, and goes at the end.
   The reply carries the new id, or None for an unknown driver.
   */
  function CreateRide(s: Store, driver: string, dateTime: string, finalAddress: string, seats: nat)
    : (r: Reply<Option<int>>)
    ensures r.value.None? <==> GetUser(s.users, driver).None?
    ensures r.value.None? ==> r.store == s
    ensures r.value.Some? ==>
              && r.value.value == |s.rides| + 1
              && r.store.users == s.users
              && |r.store.rides| == |s.rides| + 1
              && r.store.rides[..|s.rides|] == s.rides
              && r.store.rides[|s.rides|] == Ride(r.value.value, dateTime, finalAddress, driver, Ready, seats, [])
    ensures r.value.Some? && IdsSequential(s.rides) ==>
              && IdsSequential(r.store.rides)
              && GetRide(r.store.rides, r.value.value) == Some(r.store.rides[|s.rides|])
  {
    if GetUser(s.users, driver).None? then
      Reply(s, None)
    else
      var ride := Ride(|s.rides| + 1, dateTime, finalAddress, driver, Ready, seats, []);
      var rides' := s.rides + [ride];
      assert rides'[..|s.rides|] == s.rides;
      if IdsSequential(s.rides) then
        GetRideSequential(rides', ride.id);
        Reply(s.(rides := rides'), Some(ride.id))
      else
        Reply(s.(rides := rides'), Some(ride.id))
  }

  /**
   `rides_usuario`: None for an unknown user; otherwise exactly the rides
   that user drives, in store order.
   */
  function UserRides(s: Store, alias: string): (r: Option<seq<Ride>>)
    ensures r.None? <==> GetUser(s.users, alias).None?
    ensures r.Some? ==> forall i :: 0 <= i < |r.value| ==> r.value[i] in s.rides && r.value[i].driver == alias
    ensures r.Some? ==> forall i :: 0 <= i < |s.rides| && s.rides[i].driver == alias ==> s.rides[i] in r.value
  {
    if GetUser(s.users, alias).None? then None
    else
      var rs := RidesByDriver(s.rides, alias);
      assert forall i :: 0 <= i < |s.rides| && s.rides[i].driver == alias ==> s.rides[i] in rs by {
        forall i | 0 <= i < |s.rides| && s.rides[i].driver == alias
          ensures s.rides[i] in rs
        {
          RidesByDriverExact(s.rides, [], s.rides[i], alias);
        }
      }
      Some(rs)
  }

  /**
   `detalle_ride`'s ownership filter: the ride is shown only when it exists
   and the alias in the path is its driver; the driver need not be registered.
   */
  function RideDetail(s: Store, alias: string, rideId: int): (r: Option<Ride>)
    ensures r.Some? <==> GetRide(s.rides, rideId).Some? && GetRide(s.rides, rideId).value.driver == alias
    ensures r.Some? ==> r.value.id == rideId && r.value in s.rides
    ensures r.Some? ==> r == GetRide(s.rides, rideId) && r.value.driver == alias
  {
    match GetRide(s.rides, rideId)
    case None => None
    case Some(ride) => if ride.driver != alias then None else Some(ride)
  }
}
