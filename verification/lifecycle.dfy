/**
 The ride lifecycle: `iniciar_ride`, `terminar_ride` and
 `bajar_participante`. Neither start nor end looks at the ride's current
 status; unloading is allowed only from a participant's 'inprogress'.
 */
module Lifecycle {
  import opened Options
  import opened Domain
  import opened RideStore
  import opened Ledger

  /** Only the status of an entry may differ. */
  predicate SameRequest(p: Participation, q: Participation)
  {
    p.participant == q.participant && p.destination == q.destination
    && p.occupiedSpaces == q.occupiedSpaces && p.confirmation == q.confirmation
  }

  /**
   The roll call at start: a confirmed entry becomes 'inprogress' when its
   rider is among those present and 'missing' otherwise; any other entry is
   left alone.
   */
  function RollCall(ps: seq<Participation>, present: seq<string>): (r: seq<Participation>)
    ensures |r| == |ps|
    ensures forall i :: 0 <= i < |ps| ==> SameRequest(ps[i], r[i])
    ensures forall i :: 0 <= i < |ps| && ps[i].confirmation == Confirmed && ps[i].participant in present ==>
              r[i].status == EntryStatus.InProgress
    ensures forall i :: 0 <= i < |ps| && ps[i].confirmation == Confirmed && ps[i].participant !in present ==>
              r[i].status == Missing
    ensures forall i :: 0 <= i < |ps| && ps[i].confirmation != Confirmed ==> r[i] == ps[i]
  {
    if |ps| == 0 then []
    else
      var p := ps[0];
      var p' := if p.confirmation != Confirmed then p
                else if p.participant in present then p.(status := EntryStatus.InProgress)
                else p.(status := Missing);
      [p'] + RollCall(ps[1..], present)
  }

  /** At the end, whoever is still 'inprogress' becomes 'notmarked'; nobody else changes. */
  function CloseTrip(ps: seq<Participation>): (r: seq<Participation>)
    ensures |r| == |ps|
    ensures forall i :: 0 <= i < |ps| ==> SameRequest(ps[i], r[i])
    ensures forall i :: 0 <= i < |r| ==> r[i].status != EntryStatus.InProgress
    ensures forall i :: 0 <= i < |ps| && ps[i].status == EntryStatus.InProgress ==> r[i].status == NotMarked
    ensures forall i :: 0 <= i < |ps| && ps[i].status != EntryStatus.InProgress ==> r[i] == ps[i]
  {
    if |ps| == 0 then []
    else
      var p := ps[0];
      var p' := if p.status == EntryStatus.InProgress then p.(status := NotMarked) else p;
      [p'] + CloseTrip(ps[1..])
  }

  /**
   `iniciar_ride`: fails only for an unknown ride; otherwise takes the roll
   call and marks the ride 'inprogress', whatever its status was.
   */
  function StartRide(s: Store, rideId: int, present: seq<string>): (r: Reply<Outcome>)
    ensures r.value.Err? ==> r.store == s
    ensures r.value == Err(RideNotFound) <==> GetRide(s.rides, rideId).None?
    ensures r.value == Ok <==> GetRide(s.rides, rideId).Some?
    ensures r.value == Ok ==>
              var i := RideIndex(s.rides, rideId).value;
              && OnlyRideChanged(s, r.store, i)
              && r.store.rides[i].status == RideStatus.InProgress
              && r.store.rides[i].participants == RollCall(s.rides[i].participants, present)
              && GetRide(r.store.rides, rideId) == Some(r.store.rides[i])
  {
    match RideIndex(s.rides, rideId)
    case None => Reply(s, Err(RideNotFound))
    case Some(i) =>
      var ride := s.rides[i];
      var ride' := ride.(participants := RollCall(ride.participants, present), status := RideStatus.InProgress);
      var s' := s.(rides := s.rides[i := ride']);
      RideIndexAfterChange(s, s', i, rideId);
      Reply(s', Ok)
  }

  /**
   `terminar_ride`: fails only for an unknown ride; otherwise closes the trip
   for everyone still aboard and marks the ride 'done', whatever its status was.
   */
  function EndRide(s: Store, rideId: int): (r: Reply<Outcome>)
    ensures r.value.Err? ==> r.store == s
    ensures r.value == Err(RideNotFound) <==> GetRide(s.rides, rideId).None?
    ensures r.value == Ok <==> GetRide(s.rides, rideId).Some?
    ensures r.value == Ok ==>
              var i := RideIndex(s.rides, rideId).value;
              && OnlyRideChanged(s, r.store, i)
              && r.store.rides[i].status == Done
              && r.store.rides[i].participants == CloseTrip(s.rides[i].participants)
              && GetRide(r.store.rides, rideId) == Some(r.store.rides[i])
  {
    match RideIndex(s.rides, rideId)
    case None => Reply(s, Err(RideNotFound))
    case Some(i) =>
      var ride := s.rides[i];
      var ride' := ride.(participants := CloseTrip(ride.participants), status := Done);
      var s' := s.(rides := s.rides[i := ride']);
      RideIndexAfterChange(s, s', i, rideId);
      Reply(s', Ok)
  }

  /**
   `bajar_participante`: the rider's first entry must be 'inprogress'; it
   becomes 'completed'. An absent rider or any other status is refused.
   */
  function UnloadParticipant(s: Store, rideId: int, alias: string): (r: Reply<Outcome>)
    ensures r.value.Err? ==> r.store == s
    ensures r.value == Err(RideNotFound) <==> GetRide(s.rides, rideId).None?
    ensures r.value == Ok <==>
              && GetRide(s.rides, rideId).Some?
              && var ps := GetRide(s.rides, rideId).value.participants;
                 EntryIndex(ps, alias).Some? && ps[EntryIndex(ps, alias).value].status == EntryStatus.InProgress
    ensures r.value != Ok && r.value != Err(RideNotFound) ==> r.value == Err(NotInTrip)
    ensures r.value == Ok ==>
              var i := RideIndex(s.rides, rideId).value;
              var ps := s.rides[i].participants;
              var k := EntryIndex(ps, alias).value;
              && OnlyRideChanged(s, r.store, i)
              && r.store.rides[i].status == s.rides[i].status
              && r.store.rides[i].participants == ps[k := ps[k].(status := Completed)]
              && GetRide(r.store.rides, rideId) == Some(r.store.rides[i])
  {
    match RideIndex(s.rides, rideId)
    case None => Reply(s, Err(RideNotFound))
    case Some(i) =>
      var ride := s.rides[i];
      match EntryIndex(ride.participants, alias)
      case None => Reply(s, Err(NotInTrip))
      case Some(k) =>
        var p := ride.participants[k];
        if p.status != EntryStatus.InProgress then
          Reply(s, Err(NotInTrip))
        else
          var ride' := ride.(participants := ride.participants[k := p.(status := Completed)]);
          var s' := s.(rides := s.rides[i := ride']);
          RideIndexAfterChange(s, s', i, rideId);
          Reply(s', Ok)
  }

  /** Changing only statuses keeps the confirmed load and the distinct entries. */
  lemma StatusOnlyChange(ps: seq<Participation>, qs: seq<Participation>)
    requires |ps| == |qs|
    requires forall i :: 0 <= i < |ps| ==> SameRequest(ps[i], qs[i])
    ensures ConfirmedLoad(qs) == ConfirmedLoad(ps)
    ensures EntriesDistinct(ps) ==> EntriesDistinct(qs)
  {
    ConfirmedLoadPointwise(ps, qs);
  }

  /** A change confined to ride `i` that keeps ride `i` sound keeps the whole store sound. */
  lemma LedgerSoundAfterChange(s: Store, s': Store, i: nat)
    requires OnlyRideChanged(s, s', i)
    requires AllSeatsRespected(s.rides) && AllEntriesDistinct(s.rides)
    requires SeatsRespected(s'.rides[i]) && EntriesDistinct(s'.rides[i].participants)
    ensures AllSeatsRespected(s'.rides) && AllEntriesDistinct(s'.rides)
  {
  }

  /** Starting a ride keeps seat capacity and distinct entries in every ride. */
  lemma StartKeepsLedger(s: Store, rideId: int, present: seq<string>)
    requires AllSeatsRespected(s.rides) && AllEntriesDistinct(s.rides)
    ensures var t := StartRide(s, rideId, present).store;
            AllSeatsRespected(t.rides) && AllEntriesDistinct(t.rides)
  {
    var r := StartRide(s, rideId, present);
    if r.value == Ok {
      var i := RideIndex(s.rides, rideId).value;
      assert SeatsRespected(s.rides[i]) && EntriesDistinct(s.rides[i].participants);
      StatusOnlyChange(s.rides[i].participants, r.store.rides[i].participants);
      LedgerSoundAfterChange(s, r.store, i);
    }
  }

  /** Ending a ride keeps seat capacity and distinct entries in every ride. */
  lemma EndKeepsLedger(s: Store, rideId: int)
    requires AllSeatsRespected(s.rides) && AllEntriesDistinct(s.rides)
    ensures var t := EndRide(s, rideId).store;
            AllSeatsRespected(t.rides) && AllEntriesDistinct(t.rides)
  {
    var r := EndRide(s, rideId);
    if r.value == Ok {
      var i := RideIndex(s.rides, rideId).value;
      assert SeatsRespected(s.rides[i]) && EntriesDistinct(s.rides[i].participants);
      StatusOnlyChange(s.rides[i].participants, r.store.rides[i].participants);
      LedgerSoundAfterChange(s, r.store, i);
    }
  }

  /** Unloading a participant keeps seat capacity and distinct entries in every ride. */
  lemma UnloadKeepsLedger(s: Store, rideId: int, alias: string)
    requires AllSeatsRespected(s.rides) && AllEntriesDistinct(s.rides)
    ensures var t := UnloadParticipant(s, rideId, alias).store;
            AllSeatsRespected(t.rides) && AllEntriesDistinct(t.rides)
  {
    var r := UnloadParticipant(s, rideId, alias);
    if r.value == Ok {
      var i := RideIndex(s.rides, rideId).value;
      assert SeatsRespected(s.rides[i]) && EntriesDistinct(s.rides[i].participants);
      StatusOnlyChange(s.rides[i].participants, r.store.rides[i].participants);
      LedgerSoundAfterChange(s, r.store, i);
    }
  }

  /**
   Neither ending the ride nor an unload request alters a 'missing' entry.
   (Rejecting it or starting the ride again can.)
   */
  lemma MissingIsFinal(s: Store, rideId: int, k: nat, alias: string)
    requires GetRide(s.rides, rideId).Some?
    requires k < |GetRide(s.rides, rideId).value.participants|
    requires GetRide(s.rides, rideId).value.participants[k].status == Missing
    ensures GetRide(EndRide(s, rideId).store.rides, rideId).value.participants[k] ==
            GetRide(s.rides, rideId).value.participants[k]
    ensures GetRide(UnloadParticipant(s, rideId, alias).store.rides, rideId).value.participants[k] ==
            GetRide(s.rides, rideId).value.participants[k]
  {
  }
}
