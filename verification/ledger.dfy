/**
 The join-request ledger of each ride: `request_to_join`,
 `aceptar_participante` and `rechazar_participante`, with the seat check
 made at acceptance.
 */
module Ledger {
  import opened Options
  import opened Seqs
  import opened Domain
  import opened RideStore

  /** Position of the first entry of this rider in a ride's participants. */
  function EntryIndex(ps: seq<Participation>, alias: string): (r: Option<nat>)
    ensures r.Some? ==> r.value < |ps| && ps[r.value].participant == alias
    ensures r.Some? ==> forall j :: 0 <= j < r.value ==> ps[j].participant != alias
    ensures r.None? <==> forall j :: 0 <= j < |ps| ==> ps[j].participant != alias
  {
    FirstIndex(ps, (p: Participation) => p.participant == alias)
  }

  /** Some entry of the ride, whatever its state, belongs to this rider. */
  predicate HasRequested(ps: seq<Participation>, alias: string)
  {
    exists k :: 0 <= k < |ps| && ps[k].participant == alias
  }

  /** Seats an entry holds: its spaces once confirmed, nothing otherwise. */
  function Load(p: Participation): nat
  {
    if p.confirmation == Confirmed then p.occupiedSpaces else 0
  }

  /** The sum of `occupiedSpaces` over the confirmed entries. */
  function ConfirmedLoad(ps: seq<Participation>): nat
  {
    if |ps| == 0 then 0 else ConfirmedLoad(ps[..|ps| - 1]) + Load(ps[|ps| - 1])
  }

  /**
   Every confirmed entry's spaces are part of the sum, and the sum is zero
   exactly when no entry holds a confirmed seat.
   */
  lemma {:induction false} ConfirmedLoadBounds(ps: seq<Participation>)
    ensures forall j :: 0 <= j < |ps| ==> Load(ps[j]) <= ConfirmedLoad(ps)
    ensures ConfirmedLoad(ps) == 0 <==> forall j :: 0 <= j < |ps| ==> Load(ps[j]) == 0
  {
    if |ps| > 0 {
      var front := ps[..|ps| - 1];
      ConfirmedLoadBounds(front);
      assert forall j :: 0 <= j < |front| ==> ps[j] == front[j];
    }
  }

  /** Seat capacity: the confirmed entries fit in the ride's available seats. */
  predicate SeatsRespected(ride: Ride)
  {
    ConfirmedLoad(ride.participants) <= ride.availableSeats
  }

  predicate AllSeatsRespected(rides: seq<Ride>)
  {
    forall i :: 0 <= i < |rides| ==> SeatsRespected(rides[i])
  }

  /** Replacing one entry changes the confirmed load by exactly that entry's difference. */
  lemma {:induction false} ConfirmedLoadUpdate(ps: seq<Participation>, k: nat, q: Participation)
    requires k < |ps|
    ensures ConfirmedLoad(ps[k := q]) + Load(ps[k]) == ConfirmedLoad(ps) + Load(q)
  {
    var n := |ps|;
    if k == n - 1 {
      assert ps[k := q][..n - 1] == ps[..n - 1];
    } else {
      assert ps[k := q][..n - 1] == ps[..n - 1][k := q];
      ConfirmedLoadUpdate(ps[..n - 1], k, q);
    }
  }

  /** Entries that hold the same seats pointwise give the same confirmed load. */
  lemma {:induction false} ConfirmedLoadPointwise(a: seq<Participation>, b: seq<Participation>)
    requires |a| == |b|
    requires forall i :: 0 <= i < |a| ==> Load(a[i]) == Load(b[i])
    ensures ConfirmedLoad(a) == ConfirmedLoad(b)
  {
    if |a| > 0 {
      ConfirmedLoadPointwise(a[..|a| - 1], b[..|b| - 1]);
    }
  }

  /** A pending entry appended at the end holds no seat. */
  lemma ConfirmedLoadAppendPending(ps: seq<Participation>, e: Participation)
    requires e.confirmation == Pending
    ensures ConfirmedLoad(ps + [e]) == ConfirmedLoad(ps)
  {
    assert (ps + [e])[..|ps|] == ps;
  }

  /**
   `request_to_join`: refuses an unknown ride, a ride that is not 'ready' and a
   rider who already has an entry (in any state); otherwise appends a waiting,
   unanswered entry. Capacity is not checked here.
   */
  function RequestToJoin(s: Store, rideId: int, alias: string, destination: string, spaces: nat): (r: Reply<Outcome>)
    ensures r.value.Err? ==> r.store == s
    ensures r.value == Err(RideNotFound) <==> GetRide(s.rides, rideId).None?
    ensures r.value == Err(RideAlreadyStarted) <==>
              GetRide(s.rides, rideId).Some? && GetRide(s.rides, rideId).value.status != Ready
    ensures r.value == Err(AlreadyRequested) <==>
              && GetRide(s.rides, rideId).Some? && GetRide(s.rides, rideId).value.status == Ready
              && HasRequested(GetRide(s.rides, rideId).value.participants, alias)
    ensures r.value == Ok <==>
              && GetRide(s.rides, rideId).Some? && GetRide(s.rides, rideId).value.status == Ready
              && !HasRequested(GetRide(s.rides, rideId).value.participants, alias)
    ensures r.value == Ok ==>
              var i := RideIndex(s.rides, rideId).value;
              && OnlyRideChanged(s, r.store, i)
              && r.store.rides[i].status == Ready
              && r.store.rides[i].participants ==
                 s.rides[i].participants + [Participation(alias, destination, spaces, Waiting, Pending)]
              && GetRide(r.store.rides, rideId) == Some(r.store.rides[i])
  {
    match RideIndex(s.rides, rideId)
    case None => Reply(s, Err(RideNotFound))
    case Some(i) =>
      var ride := s.rides[i];
      if ride.status != Ready then
        Reply(s, Err(RideAlreadyStarted))
      else if HasRequested(ride.participants, alias) then
        Reply(s, Err(AlreadyRequested))
      else
        var entry := Participation(alias, destination, spaces, Waiting, Pending);
        var s' := s.(rides := s.rides[i := ride.(participants := ride.participants + [entry])]);
        RideIndexAfterChange(s, s', i, rideId);
        Reply(s', Ok)
  }

  /**
   `aceptar_participante`: acts on the rider's first entry; refuses an entry
   already decided, and one whose spaces do not fit beside the confirmed
   ones; otherwise confirms it and puts it back to waiting.
   */
  function AcceptParticipant(s: Store, rideId: int, alias: string): (r: Reply<Outcome>)
    ensures r.value.Err? ==> r.store == s
    ensures r.value == Err(RideNotFound) <==> GetRide(s.rides, rideId).None?
    ensures r.value == Err(ParticipantNotFound) <==>
              GetRide(s.rides, rideId).Some? && EntryIndex(GetRide(s.rides, rideId).value.participants, alias).None?
    ensures r.value == Err(AlreadyDecided) <==>
              && GetRide(s.rides, rideId).Some?
              && var ps := GetRide(s.rides, rideId).value.participants;
                 EntryIndex(ps, alias).Some? && ps[EntryIndex(ps, alias).value].confirmation != Pending
    ensures r.value == Err(NoSeatsAvailable) <==>
              && GetRide(s.rides, rideId).Some?
              && var ride := GetRide(s.rides, rideId).value;
                 && EntryIndex(ride.participants, alias).Some?
                 && var p := ride.participants[EntryIndex(ride.participants, alias).value];
                    p.confirmation == Pending && ConfirmedLoad(ride.participants) + p.occupiedSpaces > ride.availableSeats
    ensures r.value == Ok <==>
              && GetRide(s.rides, rideId).Some?
              && var ride := GetRide(s.rides, rideId).value;
                 && EntryIndex(ride.participants, alias).Some?
                 && var p := ride.participants[EntryIndex(ride.participants, alias).value];
                    p.confirmation == Pending && ConfirmedLoad(ride.participants) + p.occupiedSpaces <= ride.availableSeats
    ensures r.value == Ok ==>
              var i := RideIndex(s.rides, rideId).value;
              var ps := s.rides[i].participants;
              var k := EntryIndex(ps, alias).value;
              && OnlyRideChanged(s, r.store, i)
              && r.store.rides[i].status == s.rides[i].status
              && r.store.rides[i].participants == ps[k := ps[k].(confirmation := Confirmed, status := Waiting)]
              && ps[k].confirmation == Pending
              && ConfirmedLoad(r.store.rides[i].participants) == ConfirmedLoad(ps) + ps[k].occupiedSpaces
              && ConfirmedLoad(r.store.rides[i].participants) <= s.rides[i].availableSeats
              && GetRide(r.store.rides, rideId) == Some(r.store.rides[i])
  {
    match RideIndex(s.rides, rideId)
    case None => Reply(s, Err(RideNotFound))
    case Some(i) =>
      var ride := s.rides[i];
      match EntryIndex(ride.participants, alias)
      case None => Reply(s, Err(ParticipantNotFound))
      case Some(k) =>
        var p := ride.participants[k];
        if p.confirmation != Pending then
          Reply(s, Err(AlreadyDecided))
        else if ConfirmedLoad(ride.participants) + p.occupiedSpaces > ride.availableSeats then
          Reply(s, Err(NoSeatsAvailable))
        else
          var q := p.(confirmation := Confirmed, status := Waiting);
          var ps' := ride.participants[k := q];
          var s' := s.(rides := s.rides[i := ride.(participants := ps')]);
          ConfirmedLoadUpdate(ride.participants, k, q);
          RideIndexAfterChange(s, s', i, rideId);
          Reply(s', Ok)
  }

  /**
   `rechazar_participante`: marks the rider's first entry rejected, in both
   its confirmation and its status, whatever state it was in before.
   */
  function RejectParticipant(s: Store, rideId: int, alias: string): (r: Reply<Outcome>)
    ensures r.value.Err? ==> r.store == s
    ensures r.value == Err(RideNotFound) <==> GetRide(s.rides, rideId).None?
    ensures r.value == Err(ParticipantNotFound) <==>
              GetRide(s.rides, rideId).Some? && EntryIndex(GetRide(s.rides, rideId).value.participants, alias).None?
    ensures r.value == Ok <==>
              GetRide(s.rides, rideId).Some? && EntryIndex(GetRide(s.rides, rideId).value.participants, alias).Some?
    ensures r.value == Ok ==>
              var i := RideIndex(s.rides, rideId).value;
              var ps := s.rides[i].participants;
              var k := EntryIndex(ps, alias).value;
              && OnlyRideChanged(s, r.store, i)
              && r.store.rides[i].status == s.rides[i].status
              && r.store.rides[i].participants ==
                 ps[k := ps[k].(confirmation := Confirmation.Rejected, status := EntryStatus.Rejected)]
              && ConfirmedLoad(r.store.rides[i].participants) <= ConfirmedLoad(ps)
              && GetRide(r.store.rides, rideId) == Some(r.store.rides[i])
  {
    match RideIndex(s.rides, rideId)
    case None => Reply(s, Err(RideNotFound))
    case Some(i) =>
      var ride := s.rides[i];
      match EntryIndex(ride.participants, alias)
      case None => Reply(s, Err(ParticipantNotFound))
      case Some(k) =>
        var q := ride.participants[k].(confirmation := Confirmation.Rejected, status := EntryStatus.Rejected);
        var ps' := ride.participants[k := q];
        var s' := s.(rides := s.rides[i := ride.(participants := ps')]);
        ConfirmedLoadUpdate(ride.participants, k, q);
        RideIndexAfterChange(s, s', i, rideId);
        Reply(s', Ok)
  }

  /** Entries that keep every rider's alias in place have the same first entry per rider. */
  lemma EntryIndexSameAliases(a: seq<Participation>, b: seq<Participation>, alias: string)
    requires |a| == |b|
    requires forall j :: 0 <= j < |a| ==> a[j].participant == b[j].participant
    ensures EntryIndex(a, alias) == EntryIndex(b, alias)
  {
    FirstIndexSameVerdicts(a, (p: Participation) => p.participant == alias,
                           b, (p: Participation) => p.participant == alias);
  }

  /** Seat capacity holds for every ride after a join request. */
  lemma JoinKeepsSeats(s: Store, rideId: int, alias: string, destination: string, spaces: nat)
    requires AllSeatsRespected(s.rides)
    ensures AllSeatsRespected(RequestToJoin(s, rideId, alias, destination, spaces).store.rides)
  {
    var r := RequestToJoin(s, rideId, alias, destination, spaces);
    if r.value == Ok {
      var i := RideIndex(s.rides, rideId).value;
      ConfirmedLoadAppendPending(s.rides[i].participants, Participation(alias, destination, spaces, Waiting, Pending));
      assert SeatsRespected(r.store.rides[i]);
    }
  }

  /** Seat capacity holds for every ride after an acceptance, whatever its outcome. */
  lemma AcceptKeepsSeats(s: Store, rideId: int, alias: string)
    requires AllSeatsRespected(s.rides)
    ensures AllSeatsRespected(AcceptParticipant(s, rideId, alias).store.rides)
  {
    var r := AcceptParticipant(s, rideId, alias);
    if r.value == Ok {
      var i := RideIndex(s.rides, rideId).value;
      assert SeatsRespected(r.store.rides[i]);
    }
  }

  /** Seat capacity holds for every ride after a rejection: it can only free seats. */
  lemma RejectKeepsSeats(s: Store, rideId: int, alias: string)
    requires AllSeatsRespected(s.rides)
    ensures AllSeatsRespected(RejectParticipant(s, rideId, alias).store.rides)
  {
    var r := RejectParticipant(s, rideId, alias);
    if r.value == Ok {
      var i := RideIndex(s.rides, rideId).value;
      assert SeatsRespected(s.rides[i]);
      assert SeatsRespected(r.store.rides[i]);
    }
  }

  /**
   Accepting the same rider twice: the first call succeeds, the second is
   refused as already decided and leaves the store as the first left it.
   */
  lemma AcceptTwice(s: Store, rideId: int, alias: string)
    requires AcceptParticipant(s, rideId, alias).value == Ok
    ensures var r := AcceptParticipant(s, rideId, alias);
            var r' := AcceptParticipant(r.store, rideId, alias);
            r'.value == Err(AlreadyDecided) && r'.store == r.store
  {
    var r := AcceptParticipant(s, rideId, alias);
    var i := RideIndex(s.rides, rideId).value;
    EntryIndexSameAliases(s.rides[i].participants, r.store.rides[i].participants, alias);
  }

  /** No rider has two entries in one ride. */
  predicate EntriesDistinct(ps: seq<Participation>)
  {
    forall i, j :: 0 <= i < j < |ps| ==> ps[i].participant != ps[j].participant
  }

  predicate AllEntriesDistinct(rides: seq<Ride>)
  {
    forall i :: 0 <= i < |rides| ==> EntriesDistinct(rides[i].participants)
  }

  /**
   Join uniqueness: since any earlier entry, even a rejected one, blocks a
   new request, no ride ever holds two entries of the same rider.
   */
  lemma JoinKeepsEntriesDistinct(s: Store, rideId: int, alias: string, destination: string, spaces: nat)
    requires AllEntriesDistinct(s.rides)
    ensures AllEntriesDistinct(RequestToJoin(s, rideId, alias, destination, spaces).store.rides)
  {
    var r := RequestToJoin(s, rideId, alias, destination, spaces);
    if r.value == Ok {
      var i := RideIndex(s.rides, rideId).value;
      var ps := s.rides[i].participants;
      assert !HasRequested(ps, alias);
      assert EntriesDistinct(r.store.rides[i].participants);
    }
  }

  /** Acceptance keeps every alias in place, so entries stay distinct. */
  lemma AcceptKeepsEntriesDistinct(s: Store, rideId: int, alias: string)
    requires AllEntriesDistinct(s.rides)
    ensures AllEntriesDistinct(AcceptParticipant(s, rideId, alias).store.rides)
  {
    var r := AcceptParticipant(s, rideId, alias);
    if r.value == Ok {
      var i := RideIndex(s.rides, rideId).value;
      assert EntriesDistinct(s.rides[i].participants);
      assert EntriesDistinct(r.store.rides[i].participants);
    }
  }

  /** Rejection keeps every alias in place, so entries stay distinct. */
  lemma RejectKeepsEntriesDistinct(s: Store, rideId: int, alias: string)
    requires AllEntriesDistinct(s.rides)
    ensures AllEntriesDistinct(RejectParticipant(s, rideId, alias).store.rides)
  {
    var r := RejectParticipant(s, rideId, alias);
    if r.value == Ok {
      var i := RideIndex(s.rides, rideId).value;
      assert EntriesDistinct(s.rides[i].participants);
      assert EntriesDistinct(r.store.rides[i].participants);
    }
  }
}
