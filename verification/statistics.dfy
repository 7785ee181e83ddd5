/**
 The statistics aggregator: `get_estadisticas` tallies a rider's entries
 over every ride, and `get_participantes_estadisticas` pairs each entry of
 one ride with its rider's tally. Both are read-only.
 */
module Statistics {
  import opened Options
  import opened Domain
  import opened RideStore

  /** A rider's history: total entries and the four finished outcomes. */
  datatype Stats = Stats(total: nat, completed: nat, missing: nat, notMarked: nat, rejected: nat)

  /** One entry of a ride together with its rider's history. */
  datatype ParticipantInfo = ParticipantInfo(entry: Participation, stats: Stats)

  /** The statuses of this rider's entries, in order. */
  function EntryStatuses(ps: seq<Participation>, alias: string): seq<EntryStatus>
  {
    if |ps| == 0 then []
    else
      var last := ps[|ps| - 1];
      EntryStatuses(ps[..|ps| - 1], alias) + (if last.participant == alias then [last.status] else [])
  }

  /** The statuses of this rider's entries across all rides, in store order. */
  function RiderStatuses(rides: seq<Ride>, alias: string): seq<EntryStatus>
  {
    if |rides| == 0 then []
    else RiderStatuses(rides[..|rides| - 1], alias) + EntryStatuses(rides[|rides| - 1].participants, alias)
  }

  /** Reference tally of a list of outcomes, by multiplicity. */
  function Tally(xs: seq<EntryStatus>): Stats
  {
    var m := multiset(xs);
    Stats(|xs|, m[Completed], m[Missing], m[NotMarked], m[EntryStatus.Rejected])
  }

  /** What `get_estadisticas` reports for this rider. */
  function StatsFor(rides: seq<Ride>, alias: string): Stats
  {
    Tally(RiderStatuses(rides, alias))
  }

  /** Counting one more entry of the rider: the total and that outcome's counter go up. */
  function Bump(st: Stats, x: EntryStatus): (r: Stats)
    ensures r.total == st.total + 1
    ensures r.completed == st.completed + (if x == Completed then 1 else 0)
    ensures r.missing == st.missing + (if x == Missing then 1 else 0)
    ensures r.notMarked == st.notMarked + (if x == NotMarked then 1 else 0)
    ensures r.rejected == st.rejected + (if x == EntryStatus.Rejected then 1 else 0)
  {
    var st := st.(total := st.total + 1);
    if x == Completed then st.(completed := st.completed + 1)
    else if x == Missing then st.(missing := st.missing + 1)
    else if x == NotMarked then st.(notMarked := st.notMarked + 1)
    else if x == EntryStatus.Rejected then st.(rejected := st.rejected + 1)
    else st
  }

  /** The counters agree with the reference tally after each entry counted. */
  lemma TallyAppend(xs: seq<EntryStatus>, x: EntryStatus)
    ensures Tally(xs + [x]) == Bump(Tally(xs), x)
  {
    assert multiset(xs + [x]) == multiset(xs) + multiset{x};
  }

  /** One more entry: this rider's statuses in a longer prefix of the ride. */
  lemma EntryStatusesStep(ps: seq<Participation>, j: nat, alias: string)
    requires j < |ps|
    ensures ps[j].participant == alias ==>
              EntryStatuses(ps[..j + 1], alias) == EntryStatuses(ps[..j], alias) + [ps[j].status]
    ensures ps[j].participant != alias ==>
              EntryStatuses(ps[..j + 1], alias) == EntryStatuses(ps[..j], alias)
  {
    assert ps[..j + 1][..j] == ps[..j];
    assert EntryStatuses(ps[..j], alias) + [] == EntryStatuses(ps[..j], alias);
  }

  /** The inner loop of `get_estadisticas`: the rider's entries of one ride. */
  method TallyRide(st: Stats, ps: seq<Participation>, alias: string, ghost before: seq<EntryStatus>)
    returns (st': Stats)
    requires st == Tally(before)
    ensures st' == Tally(before + EntryStatuses(ps, alias))
  {
    st' := st;
    ghost var seen := before;
    var j := 0;
    assert EntryStatuses(ps[..0], alias) == [];
    assert seen == before + [];
    while j < |ps|
      invariant 0 <= j <= |ps|
      invariant seen == before + EntryStatuses(ps[..j], alias)
      invariant st' == Tally(seen)
    {
      var p := ps[j];
      EntryStatusesStep(ps, j, alias);
      if p.participant == alias {
        TallyAppend(seen, p.status);
        assert seen + [p.status] == before + (EntryStatuses(ps[..j], alias) + [p.status]);
        seen := seen + [p.status];
        st' := Bump(st', p.status);
      } else {
        assert seen == before + EntryStatuses(ps[..j + 1], alias);
      }
      j := j + 1;
    }
    assert ps[..j] == ps;
  }

  /**
   `get_estadisticas`, with the source's two nested loops and five counters:
   every entry of the rider counts towards the total, and each of the four
   finished outcomes towards its own counter.
   */
  method GetStatistics(rides: seq<Ride>, alias: string) returns (st: Stats)
    ensures st == StatsFor(rides, alias)
  {
    st := Stats(0, 0, 0, 0, 0);
    var i := 0;
    while i < |rides|
      invariant 0 <= i <= |rides|
      invariant st == Tally(RiderStatuses(rides[..i], alias))
    {
      st := TallyRide(st, rides[i].participants, alias, RiderStatuses(rides[..i], alias));
      assert rides[..i + 1][..i] == rides[..i];
      i := i + 1;
    }
    assert rides[..i] == rides;
  }

  /** The four finished outcomes never add up to more than the total. */
  lemma {:induction false} TallyBound(xs: seq<EntryStatus>)
    ensures var t := Tally(xs); t.completed + t.missing + t.notMarked + t.rejected <= t.total
  {
    if |xs| > 0 {
      var ys := xs[..|xs| - 1];
      assert xs == ys + [xs[|xs| - 1]];
      TallyBound(ys);
    }
  }

  lemma StatsBound(rides: seq<Ride>, alias: string)
    ensures var t := StatsFor(rides, alias); t.completed + t.missing + t.notMarked + t.rejected <= t.total
  {
    TallyBound(RiderStatuses(rides, alias));
  }

  /** A rider with exactly one entry of each finished outcome has a total of four, one of each. */
  lemma StatsOneOfEach(rides: seq<Ride>, alias: string)
    ensures multiset(RiderStatuses(rides, alias)) == multiset{Completed, Missing, NotMarked, EntryStatus.Rejected}
            ==> StatsFor(rides, alias) == Stats(4, 1, 1, 1, 1)
  {
    var xs := RiderStatuses(rides, alias);
    assert |xs| == |multiset(xs)|;
  }

  function Add(a: Stats, b: Stats): Stats
  {
    Stats(a.total + b.total, a.completed + b.completed, a.missing + b.missing,
          a.notMarked + b.notMarked, a.rejected + b.rejected)
  }

  /** The reference tally of two histories is the sum of their tallies. */
  lemma TallyConcat(xs: seq<EntryStatus>, ys: seq<EntryStatus>)
    ensures Tally(xs + ys) == Add(Tally(xs), Tally(ys))
  {
    assert multiset(xs + ys) == multiset(xs) + multiset(ys);
  }

  /** Rider statuses over a split store are those of each part, in order. */
  lemma {:induction false} RiderStatusesConcat(a: seq<Ride>, b: seq<Ride>, alias: string)
    ensures RiderStatuses(a + b, alias) == RiderStatuses(a, alias) + RiderStatuses(b, alias)
  {
    if |b| > 0 {
      var b' := b[..|b| - 1];
      assert (a + b)[..|a + b| - 1] == a + b';
      RiderStatusesConcat(a, b', alias);
    } else {
      assert a + b == a;
    }
  }

  /** The tally is additive over rides: each ride contributes its own entries. */
  lemma StatsAdditive(a: seq<Ride>, b: seq<Ride>, alias: string)
    ensures StatsFor(a + b, alias) == Add(StatsFor(a, alias), StatsFor(b, alias))
  {
    RiderStatusesConcat(a, b, alias);
    TallyConcat(RiderStatuses(a, alias), RiderStatuses(b, alias));
  }

  /**
   `get_participantes_estadisticas`: nothing for an unknown ride; otherwise
   one item per entry, in the ride's order, carrying that entry and its
   rider's tally.
   */
  method ParticipantsWithStats(s: Store, rideId: int) returns (infos: seq<ParticipantInfo>)
    ensures GetRide(s.rides, rideId).None? ==> infos == []
    ensures GetRide(s.rides, rideId).Some? ==>
              var ps := GetRide(s.rides, rideId).value.participants;
              && |infos| == |ps|
              && forall k :: 0 <= k < |ps| ==>
                   infos[k].entry == ps[k] && infos[k].stats == StatsFor(s.rides, ps[k].participant)
  {
    infos := [];
    var found := GetRide(s.rides, rideId);
    if found.Some? {
      var ps := found.value.participants;
      var k := 0;
      while k < |ps|
        invariant 0 <= k <= |ps|
        invariant |infos| == k
        invariant forall j :: 0 <= j < k ==>
                    infos[j] == ParticipantInfo(ps[j], StatsFor(s.rides, ps[j].participant))
      {
        var st := GetStatistics(s.rides, ps[k].participant);
        infos := infos + [ParticipantInfo(ps[k], st)];
        k := k + 1;
      }
    }
  }
}
