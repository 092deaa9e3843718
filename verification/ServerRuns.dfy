/** The broadcast server over whole runs: membership, channels, relaying and ping windows. */
module ServerRuns {
  import opened ServerRoom

  ghost predicate Distinct(ps: seq<Player>) {
    forall i, j :: 0 <= i < j < |ps| ==> ps[i].clientId != ps[j].clientId
  }

  ghost predicate Room(ps: seq<Player>) {
    Distinct(ps) && Measurable(ps) && |ps| <= ROOM_SIZE + 1
  }

  lemma {:induction false} PositionIs(ps: seq<Player>, i: nat, k: nat)
    requires Distinct(ps) && k <= i < |ps|
    ensures Position(ps, ps[i].clientId, k) == i
    decreases i - k
  {
    if k < i {
      PositionIs(ps, i, k + 1);
    }
  }

  /** A player who is present is found after the prune where the present ones before it end. */
  lemma {:induction false} PrunedAt(ps: seq<Player>, now: Time, i: nat)
    requires i < |ps| && Present(ps[i], now)
    ensures |Pruned(ps[..i], now)| < |Pruned(ps, now)| && Pruned(ps, now)[|Pruned(ps[..i], now)|] == ps[i]
    decreases |ps|
  {
    var init := ps[..|ps| - 1];
    if i < |init| {
      assert init[..i] == ps[..i];
      PrunedAt(init, now, i);
    }
  }

  lemma {:induction false} PrunedMonotone(ps: seq<Player>, now: Time, i: nat, j: nat)
    requires i <= j <= |ps|
    ensures |Pruned(ps[..i], now)| <= |Pruned(ps[..j], now)|
    decreases j
  {
    if i < j {
      assert ps[..j][..j - 1] == ps[..j - 1];
      PrunedMonotone(ps, now, i, j - 1);
    }
  }

  /** Whoever is left was there, present, with only present ones before it. */
  lemma {:induction false} PrunedFrom(ps: seq<Player>, now: Time, k: nat) returns (i: nat)
    requires k < |Pruned(ps, now)|
    ensures i < |ps| && Present(ps[i], now) && Pruned(ps, now)[k] == ps[i] && |Pruned(ps[..i], now)| == k
    decreases |ps|
  {
    var init := ps[..|ps| - 1];
    if k < |Pruned(init, now)| {
      i := PrunedFrom(init, now, k);
      assert init[..i] == ps[..i];
    } else {
      i := |ps| - 1;
    }
  }

  lemma PrunedRoom(ps: seq<Player>, now: Time)
    requires Room(ps)
    ensures Room(Pruned(ps, now))
  {
    PrunedMeasurable(ps, now);
    var qs := Pruned(ps, now);
    forall k, l | 0 <= k < l < |qs|
      ensures qs[k].clientId != qs[l].clientId
    {
      var i := PrunedFrom(ps, now, k);
      var j := PrunedFrom(ps, now, l);
      if j <= i {
        PrunedMonotone(ps, now, j, i);
      }
    }
  }

  /** A prune moves nobody up, and nobody past another. */
  lemma PrunedPosition(ps: seq<Player>, now: Time, a: nat)
    requires Distinct(ps) && Known(Pruned(ps, now), a)
    ensures Known(ps, a)
    ensures var i := Position(ps, a, 0);
            Position(Pruned(ps, now), a, 0) == |Pruned(ps[..i], now)| <= i && Present(ps[i], now)
    ensures Pruned(ps, now)[Position(Pruned(ps, now), a, 0)] == ps[Position(ps, a, 0)]
  {
    var i := PrunedFrom(ps, now, Position(Pruned(ps, now), a, 0));
    PositionIs(ps, i, 0);
  }

  /** A prune leaves exactly the players heard from in time. */
  lemma PrunedKnown(ps: seq<Player>, now: Time, a: nat)
    requires Distinct(ps)
    ensures Known(Pruned(ps, now), a) <==> Heard(ps, a, now)
  {
    if Known(Pruned(ps, now), a) {
      PrunedPosition(ps, now, a);
    }
    if Heard(ps, a, now) {
      PrunedAt(ps, now, Position(ps, a, 0));
    }
  }

  /** A player in the list who was heard from in time. */
  predicate Heard(ps: seq<Player>, a: nat, now: Time) {
    Known(ps, a) && Present(ps[Position(ps, a, 0)], now)
  }

  lemma PrunedOrder(ps: seq<Player>, now: Time, a: nat, b: nat)
    requires Distinct(ps) && Known(Pruned(ps, now), a) && Known(Pruned(ps, now), b)
    requires Position(ps, a, 0) < Position(ps, b, 0)
    ensures Position(Pruned(ps, now), a, 0) < Position(Pruned(ps, now), b, 0)
  {
    PrunedPosition(ps, now, a);
    PrunedPosition(ps, now, b);
    var i, j := Position(ps, a, 0), Position(ps, b, 0);
    PrunedMonotone(ps, now, i + 1, j);
    assert ps[..i + 1][..i] == ps[..i];
  }

  /** The same ids in the same places, possibly followed by one more. */
  ghost predicate SameIds(ps: seq<Player>, qs: seq<Player>) {
    |ps| <= |qs| && forall i :: 0 <= i < |ps| ==> qs[i].clientId == ps[i].clientId
  }

  lemma {:induction false} SamePosition(ps: seq<Player>, qs: seq<Player>, a: nat, i: nat)
    requires SameIds(ps, qs) && i <= |ps|
    ensures Position(ps, a, i) < |ps| ==> Position(qs, a, i) == Position(ps, a, i)
    ensures Position(ps, a, i) == |ps| ==> Position(qs, a, i) == Position(qs, a, |ps|)
    decreases |ps| - i
  {
    if i < |ps| {
      SamePosition(ps, qs, a, i + 1);
    }
  }

  lemma UpdateRoom(ps: seq<Player>, id: nat, address: nat, pingTime: Time, now: Time)
    requires Room(ps)
    ensures var (qs, channel, sample) := Update(ps, id, address, pingTime, now);
            && Room(qs) && SameIds(ps, qs) && |qs| <= |ps| + 1
            && (channel >= 0 <==> Known(ps, id))
            && (channel >= 0 ==> channel < |ps| == |qs| && qs[channel].clientId == id)
            && (|qs| == |ps| + 1 <==> !Known(ps, id) && |ps| <= ROOM_SIZE)
            && (|qs| == |ps| + 1 ==> qs[|ps|].clientId == id)
  {
  }

  /** The players after a step, up to ids: the pruned ones and perhaps a newcomer at the end. */
  lemma StepRoom(s: Server, e: Event)
    requires Room(s.players)
    ensures var (t, _) := Step(s, e);
            && Room(t.players) && SameIds(Pruned(s.players, e.t0), t.players)
            && |t.players| <= |Pruned(s.players, e.t0)| + 1
  {
    var ps := Pruned(s.players, e.t0);
    PrunedRoom(s.players, e.t0);
    if e.Packet? {
      UpdateRoom(ps, e.id, e.address, e.pingTime, e.t1);
    }
  }

  /** A step keeps the channel of whoever stays from rising, and the order of any two who stay. */
  lemma StepKeepsOrder(s: Server, e: Event, a: nat)
    requires Room(s.players) && Known(Pruned(s.players, e.t0), a)
    ensures var t := Step(s, e).0;
            && Known(t.players, a) && Position(t.players, a, 0) <= Position(s.players, a, 0)
            && forall b :: Known(Pruned(s.players, e.t0), b) && Position(s.players, a, 0) < Position(s.players, b, 0)
                 ==> Position(t.players, a, 0) < Position(t.players, b, 0)
  {
    var ps := Pruned(s.players, e.t0);
    var t := Step(s, e).0;
    StepRoom(s, e);
    PrunedPosition(s.players, e.t0, a);
    SamePosition(ps, t.players, a, 0);
    forall b | Known(ps, b) && Position(s.players, a, 0) < Position(s.players, b, 0)
      ensures Position(t.players, a, 0) < Position(t.players, b, 0)
    {
      PrunedOrder(s.players, e.t0, a, b);
      SamePosition(ps, t.players, b, 0);
    }
  }

  function Run(s: Server, es: seq<Event>): (t: Server)
    requires Measurable(s.players)
    ensures Measurable(t.players)
    decreases |es|
  {
    if es == [] then s
    else
      StepMeasurable(s, es[0]);
      Run(Step(s, es[0]).0, es[1..])
  }

  lemma StepMeasurable(s: Server, e: Event)
    requires Measurable(s.players)
    ensures Measurable(Step(s, e).0.players)
  {
    PrunedMeasurable(s.players, e.t0);
  }

  /** On every run client ids stay distinct and at most ROOM_SIZE + 1 players are in the room. */
  lemma {:induction false} RunRoom(s: Server, es: seq<Event>)
    requires Room(s.players)
    ensures Room(Run(s, es).players)
    decreases |es|
  {
    if es != [] {
      StepRoom(s, es[0]);
      RunRoom(Step(s, es[0]).0, es[1..]);
    }
  }

  /** A step leaves more players than the room's size exactly if the prune does, or if it leaves as
      many and a newcomer's packet arrives: the room test lets one more in. */
  lemma StepOverfills(s: Server, e: Event)
    requires Room(s.players)
    ensures var ps := Pruned(s.players, e.t0);
            |Step(s, e).0.players| > ROOM_SIZE
            <==> |ps| > ROOM_SIZE || (e.Packet? && |ps| == ROOM_SIZE && !Known(ps, e.id))
  {
    var ps := Pruned(s.players, e.t0);
    PrunedRoom(s.players, e.t0);
    if e.Packet? {
      UpdateRoom(ps, e.id, e.address, e.pingTime, e.t1);
    }
  }

  /** One packet from each of the clients k to n - 1, all at one time. */
  function Crowd(k: nat, n: nat, now: Time): (es: seq<Event>)
    requires k <= n
    decreases n - k
  {
    if k == n then [] else [Packet(k, k, 0, now, now, now)] + Crowd(k + 1, n, now)
  }

  /** The clients 0 to |ps| - 1, all just heard from. */
  ghost predicate Gathered(ps: seq<Player>, now: Time) {
    Measurable(ps) && forall i :: 0 <= i < |ps| ==> ps[i].clientId == i && ps[i].keepAlive == now
  }

  lemma {:induction false} NobodyPruned(ps: seq<Player>, now: Time)
    requires Gathered(ps, now)
    ensures Pruned(ps, now) == ps
    decreases |ps|
  {
    if ps != [] {
      var init := ps[..|ps| - 1];
      NobodyPruned(init, now);
      assert Present(ps[|ps| - 1], now);
      assert ps == init + [ps[|ps| - 1]];
    }
  }

  lemma Newcomer(s: Server, now: Time)
    requires Gathered(s.players, now)
    ensures var n := |s.players|;
            var t := Step(s, Packet(n, n, 0, now, now, now)).0;
            Gathered(t.players, now) && |t.players| == if n <= ROOM_SIZE then n + 1 else n
  {
    NobodyPruned(s.players, now);
  }

  lemma TurnedAway(s: Server, id: nat, now: Time)
    requires Gathered(s.players, now) && |s.players| == ROOM_SIZE + 1 <= id
    ensures Step(s, Packet(id, id, 0, now, now, now)).0 == s
  {
    NobodyPruned(s.players, now);
  }

  /** Of n clients who turn up at an open room at once, as many as its size and one more get in. */
  lemma {:induction false} CrowdGetsIn(s: Server, k: nat, n: nat, now: Time)
    requires Gathered(s.players, now) && k <= n
    requires |s.players| == if k <= ROOM_SIZE + 1 then k else ROOM_SIZE + 1
    ensures |Run(s, Crowd(k, n, now)).players| == if n <= ROOM_SIZE + 1 then n else ROOM_SIZE + 1
    decreases n - k
  {
    if k < n {
      var e, rest := Packet(k, k, 0, now, now, now), Crowd(k + 1, n, now);
      assert ([e] + rest)[1..] == rest;
      if k <= ROOM_SIZE {
        Newcomer(s, now);
      } else {
        TurnedAway(s, k, now);
      }
      CrowdGetsIn(Step(s, e).0, k + 1, n, now);
    }
  }

  /** Thirteen players in a room for twelve. */
  lemma ThirteenPlayers(now: Time)
    ensures |Run(Server([], now, true), Crowd(0, 13, now)).players| == 13 == ROOM_SIZE + 1
  {
    CrowdGetsIn(Server([], now, true), 0, 13, now);
  }

  /** Player a is heard from in time for the prune of every step of the run. */
  ghost predicate Stays(s: Server, es: seq<Event>, a: nat)
    requires Measurable(s.players)
    decreases |es|
  {
    es == []
    || (StepMeasurable(s, es[0]);
        Heard(s.players, a, es[0].t0) && Stays(Step(s, es[0]).0, es[1..], a))
  }

  /** A member's channel never rises while it stays. */
  lemma {:induction false} ChannelNeverRises(s: Server, es: seq<Event>, a: nat)
    requires Room(s.players) && Known(s.players, a) && Stays(s, es, a)
    ensures Known(Run(s, es).players, a)
    ensures Position(Run(s, es).players, a, 0) <= Position(s.players, a, 0)
    decreases |es|
  {
    if es != [] {
      StepRoom(s, es[0]);
      PrunedKnown(s.players, es[0].t0, a);
      StepKeepsOrder(s, es[0], a);
      ChannelNeverRises(Step(s, es[0]).0, es[1..], a);
    }
  }

  /** Members keep their join order: of two who stay, the earlier one stays earlier. */
  lemma {:induction false} JoinOrderKept(s: Server, es: seq<Event>, a: nat, b: nat)
    requires Room(s.players) && Known(s.players, a) && Known(s.players, b) && Stays(s, es, a) && Stays(s, es, b)
    requires Position(s.players, a, 0) < Position(s.players, b, 0)
    ensures Position(Run(s, es).players, a, 0) < Position(Run(s, es).players, b, 0)
    decreases |es|
  {
    if es != [] {
      StepRoom(s, es[0]);
      PrunedKnown(s.players, es[0].t0, a);
      PrunedKnown(s.players, es[0].t0, b);
      StepKeepsOrder(s, es[0], a);
      StepKeepsOrder(s, es[0], b);
      JoinOrderKept(Step(s, es[0]).0, es[1..], a, b);
    }
  }

  /** A packet from a member still present goes once to every player in the room, in full to all
      but its sender, stamped with the sender's place in the room and, in a ping window and at no
      other time, with the clock; any other packet goes to nobody. */
  lemma RelayedOnceToEach(s: Server, e: Event)
    requires Room(s.players) && e.Packet?
    ensures var (t, fx) := Step(s, e);
            var ps := Pruned(s.players, e.t0);
            if Known(ps, e.id) then
              && |fx.sendings| == |t.players| == |ps|
              && forall i :: 0 <= i < |ps| ==>
                   && t.players[i].clientId == ps[i].clientId && t.players[i].address == ps[i].address
                   && fx.sendings[i] == Sending(ps[i].address, i == Position(ps, e.id, 0), Position(ps, e.id, 0),
                                                 if t.pinging then e.t2 else 0)
            else fx.sendings == []
  {
    var ps := Pruned(s.players, e.t0);
    PrunedRoom(s.players, e.t0);
    if Known(ps, e.id) {
      forall i | 0 <= i < |ps|
        ensures ps[i].clientId == e.id <==> i == Position(ps, e.id, 0)
      {
        PositionIs(ps, i, 0);
      }
    }
  }

  // ---- ping windows ----

  /** The clock never goes back. */
  predicate Timely(es: seq<Event>, now: Time)
    decreases |es|
  {
    es == []
    || match es[0]
       case Nothing(t0) => now <= t0 && Timely(es[1..], t0)
       case Packet(_, _, _, t0, t1, t2) => now <= t0 <= t1 <= t2 && Timely(es[1..], t2)
  }

  function Clock(e: Event): Time {
    if e.Packet? then e.t2 else e.t0
  }

  /** The times of the ping starts of a run. */
  function Starts(s: Server, es: seq<Event>): seq<Time>
    requires Measurable(s.players)
    decreases |es|
  {
    if es == [] then []
    else
      StepMeasurable(s, es[0]);
      var (t, fx) := Step(s, es[0]);
      (if fx.started then [Clock(es[0])] else []) + Starts(t, es[1..])
  }

  /** Each start more than 90 ms after the one before. */
  predicate Spaced(last: Option<Time>, ts: seq<Time>)
    decreases |ts|
  {
    ts == [] || ((last.Some? ==> ts[0] - last.value > 90000) && Spaced(Some(ts[0]), ts[1..]))
  }

  /** Where the ping clock is after the last start: still in its window, past the window, or in a
      period that began more than 90 ms later. */
  ghost predicate PingPhase(s: Server, now: Time, last: Option<Time>) {
    && s.lastPingTime <= now
    && (last.Some? ==>
          var t := last.value;
          || s.lastPingTime > t + 90000
          || (s.lastPingTime <= t < s.lastPingTime + 10000 && (s.pinging || now > s.lastPingTime + 10000)))
  }

  lemma Elapsed(from: Time, now: Time)
    requires from <= now
    ensures (now - from) % TWO64 == now - from
  {
  }

  lemma StepPingPhase(s: Server, e: Event, now: Time, last: Option<Time>)
    requires Measurable(s.players) && PingPhase(s, now, last) && Timely([e], now)
    ensures var (t, fx) := Step(s, e);
            && PingPhase(t, Clock(e), if fx.started then Some(Clock(e)) else last)
            && (fx.started && last.Some? ==> Clock(e) - last.value > 90000)
  {
    if e.Packet? {
      var ps := Pruned(s.players, e.t0);
      PrunedMeasurable(s.players, e.t0);
      var qs := Update(ps, e.id, e.address, e.pingTime, e.t1).0;
    }
  }

  lemma TimelyHead(es: seq<Event>, now: Time)
    requires es != [] && Timely(es, now)
    ensures Timely([es[0]], now) && Timely(es[1..], Clock(es[0]))
  {
    assert Timely([], Clock(es[0]));
  }

  /** Any two successive ping starts are more than 90 ms apart, whenever packets arrive. */
  lemma {:induction false} PingsSpaced(s: Server, es: seq<Event>, now: Time, last: Option<Time>)
    requires Measurable(s.players) && PingPhase(s, now, last) && Timely(es, now)
    ensures Spaced(last, Starts(s, es))
    decreases |es|
  {
    if es != [] {
      TimelyHead(es, now);
      StepPingPhase(s, es[0], now, last);
      StepMeasurable(s, es[0]);
      var (t, fx) := Step(s, es[0]);
      var next := if fx.started then Some(Clock(es[0])) else last;
      PingsSpaced(t, es[1..], Clock(es[0]), next);
      if fx.started {
        var ts := Starts(t, es[1..]);
        assert ([Clock(es[0])] + ts)[1..] == ts;
      } else {
        assert Starts(s, es) == Starts(t, es[1..]);
      }
    }
  }

  // ---- latency samples ----

  /** The latency samples a run takes from one client. */
  function Samples(s: Server, es: seq<Event>, a: nat): seq<nat>
    requires Measurable(s.players)
    decreases |es|
  {
    if es == [] then []
    else
      StepMeasurable(s, es[0]);
      var (t, fx) := Step(s, es[0]);
      (if es[0].Packet? && es[0].id == a && fx.sample.Some? then [fx.sample.value] else []) + Samples(t, es[1..], a)
  }

  /** Whether the client still owes the answer to a ping. */
  function Owed(ps: seq<Player>, a: nat): nat {
    if Known(ps, a) && ps[Position(ps, a, 0)].pinging then 1 else 0
  }

  lemma PrunedOwed(ps: seq<Player>, now: Time, a: nat)
    requires Distinct(ps)
    ensures Owed(Pruned(ps, now), a) <= Owed(ps, a)
  {
    if Known(Pruned(ps, now), a) {
      PrunedPosition(ps, now, a);
    }
  }

  lemma UpdateOwed(ps: seq<Player>, id: nat, address: nat, pingTime: Time, now: Time, a: nat)
    requires Room(ps)
    ensures var (qs, channel, sample) := Update(ps, id, address, pingTime, now);
            && (if id == a && sample.Some? then 1 else 0) + Owed(qs, a) <= Owed(ps, a)
            && (sample.Some? ==> sample.value < 200000)
  {
    var qs := Update(ps, id, address, pingTime, now).0;
    UpdateRoom(ps, id, address, pingTime, now);
    SamePosition(ps, qs, a, 0);
  }

  lemma PingClockOwed(s: Server, now: Time, a: nat)
    ensures var (t, started) := PingClock(s, now);
            Owed(t.players, a) <= Owed(s.players, a) + if started then 1 else 0
  {
    var t := PingClock(s, now).0;
    SamePosition(s.players, t.players, a, 0);
  }

  lemma StepOwed(s: Server, e: Event, a: nat)
    requires Room(s.players)
    ensures var (t, fx) := Step(s, e);
            && (if e.Packet? && e.id == a && fx.sample.Some? then 1 else 0) + Owed(t.players, a)
               <= Owed(s.players, a) + (if fx.started then 1 else 0)
            && (fx.sample.Some? ==> fx.sample.value < 200000)
  {
    var ps := Pruned(s.players, e.t0);
    PrunedRoom(s.players, e.t0);
    PrunedOwed(s.players, e.t0, a);
    if e.Packet? {
      var (qs, channel, sample) := Update(ps, e.id, e.address, e.pingTime, e.t1);
      UpdateOwed(ps, e.id, e.address, e.pingTime, e.t1, a);
      if channel >= 0 {
        PingClockOwed(s.(players := qs), e.t2, a);
      }
    }
  }

  /** In every run a client contributes at most one latency sample per ping start, besides one that
      was owed at its beginning, and every sample is under 200 ms. */
  lemma {:induction false} OneSamplePerPing(s: Server, es: seq<Event>, a: nat)
    requires Room(s.players)
    ensures |Samples(s, es, a)| + Owed(Run(s, es).players, a) <= |Starts(s, es)| + Owed(s.players, a)
    ensures forall i :: 0 <= i < |Samples(s, es, a)| ==> Samples(s, es, a)[i] < 200000
    decreases |es|
  {
    if es != [] {
      StepOwed(s, es[0], a);
      StepRoom(s, es[0]);
      OneSamplePerPing(Step(s, es[0]).0, es[1..], a);
    }
  }

  /** A room just opened satisfies what the run theorems start from. */
  lemma OpenedRoom(now: Time)
    ensures var s := Server([], now, true); Room(s.players) && PingPhase(s, now, None)
  {
  }
}
