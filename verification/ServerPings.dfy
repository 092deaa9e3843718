/** Pings: that they keep being started, who owes an answer, and what an answer measures. */
module ServerPings {
  import opened Statistics
  import opened ServerRoom
  import opened ServerRuns
  import opened ServerMembers

  // ---- when a ping starts ----

  /** Every event is a packet of a member who is still there. */
  ghost predicate FromMembers(s: Server, es: seq<Event>)
    requires Measurable(s.players)
    decreases |es|
  {
    es == []
    || (es[0].Packet? && Known(Pruned(s.players, es[0].t0), es[0].id)
        && (StepMeasurable(s, es[0]); FromMembers(Step(s, es[0]).0, es[1..])))
  }

  /** Packets are handled at gaps of less than 10 ms. */
  predicate Frequent(es: seq<Event>, last: Time)
    decreases |es|
  {
    es == [] || (es[0].Packet? && es[0].t2 - last < 10000 && Frequent(es[1..], es[0].t2))
  }

  /** The ping clock of a step that relays: in the first 10 ms after the clock was set it opens the window,
      after that it closes it, and after 100 ms it is set again. */
  lemma StepClock(s: Server, e: Event)
    requires Room(s.players) && e.Packet? && Known(Pruned(s.players, e.t0), e.id) && s.lastPingTime <= e.t2
    ensures var (t, fx) := Step(s, e);
            var since := e.t2 - s.lastPingTime;
            && (fx.started <==> since < 10000 && !s.pinging)
            && (since < 10000 ==> t.pinging) && (since > 10000 ==> !t.pinging)
            && t.lastPingTime == (if since > 100000 then e.t2 else s.lastPingTime)
            && |fx.sendings| > 0
            && forall i :: 0 <= i < |fx.sendings| ==>
                 && (since < 10000 ==> fx.sendings[i].serverTime == e.t2)
                 && (since > 10000 ==> fx.sendings[i].serverTime == 0)
  {
    var ps := Pruned(s.players, e.t0);
    PrunedRoom(s.players, e.t0);
    UpdateRoom(ps, e.id, e.address, e.pingTime, e.t1);
    Elapsed(s.lastPingTime, e.t2);
    RelayedOnceToEach(s, e);
  }

  /** Pings keep coming: while packets of members are relayed at gaps of less than 10 ms, one starts as soon as
      another packet follows the first that comes more than 100 ms after the clock was set; so within 120 ms. */
  lemma {:induction false} PingsKeepComing(s: Server, es: seq<Event>, now: Time)
    requires Room(s.players) && Timely(es, now) && s.lastPingTime <= now && Frequent(es, now) && FromMembers(s, es)
    requires |es| >= 2 && Clock(es[|es| - 2]) - s.lastPingTime > 100000
    ensures Starts(s, es) != []
    decreases |es|
  {
    var e, rest := es[0], es[1..];
    TimelyHead(es, now);
    StepClock(s, e);
    StepRoom(s, e);
    StepMeasurable(s, e);
    var t := Step(s, e).0;
    if e.t2 - s.lastPingTime > 100000 {
      TimelyHead(rest, e.t2);
      StepClock(t, rest[0]);
    } else if !Step(s, e).1.started {
      assert rest[|rest| - 2] == es[|es| - 2];
      PingsKeepComing(t, rest, e.t2);
    }
  }

  // ---- what an answer measures ----

  /** A packet of a member yields a sample exactly if it owes an answer, echoes a server time, and that is less
      than 200 ms ago; the sample is the time since, and goes into the member's own statistics. */
  lemma SampleIff(ps: seq<Player>, id: nat, address: nat, pingTime: Time, now: Time)
    requires Room(ps) && Known(ps, id) && pingTime <= now
    ensures var (qs, _, sample) := Update(ps, id, address, pingTime, now);
            var p := PlayerOf(ps, id);
            && (sample.Some? <==> p.pinging && pingTime != 0 && now - pingTime < 200000)
            && (sample.Some? ==> sample.value == now - pingTime)
            && Known(qs, id)
            && PlayerOf(qs, id).networkTime == (if sample.Some? then AddSample(p.networkTime, (now - pingTime) as real) else p.networkTime)
            && (PlayerOf(qs, id).pinging <==> p.pinging && pingTime == 0)
  {
    var qs := Update(ps, id, address, pingTime, now).0;
    UpdateRoom(ps, id, address, pingTime, now);
    SamePosition(ps, qs, id, 0);
    Elapsed(pingTime, now);
  }

  /** A ping that starts is owed by everybody in the room. */
  lemma StartOwedByAll(s: Server, e: Event)
    requires Measurable(s.players) && Step(s, e).1.started
    ensures var t := Step(s, e).0; forall i :: 0 <= i < |t.players| ==> t.players[i].pinging
  {
  }

  /** The answer stays owed through the packets of others and whatever else happens. */
  lemma StepOwing(s: Server, e: Event, a: nat)
    requires Room(s.players) && Known(Pruned(s.players, e.t0), a) && !(e.Packet? && e.id == a)
    requires Known(s.players, a) && PlayerOf(s.players, a).pinging
    ensures Known(Step(s, e).0.players, a) && PlayerOf(Step(s, e).0.players, a).pinging
  {
    var ps := Pruned(s.players, e.t0);
    PrunedRoom(s.players, e.t0);
    PrunedPosition(s.players, e.t0, a);
    if e.Packet? {
      var (qs, channel, _) := Update(ps, e.id, e.address, e.pingTime, e.t1);
      UpdateRoom(ps, e.id, e.address, e.pingTime, e.t1);
      SamePosition(ps, qs, a, 0);
      if channel >= 0 {
        SamePosition(qs, PingClock(s.(players := qs), e.t2).0.players, a, 0);
      }
    }
  }

  predicate SilentRun(es: seq<Event>, a: nat) {
    forall i :: 0 <= i < |es| ==> !(es[i].Packet? && es[i].id == a)
  }

  /** From a ping on: the first packet of a member that comes in time and echoes a server time of the last 200
      ms yields exactly that latency. */
  lemma {:induction false} PingAnswered(s: Server, es: seq<Event>, e: Event, a: nat, last: Time, now: Time)
    requires Room(s.players) && Known(s.players, a) && PlayerOf(s.players, a).pinging
    requires PlayerOf(s.players, a).keepAlive == last <= now
    requires Timely(es + [e], now) && HeardOften(es + [e], a, last) && SilentRun(es, a)
    requires e.Packet? && e.id == a && 0 != e.pingTime <= e.t1 && e.t1 - e.pingTime < 200000
    ensures Step(Run(s, es), e).1.sample == Some(e.t1 - e.pingTime)
    decreases |es|
  {
    if es == [] {
      assert [] + [e] == [e];
      PruneKeepsIff(s.players, a, e.t0);
      PrunedRoom(s.players, e.t0);
      PrunedPosition(s.players, e.t0, a);
      SampleIff(Pruned(s.players, e.t0), a, e.address, e.pingTime, e.t1);
      UpdateRoom(Pruned(s.players, e.t0), a, e.address, e.pingTime, e.t1);
    } else {
      var d := es[0];
      assert (es + [e])[1..] == es[1..] + [e] && (es + [e])[0] == d;
      TimelyHead(es + [e], now);
      PruneKeepsIff(s.players, a, d.t0);
      StepMember(s, d, a);
      StepOwing(s, d, a);
      StepRoom(s, d);
      assert SilentRun(es[1..], a);
      PingAnswered(Step(s, d).0, es[1..], e, a, last, Clock(d));
    }
  }
}
