/** Membership by the times of packets: who stays, who leaves, and where relayed packets go. */
module ServerMembers {
  import opened Statistics
  import opened ServerRoom
  import opened ServerRuns

  function PlayerOf(ps: seq<Player>, a: nat): Player
    requires Known(ps, a)
  {
    ps[Position(ps, a, 0)]
  }

  /** With a clock that has not gone back, a prune keeps exactly the members whose last packet was up to half
      a second ago. */
  lemma PruneKeepsIff(ps: seq<Player>, a: nat, now: Time)
    requires Distinct(ps) && Known(ps, a) && PlayerOf(ps, a).keepAlive <= now
    ensures Known(Pruned(ps, now), a) <==> now - PlayerOf(ps, a).keepAlive <= 500000
  {
    PrunedKnown(ps, now, a);
    Elapsed(PlayerOf(ps, a).keepAlive, now);
  }

  /** A member that is kept is the same after the prune, and after a packet of someone else but for the ping
      flag; its own packet renews its time and nothing that matters for relaying. */
  lemma StepMember(s: Server, e: Event, a: nat)
    requires Room(s.players) && Known(Pruned(s.players, e.t0), a)
    ensures var t := Step(s, e).0;
            && Known(s.players, a) && Known(t.players, a)
            && PlayerOf(t.players, a).address == PlayerOf(s.players, a).address
            && PlayerOf(t.players, a).keepAlive
               == if e.Packet? && e.id == a then e.t1 else PlayerOf(s.players, a).keepAlive
  {
    var ps := Pruned(s.players, e.t0);
    PrunedRoom(s.players, e.t0);
    PrunedPosition(s.players, e.t0, a);
    if e.Packet? {
      UpdateMember(ps, e.id, e.address, e.pingTime, e.t1, a);
      var (qs, channel, _) := Update(ps, e.id, e.address, e.pingTime, e.t1);
      UpdateRoom(ps, e.id, e.address, e.pingTime, e.t1);
      if channel >= 0 {
        PingMember(s.(players := qs), e.t2, a);
      }
    }
  }

  lemma UpdateMember(ps: seq<Player>, id: nat, address: nat, pingTime: Time, now: Time, a: nat)
    requires Room(ps) && Known(ps, a)
    ensures var qs := Update(ps, id, address, pingTime, now).0;
            && Known(qs, a) && PlayerOf(qs, a).address == PlayerOf(ps, a).address
            && PlayerOf(qs, a).keepAlive == if id == a then now else PlayerOf(ps, a).keepAlive
  {
    var qs := Update(ps, id, address, pingTime, now).0;
    UpdateRoom(ps, id, address, pingTime, now);
    SamePosition(ps, qs, a, 0);
  }

  lemma PingMember(s: Server, now: Time, a: nat)
    requires Known(s.players, a)
    ensures var t := PingClock(s, now).0;
            && Known(t.players, a) && PlayerOf(t.players, a).address == PlayerOf(s.players, a).address
            && PlayerOf(t.players, a).keepAlive == PlayerOf(s.players, a).keepAlive
  {
    SamePosition(s.players, PingClock(s, now).0.players, a, 0);
  }

  /** A newcomer with a packet gets in where there is room, at the address the packet came from, heard just
      now; the packet itself goes to nobody. */
  lemma Joins(s: Server, e: Event)
    requires Room(s.players) && e.Packet? && !Known(Pruned(s.players, e.t0), e.id)
    requires |Pruned(s.players, e.t0)| <= 12
    ensures var (t, fx) := Step(s, e);
            && Known(t.players, e.id) && fx.sendings == []
            && PlayerOf(t.players, e.id).address == e.address && PlayerOf(t.players, e.id).keepAlive == e.t1
            && !PlayerOf(t.players, e.id).pinging && PlayerOf(t.players, e.id).networkTime == Stats(0.0, 0.0, 0.0, 20.0)
  {
    var ps := Pruned(s.players, e.t0);
    PrunedRoom(s.players, e.t0);
    UpdateRoom(ps, e.id, e.address, e.pingTime, e.t1);
    var qs := Update(ps, e.id, e.address, e.pingTime, e.t1).0;
    PositionIs(qs, |ps|, 0);
  }

  // ---- runs ----

  /** Client a, last heard at `last`, is heard again before any event more than half a second later. */
  predicate HeardOften(es: seq<Event>, a: nat, last: Time)
    decreases |es|
  {
    es == []
    || (es[0].t0 - last <= 500000
        && HeardOften(es[1..], a, if es[0].Packet? && es[0].id == a then es[0].t1 else last))
  }

  /** A packet that is sent on: one copy to each player in the room, only its header to its sender. */
  ghost predicate SentOn(s: Server, e: Event)
    requires Measurable(s.players) && e.Packet?
  {
    var (t, fx) := Step(s, e);
    && |fx.sendings| == |t.players| > 0
    && forall i :: 0 <= i < |t.players| ==>
         fx.sendings[i].address == t.players[i].address && fx.sendings[i].headerOnly == (t.players[i].clientId == e.id)
  }

  /** Every packet of client a in the run is sent on. */
  ghost predicate AllSentOn(s: Server, es: seq<Event>, a: nat)
    requires Measurable(s.players)
    decreases |es|
  {
    es == []
    || ((es[0].Packet? && es[0].id == a ==> SentOn(s, es[0]))
        && (StepMeasurable(s, es[0]); AllSentOn(Step(s, es[0]).0, es[1..], a)))
  }

  /** A member heard at gaps of up to half a second, whatever others do: it stays through the whole run, at
      its address, and each of its packets is sent on. */
  lemma {:induction false} MemberStays(s: Server, es: seq<Event>, a: nat, last: Time, now: Time)
    requires Room(s.players) && Known(s.players, a) && PlayerOf(s.players, a).keepAlive == last <= now
    requires Timely(es, now) && HeardOften(es, a, last)
    ensures Stays(s, es, a) && AllSentOn(s, es, a)
    ensures var t := Run(s, es);
            Room(t.players) && Known(t.players, a) && PlayerOf(t.players, a).address == PlayerOf(s.players, a).address
    decreases |es|
  {
    if es != [] {
      var e := es[0];
      TimelyHead(es, now);
      PruneKeepsIff(s.players, a, e.t0);
      PrunedKnown(s.players, e.t0, a);
      StepMember(s, e, a);
      StepRoom(s, e);
      MemberStays(Step(s, e).0, es[1..], a, if e.Packet? && e.id == a then e.t1 else last, Clock(e));
    }
  }

  /** So such a member's channel never rises and its order to another such member is kept. */
  lemma MembersKeepOrder(s: Server, es: seq<Event>, a: nat, lastA: Time, b: nat, lastB: Time, now: Time)
    requires Room(s.players) && Known(s.players, a) && PlayerOf(s.players, a).keepAlive == lastA <= now
    requires Known(s.players, b) && PlayerOf(s.players, b).keepAlive == lastB <= now
    requires Timely(es, now) && HeardOften(es, a, lastA) && HeardOften(es, b, lastB)
    requires Position(s.players, a, 0) < Position(s.players, b, 0)
    ensures var t := Run(s, es).players;
            Position(t, a, 0) < Position(t, b, 0) && Position(t, a, 0) <= Position(s.players, a, 0)
  {
    MemberStays(s, es, a, lastA, now);
    MemberStays(s, es, b, lastB, now);
    ChannelNeverRises(s, es, a);
    JoinOrderKept(s, es, a, b);
  }

  /** From joining on: a packet of any member goes to the address that client a joined from, as long as a has
      been heard at gaps of up to half a second. */
  lemma ReachesWhereItJoined(s: Server, join: Event, es: seq<Event>, e: Event, now: Time) returns (i: nat)
    requires Room(s.players) && join.Packet? && e.Packet? && Timely([join] + es + [e], now)
    requires !Known(Pruned(s.players, join.t0), join.id) && |Pruned(s.players, join.t0)| <= 12
    requires HeardOften(es + [e], join.id, join.t1)
    requires Known(Pruned(Run(s, [join] + es).players, e.t0), e.id)
    ensures var fx := Step(Run(s, [join] + es), e).1;
            i < |fx.sendings| && fx.sendings[i].address == join.address && fx.sendings[i].headerOnly == (e.id == join.id)
  {
    var a, u := join.id, Step(s, join).0;
    assert [join] + es + [e] == [join] + (es + [e]) && ([join] + (es + [e]))[1..] == es + [e] && ([join] + es)[1..] == es;
    TimelyHead([join] + es + [e], now);
    Joins(s, join);
    StepRoom(s, join);
    MemberStays(u, es + [e], a, join.t1, join.t2);
    var t := Run(u, es);
    RunSnoc(u, es, e);
    StaysSnoc(u, es, e, a);
    TimelyFront(es, [e], join.t2);
    HeardOftenFront(es, [e], a, join.t1);
    MemberStays(u, es, a, join.t1, join.t2);
    PrunedKnown(t.players, e.t0, a);
    PrunedPosition(t.players, e.t0, a);
    RelayedOnceToEach(t, e);
    i := Position(Pruned(t.players, e.t0), a, 0);
    PrunedRoom(t.players, e.t0);
    PositionIs(Pruned(t.players, e.t0), i, 0);
  }

  lemma {:induction false} RunSnoc(s: Server, es: seq<Event>, e: Event)
    requires Measurable(s.players)
    ensures Run(s, es + [e]) == Step(Run(s, es), e).0
    decreases |es|
  {
    if es == [] {
      assert [] + [e] == [e] && [e][1..] == [];
    } else {
      assert (es + [e])[1..] == es[1..] + [e];
      StepMeasurable(s, es[0]);
      RunSnoc(Step(s, es[0]).0, es[1..], e);
    }
  }

  lemma {:induction false} StaysSnoc(s: Server, es: seq<Event>, e: Event, a: nat)
    requires Measurable(s.players) && Stays(s, es + [e], a)
    ensures Heard(Run(s, es).players, a, e.t0)
    decreases |es|
  {
    if es == [] {
      assert [] + [e] == [e];
    } else {
      assert (es + [e])[1..] == es[1..] + [e];
      StepMeasurable(s, es[0]);
      StaysSnoc(Step(s, es[0]).0, es[1..], e, a);
    }
  }

  lemma {:induction false} TimelyFront(es: seq<Event>, fs: seq<Event>, now: Time)
    requires Timely(es + fs, now)
    ensures Timely(es, now)
    decreases |es|
  {
    if es != [] {
      assert (es + fs)[1..] == es[1..] + fs;
      TimelyFront(es[1..], fs, Clock(es[0]));
    }
  }

  lemma {:induction false} HeardOftenFront(es: seq<Event>, fs: seq<Event>, a: nat, last: Time)
    requires HeardOften(es + fs, a, last)
    ensures HeardOften(es, a, last)
    decreases |es|
  {
    if es != [] {
      assert (es + fs)[1..] == es[1..] + fs;
      HeardOftenFront(es[1..], fs, a, if es[0].Packet? && es[0].id == a then es[0].t1 else last);
    }
  }
}
