/** The broadcast server: who is in the room, who is sent what, and when latency is measured. Times
    are microseconds. */
module ServerRoom {
  import opened Statistics

  const ROOM_SIZE: nat := 12
  const EXPIRATION: nat := 500000
  const TWO64: nat := 0x1_0000_0000_0000_0000

  /** A clock reading: 64 bits. */
  type Time = t: nat | t < TWO64

  datatype Option<T> = None | Some(value: T)

  datatype Player = Player(clientId: nat, keepAlive: Time, pinging: bool, address: nat, networkTime: Stats)

  predicate Present(p: Player, now: Time) {
    (now - p.keepAlive) % TWO64 <= EXPIRATION
  }

  /** The players heard from in the last half second, in the same order. */
  function Pruned(ps: seq<Player>, now: Time): (r: seq<Player>)
    ensures |r| <= |ps|
  {
    if ps == [] then []
    else Pruned(ps[..|ps| - 1], now) + if Present(ps[|ps| - 1], now) then [ps[|ps| - 1]] else []
  }

  /** One more player looked at: kept at the end of those kept, or dropped. */
  lemma PrunedNext(all: seq<Player>, seen: nat, now: Time, ps: seq<Player>)
    requires seen < |all| && ps == Pruned(all[..seen], now) + all[seen..]
    ensures var it := |Pruned(all[..seen], now)|;
            && ps[it] == all[seen]
            && (Present(ps[it], now) ==> Pruned(all[..seen + 1], now) == Pruned(all[..seen], now) + [all[seen]]
                                         && ps == Pruned(all[..seen + 1], now) + all[seen + 1..])
            && (!Present(ps[it], now) ==> ps[..it] + ps[it + 1..] == Pruned(all[..seen + 1], now) + all[seen + 1..])
  {
    assert all[..seen + 1][..seen] == all[..seen];
    assert all[seen..] == [all[seen]] + all[seen + 1..];
  }

  /** Where an id stands in the list from i on; the length if nowhere. */
  function Position(ps: seq<Player>, id: nat, i: nat): (k: nat)
    requires i <= |ps|
    ensures i <= k <= |ps|
    ensures k < |ps| ==> ps[k].clientId == id
    ensures forall j :: i <= j < k ==> ps[j].clientId != id
    decreases |ps| - i
  {
    if i == |ps| || ps[i].clientId == id then i else Position(ps, id, i + 1)
  }

  predicate Known(ps: seq<Player>, id: nat) {
    Position(ps, id, 0) < |ps|
  }

  /** The latency a reply to a ping shows, unless it is garbage: 64-bit subtraction. */
  function Latency(pingTime: Time, now: Time): Option<nat> {
    var d := (now - pingTime) % TWO64;
    if d < 200000 then Some(d) else None
  }

  /** A packet from a known player: it may complete a ping, and keeps the player alive. */
  function Refreshed(p: Player, pingTime: Time, now: Time): Player
    requires p.networkTime.windowSize >= 1.0
  {
    var answered := p.pinging && pingTime != 0;
    var l := Latency(pingTime, now);
    p.(keepAlive := now, pinging := p.pinging && !answered,
       networkTime := if answered && l.Some? then AddSample(p.networkTime, l.value as real) else p.networkTime)
  }

  function NewPlayer(id: nat, address: nat, now: Time): Player {
    Player(id, now, false, address, Stats(0.0, 0.0, 0.0, 20.0))
  }

  predicate Measurable(ps: seq<Player>) {
    forall i :: 0 <= i < |ps| ==> ps[i].networkTime.windowSize >= 1.0
  }

  /** `updateChannel`: the new list, the channel and the latency sample taken. A newcomer gets no
      channel yet, and a place only while at most ROOM_SIZE players are there. */
  function Update(ps: seq<Player>, id: nat, address: nat, pingTime: Time, now: Time): (seq<Player>, int, Option<nat>)
    requires Measurable(ps)
  {
    var k := Position(ps, id, 0);
    if k < |ps| then
      (ps[k := Refreshed(ps[k], pingTime, now)], k as int,
       if ps[k].pinging && pingTime != 0 then Latency(pingTime, now) else None)
    else if |ps| <= ROOM_SIZE then (ps + [NewPlayer(id, address, now)], -1, None)
    else (ps, -1, None)
  }

  function AllPinging(ps: seq<Player>): (r: seq<Player>)
    ensures |r| == |ps|
  {
    seq(|ps|, i requires 0 <= i < |ps| => ps[i].(pinging := true))
  }

  /** The class: the vector of players, edited in place. */
  class PlayerList {
    var players: seq<Player>
    const roomSize: nat := ROOM_SIZE

    constructor ()
      ensures players == []
    {
      players := [];
    }

    method Prune(now: Time)
      modifies this
      ensures players == Pruned(old(players), now)
    {
      ghost var all := players;
      ghost var seen := 0;
      var it := 0;
      while it < |players|
        invariant 0 <= seen <= |all| && it == |Pruned(all[..seen], now)|
        invariant players == Pruned(all[..seen], now) + all[seen..]
        decreases |all| - seen
      {
        PrunedNext(all, seen, now, players);
        if !Present(players[it], now) {
          players := players[..it] + players[it + 1..];
        } else {
          it := it + 1;
        }
        seen := seen + 1;
      }
      assert all[..seen] == all;
    }

    method UpdateChannel(id: nat, address: nat, pingTime: Time, now: Time) returns (channel: int, ghost sample: Option<nat>)
      requires Measurable(players)
      modifies this
      ensures (players, channel, sample) == Update(old(players), id, address, pingTime, now)
    {
      sample := None;
      var i := 0;
      while i < |players|
        invariant 0 <= i <= |players| && players == old(players) && sample == None
        invariant Position(players, id, 0) == Position(players, id, i)
      {
        if players[i].clientId == id {
          var p := players[i];
          if p.pinging && pingTime != 0 {
            var d := (now - pingTime) % TWO64;
            if d < 200000 {
              p := p.(networkTime := AddSample(p.networkTime, d as real));
              sample := Some(d);
            }
            p := p.(pinging := false);
          }
          p := p.(keepAlive := now);
          players := players[i := p];
          return i, sample;
        }
        i := i + 1;
      }
      if i <= roomSize {
        players := players + [NewPlayer(id, address, now)];
      }
      return -1, sample;
    }

    method StartPing()
      modifies this
      ensures players == AllPinging(old(players))
    {
      for i := 0 to |players|
        invariant |players| == |old(players)|
        invariant forall k :: 0 <= k < |players| ==>
          players[k] == if k < i then old(players)[k].(pinging := true) else old(players)[k]
      {
        players := players[i := players[i].(pinging := true)];
      }
    }
  }

  // ---- the server's step ----

  /** A room and the ping clock. */
  datatype Server = Server(players: seq<Player>, lastPingTime: Time, pinging: bool)

  /** What recvfrom gave: a packet with its sender's address and the server time it echoes, or an
      error; and the clock at the prune, at the update and at the ping decision. */
  datatype Event = Packet(id: nat, address: nat, pingTime: Time, t0: Time, t1: Time, t2: Time) | Nothing(t0: Time)

  /** A datagram sent: to whom, whether it is only the header, and the channel and server time that
      the header carries. */
  datatype Sending = Sending(address: nat, headerOnly: bool, channel: nat, serverTime: Time)

  /** What a step does to the outside, and what it measured. */
  datatype Effects = Effects(sendings: seq<Sending>, started: bool, sample: Option<nat>)

  function Sendings(ps: seq<Player>, id: nat, channel: nat, serverTime: Time): (ss: seq<Sending>)
    ensures |ss| == |ps|
  {
    seq(|ps|, i requires 0 <= i < |ps| => Sending(ps[i].address, ps[i].clientId == id, channel, serverTime))
  }

  /** The server time stamped on a relayed packet: zero outside a ping window. */
  function Stamp(s: Server, now: Time): Time {
    if s.pinging then now else 0
  }

  /** Pings go out in windows of 10 ms every 100 ms; a ping is started on the rising edge. */
  function PingClock(s: Server, now: Time): (Server, bool) {
    var deltaT := (now - s.lastPingTime) % TWO64;
    var start := deltaT < 10000 && !s.pinging;
    (s.(players := if start then AllPinging(s.players) else s.players,
        pinging := if deltaT < 10000 then true else if deltaT > 10000 then false else s.pinging,
        lastPingTime := if deltaT > 100000 then now else s.lastPingTime), start)
  }

  function Step(s: Server, e: Event): (Server, Effects)
    requires Measurable(s.players)
  {
    var ps := Pruned(s.players, e.t0);
    PrunedMeasurable(s.players, e.t0);
    match e
    case Nothing(_) => (s.(players := ps), Effects([], false, None))
    case Packet(id, address, pingTime, _, t1, t2) =>
      var (qs, channel, sample) := Update(ps, id, address, pingTime, t1);
      if channel < 0 then (s.(players := qs), Effects([], false, sample))
      else
        var (u, started) := PingClock(s.(players := qs), t2);
        (u, Effects(Sendings(u.players, id, channel, Stamp(u, t2)), started, sample))
  }

  lemma {:induction false} PrunedMeasurable(ps: seq<Player>, now: Time)
    requires Measurable(ps)
    ensures Measurable(Pruned(ps, now))
    decreases |ps|
  {
    if ps != [] {
      PrunedMeasurable(ps[..|ps| - 1], now);
    }
  }

  class JamServer {
    const playerList: PlayerList
    var lastPingTime: Time
    var m_pinging: bool

    ghost function View(): Server
      reads this, playerList
    {
      Server(playerList.players, lastPingTime, m_pinging)
    }

    constructor (now: Time)
      ensures fresh(playerList) && View() == Server([], now, true)
    {
      playerList := new PlayerList();
      lastPingTime := now;
      m_pinging := true;
    }

    /** The decisions of sendDataToRoomMembers: prune, update, ping clock, and one datagram to each
        player, only the header to the sender. */
    method SendDataToRoomMembers(e: Event) returns (sent: seq<Sending>, ghost started: bool, ghost sample: Option<nat>)
      requires Measurable(playerList.players)
      modifies this, playerList
      ensures View() == Step(old(View()), e).0
      ensures Effects(sent, started, sample) == Step(old(View()), e).1
    {
      sent, started, sample := [], false, None;
      PrunedMeasurable(playerList.players, e.t0);
      playerList.Prune(e.t0);
      if e.Nothing? {
        return;
      }
      var channel;
      channel, sample := playerList.UpdateChannel(e.id, e.address, e.pingTime, e.t1);
      if channel < 0 {
        return;
      }
      started := DecidePing(e.t2);
      sent := SendAll(e.id, channel, if m_pinging then e.t2 else 0);
    }

    method DecidePing(now: Time) returns (ghost started: bool)
      modifies this, playerList
      ensures (View(), started) == PingClock(old(View()), now)
    {
      started := false;
      var deltaT := (now - lastPingTime) % TWO64;
      if deltaT < 10000 {
        if !m_pinging {
          playerList.StartPing();
          started := true;
        }
        m_pinging := true;
      }
      if deltaT > 10000 {
        m_pinging := false;
      }
      if deltaT > 100000 {
        lastPingTime := now;
      }
    }

    method SendAll(id: nat, channel: nat, serverTime: Time) returns (sent: seq<Sending>)
      ensures sent == Sendings(playerList.players, id, channel, serverTime)
    {
      sent := [];
      for i := 0 to |playerList.players|
        invariant sent == Sendings(playerList.players, id, channel, serverTime)[..i]
      {
        var player := playerList.players[i];
        sent := sent + [Sending(player.address, player.clientId == id, channel, serverTime)];
      }
    }
  }
}
