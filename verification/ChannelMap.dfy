/** The client's map from client ids to local slots, with expiry. */
module ChannelMap {

  const MAX_JAMMERS: nat := 12
  const EMPTY_SLOT: nat := 40000
  const EXPIRATION_IN_SECONDS: int := 2

  datatype Channel = Channel(clientId: nat, keepAlive: int)

  /** The twelve slots. */
  type Slots = c: seq<Channel> | |c| == MAX_JAMMERS witness seq(MAX_JAMMERS, _ => Channel(EMPTY_SLOT, 0))

  predicate Stale(ch: Channel, now: int) {
    ch.clientId != EMPTY_SLOT && now - ch.keepAlive > EXPIRATION_IN_SECONDS
  }

  /** Every stale slot from `startAt` on is emptied. */
  function Prune(c: Slots, now: int, startAt: nat): (d: Slots) {
    seq(MAX_JAMMERS, i requires 0 <= i < MAX_JAMMERS =>
      if i >= startAt && Stale(c[i], now) then c[i].(clientId := EMPTY_SLOT) else c[i])
  }

  /** The first slot from i on that holds an id; MAX_JAMMERS if none does. */
  function Find(c: Slots, id: nat, i: nat): (k: nat)
    requires i <= MAX_JAMMERS
    ensures i <= k <= MAX_JAMMERS
    ensures k < MAX_JAMMERS ==> c[k].clientId == id
    ensures forall j :: i <= j < k ==> c[j].clientId != id
    decreases MAX_JAMMERS - i
  {
    if i == MAX_JAMMERS || c[i].clientId == id then i else Find(c, id, i + 1)
  }

  /** `getChannel`: the slot of a client, known or new, after stale slots are emptied. */
  function Lookup(c: Slots, id: nat, now: int): (r: (Slots, int))
    ensures -1 <= r.1 < MAX_JAMMERS
  {
    var p := Prune(c, now, 1);
    var known := Find(p, id, 0);
    if known < MAX_JAMMERS then (p[known := Channel(id, now)], known)
    else
      var free := Find(p, EMPTY_SLOT, 0);
      if free < MAX_JAMMERS then (p[free := Channel(id, now)], free) else (p, -1)
  }

  /** The constructor's or `clearChannelMap`'s state: our own id in slot 0, the rest empty. */
  function Cleared(myId: nat, now: int): Slots {
    seq(MAX_JAMMERS, i => Channel(if i == 0 then myId else EMPTY_SLOT, now))
  }

  class ChannelMap {
    const channels: array<Channel>
    var myId: nat

    ghost predicate Valid()
      reads this
    {
      channels.Length == MAX_JAMMERS
    }

    constructor (now: int)
      ensures Valid() && fresh(channels)
      ensures forall i :: 0 <= i < MAX_JAMMERS ==> channels[i] == Channel(EMPTY_SLOT, now)
    {
      channels := new Channel[MAX_JAMMERS](_ => Channel(EMPTY_SLOT, now));
      myId := 0;
    }

    method SetMyId(id: nat)
      requires Valid()
      modifies this`myId, channels
      ensures channels[..] == old(channels[..])[0 := old(channels[0]).(clientId := id)] && myId == id
    {
      myId := id;
      channels[0] := channels[0].(clientId := id);
    }

    /** What `JamPacket` does whenever its id changes: clear, then put the own id in slot 0. */
    method ClearFor(id: nat, now: int)
      requires Valid()
      modifies this`myId, channels
      ensures channels[..] == Cleared(id, now) && myId == id
    {
      for i := 0 to MAX_JAMMERS
        invariant forall k :: 0 <= k < i ==> channels[k] == Channel(EMPTY_SLOT, now)
      {
        channels[i] := Channel(EMPTY_SLOT, now);
      }
      SetMyId(id);
    }

    method PruneStaleChannels(now: int, startAt: nat)
      requires Valid() && startAt <= MAX_JAMMERS
      modifies channels
      ensures channels[..] == Prune(old(channels[..]), now, startAt)
    {
      for i := startAt to MAX_JAMMERS
        invariant forall k :: 0 <= k < MAX_JAMMERS ==>
          channels[k] == if k < i then Prune(old(channels[..]), now, startAt)[k] else old(channels[k])
      {
        if channels[i].clientId != EMPTY_SLOT && now - channels[i].keepAlive > EXPIRATION_IN_SECONDS {
          channels[i] := channels[i].(clientId := EMPTY_SLOT);
        }
      }
    }

    method GetChannel(clientId: nat, now: int) returns (r: int)
      requires Valid()
      modifies channels
      ensures channels[..] == Lookup(old(channels[..]), clientId, now).0 && r == Lookup(old(channels[..]), clientId, now).1
    {
      PruneStaleChannels(now, 1);
      ghost var p := channels[..];
      for i := 0 to MAX_JAMMERS
        invariant channels[..] == p && Find(p, clientId, 0) == Find(p, clientId, i)
      {
        if channels[i].clientId == clientId {
          channels[i] := channels[i].(keepAlive := now);
          return i;
        }
      }
      for i := 0 to MAX_JAMMERS
        invariant channels[..] == p && Find(p, EMPTY_SLOT, 0) == Find(p, EMPTY_SLOT, i)
      {
        if channels[i].clientId == EMPTY_SLOT {
          channels[i] := Channel(clientId, now);
          return i;
        }
      }
      return -1;
    }
  }

  // ---- what every call keeps ----

  /** No id twice. */
  ghost predicate Unique(c: Slots) {
    forall i, j :: 0 <= i < j < MAX_JAMMERS && c[i].clientId == c[j].clientId ==> c[i].clientId == EMPTY_SLOT
  }

  /** Our id in slot 0, and no id twice. */
  ghost predicate Injective(c: Slots, myId: nat) {
    c[0].clientId == myId && Unique(c)
  }

  lemma ClearedInjective(myId: nat, now: int)
    requires myId != EMPTY_SLOT
    ensures Injective(Cleared(myId, now), myId)
  {
  }

  lemma PruneInjective(c: Slots, myId: nat, now: int)
    requires Injective(c, myId)
    ensures Injective(Prune(c, now, 1), myId)
  {
  }

  lemma PutInjective(p: Slots, myId: nat, id: nat, now: int, k: nat)
    requires Injective(p, myId) && k < MAX_JAMMERS && myId != EMPTY_SLOT
    requires p[k].clientId == id || (p[k].clientId == EMPTY_SLOT && forall j :: 0 <= j < MAX_JAMMERS ==> p[j].clientId != id)
    ensures Injective(p[k := Channel(id, now)], myId)
  {
  }

  /** A call answers with the slot that holds the id afterwards, and with -1 exactly when, after
      the stale slots are emptied, all twelve are held by other ids. */
  lemma GetChannelMeaning(c: Slots, myId: nat, id: nat, now: int)
    requires Injective(c, myId) && myId != EMPTY_SLOT
    ensures var (d, r) := Lookup(c, id, now);
            && Injective(d, myId)
            && (r == -1 <==> forall i :: 0 <= i < MAX_JAMMERS ==>
                               c[i].clientId != id && c[i].clientId != EMPTY_SLOT && (i >= 1 ==> now - c[i].keepAlive <= 2))
            && (r != -1 ==> 0 <= r < MAX_JAMMERS && d[r] == Channel(id, now))
            && forall i :: 0 <= i < MAX_JAMMERS && i != r ==> d[i] == Prune(c, now, 1)[i]
  {
    var p := Prune(c, now, 1);
    PruneInjective(c, myId, now);
    RefusedIff(c, id, now);
    var known, free := Find(p, id, 0), Find(p, EMPTY_SLOT, 0);
    if known < MAX_JAMMERS {
      PutInjective(p, myId, id, now, known);
    } else if free < MAX_JAMMERS {
      PutInjective(p, myId, id, now, free);
    }
  }

  lemma RefusedIff(c: Slots, id: nat, now: int)
    ensures Lookup(c, id, now).1 == -1
            <==> forall i :: 0 <= i < MAX_JAMMERS ==>
                   c[i].clientId != id && c[i].clientId != EMPTY_SLOT && (i >= 1 ==> now - c[i].keepAlive <= 2)
  {
    var p := Prune(c, now, 1);
    var known, free := Find(p, id, 0), Find(p, EMPTY_SLOT, 0);
    if known < MAX_JAMMERS {
      KnownOrStale(c, id, now, known);
    } else if free < MAX_JAMMERS {
      assert p[free].clientId == EMPTY_SLOT;
    } else {
      forall i | 0 <= i < MAX_JAMMERS
        ensures c[i].clientId != id && c[i].clientId != EMPTY_SLOT && (i >= 1 ==> now - c[i].keepAlive <= 2)
      {
        assert p[i].clientId != id && p[i].clientId != EMPTY_SLOT;
      }
    }
  }

  lemma KnownOrStale(c: Slots, id: nat, now: int, k: nat)
    requires k < MAX_JAMMERS && Prune(c, now, 1)[k].clientId == id
    ensures c[k].clientId == id || Stale(c[k], now)
  {
  }

  // ---- runs ----

  /** A packet from a client, or the periodic expiry. */
  datatype Event = Heard(id: nat, now: int) | Expire(now: int)

  function After(c: Slots, e: Event): Slots {
    match e
    case Heard(id, now) => Lookup(c, id, now).0
    case Expire(now) => Prune(c, now, 1)
  }

  function Run(c: Slots, es: seq<Event>): Slots
    decreases |es|
  {
    if es == [] then c else Run(After(c, es[0]), es[1..])
  }

  /** The slot each packet of a run is routed to; -1 for other events. */
  function Routes(c: Slots, es: seq<Event>): (rs: seq<int>)
    ensures |rs| == |es|
    decreases |es|
  {
    if es == [] then []
    else [if es[0].Heard? then Lookup(c, es[0].id, es[0].now).1 else -1] + Routes(After(c, es[0]), es[1..])
  }

  lemma StepInjective(c: Slots, myId: nat, e: Event)
    requires Injective(c, myId) && myId != EMPTY_SLOT
    ensures Injective(After(c, e), myId)
  {
    match e
    case Heard(id, now) => GetChannelMeaning(c, myId, id, now);
    case Expire(now) => PruneInjective(c, myId, now);
  }

  /** On every run slot 0 stays ours and no id holds two slots. */
  lemma {:induction false} RunInjective(c: Slots, myId: nat, es: seq<Event>)
    requires Injective(c, myId) && myId != EMPTY_SLOT
    ensures Injective(Run(c, es), myId)
    decreases |es|
  {
    if es != [] {
      StepInjective(c, myId, es[0]);
      RunInjective(After(c, es[0]), myId, es[1..]);
    }
  }

  lemma LookupUnique(c: Slots, id: nat, now: int)
    requires Unique(c)
    ensures Unique(Prune(c, now, 1)) && Unique(Lookup(c, id, now).0)
  {
    var p := Prune(c, now, 1);
    var known, free := Find(p, id, 0), Find(p, EMPTY_SLOT, 0);
    if known < MAX_JAMMERS {
      KnownUnique(p, Channel(id, now), known);
    } else if free < MAX_JAMMERS {
      KnownUnique(p, Channel(id, now), free);
    }
  }

  lemma KnownUnique(p: Slots, ch: Channel, k: nat)
    requires Unique(p) && k < MAX_JAMMERS
    requires p[k].clientId == ch.clientId || forall j :: 0 <= j < MAX_JAMMERS ==> p[j].clientId != ch.clientId
    ensures Unique(p[k := ch])
  {
  }

  /** No id ever holds two slots, whatever our own id is. */
  lemma {:induction false} RunUnique(c: Slots, es: seq<Event>)
    requires Unique(c)
    ensures Unique(Run(c, es))
    decreases |es|
  {
    if es != [] {
      LookupUnique(c, if es[0].Heard? then es[0].id else 0, es[0].now);
      RunUnique(After(c, es[0]), es[1..]);
    }
  }

  /** Slot 0 stays ours on every run exactly if our id is not the empty marker; with the marker the
      first client heard takes it. */
  lemma OwnSlotIff(myId: nat, start: int)
    ensures (forall es :: Run(Cleared(myId, start), es)[0].clientId == myId) <==> myId != EMPTY_SLOT
  {
    var c := Cleared(myId, start);
    if myId != EMPTY_SLOT {
      ClearedInjective(myId, start);
      forall es
        ensures Run(c, es)[0].clientId == myId
      {
        RunInjective(c, myId, es);
      }
    } else {
      var e := Heard(1, start);
      assert [e][1..] == [];
      assert Run(c, [e]) == Run(After(c, e), []);
      MarkerTaken(start);
      assert Run(c, [e])[0].clientId == 1;
    }
  }

  lemma MarkerTaken(start: int)
    ensures After(Cleared(EMPTY_SLOT, start), Heard(1, start))[0].clientId == 1
  {
    var p := Prune(Cleared(EMPTY_SLOT, start), start, 1);
    assert forall i :: 0 <= i < MAX_JAMMERS ==> p[i].clientId == EMPTY_SLOT;
    assert Find(p, 1, 0) == MAX_JAMMERS && Find(p, EMPTY_SLOT, 0) == 0;
  }

  /** Client a, last heard at `last`, is heard again before any gap of more than two seconds. */
  predicate HeardInTime(es: seq<Event>, a: nat, last: int)
    decreases |es|
  {
    es == []
    || (es[0].now - last <= EXPIRATION_IN_SECONDS
        && HeardInTime(es[1..], a, if es[0].Heard? && es[0].id == a then es[0].now else last))
  }

  /** Client a is in slot k, and was last heard at `last`, or k is our own slot. */
  ghost predicate Holds(c: Slots, k: nat, a: nat, last: int) {
    k < MAX_JAMMERS && c[k].clientId == a && (k == 0 || c[k].keepAlive == last)
  }

  lemma StepHolds(c: Slots, myId: nat, e: Event, k: nat, a: nat, last: int)
    requires Injective(c, myId) && myId != EMPTY_SLOT && a != EMPTY_SLOT && Holds(c, k, a, last)
    requires k == 0 || e.now - last <= EXPIRATION_IN_SECONDS
    ensures Holds(After(c, e), k, a, if e.Heard? && e.id == a then e.now else last)
    ensures e.Heard? ==> (Lookup(c, e.id, e.now).1 == k <==> e.id == a)
  {
    var p := Prune(c, e.now, 1);
    PruneInjective(c, myId, e.now);
    assert p[k] == c[k];
    if e.Heard? {
      var id := e.id;
      GetChannelMeaning(c, myId, id, e.now);
      var known := Find(p, id, 0);
      if id == a {
        assert known <= k && p[known].clientId == p[k].clientId;
        assert known == k;
      }
    }
  }

  /** A client heard at gaps of at most two seconds keeps its slot: every packet of it goes there,
      and no packet of another client does. */
  lemma {:induction false} LiveClientKeepsSlot(c: Slots, myId: nat, es: seq<Event>, k: nat, a: nat, last: int)
    requires Injective(c, myId) && myId != EMPTY_SLOT && a != EMPTY_SLOT && Holds(c, k, a, last)
    requires k == 0 || HeardInTime(es, a, last)
    ensures forall i :: 0 <= i < |es| && es[i].Heard? ==> (Routes(c, es)[i] == k <==> es[i].id == a)
    ensures Run(c, es)[k].clientId == a
    decreases |es|
  {
    if es != [] {
      var e := es[0];
      StepHolds(c, myId, e, k, a, last);
      StepInjective(c, myId, e);
      var next := if e.Heard? && e.id == a then e.now else last;
      LiveClientKeepsSlot(After(c, e), myId, es[1..], k, a, next);
      forall i | 0 <= i < |es| && es[i].Heard?
        ensures Routes(c, es)[i] == k <==> es[i].id == a
      {
        if i > 0 {
          assert es[1..][i - 1] == es[i] && Routes(c, es)[i] == Routes(After(c, e), es[1..])[i - 1];
        }
      }
    }
  }

  /** Our own slot, whatever the times: packets with our id go to slot 0 and no others do. */
  lemma OwnSlot(myId: nat, start: int, es: seq<Event>)
    requires myId != EMPTY_SLOT
    ensures forall i :: 0 <= i < |es| && es[i].Heard? ==>
      (Routes(Cleared(myId, start), es)[i] == 0 <==> es[i].id == myId)
  {
    ClearedInjective(myId, start);
    LiveClientKeepsSlot(Cleared(myId, start), myId, es, 0, myId, start);
  }

  // ---- routing in the mixer ----

  /** The two jitter buffers that `addData` feeds for a slot; none for a negative one. */
  function Fed(slot: int): set<int> {
    if slot * 2 >= 0 then {slot * 2, slot * 2 + 1} else {}
  }

  /** So while a client is live no other client's packet reaches one of its jitter buffers. */
  lemma LiveClientsNeverMix(c: Slots, myId: nat, es: seq<Event>, k: nat, a: nat, last: int, i: nat)
    requires Injective(c, myId) && myId != EMPTY_SLOT && a != EMPTY_SLOT && Holds(c, k, a, last)
    requires k == 0 || HeardInTime(es, a, last)
    requires i < |es| && es[i].Heard? && es[i].id != a
    ensures Fed(Routes(c, es)[i]) !! Fed(k)
  {
    LiveClientKeepsSlot(c, myId, es, k, a, last);
  }

  /** The empty marker is no id: a client that used it would share its slot with the next
      newcomer. */
  lemma MarkerIsShared(c: Slots, myId: nat, b: nat, now: int)
    requires Injective(c, myId) && myId != EMPTY_SLOT && b != EMPTY_SLOT
    requires forall i :: 0 <= i < MAX_JAMMERS ==> c[i].clientId != b
    requires exists i :: 0 <= i < MAX_JAMMERS && c[i].clientId == EMPTY_SLOT
    ensures var (d, r) := Lookup(c, EMPTY_SLOT, now);
            r != -1 && Lookup(d, b, now).1 == r
  {
    var p := Prune(c, now, 1);
    var i :| 0 <= i < MAX_JAMMERS && c[i].clientId == EMPTY_SLOT;
    assert p[i].clientId == EMPTY_SLOT;
    var free := Find(p, EMPTY_SLOT, 0);
    var d := p[free := Channel(EMPTY_SLOT, now)];
    assert Lookup(c, EMPTY_SLOT, now) == (d, free);
    PruneTwice(c, d, now, free);
    var q := Prune(d, now, 1);
    SameIds(p, q, b, 0);
    SameIds(p, q, EMPTY_SLOT, 0);
    StillUnknown(c, b, now);
    assert Find(q, b, 0) == MAX_JAMMERS && Find(q, EMPTY_SLOT, 0) == free;
  }

  lemma StillUnknown(c: Slots, b: nat, now: int)
    requires b != EMPTY_SLOT && forall i :: 0 <= i < MAX_JAMMERS ==> c[i].clientId != b
    ensures Find(Prune(c, now, 1), b, 0) == MAX_JAMMERS
  {
  }

  lemma PruneTwice(c: Slots, d: Slots, now: int, k: nat)
    requires k < MAX_JAMMERS && Prune(c, now, 1)[k].clientId == EMPTY_SLOT
    requires d == Prune(c, now, 1)[k := Channel(EMPTY_SLOT, now)]
    ensures forall j :: 0 <= j < MAX_JAMMERS ==> Prune(d, now, 1)[j].clientId == Prune(c, now, 1)[j].clientId
  {
  }

  lemma {:induction false} SameIds(p: Slots, q: Slots, id: nat, i: nat)
    requires i <= MAX_JAMMERS && forall j :: 0 <= j < MAX_JAMMERS ==> p[j].clientId == q[j].clientId
    ensures Find(p, id, i) == Find(q, id, i)
    decreases MAX_JAMMERS - i
  {
    if i < MAX_JAMMERS {
      SameIds(p, q, id, i + 1);
    }
  }

  // ---- expiry ----

  /** A client is dropped from its slot exactly when it was last heard more than two seconds ago; our own slot
      never is. */
  lemma ExpiredIff(c: Slots, now: int, i: nat)
    requires i < MAX_JAMMERS && c[i].clientId != EMPTY_SLOT
    ensures var d := Prune(c, now, 1)[i];
            && (d.clientId == c[i].clientId <==> i == 0 || now - c[i].keepAlive <= 2)
            && (d.clientId == c[i].clientId || d.clientId == EMPTY_SLOT) && d.keepAlive == c[i].keepAlive
  {
  }

  /** Whether a slot can be given to a newcomer. */
  predicate Available(c: Slots, i: nat, now: int)
    requires i < MAX_JAMMERS
  {
    c[i].clientId == EMPTY_SLOT || (i >= 1 && now - c[i].keepAlive > 2)
  }

  /** A client that holds no slot, or holds one it was silent in for more than two seconds, is a newcomer: it
      gets the first slot that is available. */
  lemma NewcomerGetsFirst(c: Slots, id: nat, now: int)
    requires id != EMPTY_SLOT
    requires forall i :: 0 <= i < MAX_JAMMERS && c[i].clientId == id ==> Available(c, i, now)
    ensures var r := Lookup(c, id, now).1;
            if r == -1 then forall i :: 0 <= i < MAX_JAMMERS ==> !Available(c, i, now)
            else 0 <= r < MAX_JAMMERS && Available(c, r, now) && forall i :: 0 <= i < r ==> !Available(c, i, now)
  {
    var p := Prune(c, now, 1);
    forall i | 0 <= i < MAX_JAMMERS
      ensures p[i].clientId == EMPTY_SLOT <==> Available(c, i, now)
    {
    }
    assert forall i :: 0 <= i < MAX_JAMMERS ==> p[i].clientId != id;
    assert Find(p, id, 0) == MAX_JAMMERS;
    var free := Find(p, EMPTY_SLOT, 0);
    if free < MAX_JAMMERS {
      assert p[free].clientId == EMPTY_SLOT;
      forall i | 0 <= i < free
        ensures !Available(c, i, now)
      {
        assert p[i].clientId != EMPTY_SLOT;
      }
    } else {
      forall i | 0 <= i < MAX_JAMMERS
        ensures !Available(c, i, now)
      {
        assert p[i].clientId != EMPTY_SLOT;
      }
    }
  }
}
