/**
 * The Go learning switch (vdeplug-go/internal/vswitch/vswitch.go): a MAC map, one bounded
 * queue and one writer per port, and an inline fast path that bypasses the queues when no
 * peer is connected.  Each method here is one atomic step; writers take and finish frames at
 * any time in between.
 */
module GoSwitch {
  import opened Bytes
  import opened MacTable

  type Frame = seq<byte>

  const UPLINK := -1
  const LOCAL := -2
  const MAX_PEERS := 32
  const OUT_QUEUE := 1024

  /** The switch's port numbers: guest, uplink, peers. */
  type PortNo = p: int | LOCAL <= p < MAX_PEERS

  /** A frame as accepted by the switch, stamped with the number of the Forward that brought it. */
  datatype Item = Item(stamp: nat, frame: Frame)

  /**
   * A port: its queue, the frame its writer is sending, what was sent, and every offer accepted
   * so far.  The switch keeps neither `sent` nor `accepted`, nor the stamps: they are the
   * history the properties speak of, and no branch looks at them.
   */
  datatype Port = Port(queue: seq<Item>, flying: Option<Item>, sent: seq<Item>, accepted: seq<Item>)

  const IDLE := Port([], None, [], [])

  function Backlog(q: Port): seq<Item> {
    (if q.flying.Some? then [q.flying.value] else []) + q.queue
  }

  /** Nothing accepted is lost, repeated or reordered. */
  predicate Ordered(q: Port) {
    q.sent + Backlog(q) == q.accepted
  }

  /** Queue one frame; a full queue refuses it. */
  function Push(q: Port, it: Item): Port {
    if |q.queue| < OUT_QUEUE then q.(queue := q.queue + [it], accepted := q.accepted + [it]) else q
  }

  /** Send one frame in the caller's goroutine. */
  function Inline(q: Port, it: Item): Port {
    q.(sent := q.sent + [it], accepted := q.accepted + [it])
  }

  datatype State = State(macs: MacMap, ports: map<PortNo, Port>, drops: nat, peers: int, stamp: nat)

  function Refusing(ports: map<PortNo, Port>, targets: set<PortNo>): set<PortNo>
  {
    set p | p in targets && p in ports && |ports[p].queue| >= OUT_QUEUE
  }

  /** Offer one frame to every target's queue. */
  function PushAll(ports: map<PortNo, Port>, targets: set<PortNo>, it: Item): map<PortNo, Port> {
    map p | p in ports :: if p in targets then Push(ports[p], it) else ports[p]
  }

  function PeerPorts(ports: map<PortNo, Port>): set<PortNo> {
    set p | p in ports && p >= 0
  }

  /** Deliver to one port. */
  function Emit(s: State, p: int, it: Item): State {
    if p !in s.ports then s
    else if s.peers == 0 then s.(ports := s.ports[p := Inline(s.ports[p], it)])
    else s.(ports := PushAll(s.ports, {p}, it), drops := s.drops + |Refusing(s.ports, {p})|)
  }

  /** Deliver to every port but one; a single target is served inline. */
  function Flood(s: State, from: PortNo, it: Item): State {
    var targets := s.ports.Keys - {from};
    if |targets| == 0 then s
    else if |targets| == 1 then
      s.(ports := map p | p in s.ports :: if p in targets then Inline(s.ports[p], it) else s.ports[p])
    else s.(ports := PushAll(s.ports, targets, it), drops := s.drops + |Refusing(s.ports, targets)|)
  }

  /** Where a frame goes after learning: None floods, a port number is emitted to. */
  function Route(macs: MacMap, from: PortNo, f: Frame, now: int): (MacMap, Option<int>)
    requires |f| >= 14
  {
    var learned := MapLearn(macs, f[6..12], from, now);
    if f[0] % 2 == 1 then (learned, None) else MapLookup(learned, f[0..6], now)
  }

  function Forward(s: State, from: PortNo, f: Frame, now: int): State {
    if |f| < 14 then s
    else
      var (macs, port) := Route(s.macs, from, f, now);
      var t, it := s.(macs := macs, stamp := s.stamp + 1), Item(s.stamp, f);
      match port
      case None => Flood(t, from, it)
      case Some(p) => if p == from then t else Emit(t, p, it)
  }

  /** The writer of p takes the next frame off its queue. */
  function Take(s: State, p: PortNo): State {
    if p in s.ports && s.ports[p].flying.None? && s.ports[p].queue != [] then
      var q := s.ports[p];
      s.(ports := s.ports[p := q.(queue := q.queue[1..], flying := Some(q.queue[0]))])
    else s
  }

  /** The writer of p has sent the frame it took. */
  function Finish(s: State, p: PortNo): State {
    if p in s.ports && s.ports[p].flying.Some? then
      var q := s.ports[p];
      s.(ports := s.ports[p := q.(flying := None, sent := q.sent + [q.flying.value])])
    else s
  }

  /** RemovePort, also what a writer does when its send fails. */
  function Remove(s: State, p: PortNo): State {
    s.(ports := s.ports - {p},
       peers := if p in s.ports && p >= 0 then s.peers - 1 else s.peers,
       macs := MapForget(s.macs, p))
  }

  /** AddPort, used for the uplink and the guest. */
  function Attach(s: State, p: PortNo): State {
    s.(ports := s.ports[p := IDLE])
  }

  /** A peer takes the lowest free port number. */
  function Join(s: State, p: PortNo): State {
    s.(ports := s.ports[p := IDLE], peers := s.peers + 1)
  }

  datatype Act =
    | Arrive(from: PortNo, frame: Frame, now: int)
    | TakeNext(port: PortNo)
    | Done(port: PortNo)
    | Gone(port: PortNo)
    | Add(port: PortNo)
    | Peer(port: PortNo)

  predicate Possible(s: State, a: Act) {
    match a
    case Add(p) => p == UPLINK || p == LOCAL
    case Peer(p) => 0 <= p && p !in s.ports && forall q: PortNo :: 0 <= q < p ==> q in s.ports
    case _ => true
  }

  function Next(s: State, a: Act): State {
    match a
    case Arrive(from, f, now) => Forward(s, from, f, now)
    case TakeNext(p) => Take(s, p)
    case Done(p) => Finish(s, p)
    case Gone(p) => Remove(s, p)
    case Add(p) => Attach(s, p)
    case Peer(p) => Join(s, p)
  }

  // ------------------------------------------------------------ where a frame goes

  /** The frame was taken by a port: sent on the spot, or put behind what waits there. */
  predicate Got(before: Port, after: Port, it: Item, inline: bool) {
    && after.accepted == before.accepted + [it] && after.flying == before.flying
    && (if inline then after.sent == before.sent + [it] && after.queue == before.queue
        else after.queue == before.queue + [it] && after.sent == before.sent)
  }

  /** The map has a fresh entry for the frame's unicast destination. */
  predicate Known(h: MacMap, f: Frame, now: int)
    requires |f| >= 14
  {
    f[0] % 2 == 0 && f[0..6] in h && now - h[f[0..6]].seen <= TTL
  }

  /** Bytes too short for an Ethernet header change nothing. */
  lemma RuntIsIgnored(s: State, from: PortNo, f: Frame, now: int)
    requires |f| < 14
    ensures Forward(s, from, f, now) == s
  {
  }

  lemma DeliveryKeeps(s: State, from: PortNo, p: int, it: Item)
    ensures Flood(s, from, it).macs == s.macs && Flood(s, from, it).peers == s.peers
    ensures Flood(s, from, it).ports.Keys == s.ports.Keys
    ensures Emit(s, p, it).macs == s.macs && Emit(s, p, it).peers == s.peers
    ensures Emit(s, p, it).ports.Keys == s.ports.Keys
  {
    hide Push, Refusing;
  }

  /** What a Forward leaves in the MAC map: the source learned, an expired destination dropped. */
  lemma ForwardLearns(s: State, from: PortNo, f: Frame, now: int)
    requires |f| >= 14
    ensures var h := MapLearn(s.macs, f[6..12], from, now);
            Forward(s, from, f, now).macs
            == if f[0] % 2 == 0 && f[0..6] in h && now - h[f[0..6]].seen > TTL then h - {f[0..6]} else h
    ensures Forward(s, from, f, now).peers == s.peers && Forward(s, from, f, now).ports.Keys == s.ports.Keys
  {
    hide MapLearn, Emit, Flood;
    var (macs, port) := Route(s.macs, from, f, now);
    var t := s.(macs := macs, stamp := s.stamp + 1);
    DeliveryKeeps(t, from, if port.Some? then port.value else from, Item(s.stamp, f));
  }

  /**
   * A frame to a known address goes to the one port it was last heard on: sent inline when no
   * peer is connected, otherwise queued there, or dropped and counted when that queue is full.
   * Nothing is sent back where it came from, or to a port that is gone, and no other port changes.
   */
  lemma KnownFrameIsDelivered(s: State, from: PortNo, f: Frame, now: int)
    requires |f| >= 14 && Known(MapLearn(s.macs, f[6..12], from, now), f, now)
    ensures var t, p, it := Forward(s, from, f, now), MapLearn(s.macs, f[6..12], from, now)[f[0..6]].port,
                            Item(s.stamp, f);
            && (forall q :: q in s.ports && q != p ==> q in t.ports && t.ports[q] == s.ports[q])
            && if p == from || p !in s.ports then t.ports == s.ports && t.drops == s.drops
               else if s.peers != 0 && |s.ports[p].queue| >= OUT_QUEUE then
                 t.ports == s.ports && t.drops == s.drops + 1
               else p in t.ports && Got(s.ports[p], t.ports[p], it, s.peers == 0) && t.drops == s.drops
  {
    hide MapLearn;
    var h := MapLearn(s.macs, f[6..12], from, now);
    var p := h[f[0..6]].port;
    if p != from && p in s.ports {
      OneRefusal(s.ports, p);
      if |s.ports[p].queue| >= OUT_QUEUE {
        assert PushAll(s.ports, {p}, Item(s.stamp, f)) == s.ports;
      }
    }
  }

  /**
   * Any other frame goes to every port but its own: inline when there is only one, otherwise
   * each gets it queued unless its queue is full, and exactly those refusals are counted.
   */
  lemma OtherFramesReachEveryone(s: State, from: PortNo, f: Frame, now: int)
    requires |f| >= 14 && !Known(MapLearn(s.macs, f[6..12], from, now), f, now)
    ensures var t, it, others := Forward(s, from, f, now), Item(s.stamp, f), s.ports.Keys - {from};
            && (from in s.ports ==> from in t.ports && t.ports[from] == s.ports[from])
            && (forall q :: q in others ==>
                  && q in t.ports
                  && if |others| > 1 && |s.ports[q].queue| >= OUT_QUEUE then t.ports[q] == s.ports[q]
                     else Got(s.ports[q], t.ports[q], it, |others| == 1))
            && t.drops == s.drops + |set q | q in others && t.ports[q].accepted == s.ports[q].accepted|
  {
    hide MapLearn;
    var t, it, others := Forward(s, from, f, now), Item(s.stamp, f), s.ports.Keys - {from};
    assert Route(s.macs, from, f, now).1 == None;
    assert t.ports == Flood(s, from, it).ports && t.drops == Flood(s, from, it).drops;
    FloodReaches(s, from, it);
  }

  lemma FloodReaches(s: State, from: PortNo, it: Item)
    ensures var t, others := Flood(s, from, it), s.ports.Keys - {from};
            && t.ports.Keys == s.ports.Keys
            && (from in s.ports ==> t.ports[from] == s.ports[from])
            && (forall q :: q in others ==>
                  if |others| > 1 && |s.ports[q].queue| >= OUT_QUEUE then t.ports[q] == s.ports[q]
                  else Got(s.ports[q], t.ports[q], it, |others| == 1))
            && t.drops == s.drops + |set q | q in others && t.ports[q].accepted == s.ports[q].accepted|
  {
    var t, others := Flood(s, from, it), s.ports.Keys - {from};
    var refused := set q | q in others && t.ports[q].accepted == s.ports[q].accepted;
    if |others| > 1 {
      assert refused == Refusing(s.ports, others);
    } else {
      assert refused == {};
    }
  }

  /** A writer with nothing in hand sends the oldest frame of its queue, and only that. */
  lemma WriterSendsTheOldest(s: State, p: PortNo)
    requires p in s.ports && s.ports[p].flying.None? && s.ports[p].queue != []
    ensures var t, q := Finish(Take(s, p), p), s.ports[p];
            t == s.(ports := s.ports[p := q.(sent := q.sent + [q.queue[0]], queue := q.queue[1..])])
  {
    var q := s.ports[p];
    var held := q.(queue := q.queue[1..], flying := Some(q.queue[0]));
    assert s.ports[p := held][p := held.(flying := None, sent := held.sent + [q.queue[0]])]
        == s.ports[p := held.(flying := None, sent := held.sent + [q.queue[0]])];
  }

  /** A port that is removed is gone with every address heard on it; nothing else is. */
  lemma RemovedIsForgotten(s: State, p: PortNo, m: Mac)
    ensures var t := Remove(s, p);
            && p !in t.ports && (forall q :: q in s.ports && q != p ==> q in t.ports && t.ports[q] == s.ports[q])
            && (m in t.macs <==> m in s.macs && s.macs[m].port != p) && (m in t.macs ==> t.macs[m] == s.macs[m])
  {
  }

  /** A port that comes up starts empty, and from then on hears what is flooded. */
  lemma NewPortHearsBroadcasts(s: State, p: PortNo, from: PortNo, f: Frame, now: int)
    requires Possible(s, Peer(p)) && from in s.ports && |f| >= 14 && f[0] % 2 == 1
    ensures var t := Next(s, Peer(p));
            && p in t.ports && t.ports[p] == IDLE && t.peers == s.peers + 1
            && p in Forward(t, from, f, now).ports && Forward(t, from, f, now).ports[p].accepted == [Item(s.stamp, f)]
  {
    hide Forward, MapLearn;
    var t := Next(s, Peer(p));
    OtherFramesReachEveryone(t, from, f, now);
    assert p in t.ports.Keys - {from};
  }

  // ------------------------------------------------------------ bounds and counts

  /** Queues are bounded and peers counts the peer ports. */
  ghost predicate Counted(s: State) {
    && (forall p :: p in s.ports ==> |s.ports[p].queue| <= OUT_QUEUE)
    && s.peers == |PeerPorts(s.ports)|
  }

  /** Same ports, bounded queues. */
  lemma SamePeers(s: State, t: State)
    requires Counted(s) && t.ports.Keys == s.ports.Keys && t.peers == s.peers
    requires forall p :: p in t.ports ==> |t.ports[p].queue| <= OUT_QUEUE
    ensures Counted(t)
  {
    assert PeerPorts(t.ports) == PeerPorts(s.ports);
  }

  lemma EmitKeepsCounted(s: State, p: int, it: Item)
    requires Counted(s)
    ensures Counted(Emit(s, p, it))
  {
    hide PeerPorts, Refusing;
    SamePeers(s, Emit(s, p, it));
  }

  lemma FloodKeepsCounted(s: State, from: PortNo, it: Item)
    requires Counted(s)
    ensures Counted(Flood(s, from, it))
  {
    hide PeerPorts, Refusing;
    SamePeers(s, Flood(s, from, it));
  }

  lemma ForwardKeepsCounted(s: State, from: PortNo, f: Frame, now: int)
    requires Counted(s)
    ensures Counted(Forward(s, from, f, now))
  {
    hide Route, Emit, Flood;
    if |f| >= 14 {
      var (macs, port) := Route(s.macs, from, f, now);
      var t := s.(macs := macs, stamp := s.stamp + 1);
      FloodKeepsCounted(t, from, Item(s.stamp, f));
      if port.Some? {
        EmitKeepsCounted(t, port.value, Item(s.stamp, f));
      }
    }
  }

  lemma RemoveKeepsCounted(s: State, p: PortNo)
    requires Counted(s)
    ensures Counted(Remove(s, p))
  {
    hide MapForget;
    var t := Remove(s, p);
    if p in s.ports && p >= 0 {
      assert PeerPorts(s.ports) == PeerPorts(t.ports) + {p};
    } else {
      assert PeerPorts(s.ports) == PeerPorts(t.ports);
    }
  }

  lemma AddKeepsCounted(s: State, p: PortNo)
    requires Counted(s)
    ensures (p == UPLINK || p == LOCAL) ==> Counted(Attach(s, p))
    ensures 0 <= p < MAX_PEERS && p !in s.ports ==> Counted(Join(s, p))
  {
    if p < 0 {
      assert PeerPorts(Attach(s, p).ports) == PeerPorts(s.ports);
    } else {
      assert PeerPorts(Join(s, p).ports) == PeerPorts(s.ports) + {p};
    }
  }

  /** Every step keeps queues bounded and the peer count right. */
  lemma NextKeepsCounted(s: State, a: Act)
    requires Counted(s) && Possible(s, a)
    ensures Counted(Next(s, a))
  {
    hide Forward, Remove, Attach, Join, PeerPorts;
    match a
    case Arrive(from, f, now) => ForwardKeepsCounted(s, from, f, now);
    case TakeNext(p) => SamePeers(s, Take(s, p));
    case Done(p) => SamePeers(s, Finish(s, p));
    case Gone(p) => RemoveKeepsCounted(s, p);
    case Add(p) => AddKeepsCounted(s, p);
    case Peer(p) => AddKeepsCounted(s, p);
  }

  // ------------------------------------------------------------ order

  ghost predicate AllOrdered(s: State) {
    forall p :: p in s.ports ==> Ordered(s.ports[p])
  }

  /** The uplink, the guest and at least one peer are attached. */
  ghost predicate HubUp(s: State) {
    UPLINK in s.ports && LOCAL in s.ports && s.peers >= 1 && Counted(s)
  }

  lemma PushKeepsOrder(q: Port, it: Item)
    requires Ordered(q)
    ensures Ordered(Push(q, it))
  {
    assert q.sent + (Backlog(q) + [it]) == q.accepted + [it];
    if |q.queue| < OUT_QUEUE {
      assert Backlog(Push(q, it)) == Backlog(q) + [it];
    }
  }

  /** An inline send keeps the order exactly when nothing was waiting. */
  lemma InlineKeepsOrderIff(q: Port, it: Item)
    requires Ordered(q) && forall i :: 0 <= i < |q.accepted| ==> q.accepted[i].stamp < it.stamp
    ensures Ordered(Inline(q, it)) <==> Backlog(q) == []
  {
    if Backlog(q) == [] {
      assert q.sent + [] == q.sent;
      assert Backlog(Inline(q, it)) == [];
    } else {
      var k := |q.sent|;
      assert (q.sent + Backlog(q))[k] == q.accepted[k];
      assert (Inline(q, it).sent + Backlog(Inline(q, it)))[k] == it;
      assert (q.accepted + [it])[k] == q.accepted[k];
    }
  }

  lemma TwoTargets(s: State, from: PortNo)
    requires HubUp(s)
    ensures |s.ports.Keys - {from}| >= 2
  {
    if PeerPorts(s.ports) == {} {
      assert false;
    }
    var peer :| peer in PeerPorts(s.ports);
    var all := {UPLINK, LOCAL, peer} - {from};
    assert all <= s.ports.Keys - {from};
    SubsetSize(all, s.ports.Keys - {from});
    if from == UPLINK {
      assert all == {LOCAL, peer};
    } else if from == LOCAL {
      assert all == {UPLINK, peer};
    } else if from == peer {
      assert all == {UPLINK, LOCAL};
    } else {
      assert all == {UPLINK, LOCAL, peer};
    }
  }

  lemma PushAllKeepsOrder(ports: map<PortNo, Port>, targets: set<PortNo>, it: Item)
    requires forall p :: p in ports ==> Ordered(ports[p])
    ensures forall p :: p in ports ==> Ordered(PushAll(ports, targets, it)[p])
  {
    hide Ordered;
    forall p | p in ports
      ensures Ordered(PushAll(ports, targets, it)[p])
    {
      PushKeepsOrder(ports[p], it);
    }
  }

  /** While the hub is up, every forwarded frame is queued, and every port stays in order. */
  lemma ForwardKeepsOrder(s: State, from: PortNo, f: Frame, now: int)
    requires AllOrdered(s) && HubUp(s)
    ensures AllOrdered(Forward(s, from, f, now))
  {
    hide Ordered, Route, Counted;
    TwoTargets(s, from);
    var it := Item(s.stamp, f);
    PushAllKeepsOrder(s.ports, s.ports.Keys - {from}, it);
    if |f| >= 14 {
      var port := Route(s.macs, from, f, now).1;
      if port.Some? && port.value in s.ports {
        PushAllKeepsOrder(s.ports, {port.value}, it);
      }
    }
  }

  lemma WriterKeepsOrder(s: State, p: PortNo)
    requires AllOrdered(s)
    ensures AllOrdered(Take(s, p)) && AllOrdered(Finish(s, p))
  {
    if p in s.ports {
      var q := s.ports[p];
      if q.flying.None? && q.queue != [] {
        assert [q.queue[0]] + q.queue[1..] == q.queue;
        assert Backlog(Take(s, p).ports[p]) == Backlog(q);
      }
      if q.flying.Some? {
        assert q.sent + [q.flying.value] + q.queue == q.sent + Backlog(q);
        assert Backlog(Finish(s, p).ports[p]) == q.queue;
      }
    }
  }

  /** Any step taken while the hub is up leaves every attached port in order. */
  lemma NextKeepsOrder(s: State, a: Act)
    requires AllOrdered(s) && HubUp(s) && Possible(s, a)
    ensures AllOrdered(Next(s, a))
  {
    hide Forward, Take, Finish, MapForget, Counted;
    match a
    case Arrive(from, f, now) => ForwardKeepsOrder(s, from, f, now);
    case TakeNext(p) => WriterKeepsOrder(s, p);
    case Done(p) => WriterKeepsOrder(s, p);
    case Gone(p) =>
    case Add(p) =>
    case Peer(p) =>
  }

  function Run(s: State, acts: seq<Act>): State
    decreases |acts|
  {
    if acts == [] then s else Run(Next(s, acts[0]), acts[1..])
  }

  /** Every step of the run is possible and starts with the hub up. */
  ghost predicate StaysUp(s: State, acts: seq<Act>)
    decreases |acts|
  {
    acts == [] || (HubUp(s) && Possible(s, acts[0]) && StaysUp(Next(s, acts[0]), acts[1..]))
  }

  /** While the uplink, the guest and a peer stay attached, every port sends what it accepted, in order. */
  lemma {:induction false} RunKeepsOrder(s: State, acts: seq<Act>)
    requires AllOrdered(s) && StaysUp(s, acts)
    ensures AllOrdered(Run(s, acts))
    decreases |acts|
  {
    hide Next, AllOrdered, HubUp, Possible;
    if acts != [] {
      NextKeepsOrder(s, acts[0]);
      RunKeepsOrder(Next(s, acts[0]), acts[1..]);
    }
  }

  /** Every offer in the history of a port is older than the next stamp. */
  ghost predicate Stamped(s: State) {
    forall p :: p in s.ports ==> forall i :: 0 <= i < |s.ports[p].accepted| ==> s.ports[p].accepted[i].stamp < s.stamp
  }

  /** The port a Forward serves inline, if it serves one that way. */
  ghost function InlineTarget(s: State, from: PortNo, f: Frame, now: int): (r: Option<int>)
    ensures r.Some? ==> r.value in s.ports
  {
    if |f| < 14 then None
    else match Route(s.macs, from, f, now).1
      case Some(p) => if p != from && p in s.ports && s.peers == 0 then Some(p) else None
      case None =>
        var targets := s.ports.Keys - {from};
        if |targets| == 1 then Some(Only(targets)) else None
  }

  ghost function Only(t: set<PortNo>): (p: PortNo)
    requires |t| == 1
    ensures t == {p}
  {
    var x :| x in t;
    assert |t - {x}| == 0;
    x
  }

  /**
   * In every state, hub up or not, a forwarded frame leaves all ports in order if and only if
   * it was not sent inline past frames still waiting at its port.
   */
  lemma ForwardKeepsOrderIff(s: State, from: PortNo, f: Frame, now: int)
    requires AllOrdered(s) && Stamped(s)
    ensures AllOrdered(Forward(s, from, f, now)) <==>
              match InlineTarget(s, from, f, now)
              case None => true
              case Some(p) => Backlog(s.ports[p]) == []
  {
    hide Ordered, Route, Backlog;
    var it, t := Item(s.stamp, f), Forward(s, from, f, now);
    PushAllKeepsOrder(s.ports, s.ports.Keys - {from}, it);
    if |f| >= 14 {
      var port := Route(s.macs, from, f, now).1;
      if port.Some? && port.value in s.ports {
        PushAllKeepsOrder(s.ports, {port.value}, it);
      }
      var target := InlineTarget(s, from, f, now);
      if target.Some? {
        InlineKeepsOrderIff(s.ports[target.value], it);
        assert t.ports[target.value] == Inline(s.ports[target.value], it);
      }
    }
  }

  lemma NextKeepsStamps(s: State, a: Act)
    requires Stamped(s)
    ensures Stamped(Next(s, a))
  {
    hide Route, MapForget, Refusing;
  }

  /** The step forwards a frame inline past frames that still wait at its port. */
  ghost predicate Overtakes(s: State, a: Act) {
    && a.Arrive?
    && match InlineTarget(s, a.from, a.frame, a.now)
       case None => false
       case Some(p) => Backlog(s.ports[p]) != []
  }

  /** Any step of any switch keeps all attached ports in order iff it does not overtake. */
  lemma NextKeepsOrderIff(s: State, a: Act)
    requires AllOrdered(s) && Stamped(s)
    ensures AllOrdered(Next(s, a)) <==> !Overtakes(s, a)
  {
    hide Forward, Take, Finish, MapForget, InlineTarget, Backlog;
    match a
    case Arrive(from, f, now) => ForwardKeepsOrderIff(s, from, f, now);
    case TakeNext(p) => WriterKeepsOrder(s, p);
    case Done(p) => WriterKeepsOrder(s, p);
    case Gone(p) =>
    case Add(p) => IdleIsOrdered();
    case Peer(p) => IdleIsOrdered();
  }

  lemma {:induction false} RunSnoc(s: State, acts: seq<Act>, a: Act)
    ensures Run(s, acts + [a]) == Next(Run(s, acts), a)
    decreases |acts|
  {
    hide Next;
    if acts == [] {
      assert acts + [a] == [a] && [a][1..] == [];
    } else {
      assert (acts + [a])[0] == acts[0] && (acts + [a])[1..] == acts[1..] + [a];
      RunSnoc(Next(s, acts[0]), acts[1..], a);
    }
  }

  /** At every moment of the run all attached ports are in order. */
  ghost predicate OrderedThroughout(s: State, acts: seq<Act>) {
    forall n: nat :: n <= |acts| ==> AllOrdered(Run(s, acts[..n]))
  }

  ghost predicate NeverOvertakes(s: State, acts: seq<Act>) {
    forall n: nat :: n < |acts| ==> !Overtakes(Run(s, acts[..n]), acts[n])
  }

  /**
   * Over any run, whoever is attached: the ports stay in order throughout if and only if no
   * frame is ever forwarded inline past frames still waiting at its port.
   */
  lemma {:induction false} RunKeepsOrderIff(s: State, acts: seq<Act>)
    requires AllOrdered(s) && Stamped(s)
    ensures Stamped(Run(s, acts))
    ensures OrderedThroughout(s, acts) <==> NeverOvertakes(s, acts)
    decreases |acts|
  {
    hide Run, Next, AllOrdered, Stamped, Overtakes;
    if acts == [] {
      RunNothing(s);
    } else {
      var last := |acts| - 1;
      var before, a := acts[..last], acts[last];
      assert acts == before + [a];
      RunKeepsOrderIff(s, before);
      RunSnoc(s, before, a);
      NextKeepsStamps(Run(s, before), a);
      assert forall n: nat :: n <= last ==> acts[..n] == before[..n];
      assert before[..last] == before && acts[..last + 1] == acts;
      if OrderedThroughout(s, before) {
        NextKeepsOrderIff(Run(s, before), a);
      }
    }
  }

  lemma RunNothing(s: State)
    ensures Run(s, []) == s
  {
  }

  function NoPorts(): State {
    State(map[], map[], 0, 0, 0)
  }

  lemma ForwardBroadcast(s: State, from: PortNo, f: Frame, now: int)
    requires |f| >= 14 && f[0] % 2 == 1
    ensures Forward(s, from, f, now).ports == Flood(s, from, Item(s.stamp, f)).ports
    ensures Forward(s, from, f, now).stamp == s.stamp + 1
  {
    hide MapLearn;
  }

  /** Two ports hear a broadcast, one of them leaves: the other's frame waits in its queue. */
  lemma BroadcastThenLeave(f: Frame) returns (left: State)
    requires |f| >= 14 && f[0] % 2 == 1
    ensures var up := Next(Next(Next(NoPorts(), Add(UPLINK)), Add(LOCAL)), Peer(0));
            left == Next(Next(up, Arrive(UPLINK, f, 0)), Gone(0))
    ensures left.ports == map[UPLINK := IDLE, LOCAL := Push(IDLE, Item(0, f))] && left.stamp == 1
  {
    hide MapForget, Forward, Push, Flood, Remove;
    var up := FirstThreePorts();
    ForwardBroadcast(up, UPLINK, f, 0);
    FloodTwo(up, Item(0, f));
    left := Next(Next(up, Arrive(UPLINK, f, 0)), Gone(0));
    RemoveLeaves(Next(up, Arrive(UPLINK, f, 0)));
  }

  lemma FirstThreePorts() returns (up: State)
    ensures up == Next(Next(Next(NoPorts(), Add(UPLINK)), Add(LOCAL)), Peer(0))
    ensures up == State(map[], map[UPLINK := IDLE, LOCAL := IDLE, 0 := IDLE], 0, 1, 0)
  {
    up := Next(Next(Next(NoPorts(), Add(UPLINK)), Add(LOCAL)), Peer(0));
  }

  lemma FloodTwo(s: State, it: Item)
    requires s.ports == map[UPLINK := IDLE, LOCAL := IDLE, 0 := IDLE]
    ensures Flood(s, UPLINK, it).ports == map[UPLINK := IDLE, LOCAL := Push(IDLE, it), 0 := Push(IDLE, it)]
  {
    hide Push, Refusing;
    assert s.ports.Keys - {UPLINK} == {LOCAL, 0};
  }

  lemma RemoveLeaves(s: State)
    requires s.ports.Keys == {UPLINK, LOCAL, 0}
    ensures Remove(s, 0).ports == map[UPLINK := s.ports[UPLINK], LOCAL := s.ports[LOCAL]]
    ensures Remove(s, 0).stamp == s.stamp
  {
    hide MapForget;
  }

  /**
   * The order can really break: a broadcast waits in the guest's queue, the only peer leaves,
   * and the next broadcast goes to the guest inline, ahead of it.
   */
  lemma LastPeerLeavingReorders(f: Frame, g: Frame)
    requires |f| >= 14 && |g| >= 14 && f[0] % 2 == 1 && g[0] % 2 == 1
    ensures var up := Next(Next(Next(NoPorts(), Add(UPLINK)), Add(LOCAL)), Peer(0));
            var left := Next(Next(up, Arrive(UPLINK, f, 0)), Gone(0));
            AllOrdered(left) && !AllOrdered(Next(left, Arrive(UPLINK, g, 0)))
  {
    hide Forward, Remove, Ordered, Inline;
    var left := BroadcastThenLeave(f);
    var waiting := left.ports[LOCAL];
    PushKeepsOrder(IDLE, Item(0, f)) by { IdleIsOrdered(); }
    IdleIsOrdered();
    assert left.ports.Keys - {UPLINK} == {LOCAL};
    ForwardBroadcast(left, UPLINK, g, 0);
    assert Next(left, Arrive(UPLINK, g, 0)).ports[LOCAL] == Inline(waiting, Item(1, g));
    assert waiting.accepted == [Item(0, f)] && Backlog(waiting) == [Item(0, f)];
    InlineKeepsOrderIff(waiting, Item(1, g));
  }

  lemma IdleIsOrdered()
    ensures Ordered(IDLE)
  {
  }

  /** Every step of the run is one the switch can take. */
  predicate AllPossible(s: State, acts: seq<Act>)
    decreases |acts|
  {
    acts == [] || (Possible(s, acts[0]) && AllPossible(Next(s, acts[0]), acts[1..]))
  }

  // ------------------------------------------------------------ the object

  /** The switch's fields, and its operations in place. */
  class Switch {
    var macs: MacMap
    var ports: map<PortNo, Port>
    var drops: nat
    var peers: int
    var stamp: nat

    ghost function Value(): State
      reads this
    {
      State(macs, ports, drops, peers, stamp)
    }

    /** Queues are bounded, peers counts the peer ports, and stamps grow. */
    ghost predicate Valid()
      reads this
    {
      Counted(Value()) && Stamped(Value())
    }

    constructor ()
      ensures Value() == NoPorts() && Valid() && AllOrdered(Value())
    {
      macs, ports, drops, peers, stamp := map[], map[], 0, 0, 0;
      new;
      assert PeerPorts(ports) == {};
    }

    method Learn(mac: Mac, from: PortNo, now: int)
      modifies this`macs
      ensures macs == MapLearn(old(macs), mac, from, now)
    {
      if mac[0] % 2 == 1 {
        return;
      }
      macs := macs[mac := Seen(from, now)];
    }

    method Lookup(mac: Mac, now: int) returns (port: Option<int>)
      modifies this`macs
      ensures (macs, port) == MapLookup(old(macs), mac, now)
    {
      if mac !in macs {
        return None;
      }
      var e := macs[mac];
      if now - e.seen > TTL {
        macs := macs - {mac};
        return None;
      }
      return Some(e.port);
    }

    /** The select with a default: queue the frame or count a drop. */
    method Offer(p: int, it: Item)
      requires p in ports
      modifies this`ports, this`drops
      ensures ports == old(ports)[p := Push(old(ports)[p], it)]
      ensures drops == old(drops) + if |old(ports)[p].queue| >= OUT_QUEUE then 1 else 0
    {
      var q := ports[p];
      if |q.queue| < OUT_QUEUE {
        ports := ports[p := q.(queue := q.queue + [it], accepted := q.accepted + [it])];
      } else {
        drops := drops + 1;
      }
    }

    method EmitTo(p: int, it: Item)
      modifies this`ports, this`drops
      ensures Value() == Emit(old(Value()), p, it)
    {
      if p !in ports {
        return;
      }
      if peers == 0 {
        ports := ports[p := Inline(ports[p], it)];
        return;
      }
      OneRefusal(ports, p);
      assert PushAll(ports, {p}, it) == ports[p := Push(ports[p], it)];
      Offer(p, it);
    }

    /** The map may be ranged over in any order; every target gets its offer. */
    method FloodFrom(from: PortNo, it: Item)
      modifies this`ports, this`drops
      ensures Value() == Flood(old(Value()), from, it)
    {
      var targets := ports.Keys - {from};
      if |targets| == 0 {
        return;
      }
      if |targets| == 1 {
        FloodOne(targets, it);
      } else {
        OfferAll(targets, it);
      }
    }

    method FloodOne(targets: set<PortNo>, it: Item)
      requires |targets| == 1 && targets <= ports.Keys
      modifies this`ports
      ensures ports == map p | p in old(ports) :: if p in targets then Inline(old(ports)[p], it) else old(ports)[p]
    {
      hide Inline;
      IsSingleton(targets);
      var p :| p in targets;
      ports := ports[p := Inline(ports[p], it)];
    }

    method OfferAll(targets: set<PortNo>, it: Item)
      requires targets <= ports.Keys
      modifies this`ports, this`drops
      ensures ports == PushAll(old(ports), targets, it)
      ensures drops == old(drops) + |Refusing(old(ports), targets)|
    {
      hide PushAll, Refusing, Push;
      ghost var before := ports;
      var todo := targets;
      NoTargets(ports, it);
      assert targets - todo == {};
      while todo != {}
        invariant todo <= targets && targets <= before.Keys && ports.Keys == before.Keys
        invariant ports == PushAll(before, targets - todo, it)
        invariant drops == old(drops) + |Refusing(before, targets - todo)|
        decreases |todo|
      {
        var p :| p in todo;
        OneMoreTarget(before, targets - todo, p, it);
        assert targets - (todo - {p}) == targets - todo + {p};
        Offer(p, it);
        todo := todo - {p};
      }
      assert targets - todo == targets;
    }

    method ForwardFrame(from: PortNo, f: Frame, now: int)
      modifies this
      ensures Value() == Forward(old(Value()), from, f, now)
    {
      hide Emit, Flood, MapLearn, MapLookup;
      if |f| < 14 {
        return;
      }
      var it := Item(stamp, f);
      Learn(f[6..12], from, now);
      stamp := stamp + 1;
      if f[0] % 2 == 1 {
        FloodFrom(from, it);
        return;
      }
      var port := Lookup(f[0..6], now);
      match port
      case None => FloodFrom(from, it);
      case Some(p) =>
        if p != from {
          EmitTo(p, it);
        }
    }

    /** AddPeer: the lowest free number, if there is one. */
    method AddPeer() returns (port: Option<PortNo>)
      modifies this`ports, this`peers
      ensures match port
              case None => Value() == old(Value()) && forall p :: 0 <= p < MAX_PEERS ==> p in ports
              case Some(p) => Possible(old(Value()), Peer(p)) && Value() == Join(old(Value()), p)
    {
      var p := 0;
      while p < MAX_PEERS
        invariant 0 <= p <= MAX_PEERS && forall q :: 0 <= q < p ==> q in ports
        invariant Value() == old(Value())
      {
        if p !in ports {
          ports := ports[p := IDLE];
          peers := peers + 1;
          return Some(p);
        }
        p := p + 1;
      }
      return None;
    }

    /** AddPort, for the uplink and the guest. */
    method AddPort(p: PortNo)
      requires p == UPLINK || p == LOCAL
      modifies this`ports
      ensures Value() == Attach(old(Value()), p)
    {
      ports := ports[p := IDLE];
    }

    /** The port's writer receives from its queue. */
    method WriterTakes(p: PortNo)
      requires p in ports && ports[p].flying.None? && ports[p].queue != []
      modifies this`ports
      ensures Value() == Take(old(Value()), p)
    {
      var q := ports[p];
      ports := ports[p := q.(queue := q.queue[1..], flying := Some(q.queue[0]))];
    }

    /** The port's writer is done with its frame; a failed send takes the port down. */
    method WriterFinishes(p: PortNo, failed: bool)
      requires p in ports && ports[p].flying.Some?
      modifies this`ports, this`peers, this`macs
      ensures Value() == if failed then Remove(old(Value()), p) else Finish(old(Value()), p)
    {
      if failed {
        RemovePort(p);
        return;
      }
      var q := ports[p];
      ports := ports[p := q.(flying := None, sent := q.sent + [q.flying.value])];
    }

    method RemovePort(p: PortNo)
      modifies this`ports, this`peers, this`macs
      ensures Value() == Remove(old(Value()), p)
    {
      if p in ports {
        if p >= 0 {
          peers := peers - 1;
        }
      }
      ports := ports - {p};
      macs := map m | m in macs && macs[m].port != p :: macs[m];
    }

    /** One step of the switch; a writer with nothing to do does nothing. */
    method Step(a: Act)
      requires Possible(Value(), a)
      modifies this
      ensures Value() == Next(old(Value()), a)
    {
      hide Forward, Remove, Join;
      match a
      case Arrive(from, f, now) => ForwardFrame(from, f, now);
      case TakeNext(p) =>
        if p in ports && ports[p].flying.None? && ports[p].queue != [] {
          WriterTakes(p);
        }
      case Done(p) =>
        if p in ports && ports[p].flying.Some? {
          WriterFinishes(p, false);
        }
      case Gone(p) => RemovePort(p);
      case Add(p) => AddPort(p);
      case Peer(p) =>
        ghost var before := Value();
        var taken := AddPeer();
        assert taken == Some(p) by {
          LowestIsUnique(before, p);
        }
    }

    /**
     * Any run: the object stays within its bounds, and while the uplink, the guest and a peer
     * stay attached every port sends what it accepted, in order.
     */
    method Perform(acts: seq<Act>)
      requires Valid() && AllPossible(Value(), acts)
      modifies this
      ensures Valid() && Value() == Run(old(Value()), acts)
      ensures AllOrdered(old(Value())) && StaysUp(old(Value()), acts) ==> AllOrdered(Value())
    {
      hide Next, Possible, Counted, Stamped, AllOrdered, StaysUp;
      var n := 0;
      while n < |acts|
        invariant 0 <= n <= |acts| && Valid() && AllPossible(Value(), acts[n..])
        invariant Run(old(Value()), acts) == Run(Value(), acts[n..])
      {
        assert acts[n..][1..] == acts[n + 1..];
        NextKeepsCounted(Value(), acts[n]);
        NextKeepsStamps(Value(), acts[n]);
        Step(acts[n]);
        n := n + 1;
      }
      if AllOrdered(old(Value())) && StaysUp(old(Value()), acts) {
        RunKeepsOrder(old(Value()), acts);
      }
    }
  }

  /** Only one peer number can be taken next. */
  lemma LowestIsUnique(s: State, p: PortNo)
    requires Possible(s, Peer(p))
    ensures forall q: PortNo :: Possible(s, Peer(q)) ==> q == p
    ensures p !in s.ports && 0 <= p < MAX_PEERS
  {
  }

  lemma IsSingleton(t: set<PortNo>)
    requires |t| == 1
    ensures forall p :: p in t ==> t == {p}
  {
    forall p | p in t
      ensures t == {p}
    {
      assert |t - {p}| == 0;
    }
  }

  lemma OneRefusal(ports: map<PortNo, Port>, p: PortNo)
    requires p in ports
    ensures |Refusing(ports, {p})| == if |ports[p].queue| >= OUT_QUEUE then 1 else 0
  {
    assert Refusing(ports, {p}) == if |ports[p].queue| >= OUT_QUEUE then {p} else {};
  }

  lemma NoTargets(ports: map<PortNo, Port>, it: Item)
    ensures PushAll(ports, {}, it) == ports && Refusing(ports, {}) == {}
  {
  }

  lemma OneMoreTarget(ports: map<PortNo, Port>, done: set<PortNo>, p: PortNo, it: Item)
    requires p in ports && p !in done
    ensures PushAll(ports, done + {p}, it) == PushAll(ports, done, it)[p := Push(PushAll(ports, done, it)[p], it)]
    ensures PushAll(ports, done, it)[p] == ports[p]
    ensures |Refusing(ports, done + {p})| == |Refusing(ports, done)| + if |ports[p].queue| >= OUT_QUEUE then 1 else 0
  {
    assert Refusing(ports, done + {p}) == Refusing(ports, done) + if |ports[p].queue| >= OUT_QUEUE then {p} else {};
  }
}
