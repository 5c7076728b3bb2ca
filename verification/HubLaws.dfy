/**
 * What the hub promises the machines plugged into it, said without its own functions: where a
 * frame goes, by the plain map of who was heard where; what a joining and a leaving peer find;
 * and how turns make a round and rounds a run.
 */
module HubLaws {
  import opened Bytes
  import opened MacTable
  import opened HubSpec

  // ------------------------------------------------------------ where a frame goes

  /** The map has a fresh entry for the frame's unicast destination. */
  predicate Known(h: MacMap, f: Frame, now: int)
    requires |f| >= ETH_HDRLEN
  {
    f[0] % 2 == 0 && f[0..6] in h && now - h[f[0..6]].seen <= TTL
  }

  /** From the answer to the ports: an answered port other than the arrival port is the only one reached. */
  lemma AnswerReaches(t: Table, arrived: int, f: Frame, c: Clock, p: int, up: set<int>)
    requires |f| >= ETH_HDRLEN && IsPort(arrived) && IsPort(p)
    requires var a := Lookup(Learn(t, f[6..12], arrived, c.learn), f[0..6], c.lookup).1; a.Some? ==> IsPort(a.value)
    ensures var a := Lookup(Learn(t, f[6..12], arrived, c.learn), f[0..6], c.lookup).1;
            Reaches(DestOf(t, arrived, f, c).1, arrived, p, up) <==>
              p in up && p != arrived && (f[0] % 2 == 0 && a.Some? ==> a.value == p)
  {
    hide Learn, Lookup;
  }

  /**
   * A table that holds the facts of a map sends a frame where the map says: to the port its
   * unicast destination was last heard on, if that was within the time limit, and otherwise to
   * every attached port; never back where it came from.
   */
  lemma FrameGoesWhereHeard(t: Table, g: MacMap, arrived: int, f: Frame, c: Clock, p: int, up: set<int>)
    requires |f| >= ETH_HDRLEN && IsPort(arrived) && IsPort(p) && forall m :: m in g ==> IsPort(g[m].port)
    requires Findable(t) && Same(t, g) && (Multicast(f[6..12]) || |g.Keys + {f[6..12]}| <= SIZE)
    ensures var h := MapLearn(g, f[6..12], arrived, c.learn);
            Reaches(DestOf(t, arrived, f, c).1, arrived, p, up) <==>
              p in up && p != arrived && (Known(h, f, c.lookup) ==> h[f[0..6]].port == p)
  {
    hide Learn, Lookup, DestOf, Findable, Same, Reaches;
    LearnKeepsFindable(t, f[6..12], arrived, c.learn);
    LearnKeepsSame(t, g, f[6..12], arrived, c.learn);
    LookupAgrees(Learn(t, f[6..12], arrived, c.learn), MapLearn(g, f[6..12], arrived, c.learn), f[0..6], c.lookup);
    AnswerReaches(t, arrived, f, c, p, up);
  }

  /**
   * In every table, whatever was forgotten, expired or overwritten: a frame goes to all other
   * attached ports, or it is unicast and goes to exactly one port its destination was heard on
   * within the time limit, with no departure of that port since.
   */
  lemma FrameIsFloodedOrBacked(t: Table, log: seq<Event>, arrived: int, f: Frame, c: Clock, up: set<int>)
    returns (port: Option<int>)
    requires |f| >= ETH_HDRLEN && IsPort(arrived) && PortsOk(t) && Sound(t, log)
    ensures port.Some? ==> f[0] % 2 == 0 && Backed(log + Lesson(arrived, f, c), f[0..6], port.value, c.lookup)
    ensures forall p :: IsPort(p) ==>
              (Reaches(DestOf(t, arrived, f, c).1, arrived, p, up)
               <==> p in up && p != arrived && (port.Some? ==> port.value == p))
  {
    hide Learn, Lookup, DestOf, Sound, PortsIn, Reaches, Backed;
    var m, learned := f[0..6], Learn(t, f[6..12], arrived, c.learn);
    LearnKeepsSound(t, log, f[6..12], arrived, c.learn);
    LookupKeepsSound(learned, log + Lesson(arrived, f, c), m, c.lookup);
    AnswerIsPort(t, arrived, f, c);
    port := if f[0] % 2 == 0 then Lookup(learned, m, c.lookup).1 else None;
    forall p | IsPort(p)
      ensures Reaches(DestOf(t, arrived, f, c).1, arrived, p, up)
              <==> p in up && p != arrived && (port.Some? ==> port.value == p)
    {
      AnswerReaches(t, arrived, f, c, p, up);
    }
  }

  /** A frame keeps table and map in step, unless it meets an entry that has expired. */
  lemma FrameKeepsInStep(t: Table, g: MacMap, arrived: int, f: Frame, c: Clock)
    requires |f| >= ETH_HDRLEN && Findable(t) && Same(t, g) && (Multicast(f[6..12]) || |g.Keys + {f[6..12]}| <= SIZE)
    requires var h := MapLearn(g, f[6..12], arrived, c.learn); f[0..6] in h ==> Known(h, f, c.lookup) || f[0] % 2 == 1
    ensures Findable(DestOf(t, arrived, f, c).0)
    ensures Same(DestOf(t, arrived, f, c).0, MapLearn(g, f[6..12], arrived, c.learn))
  {
    hide Learn, Lookup, Findable, Same, MapLearn;
    LearnKeepsFindable(t, f[6..12], arrived, c.learn);
    LearnKeepsSame(t, g, f[6..12], arrived, c.learn);
    if f[0] % 2 == 0 {
      LookupChangesNothing(Learn(t, f[6..12], arrived, c.learn), MapLearn(g, f[6..12], arrived, c.learn), f[0..6],
                           c.lookup);
    }
  }

  /** What a switch with a plain map knows after the first n frames. */
  function MapAfter(g: MacMap, b: Batch, n: nat): MacMap
    requires n <= |b.frames| == |b.clocks|
  {
    if n == 0 then g
    else if |b.frames[n - 1]| < ETH_HDRLEN then MapAfter(g, b, n - 1)
    else MapLearn(MapAfter(g, b, n - 1), b.frames[n - 1][6..12], b.arrived, b.clocks[n - 1].learn)
  }

  /** Does that switch send frame j to port p? */
  predicate MapSends(g: MacMap, b: Batch, j: nat, p: int, up: set<int>)
    requires j < |b.frames| == |b.clocks|
  {
    var f, h := b.frames[j], MapAfter(g, b, j + 1);
    |f| >= ETH_HDRLEN && p in up && p != b.arrived && (Known(h, f, b.clocks[j].lookup) ==>
                                                         h[f[0..6]].port == p)
  }

  /** What it sends port p of the first n frames. */
  function MapForPort(g: MacMap, b: Batch, n: nat, p: int, up: set<int>): seq<Frame>
    requires n <= |b.frames| == |b.clocks|
  {
    if n == 0 then []
    else MapForPort(g, b, n - 1, p, up) + if MapSends(g, b, n - 1, p, up) then [b.frames[n - 1]] else []
  }

  /** No frame of the first n meets an expired entry, and all MACs known by then fit the table. */
  ghost predicate Undisturbed(g: MacMap, b: Batch, n: nat)
    requires n <= |b.frames| == |b.clocks|
  {
    && |MapAfter(g, b, n).Keys| <= SIZE
    && forall j :: 0 <= j < n && |b.frames[j]| >= ETH_HDRLEN && b.frames[j][0] % 2 == 0
                   && b.frames[j][0..6] in MapAfter(g, b, j + 1) ==>
         Known(MapAfter(g, b, j + 1), b.frames[j], b.clocks[j].lookup)
  }

  lemma MapOnlyGrows(g: MacMap, b: Batch, n: nat)
    requires 0 < n <= |b.frames| == |b.clocks|
    ensures MapAfter(g, b, n - 1).Keys <= MapAfter(g, b, n).Keys
    ensures |MapAfter(g, b, n - 1).Keys| <= |MapAfter(g, b, n).Keys|
    ensures var f := b.frames[n - 1];
            |f| >= ETH_HDRLEN && !Multicast(f[6..12]) ==>
              MapAfter(g, b, n).Keys == MapAfter(g, b, n - 1).Keys + {f[6..12]}
    ensures forall m :: m in MapAfter(g, b, n) ==>
              MapAfter(g, b, n)[m].port == b.arrived
              || (m in MapAfter(g, b, n - 1) && MapAfter(g, b, n)[m] == MapAfter(g, b, n - 1)[m])
  {
    SubsetSize(MapAfter(g, b, n - 1).Keys, MapAfter(g, b, n).Keys);
  }

  /**
   * The hub is a switch with a plain map.  From a table that holds a map's facts, and as long as
   * nothing expires and the MACs fit, each port gets of a batch exactly what the map switch sends
   * it, and table and map end in step again.
   */
  lemma {:induction false} BatchFollowsMap(t: Table, g: MacMap, b: Batch, n: nat, p: int, up: set<int>)
    requires b.Valid() && n <= |b.frames| && IsPort(p) && forall m :: m in g ==> IsPort(g[m].port)
    requires Findable(t) && Same(t, g) && Undisturbed(g, b, n)
    ensures Findable(TableAfter(t, b, n)) && Same(TableAfter(t, b, n), MapAfter(g, b, n))
    ensures forall m :: m in MapAfter(g, b, n) ==> IsPort(MapAfter(g, b, n)[m].port)
    ensures ForPort(t, b, n, p, up) == MapForPort(g, b, n, p, up)
  {
    hide DestOf, Findable, Same, Reaches, MapLearn, Known;
    if n > 0 {
      MapOnlyGrows(g, b, n);
      BatchFollowsMap(t, g, b, n - 1, p, up);
      var before, f, c := MapAfter(g, b, n - 1), b.frames[n - 1], b.clocks[n - 1];
      if |f| < ETH_HDRLEN {
        RuntGoesNowhere(TableAfter(t, b, n - 1), b.arrived, f, c, p, up);
      } else {
        FrameGoesWhereHeard(TableAfter(t, b, n - 1), before, b.arrived, f, c, p, up);
        FrameKeepsInStep(TableAfter(t, b, n - 1), before, b.arrived, f, c);
      }
    }
  }

  /** Bytes too short for an Ethernet header go nowhere and teach nothing. */
  lemma RuntGoesNowhere(t: Table, arrived: int, f: Frame, c: Clock, p: int, up: set<int>)
    requires |f| < ETH_HDRLEN && IsPort(p)
    ensures !Reaches(DestOf(t, arrived, f, c).1, arrived, p, up) && DestOf(t, arrived, f, c).0 == t
  {
  }

  /** Somebody is attached at port p. */
  predicate Plugged(peers: Slots, w: Wiring, p: int) {
    || (p == PORT_UPLINK && w.uplink)
    || (p == PORT_LOCAL && w.local)
    || (0 <= p < MAX_PEERS && peers[p] >= 0)
  }

  lemma PluggedIsAttached(peers: Slots, w: Wiring, p: int)
    ensures p in AttachedPorts(peers, w.local, w.uplink) <==> Plugged(peers, w, p)
  {
  }

  /** One frame delivered by poll is offered to exactly the ports it should reach. */
  lemma FrameIsOffered(c: Core, g: MacMap, w: Wiring, port: int, f: Frame, k: Clock, p: int)
    requires |f| >= ETH_HDRLEN && IsPort(port) && IsPort(p) && forall m :: m in g ==> IsPort(g[m].port)
    requires Findable(c.table) && Same(c.table, g) && (Multicast(f[6..12]) || |g.Keys + {f[6..12]}| <= SIZE)
    ensures var h := MapLearn(g, f[6..12], port, k.learn);
            TurnOffers(c, w, port, Data([f], [k]))[p + 1]
            == if Plugged(c.peers, w, p) && p != port && (Known(h, f, k.lookup) ==> h[f[0..6]].port == p) then [f]
               else []
  {
    hide DestOf, Findable, Same, AttachedPorts, Reaches, Known;
    var b, up := BatchOf(port, Data([f], [k])), AttachedPorts(c.peers, w.local, w.uplink);
    PluggedIsAttached(c.peers, w, p);
    FrameGoesWhereHeard(c.table, g, port, f, k, p, up);
    assert b.frames == [f] && b.clocks == [k];
    assert TableAfter(c.table, b, 0) == c.table && ForPort(c.table, b, 0, p, up) == [];
  }

  lemma {:induction false} BroadcastForPort(t: Table, b: Batch, n: nat, p: int, up: set<int>)
    requires n <= |b.frames| == |b.clocks|
    requires forall j :: 0 <= j < |b.frames| ==> |b.frames[j]| >= ETH_HDRLEN && b.frames[j][0] % 2 == 1
    ensures ForPort(t, b, n, p, up) == if p in up && p != b.arrived then b.frames[..n] else []
  {
    hide Learn, Lookup;
    if n > 0 {
      BroadcastForPort(t, b, n - 1, p, up);
      assert b.frames[..n] == b.frames[..n - 1] + [b.frames[n - 1]];
    }
  }

  /** A batch of broadcasts is offered whole, in order, to everyone else; the uplink hands over its first frame. */
  lemma BroadcastsReachEveryone(c: Core, w: Wiring, port: int, event: Ready, p: int)
    requires event.Bears() && event.Timed() && IsPort(port) && IsPort(p)
    requires forall j :: 0 <= j < |event.frames| ==> |event.frames[j]| >= ETH_HDRLEN && event.frames[j][0] % 2 == 1
    ensures TurnOffers(c, w, port, event)[p + 1]
            == if !Plugged(c.peers, w, p) || p == port then []
               else if port == PORT_UPLINK then [event.frames[0]] else event.frames
  {
    hide AttachedPorts, ForPort;
    var b := BatchOf(port, event);
    PluggedIsAttached(c.peers, w, p);
    BroadcastForPort(c.table, b, |b.frames|, p, AttachedPorts(c.peers, w.local, w.uplink));
    assert b.frames[..|b.frames|] == b.frames;
    assert event.frames[..1] == [event.frames[0]];
  }

  // ------------------------------------------------------------ joining and leaving

  /** A peer that is gone frees its slot and is never answered again; the hub goes on. */
  lemma PeerLeaves(c: Core, port: int, event: Ready)
    requires event.Gone() && 0 <= port < MAX_PEERS
    ensures var (d, running) := TurnCore(c, port, event);
            && running && d.peers == c.peers[port := -1]
            && (forall m: Mac, now: int :: Lookup(d.table, m, now).1 != Some(port))
            && (forall s :: 0 <= s < SIZE && c.table[s].port != port ==> d.table[s] == c.table[s])
  {
    hide Hash, Probe;
  }

  /** Losing the guest or the uplink stops the hub. */
  lemma FixedPortLeaves(c: Core, port: int, event: Ready)
    requires event.Gone() && (port == PORT_LOCAL || port == PORT_UPLINK)
    ensures TurnCore(c, port, event) == (c, false)
  {
  }

  /** A connection gets the lowest slot that is free, and is turned away only when none is. */
  lemma PeerJoins(c: Core, fd: int) returns (slot: nat)
    requires fd >= 0
    ensures slot <= MAX_PEERS && forall p :: 0 <= p < slot ==> c.peers[p] >= 0
    ensures var (d, running) := TurnCore(c, LISTENER, Joining(fd));
            && running && d.table == c.table && d.log == c.log
            && d.peers == (if slot == MAX_PEERS then c.peers else c.peers[slot := fd])
            && (slot < MAX_PEERS ==> c.peers[slot] < 0)
  {
    slot := FirstFree(c.peers, 0);
    LowestFreeIs(c.peers, 0, slot);
  }

  lemma {:induction false} FirstFree(peers: Slots, from: nat) returns (slot: nat)
    requires from <= MAX_PEERS
    ensures from <= slot <= MAX_PEERS && (forall p :: from <= p < slot ==> peers[p] >= 0)
    ensures slot < MAX_PEERS ==> peers[slot] < 0
    decreases MAX_PEERS - from
  {
    if from == MAX_PEERS || peers[from] < 0 {
      slot := from;
    } else {
      slot := FirstFree(peers, from + 1);
    }
  }

  // ------------------------------------------------------------ turns, rounds, runs

  /** A round is one turn after the other: no watched descriptor is skipped, and only a stop ends it early. */
  lemma {:induction false} RoundIsTurns(c: Core, w: Wiring, a: seq<int>, k: nat, q: int, ready: map<int, Ready>)
    requires k <= |a| && Timed(ready)
    ensures EventAt(ready, q).Timed()
    ensures var (d, running) := RoundCore(c, a, k, ready);
            && RoundCore(c, a + [q], k, ready) == (if running then TurnCore(d, q, EventAt(ready, q)) else (d, false))
            && RoundOffers(c, w, a + [q], k, ready)
               == Plus(RoundOffers(c, w, a, k, ready),
                       if running then TurnOffers(d, w, q, EventAt(ready, q)) else Nothing())
    decreases |a| - k
  {
    hide TurnCore, TurnOffers, Plus;
    var all := a + [q];
    if k == |a| {
      var (d, running) := TurnCore(c, q, EventAt(ready, q));
      assert all[k] == q;
      PlusNothing(TurnOffers(c, w, q, EventAt(ready, q)));
      if running {
        assert RoundCore(d, all, k + 1, ready) == (d, true);
      }
    } else {
      assert all[k] == a[k];
      var event := EventAt(ready, a[k]);
      var (d, running) := TurnCore(c, a[k], event);
      if running {
        RoundIsTurns(d, w, a, k + 1, q, ready);
        var (e, on) := RoundCore(d, a, k + 1, ready);
        PlusAssociates(TurnOffers(c, w, a[k], event), RoundOffers(d, w, a, k + 1, ready),
                       if on then TurnOffers(e, w, q, EventAt(ready, q)) else Nothing());
      } else {
        PlusNothing(Plus(TurnOffers(c, w, a[k], event), Nothing()));
      }
    }
  }

  lemma PlusAssociates(x: Outputs, y: Outputs, z: Outputs)
    ensures Plus(Plus(x, y), z) == Plus(x, Plus(y, z))
  {
    forall i | 0 <= i < PORTS
      ensures x[i] + y[i] + z[i] == x[i] + (y[i] + z[i])
    {
    }
  }

  lemma PlusNothing(x: Outputs)
    ensures Plus(x, Nothing()) == x == Plus(Nothing(), x)
  {
    forall i | 0 <= i < PORTS
      ensures x[i] + [] == x[i] == [] + x[i]
    {
    }
  }

  /** A run is one round after the other, each over what the hub watches by then, until one stops it. */
  lemma {:induction false} RunIsRounds(c: Core, w: Wiring, rounds: seq<map<int, Ready>>, i: nat, last: map<int, Ready>)
    requires i <= |rounds| && AllTimed(rounds) && Timed(last)
    ensures AllTimed(rounds + [last])
    ensures var d := LoopCore(c, w, rounds, i);
            LoopCore(c, w, rounds + [last], i)
            == if StillRunning(c, w, rounds, i) then RoundCore(d, Watched(d.peers, w.uplink), 0, last).0 else d
    decreases |rounds| - i
  {
    hide RoundCore, Watched;
    var all := rounds + [last];
    if i < |rounds| {
      assert all[i] == rounds[i];
      var (d, running) := RoundCore(c, Watched(c.peers, w.uplink), 0, rounds[i]);
      if running {
        RunIsRounds(d, w, rounds, i + 1, last);
      }
    } else {
      assert all[i] == last;
    }
  }

  /** No round so far lost the guest or the uplink. */
  predicate StillRunning(c: Core, w: Wiring, rounds: seq<map<int, Ready>>, i: nat)
    requires i <= |rounds| && AllTimed(rounds)
    decreases |rounds| - i
  {
    i == |rounds| ||
    (var (d, running) := RoundCore(c, Watched(c.peers, w.uplink), 0, rounds[i]);
     running && StillRunning(d, w, rounds, i + 1))
  }
}
