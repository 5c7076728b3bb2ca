/**
 * The learning hub of vde_plug/vde_plug.c: the one-frame forwarder, the batched forwarder
 * that is meant to be indistinguishable from it, and the poll loop that adds and removes
 * ports around them.
 */
module Hub {
  import opened Bytes
  import opened MacTable
  import opened HubSpec
  import opened HubLinks

  /** The hub's mutable state (struct sw_state), and the loops of the program over it. */
  class Switch {
    const macs: array<Entry>
    const peers: array<int>
    var npeers: int
    const local: bool
    const uplink: bool

    /** Output of every port, shifted by one so that the uplink has index 0. */
    var sent: seq<seq<Frame>>
    var plan: seq<SendStep>

    /** Everything learned and forgotten so far. */
    ghost var log: seq<Event>

    ghost predicate Shape()
      reads this
    {
      && macs.Length == SIZE && peers.Length == MAX_PEERS && |sent| == PORTS
    }

    /** The ports a frame can leave through. */
    function Attached(): (up: set<int>)
      requires peers.Length == MAX_PEERS
      reads peers
    {
      AttachedPorts(peers[..], local, uplink)
    }

    ghost function Look(): View
      requires Shape()
      reads this, macs
    {
      View(macs[..], sent)
    }

    // ---------------------------------------------------------- the MAC table in place

    method MacLearn(m: Mac, port: int, now: int)
      requires Shape()
      modifies macs, this`log
      ensures macs[..] == Learn(old(macs[..]), m, port, now)
      ensures log == old(log) + [Learnt(m, port, now)]
    {
      hide Hash, Home;
      log := log + [Learnt(m, port, now)];
      if m[0] % 2 == 1 {
        return;
      }
      ghost var t := macs[..];
      var h := Hash(m);
      var i := 0;
      while i < SIZE
        invariant 0 <= i <= SIZE && macs[..] == t
        invariant forall j :: 0 <= j < i ==> !Stops(t[Slot(h, j)], m)
      {
        var s := Slot(h, i);
        var e := macs[s];
        if e.valid && e.mac == m {
          LearnAt(t, m, port, now, i);
          macs[s] := e.(port := port, seen := now);
          return;
        }
        if !e.valid {
          LearnAt(t, m, port, now, i);
          macs[s] := Entry(m, port, now, true);
          return;
        }
        i := i + 1;
      }
      LearnFull(t, m, port, now);
      macs[h] := Entry(m, port, now, true);
    }

    method MacLookup(m: Mac, now: int) returns (port: Option<int>)
      requires Shape()
      modifies macs
      ensures (macs[..], port) == Lookup(old(macs[..]), m, now)
    {
      hide Hash;
      ghost var t := macs[..];
      var h := Hash(m);
      var i := 0;
      while i < SIZE
        invariant 0 <= i <= SIZE && macs[..] == t
        invariant forall j :: 0 <= j < i ==> !Stops(t[Slot(h, j)], m)
      {
        var s := Slot(h, i);
        var e := macs[s];
        if !e.valid {
          ProbeStops(t, m, i);
          break;
        }
        if e.mac == m {
          ProbeStops(t, m, i);
          if now - e.seen > TTL {
            macs[s] := e.(valid := false);
            break;
          }
          return Some(e.port);
        }
        i := i + 1;
      }
      return None;
    }

    method MacForgetPort(port: int)
      requires Shape()
      modifies macs, this`log
      ensures macs[..] == Forget(old(macs[..]), port)
      ensures log == old(log) + [Forgot(port)]
    {
      ghost var t := macs[..];
      var i := 0;
      while i < SIZE
        invariant 0 <= i <= SIZE && log == old(log)
        invariant forall j :: 0 <= j < i ==> macs[j] == Forget(t, port)[j]
        invariant forall j :: i <= j < SIZE ==> macs[j] == t[j]
      {
        if macs[i].valid && macs[i].port == port {
          macs[i] := macs[i].(valid := false);
        }
        i := i + 1;
      }
      log := log + [Forgot(port)];
    }

    /** hub_dest: learn the source, then decide. */
    method HubDest(arrived: int, f: Frame, c: Clock) returns (dest: int)
      requires Shape()
      modifies macs, this`log
      ensures (macs[..], dest) == DestOf(old(macs[..]), arrived, f, c)
      ensures log == old(log) + Lesson(arrived, f, c)
    {
      hide Learn, Lookup;
      if |f| < ETH_HDRLEN {
        return DEST_DROP;
      }
      MacLearn(f[6..12], arrived, c.learn);
      if f[0] % 2 == 1 {
        return DEST_FLOOD;
      }
      var port := MacLookup(f[0..6], c.lookup);
      match port
      case None => return DEST_FLOOD;
      case Some(p) =>
        return if p == arrived then DEST_DROP else p;
    }

    // ---------------------------------------------------------- sending

    /** Every port's output and what the kernel will answer. */
    ghost function Out(): Links
      requires |sent| == PORTS
      reads this
    {
      Links(sent, plan)
    }

    /** send(): one frame, one try. */
    method Send(p: int, f: Frame)
      requires Shape() && IsPort(p)
      modifies this`sent, this`plan
      ensures Shape() && Out() == SendRun(old(Out()), p, [f])
    {
      assert [f][..1] == [f] && sent[p + 1] + [f][..0] == sent[p + 1];
      if plan == [] || plan[0].Took? {
        sent := sent[p + 1 := sent[p + 1] + [f]];
      }
      plan := Behind(plan);
    }

    /**
     * batch_send: frames [lo, hi), retrying what a short or interrupted sendmmsg left and giving
     * up when there is no room.  The port gets a prefix of the run: all of two or more frames
     * unless its socket was full.
     */
    method BatchSend(p: int, frames: seq<Frame>, lo: nat, hi: nat)
      requires Shape() && IsPort(p) && lo < hi <= |frames|
      modifies this`sent, this`plan
      ensures Shape() && Out() == SendRun(old(Out()), p, frames[lo..hi])
      ensures hi - lo >= 2 && Full !in old(plan) ==> sent[p + 1] == old(sent)[p + 1] + frames[lo..hi]
    {
      hide TakenOfRun;
      if hi - lo == 1 {
        assert frames[lo..hi] == [frames[lo]];
        Send(p, frames[lo]);
        return;
      }
      RunSend(p, frames, lo, hi);
      if Full !in old(plan) {
        RunIsTakenWhole(old(plan), hi - lo);
      }
      assert frames[lo..hi][..TakenOfRun(old(plan), hi - lo).0] == frames[lo..lo + TakenOfRun(old(plan), hi - lo).0];
    }

    /** The sendmmsg loop. */
    method RunSend(p: int, frames: seq<Frame>, lo: nat, hi: nat)
      requires Shape() && IsPort(p) && lo < hi <= |frames|
      modifies this`sent, this`plan
      ensures Shape() && plan == TakenOfRun(old(plan), hi - lo).1
      ensures sent == old(sent)[p + 1 := old(sent)[p + 1] + frames[lo..lo + TakenOfRun(old(plan), hi - lo).0]]
    {
      var i := lo;
      assert sent[p + 1] + frames[lo..lo] == sent[p + 1];
      while i < hi
        invariant lo <= i <= hi && Shape()
        invariant sent[p + 1] == old(sent)[p + 1] + frames[lo..i]
        invariant forall j :: 0 <= j < PORTS && j != p + 1 ==> sent[j] == old(sent)[j]
        invariant TakenOfRun(old(plan), hi - lo) ==
                    (i - lo + TakenOfRun(plan, hi - i).0, TakenOfRun(plan, hi - i).1)
        decreases |plan|, hi - i
      {
        var step := if plan == [] then Took(hi - i) else plan[0];
        plan := Behind(plan);
        match step
        case Took(n) =>
          var k := if n < 1 then 1 else Min(n, hi - i);
          assert frames[lo..i] + frames[i..i + k] == frames[lo..i + k];
          sent := sent[p + 1 := sent[p + 1] + frames[i..i + k]];
          i := i + k;
        case Interrupted =>
        case Full =>
          return;
      }
    }

    /** The uplink is not a socket: it is fed frame by frame. */
    method FeedUplink(frames: seq<Frame>, lo: nat, hi: nat)
      requires Shape() && lo <= hi <= |frames|
      modifies this`sent, this`plan
      ensures Shape() && Out() == FeedRun(old(Out()), frames[lo..hi])
    {
      hide SendRun;
      var i := lo;
      while i < hi
        invariant lo <= i <= hi && Shape() && Out() == FeedRun(old(Out()), frames[lo..i])
      {
        Send(PORT_UPLINK, frames[i]);
        assert frames[lo..i + 1][..i - lo] == frames[lo..i];
        i := i + 1;
      }
    }

    /** Frames [lo, hi) to one port, if it is attached. */
    method Emit(p: int, frames: seq<Frame>, lo: nat, hi: nat)
      requires Shape() && IsPort(p) && lo < hi <= |frames|
      modifies this`sent, this`plan
      ensures Shape() && Out() == EmitRun(old(Out()), p, frames[lo..hi], Attached())
    {
      hide SendRun, FeedRun;
      if p == PORT_UPLINK {
        if uplink {
          FeedUplink(frames, lo, hi);
        }
      } else if p == PORT_LOCAL {
        if local {
          BatchSend(p, frames, lo, hi);
        }
      } else if peers[p] >= 0 {
        BatchSend(p, frames, lo, hi);
      }
    }

    /** A flood: the uplink, the local guest, then every peer, except the port the frames came from. */
    method Flood(arrived: int, frames: seq<Frame>, lo: nat, hi: nat)
      requires Shape() && lo < hi <= |frames|
      modifies this`sent, this`plan
      ensures Shape() && Out() == FloodRun(old(Out()), arrived, frames[lo..hi], Attached(), MAX_PEERS)
    {
      hide EmitRun;
      if arrived != PORT_UPLINK {
        Emit(PORT_UPLINK, frames, lo, hi);
      }
      if arrived != PORT_LOCAL {
        Emit(PORT_LOCAL, frames, lo, hi);
      }
      var p := 0;
      while p < MAX_PEERS
        invariant 0 <= p <= MAX_PEERS && Shape()
        invariant Out() == FloodRun(old(Out()), arrived, frames[lo..hi], Attached(), p)
      {
        if p != arrived {
          Emit(p, frames, lo, hi);
        }
        p := p + 1;
      }
    }

    /** hub_emit: flush frames [lo, hi) to their common destination. */
    method HubEmit(dest: int, arrived: int, frames: seq<Frame>, lo: nat, hi: nat)
      requires Shape() && lo < hi <= |frames|
      requires dest == DEST_FLOOD || dest == DEST_DROP || IsPort(dest)
      modifies this`sent, this`plan
      ensures Shape() && Out() == Flush(old(Out()), dest, arrived, frames[lo..hi], Attached())
      ensures Served(old(sent), sent, AllPorts(), dest, arrived, frames[lo..hi], Attached(), Lossless(old(plan)))
    {
      hide EmitRun, FloodRun, Served;
      FlushServes(Out(), dest, arrived, frames[lo..hi], Attached());
      if dest == DEST_FLOOD {
        Flood(arrived, frames, lo, hi);
      } else if dest != DEST_DROP {
        Emit(dest, frames, lo, hi);
      }
    }

    // ---------------------------------------------------------- forwarding

    /** hub_send: one frame to one port, if it is attached. */
    method HubSend(port: int, f: Frame)
      requires Shape() && IsPort(port)
      modifies this`sent, this`plan
      ensures Shape() && Out() == EmitRun(old(Out()), port, [f], Attached())
    {
      hide SendRun, FeedRun;
      FeedOne(Out(), f);
      if port == PORT_UPLINK {
        if uplink {
          Send(port, f);
        }
        return;
      }
      if port == PORT_LOCAL {
        if local {
          Send(port, f);
        }
        return;
      }
      if peers[port] >= 0 {
        Send(port, f);
      }
    }

    /** hub_flood: one frame to every attached port but the one it came from. */
    method HubFlood(arrived: int, f: Frame)
      requires Shape()
      modifies this`sent, this`plan
      ensures Shape() && Out() == FloodRun(old(Out()), arrived, [f], Attached(), MAX_PEERS)
      ensures Served(old(sent), sent, AllPorts(), DEST_FLOOD, arrived, [f], Attached(), Lossless(old(plan)))
    {
      hide SendRun, FeedRun, Served;
      FlushServes(Out(), DEST_FLOOD, arrived, [f], Attached());
      FeedOne(Out(), f);
      if arrived != PORT_UPLINK && uplink {
        Send(PORT_UPLINK, f);
      }
      if arrived != PORT_LOCAL && local {
        Send(PORT_LOCAL, f);
      }
      var i := 0;
      while i < MAX_PEERS
        invariant 0 <= i <= MAX_PEERS && Shape()
        invariant Out() == FloodRun(old(Out()), arrived, [f], Attached(), i)
      {
        if peers[i] >= 0 && i != arrived {
          Send(i, f);
        }
        i := i + 1;
      }
    }

    /** hub_forward: learn, then flood, drop the hairpin, or send to the one port. */
    method HubForward(arrived: int, f: Frame, c: Clock)
      requires Shape() && PortsOk(macs[..]) && IsPort(arrived)
      modifies macs, this`sent, this`plan, this`log
      ensures Shape() && macs[..] == DestOf(old(macs[..]), arrived, f, c).0
      ensures log == old(log) + Lesson(arrived, f, c)
      ensures Out() == Flush(old(Out()), DestOf(old(macs[..]), arrived, f, c).1, arrived, [f], Attached())
      ensures Lossless(old(plan)) ==> Look() == ForwardOne(old(Look()), arrived, f, c, Attached())
      ensures sent[arrived + 1] == old(sent)[arrived + 1]
    {
      hide Learn, Lookup, PortsIn, EmitRun, FloodRun, ForwardOne;
      OneFrame(Out(), macs[..], arrived, f, c, Attached());
      ForwardedTable(Look(), arrived, f, c, Attached());
      if |f| < ETH_HDRLEN {
        return;
      }
      AnswerIsPort(macs[..], arrived, f, c);
      MacLearn(f[6..12], arrived, c.learn);
      if f[0] % 2 == 1 {
        HubFlood(arrived, f);
        return;
      }
      var port := MacLookup(f[0..6], c.lookup);
      match port
      case None =>
        HubFlood(arrived, f);
      case Some(p) =>
        if p != arrived {
          HubSend(p, f);
        }
    }

    /**
     * hub_forward_batch: frames with the same destination are flushed together, a run at a
     * time.  Without losses the table and every port's output are what hub_forward on each
     * frame in turn leaves; with losses the table is the same and each port has an in-order
     * selection of that output, told exactly by the kernel's answers.
     */
    method HubForwardBatch(b: Batch)
      requires Shape() && PortsOk(macs[..]) && b.Valid()
      modifies macs, this`sent, this`plan, this`log
      ensures Shape() && log == old(log) + Lessons(b, |b.frames|)
      ensures macs[..] == TableAfter(old(macs[..]), b, |b.frames|)
      ensures macs[..] == ForwardEach(old(Look()), b, |b.frames|, Attached()).table
      ensures Out() == FlushedUpTo(old(Out()), old(macs[..]), b, |b.frames|, Attached())
      ensures AllGrew(old(sent), sent, BatchOffers(old(macs[..]), b, Attached()), Lossless(old(plan)))
      ensures Lossless(old(plan)) ==> Look() == ForwardEach(old(Look()), b, |b.frames|, Attached())
      ensures sent[b.arrived + 1] == old(sent)[b.arrived + 1]
    {
      hide DestOf, PortsIn, AllGrew, ForPort, Lessons, TableAfter, FlushedUpTo, BatchOffers, Lossless, ForwardEach;
      BatchRefines(Out(), macs[..], b, Attached());
      ForwardEachByPort(Look(), b, |b.frames|, Attached());
      ForwardRuns(b);
    }

    /** The walk over the batch. */
    method ForwardRuns(b: Batch)
      requires Shape() && PortsOk(macs[..]) && b.Valid()
      modifies macs, this`sent, this`plan, this`log
      ensures Shape() && log == old(log) + Lessons(b, |b.frames|)
      ensures macs[..] == TableAfter(old(macs[..]), b, |b.frames|)
      ensures Out() == FlushedUpTo(old(Out()), old(macs[..]), b, |b.frames|, Attached())
    {
      hide DestOf, PortsIn, Served, Lesson, Flush, Lossless, FlushedUpTo, RunStart, TableAfter, DestAt, Lessons;
      ghost var t, l, up := macs[..], Out(), Attached();
      var runStart := 0;
      DestKeepsPorts(t, b.arrived, b.frames[0], b.clocks[0], AllPorts());
      var runDest := HubDest(b.arrived, b.frames[0], b.clocks[0]);
      WalkStarts(l, t, b, up);
      assert old(log) + [] + Lesson(b.arrived, b.frames[0], b.clocks[0])
          == old(log) + ([] + Lesson(b.arrived, b.frames[0], b.clocks[0]));
      var i := 1;
      while i < |b.frames|
        invariant 1 <= i <= |b.frames| && Shape() && PortsOk(macs[..])
        invariant macs[..] == TableAfter(t, b, i)
        invariant log == old(log) + Lessons(b, i)
        invariant runDest == DestAt(t, b, i - 1) && runStart == RunStart(t, b, i - 1)
        invariant runDest == DEST_FLOOD || runDest == DEST_DROP || IsPort(runDest)
        invariant Out() == FlushedUpTo(l, t, b, runStart, up)
      {
        DestKeepsPorts(macs[..], b.arrived, b.frames[i], b.clocks[i], AllPorts());
        var d := HubDest(b.arrived, b.frames[i], b.clocks[i]);
        WalkStep(t, b, i);
        assert old(log) + Lessons(b, i) + Lesson(b.arrived, b.frames[i], b.clocks[i]) == old(log) + Lessons(b, i + 1);
        if d != runDest {
          RunFlushed(l, t, b, i, up);
          HubEmit(runDest, b.arrived, b.frames, runStart, i);
          runStart, runDest := i, d;
        }
        i := i + 1;
      }
      RunFlushed(l, t, b, i, up);
      HubEmit(runDest, b.arrived, b.frames, runStart, i);
    }

    // ---------------------------------------------------------- the poll loop

    function Live(): (ps: set<int>)
      requires peers.Length == MAX_PEERS
      reads peers
    {
      set p | 0 <= p < MAX_PEERS && peers[p] >= 0
    }

    /** Ports an entry may name: the two fixed ones and the live peers. */
    function Allowed(): set<int>
      requires peers.Length == MAX_PEERS
      reads peers
    {
      {PORT_UPLINK, PORT_LOCAL} + Live()
    }

    /** What every step of the hub loop keeps. */
    ghost predicate Valid()
      reads this, macs, peers
    {
      && Shape()
      && npeers == |Live()|
      && PortsIn(macs[..], Allowed())
      && Sound(macs[..], log)
    }

    constructor (local: bool, uplink: bool, plan: seq<SendStep>)
      ensures Valid() && fresh(macs) && fresh(peers) && npeers == 0 && log == []
    {
      macs := new Entry[SIZE](_ => FREE);
      peers := new int[MAX_PEERS](_ => -1);
      npeers, log := 0, [];
      this.local, this.uplink, this.plan := local, uplink, plan;
      sent := seq(PORTS, _ => []);
      new;
      assert Live() == {};
    }

    /** A connection is accepted into the lowest free slot, or turned away. */
    method Join(fd: int) returns (slot: nat)
      requires Valid() && fd >= 0
      modifies peers, this`npeers
      ensures Valid() && slot <= MAX_PEERS
      ensures forall p :: 0 <= p < slot ==> old(peers[p]) >= 0
      ensures if slot == MAX_PEERS then peers[..] == old(peers[..])
              else old(peers[slot]) < 0 && peers[..] == old(peers[..])[slot := fd]
    {
      hide Sound, PortsIn;
      slot := 0;
      while slot < MAX_PEERS && peers[slot] >= 0
        invariant 0 <= slot <= MAX_PEERS && forall p :: 0 <= p < slot ==> peers[p] >= 0
      {
        slot := slot + 1;
      }
      if slot < MAX_PEERS {
        ghost var allowed := Allowed();
        FillSlot(slot, fd);
        MorePorts(macs[..], allowed, Allowed());
      }
    }

    method FillSlot(slot: nat, fd: int)
      requires Shape() && npeers == |Live()| && slot < MAX_PEERS && peers[slot] < 0 && fd >= 0
      modifies peers, this`npeers
      ensures Shape() && npeers == |Live()| && Allowed() == old(Allowed()) + {slot}
      ensures peers[..] == old(peers[..])[slot := fd]
    {
      ghost var before := Live();
      peers[slot] := fd;
      npeers := npeers + 1;
      assert Live() == before + {slot};
    }

    method FreeSlot(port: int)
      requires Shape() && npeers == |Live()| && 0 <= port < MAX_PEERS && peers[port] >= 0
      modifies peers, this`npeers
      ensures Shape() && npeers == |Live()| && Allowed() + {port} == old(Allowed())
      ensures peers[..] == old(peers[..])[port := -1]
    {
      ghost var before := Live();
      peers[port] := -1;
      npeers := npeers - 1;
      assert Live() == before - {port};
    }

    /** A peer leaves: its slot is freed and everything learned at it is forgotten. */
    method Leave(port: int)
      requires Valid() && 0 <= port < MAX_PEERS && peers[port] >= 0
      modifies peers, macs, this`npeers, this`log
      ensures Valid() && log == old(log) + [Forgot(port)]
      ensures peers[..] == old(peers[..])[port := -1] && macs[..] == Forget(old(macs[..]), port)
    {
      hide Sound, Forget, PortsIn;
      FreeSlot(port);
      ForgetKeepsSound(macs[..], log, port);
      ForgottenPorts(macs[..], port, Allowed());
      MacForgetPort(port);
    }

    /** Frames of one report: one from the uplink, on its own path, a batch from anyone else. */
    method TakeFrames(port: int, event: Ready)
      requires Valid() && port in Allowed() && event.Timed() && event.Bears()
      modifies macs, this`sent, this`plan, this`log
      ensures var b := BatchOf(port, event);
              && macs[..] == TableAfter(old(macs[..]), b, |b.frames|) && log == old(log) + Lessons(b, |b.frames|)
              && Shape() && Out() == FlushedUpTo(old(Out()), old(macs[..]), b, |b.frames|, Attached())
      ensures Valid()
    {
      hide Sound, PortsIn, TableAfter, Lessons, FlushedUpTo, BatchOf;
      ghost var b := BatchOf(port, event);
      AllowedIsPorts(Allowed(), macs[..]);
      BatchKeepsPorts(macs[..], b, |b.frames|, Allowed());
      BatchKeepsSound(macs[..], log, b, |b.frames|);
      ForwardFrames(port, event);
    }

    method ForwardFrames(port: int, event: Ready)
      requires Shape() && PortsOk(macs[..]) && IsPort(port) && event.Timed() && event.Bears()
      modifies macs, this`sent, this`plan, this`log
      ensures var b := BatchOf(port, event);
              && macs[..] == TableAfter(old(macs[..]), b, |b.frames|) && log == old(log) + Lessons(b, |b.frames|)
              && Shape() && Out() == FlushedUpTo(old(Out()), old(macs[..]), b, |b.frames|, Attached())
    {
      hide PortsIn, TableAfter, Lessons, FlushedUpTo, Flush, ForwardEach, ForwardOne, DestOf, Lesson, AllGrew, Lossless;
      if port == PORT_UPLINK {
        ghost var b := BatchOf(port, event);
        assert event.frames[..1] == [event.frames[0]] && event.clocks[..1] == [event.clocks[0]];
        BatchOfOne(Out(), macs[..], b, Attached());
        HubForward(port, event.frames[0], event.clocks[0]);
      } else {
        HubForwardBatch(Batch(port, event.frames, event.clocks));
      }
    }

    /** The descriptors poll() watches, in order: guest, uplink, listener, live peers. */
    method PollSet() returns (watched: seq<int>)
      requires Shape()
      ensures watched == Watched(peers[..], uplink)
    {
      watched := [PORT_LOCAL];
      if uplink {
        watched := watched + [PORT_UPLINK];
      }
      watched := watched + [LISTENER];
      var i := 0;
      while i < MAX_PEERS
        invariant 0 <= i <= MAX_PEERS
        invariant watched == FixedPorts(uplink) + LiveUpTo(peers[..], i)
      {
        if peers[i] >= 0 {
          watched := watched + [i];
        }
        i := i + 1;
      }
    }

    /** What the hub knows. */
    ghost function Whole(): Core
      requires Shape()
      reads this, macs, peers
    {
      Core(macs[..], log, peers[..])
    }

    function Wires(): Wiring {
      Wiring(local, uplink)
    }

    /** The descriptors from the k-th watched one on are different and open. */
    ghost predicate StillOpen(watched: seq<int>, k: nat)
      requires peers.Length == MAX_PEERS
      reads this, peers
    {
      && (forall i, j :: 0 <= i < j < |watched| ==> watched[i] != watched[j])
      && forall j :: k <= j < |watched| ==> watched[j] == LISTENER || watched[j] in Allowed()
    }

    /**
     * One round of the loop: every descriptor in the order poll() was given them.  One that
     * poll reported is still open when its turn comes, whatever joined or left before it.
     */
    method Round(ready: map<int, Ready>) returns (running: bool)
      requires Valid() && Timed(ready)
      modifies macs, peers, this`npeers, this`sent, this`plan, this`log
      ensures Valid()
      ensures var watched := Watched(old(peers[..]), uplink);
              && (Whole(), running) == RoundCore(old(Whole()), watched, 0, ready)
              && Out() == RoundLinks(old(Out()), old(Whole()), Wires(), watched, 0, ready)
              && AllGrew(old(sent), sent, RoundOffers(old(Whole()), Wires(), watched, 0, ready), Lossless(old(plan)))
    {
      hide Sound, PortsIn, Lossless, AllGrew, RoundCore, RoundLinks, RoundOffers, Watched;
      ghost var watched := Watched(peers[..], uplink);
      WatchedArePorts(peers[..], uplink);
      RoundLinksGrow(Out(), Whole(), Wires(), watched, 0, ready);
      running := ServeAll(ready);
    }

    method ServeAll(ready: map<int, Ready>) returns (running: bool)
      requires Valid() && Timed(ready)
      modifies macs, peers, this`npeers, this`sent, this`plan, this`log
      ensures Valid()
      ensures var watched := Watched(old(peers[..]), uplink);
              && (Whole(), running) == RoundCore(old(Whole()), watched, 0, ready)
              && Out() == RoundLinks(old(Out()), old(Whole()), Wires(), watched, 0, ready)
    {
      hide Sound, PortsIn, StillOpen, Watched, TurnCore, TurnLinks, Lossless;
      var watched := PollSet();
      ghost var c, l := Whole(), Out();
      AllOpen(watched);
      var k := 0;
      running := true;
      while k < |watched| && running
        invariant 0 <= k <= |watched| && Valid() && (running ==> StillOpen(watched, k))
        invariant RoundCore(c, watched, 0, ready)
                  == if running then RoundCore(Whole(), watched, k, ready) else (Whole(), false)
        invariant RoundLinks(l, c, Wires(), watched, 0, ready)
                  == if running then RoundLinks(Out(), Whole(), Wires(), watched, k, ready) else Out()
      {
        running := RoundTurn(watched, k, ready);
        k := k + 1;
      }
    }

    lemma AllOpen(watched: seq<int>)
      requires peers.Length == MAX_PEERS && watched == Watched(peers[..], uplink)
      ensures StillOpen(watched, 0)
    {
      hide Watched;
      WatchedAreAllowed(peers[..], uplink);
    }

    /** One turn of a round. */
    method RoundTurn(watched: seq<int>, k: nat, ready: map<int, Ready>) returns (running: bool)
      requires Valid() && k < |watched| && Timed(ready) && StillOpen(watched, k)
      modifies macs, peers, this`npeers, this`sent, this`plan, this`log
      ensures Valid() && StillOpen(watched, k + 1)
      ensures (Whole(), running) == TurnCore(old(Whole()), watched[k], EventAt(ready, watched[k]))
      ensures Out() == TurnLinks(old(Out()), old(Whole()), Wires(), watched[k], EventAt(ready, watched[k]))
    {
      hide Sound, PortsIn, TurnCore, TurnLinks, Allowed;
      running := Turn(watched[k], EventAt(ready, watched[k]));
    }

    /** One descriptor's turn. */
    method Turn(port: int, event: Ready) returns (running: bool)
      requires Valid() && (port == LISTENER || port in Allowed()) && event.Timed()
      modifies macs, peers, this`npeers, this`sent, this`plan, this`log
      ensures Valid() && old(Allowed()) - {port} <= Allowed()
      ensures (Whole(), running) == TurnCore(old(Whole()), port, event)
      ensures Out() == TurnLinks(old(Out()), old(Whole()), Wires(), port, event)
    {
      hide Sound, PortsIn, ServeCore, Joined, FlushedUpTo;
      running := true;
      if port == LISTENER {
        if event.Joining? && event.fd >= 0 {
          JoinStep(event.fd);
        }
      } else {
        running := ServeStep(port, event);
      }
    }

    /** Join as a step of a round. */
    method JoinStep(fd: int)
      requires Valid() && fd >= 0
      modifies peers, this`npeers
      ensures Valid() && old(Allowed()) <= Allowed() && peers[..] == Joined(old(peers[..]), fd)
    {
      hide Sound, PortsIn;
      ghost var was := peers[..];
      var slot := Join(fd);
      LowestFreeIs(was, 0, slot);
      assert forall p :: 0 <= p < MAX_PEERS && was[p] >= 0 ==> peers[..][p] >= 0;
    }

    /** Serve as a step of a round. */
    method ServeStep(port: int, event: Ready) returns (alive: bool)
      requires Valid() && port in Allowed() && event.Timed()
      modifies macs, peers, this`npeers, this`sent, this`plan, this`log
      ensures Valid() && old(Allowed()) - {port} <= Allowed()
      ensures (Whole(), alive) == ServeCore(old(Whole()), port, event)
      ensures Out() == TurnLinks(old(Out()), old(Whole()), Wires(), port, event)
    {
      hide Sound, PortsIn, Forget, TableAfter, Lessons, TurnLinks, BatchOf, AllGrew, TurnOffers, Lossless;
      ghost var was := peers[..];
      alive := Serve(port, event);
      assert forall p :: 0 <= p < MAX_PEERS && p != port && was[p] >= 0 ==> peers[..][p] >= 0;
    }

    /**
     * One reported descriptor; false when the guest or the uplink is gone and the hub must stop.
     * What the hub knows afterwards does not depend on what the links lost; every port gets an
     * in-order selection of what it was offered, and the port that was served gets nothing.
     */
    method Serve(port: int, event: Ready) returns (alive: bool)
      requires Valid() && port in Allowed() && event.Timed()
      modifies macs, peers, this`npeers, this`sent, this`plan, this`log
      ensures Valid()
      ensures (Whole(), alive) == ServeCore(old(Whole()), port, event)
      ensures Out() == TurnLinks(old(Out()), old(Whole()), Wires(), port, event)
      ensures AllGrew(old(sent), sent, TurnOffers(old(Whole()), Wires(), port, event), Lossless(old(plan)))
      ensures sent[port + 1] == old(sent)[port + 1]
    {
      hide Sound, PortsIn, Lossless, AllGrew, ServeCore, TurnLinks, TurnOffers, Allowed;
      ServesAPort(port);
      TurnLinksGrow(Out(), Whole(), Wires(), port, event);
      alive := ServeReport(port, event);
    }

    lemma ServesAPort(port: int)
      requires peers.Length == MAX_PEERS && port in Allowed()
      ensures IsPort(port) && port != LISTENER
      ensures Fixed(port) || (0 <= port < MAX_PEERS && peers[port] >= 0)
    {
    }

    method ServeReport(port: int, event: Ready) returns (alive: bool)
      requires Valid() && port in Allowed() && event.Timed()
      modifies macs, peers, this`npeers, this`sent, this`plan, this`log
      ensures Valid()
      ensures (Whole(), alive) == ServeCore(old(Whole()), port, event)
      ensures Out() == TurnLinks(old(Out()), old(Whole()), Wires(), port, event)
    {
      hide Sound, PortsIn, Forget, TableAfter, Lessons, BatchOf, FlushedUpTo, ServeCore, TurnLinks, Allowed;
      ServesAPort(port);
      ServeUnfolds(Out(), Whole(), Wires(), port, event);
      alive := true;
      if event.Gone() {
        if port == PORT_LOCAL || port == PORT_UPLINK {
          return false;
        }
        Leave(port);
      } else if event.Bears() {
        TakeFrames(port, event);
      }
    }

    /**
     * Any number of rounds, over links that lose what they like.  What the hub knows is what
     * the model says; every port was sent what the kernel took of what it was offered (all of
     * it over lossless links) and only frames that arrived on other ports; and whatever port the
     * table answers with was heard from that address, in a frame that really arrived.
     */
    method Loop(rounds: seq<map<int, Ready>>)
      requires Valid() && AllTimed(rounds)
      modifies macs, peers, this`npeers, this`sent, this`plan, this`log
      ensures Valid()
      ensures Whole() == LoopCore(old(Whole()), Wires(), rounds, 0)
      ensures Out() == LoopLinks(old(Out()), old(Whole()), Wires(), rounds, 0)
      ensures AllGrew(old(sent), sent, LoopOffers(old(Whole()), Wires(), rounds, 0), Lossless(old(plan)))
      ensures forall i, f :: 0 <= i < PORTS && f in sent[i][|old(sent)[i]|..] ==> ArrivedElsewhere(rounds, i - 1, f)
      ensures old(log) <= log && forall e :: e in log[|old(log)|..] ==> Happened(rounds, e)
      ensures forall m: Mac, now: int :: Lookup(macs[..], m, now).1.Some? ==>
                Backed(log, m, Lookup(macs[..], m, now).1.value, now)
    {
      hide Sound, PortsIn, Lossless, RoundCore, RoundLinks, RoundOffers, AllGrew, Lookup, ArrivedElsewhere, Happened,
        Backed, LoopOffers, Watched;
      ghost var c, l := Whole(), Out();
      LoopLinksGrow(l, c, Wires(), rounds, 0);
      LogIsTrue(c, Wires(), rounds, 0);
      var i := 0;
      var running := true;
      while i < |rounds| && running
        invariant 0 <= i <= |rounds| && Valid()
        invariant LoopCore(c, Wires(), rounds, 0) == if running then LoopCore(Whole(), Wires(), rounds, i) else Whole()
        invariant LoopLinks(l, c, Wires(), rounds, 0)
                  == if running then LoopLinks(Out(), Whole(), Wires(), rounds, i) else Out()
      {
        running := Round(rounds[i]);
        i := i + 1;
      }
      forall m: Mac, now: int
        ensures Lookup(macs[..], m, now).1.Some? ==> Backed(log, m, Lookup(macs[..], m, now).1.value, now)
      {
        LookupKeepsSound(macs[..], log, m, now);
      }
      forall k | 0 <= k < PORTS
        ensures old(sent)[k] <= sent[k]
        ensures forall f :: f in sent[k][|old(sent)[k]|..] ==> ArrivedElsewhere(rounds, k - 1, f)
      {
        GrewMembers(old(sent), sent, LoopOffers(c, Wires(), rounds, 0), Lossless(old(plan)), k);
        forall f | f in sent[k][|old(sent)[k]|..]
          ensures ArrivedElsewhere(rounds, k - 1, f)
        {
          NothingEchoes(c, Wires(), rounds, 0, k, f);
        }
      }
    }
  }
}
