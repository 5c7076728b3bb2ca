/**
 * What the hub's sends leave behind, exactly: every port's output as a function of the answers
 * the kernel will give.  Over links that refuse nothing this is the output of the one-frame
 * forwarder; over others every port has an in-order selection of it.
 */
module HubLinks {
  import opened MacTable
  import opened HubSpec

  /** Every port's output, and how the kernel answers the sends to come. */
  datatype Links = Links(sent: Outputs, plan: seq<SendStep>)

  /** A run to a socket: as much of it as the kernel takes. */
  function SendRun(l: Links, p: int, run: seq<Frame>): Links
    requires IsPort(p)
  {
    var (k, rest) := Taken(l.plan, |run|);
    Links(l.sent[p + 1 := l.sent[p + 1] + run[..k]], rest)
  }

  /** A run to the uplink, which is fed frame by frame. */
  function FeedRun(l: Links, run: seq<Frame>): Links
    decreases |run|
  {
    if run == [] then l
    else SendRun(FeedRun(l, run[..|run| - 1]), PORT_UPLINK, [run[|run| - 1]])
  }

  /** A run to one port, if it is attached. */
  function EmitRun(l: Links, p: int, run: seq<Frame>, up: set<int>): Links
    requires IsPort(p)
  {
    if p !in up then l else if p == PORT_UPLINK then FeedRun(l, run) else SendRun(l, p, run)
  }

  function EmitBut(l: Links, p: int, arrived: int, run: seq<Frame>, up: set<int>): Links
    requires IsPort(p)
  {
    if p == arrived then l else EmitRun(l, p, run, up)
  }

  /** A flood up to the n-th peer, in the program's order: the uplink, the guest, peers from slot 0. */
  function FloodRun(l: Links, arrived: int, run: seq<Frame>, up: set<int>, n: nat): Links
    requires n <= MAX_PEERS
  {
    if n == 0 then EmitBut(EmitBut(l, PORT_UPLINK, arrived, run, up), PORT_LOCAL, arrived, run, up)
    else EmitBut(FloodRun(l, arrived, run, up, n - 1), n - 1, arrived, run, up)
  }

  /** A run to its common destination. */
  function Flush(l: Links, dest: int, arrived: int, run: seq<Frame>, up: set<int>): Links {
    if dest == DEST_FLOOD then FloodRun(l, arrived, run, up, MAX_PEERS)
    else if IsPort(dest) then EmitRun(l, dest, run, up)
    else l
  }

  /** The first frame of the run of equal destinations that frame i belongs to. */
  function RunStart(t: Table, b: Batch, i: nat): (s: nat)
    requires i < |b.frames| == |b.clocks|
    ensures s <= i
  {
    if i > 0 && DestAt(t, b, i) == DestAt(t, b, i - 1) then RunStart(t, b, i - 1) else i
  }

  lemma {:induction false} RunHasOneDest(t: Table, b: Batch, i: nat)
    requires i < |b.frames| == |b.clocks|
    ensures forall j :: RunStart(t, b, i) <= j <= i ==> DestAt(t, b, j) == DestAt(t, b, i)
  {
    hide DestAt;
    if i > 0 && DestAt(t, b, i) == DestAt(t, b, i - 1) {
      RunHasOneDest(t, b, i - 1);
    }
  }

  /** The first n frames of a batch, flushed run by run; the n-th starts a run or is past the end. */
  function FlushedUpTo(l: Links, t: Table, b: Batch, n: nat, up: set<int>): Links
    requires n <= |b.frames| == |b.clocks|
    decreases n
  {
    if n == 0 then l
    else
      var s := RunStart(t, b, n - 1);
      Flush(FlushedUpTo(l, t, b, s, up), DestAt(t, b, n - 1), b.arrived, b.frames[s..n], up)
  }

  /** The walk over a batch, one frame at a time. */
  lemma WalkStarts(l: Links, t: Table, b: Batch, up: set<int>)
    requires b.Valid()
    ensures TableAfter(t, b, 0) == t && Lessons(b, 0) == [] && FlushedUpTo(l, t, b, 0, up) == l
    ensures RunStart(t, b, 0) == 0
    ensures var (after, dest) := DestOf(t, b.arrived, b.frames[0], b.clocks[0]);
            TableAfter(t, b, 1) == after && DestAt(t, b, 0) == dest
    ensures Lessons(b, 1) == [] + Lesson(b.arrived, b.frames[0], b.clocks[0])
  {
    hide DestOf, Lesson;
    assert TableAfter(t, b, 0) == t && Lessons(b, 0) == [];
  }

  lemma WalkStep(t: Table, b: Batch, i: nat)
    requires b.Valid() && 0 < i < |b.frames|
    ensures var (after, dest) := DestOf(TableAfter(t, b, i), b.arrived, b.frames[i], b.clocks[i]);
            TableAfter(t, b, i + 1) == after && DestAt(t, b, i) == dest
    ensures Lessons(b, i + 1) == Lessons(b, i) + Lesson(b.arrived, b.frames[i], b.clocks[i])
    ensures RunStart(t, b, i) == if DestAt(t, b, i) == DestAt(t, b, i - 1) then RunStart(t, b, i - 1) else i
  {
    hide DestOf, Lesson;
  }

  /** The run that ends before frame n is flushed. */
  lemma RunFlushed(l: Links, t: Table, b: Batch, n: nat, up: set<int>)
    requires b.Valid() && 0 < n <= |b.frames|
    ensures FlushedUpTo(l, t, b, n, up)
            == Flush(FlushedUpTo(l, t, b, RunStart(t, b, n - 1), up), DestAt(t, b, n - 1), b.arrived,
                     b.frames[RunStart(t, b, n - 1)..n], up)
  {
    hide DestAt, Flush, RunStart;
  }

  /** One turn, one round and the loop. */
  function TurnLinks(l: Links, c: Core, w: Wiring, port: int, event: Ready): Links
    requires event.Timed()
  {
    if port == LISTENER || !event.Bears() then l
    else
      FlushedUpTo(l, c.table, BatchOf(port, event), |BatchOf(port, event).frames|,
                  AttachedPorts(c.peers, w.local, w.uplink))
  }

  /** The ways in which a report is served. */
  lemma ServeUnfolds(l: Links, c: Core, w: Wiring, port: int, event: Ready)
    requires event.Timed() && IsPort(port)
    ensures event.Gone() ==>
              TurnLinks(l, c, w, port, event) == l
              && ServeCore(c, port, event)
                 == if Fixed(port) then (c, false)
                    else (Core(Forget(c.table, port), c.log + [Forgot(port)], c.peers[port := -1]), true)
    ensures event.Bears() ==>
              var b := BatchOf(port, event);
              && TurnLinks(l, c, w, port, event)
                 == FlushedUpTo(l, c.table, b, |b.frames|, AttachedPorts(c.peers, w.local, w.uplink))
              && ServeCore(c, port, event)
                 == (Core(TableAfter(c.table, b, |b.frames|), c.log + Lessons(b, |b.frames|), c.peers), true)
    ensures !event.Gone() && !event.Bears() ==>
              TurnLinks(l, c, w, port, event) == l && ServeCore(c, port, event) == (c, true)
  {
    hide Forget, TableAfter, Lessons, FlushedUpTo, BatchOf;
  }

  function RoundLinks(l: Links, c: Core, w: Wiring, watched: seq<int>, k: nat, ready: map<int, Ready>): Links
    requires k <= |watched| && Timed(ready)
    decreases |watched| - k
  {
    if k == |watched| then l
    else
      var event := EventAt(ready, watched[k]);
      var (d, running) := TurnCore(c, watched[k], event);
      var m := TurnLinks(l, c, w, watched[k], event);
      if running then RoundLinks(m, d, w, watched, k + 1, ready) else m
  }

  function LoopLinks(l: Links, c: Core, w: Wiring, rounds: seq<map<int, Ready>>, i: nat): Links
    requires i <= |rounds| && AllTimed(rounds)
    decreases |rounds| - i
  {
    if i == |rounds| then l
    else
      var watched := Watched(c.peers, w.uplink);
      var (d, running) := RoundCore(c, watched, 0, rounds[i]);
      var m := RoundLinks(l, c, w, watched, 0, rounds[i]);
      if running then LoopLinks(m, d, w, rounds, i + 1) else m
  }

  // ------------------------------------------------------------ one port

  /** From l to r only port p's output changed, and it grew by `run` as far as the kernel took it. */
  ghost predicate Reached(l: Links, r: Links, p: int, run: seq<Frame>)
    requires IsPort(p)
  {
    && Grew(l.sent[p + 1], r.sent[p + 1], run, Lossless(l.plan))
    && (forall i :: 0 <= i < PORTS && i != p + 1 ==> r.sent[i] == l.sent[i])
    && (Lossless(l.plan) ==> Lossless(r.plan))
  }

  lemma SendReaches(l: Links, p: int, run: seq<Frame>)
    requires IsPort(p)
    ensures Reached(l, SendRun(l, p, run), p, run)
  {
    hide TakenOfRun, Grew, Taken;
    if Lossless(l.plan) {
      LosslessIsTaken(l.plan, |run|);
    }
    GrewPrefix(l.sent[p + 1], run[..Taken(l.plan, |run|).0], run, Lossless(l.plan));
  }

  lemma {:induction false} FeedReaches(l: Links, run: seq<Frame>)
    ensures Reached(l, FeedRun(l, run), PORT_UPLINK, run)
    decreases |run|
  {
    hide Grew, SendRun;
    if run == [] {
      GrewNothing(l.sent[0], Lossless(l.plan));
    } else {
      var most, last := run[..|run| - 1], [run[|run| - 1]];
      var mid := FeedRun(l, most);
      FeedReaches(l, most);
      SendReaches(mid, PORT_UPLINK, last);
      GrewWeaken(mid.sent[0], FeedRun(l, run).sent[0], last, Lossless(mid.plan), Lossless(l.plan));
      GrewTwice(l.sent[0], mid.sent[0], FeedRun(l, run).sent[0], most, last, Lossless(l.plan));
      assert most + last == run;
    }
  }

  lemma EmitReaches(l: Links, p: int, run: seq<Frame>, up: set<int>)
    requires IsPort(p) && p in up
    ensures Reached(l, EmitRun(l, p, run, up), p, run)
  {
    hide Reached, SendRun, FeedRun;
    if p == PORT_UPLINK {
      FeedReaches(l, run);
    } else {
      SendReaches(l, p, run);
    }
  }

  /** One frame to the uplink is a single send. */
  lemma FeedOne(l: Links, f: Frame)
    ensures FeedRun(l, [f]) == SendRun(l, PORT_UPLINK, [f])
  {
    assert [f][..0] == [];
    assert FeedRun(l, [f][..0]) == l;
  }

  // ------------------------------------------------------------ a run to its destination

  /** The order of a flood: uplink, local guest, peers from slot 0. */
  function DoneUpTo(n: int): set<int> {
    set p | PORT_UPLINK <= p <= PORT_LOCAL && IsPort(p) && (p < n || p == PORT_LOCAL)
  }

  /** Each port grew by the run if it is among `done` and the destination reaches it, and otherwise not at all. */
  ghost predicate Served(before: seq<seq<Frame>>, after: seq<seq<Frame>>, done: set<int>, dest: int, arrived: int,
                         run: seq<Frame>, up: set<int>, lossless: bool)
    requires |before| == PORTS == |after|
  {
    forall i :: 0 <= i < PORTS ==>
      Grew(before[i], after[i], if i - 1 in done && Reaches(dest, arrived, i - 1, up) then run else [], lossless)
  }

  lemma ServedNone(sent: seq<seq<Frame>>, dest: int, arrived: int, run: seq<Frame>, up: set<int>, lossless: bool)
    requires |sent| == PORTS
    ensures Served(sent, sent, {}, dest, arrived, run, up, lossless)
  {
    hide Grew;
    forall i | 0 <= i < PORTS
      ensures Grew(sent[i], sent[i], [], lossless)
    {
      GrewNothing(sent[i], lossless);
    }
  }

  lemma ServeMore(before: seq<seq<Frame>>, mid: seq<seq<Frame>>, after: seq<seq<Frame>>, done: set<int>, p: int,
                  dest: int, arrived: int, run: seq<Frame>, up: set<int>, lossless: bool, strong: bool)
    requires |before| == PORTS == |mid| == |after| && IsPort(p) && p !in done
    requires Served(before, mid, done, dest, arrived, run, up, lossless)
    requires if Reaches(dest, arrived, p, up)
             then (lossless ==> strong) && Grew(mid[p + 1], after[p + 1], run, strong)
                  && forall i :: 0 <= i < PORTS && i != p + 1 ==> mid[i] == after[i]
             else mid == after
    ensures Served(before, after, done + {p}, dest, arrived, run, up, lossless)
  {
    hide Reaches;
    forall i | 0 <= i < PORTS
      ensures Grew(before[i], after[i],
                   if i - 1 in done + {p} && Reaches(dest, arrived, i - 1, up) then run else [], lossless)
    {
      if i == p + 1 {
        assert before[i] == mid[i];
      }
    }
  }

  lemma NothingServed(before: seq<seq<Frame>>, after: seq<seq<Frame>>, dest: int, p: int, run: seq<Frame>, up: set<int>,
                      lossless: bool)
    requires |before| == PORTS == |after| && IsPort(p) && !Reaches(dest, p, p, up)
    requires Served(before, after, AllPorts(), dest, p, run, up, lossless)
    ensures after[p + 1] == before[p + 1]
  {
    hide Reaches, Grew;
    assert Grew(before[p + 1], after[p + 1], [], lossless);
    GrewByNothing(before[p + 1], after[p + 1], lossless);
  }

  lemma ServedRest(before: seq<seq<Frame>>, after: seq<seq<Frame>>, done: set<int>, dest: int, arrived: int,
                   run: seq<Frame>, up: set<int>, lossless: bool)
    requires |before| == PORTS == |after| && Served(before, after, done, dest, arrived, run, up, lossless)
    requires forall p :: IsPort(p) && Reaches(dest, arrived, p, up) ==> p in done
    ensures Served(before, after, AllPorts(), dest, arrived, run, up, lossless)
  {
    hide Grew;
    forall i | 0 <= i < PORTS
      ensures Grew(before[i], after[i],
                   if i - 1 in AllPorts() && Reaches(dest, arrived, i - 1, up) then run else [], lossless)
    {
      assert IsPort(i - 1);
    }
  }

  /** A step of a flood serves one more port. */
  lemma FloodServesMore(l: Links, mid: Links, p: int, done: set<int>, arrived: int, run: seq<Frame>, up: set<int>)
    requires IsPort(p) && p !in done && (Lossless(l.plan) ==> Lossless(mid.plan))
    requires Served(l.sent, mid.sent, done, DEST_FLOOD, arrived, run, up, Lossless(l.plan))
    ensures var r := EmitBut(mid, p, arrived, run, up);
            && Served(l.sent, r.sent, done + {p}, DEST_FLOOD, arrived, run, up, Lossless(l.plan))
            && (Lossless(l.plan) ==> Lossless(r.plan))
  {
    hide Grew, Lossless, Served, EmitRun;
    if p != arrived {
      if p in up {
        EmitReaches(mid, p, run, up);
      } else {
        NotAttached(mid, p, run, up);
      }
    }
    ServeMore(l.sent, mid.sent, EmitBut(mid, p, arrived, run, up).sent, done, p, DEST_FLOOD, arrived, run, up,
              Lossless(l.plan), Lossless(mid.plan));
  }

  lemma NotAttached(l: Links, p: int, run: seq<Frame>, up: set<int>)
    requires IsPort(p) && p !in up
    ensures EmitRun(l, p, run, up) == l
  {
  }

  lemma {:induction false} FloodServes(l: Links, arrived: int, run: seq<Frame>, up: set<int>, n: nat)
    requires n <= MAX_PEERS
    ensures var r := FloodRun(l, arrived, run, up, n);
            && Served(l.sent, r.sent, DoneUpTo(n), DEST_FLOOD, arrived, run, up, Lossless(l.plan))
            && (Lossless(l.plan) ==> Lossless(r.plan))
    decreases n
  {
    hide Grew, Lossless, Served, EmitBut, Reaches;
    if n == 0 {
      ServedNone(l.sent, DEST_FLOOD, arrived, run, up, Lossless(l.plan));
      FloodServesMore(l, l, PORT_UPLINK, {}, arrived, run, up);
      assert {} + {PORT_UPLINK} == {PORT_UPLINK};
      FloodServesMore(l, EmitBut(l, PORT_UPLINK, arrived, run, up), PORT_LOCAL, {PORT_UPLINK}, arrived, run, up);
      assert {PORT_UPLINK} + {PORT_LOCAL} == DoneUpTo(0);
    } else {
      FloodServes(l, arrived, run, up, n - 1);
      FloodServesMore(l, FloodRun(l, arrived, run, up, n - 1), n - 1, DoneUpTo(n - 1), arrived, run, up);
      assert DoneUpTo(n) == DoneUpTo(n - 1) + {n - 1};
    }
  }

  /** A flushed run reaches exactly the ports its destination reaches. */
  lemma FlushServes(l: Links, dest: int, arrived: int, run: seq<Frame>, up: set<int>)
    ensures var r := Flush(l, dest, arrived, run, up);
            && Served(l.sent, r.sent, AllPorts(), dest, arrived, run, up, Lossless(l.plan))
            && (Lossless(l.plan) ==> Lossless(r.plan))
  {
    hide Grew, Lossless, Served, FloodRun, EmitRun;
    if dest == DEST_FLOOD {
      FloodServes(l, arrived, run, up, MAX_PEERS);
      assert DoneUpTo(MAX_PEERS) == AllPorts();
      return;
    }
    ServedNone(l.sent, dest, arrived, run, up, Lossless(l.plan));
    if IsPort(dest) {
      if dest in up {
        EmitReaches(l, dest, run, up);
      } else {
        NotAttached(l, dest, run, up);
      }
      ServeMore(l.sent, l.sent, Flush(l, dest, arrived, run, up).sent, {}, dest, dest, arrived, run, up,
                Lossless(l.plan), Lossless(l.plan));
      ServedRest(l.sent, Flush(l, dest, arrived, run, up).sent, {} + {dest}, dest, arrived, run, up, Lossless(l.plan));
    } else {
      ServedRest(l.sent, l.sent, {}, dest, arrived, run, up, Lossless(l.plan));
    }
  }

  /** What hub_forward of one frame leaves: nothing at its own port, and all of the model's output without losses. */
  lemma OneFrame(l: Links, t: Table, arrived: int, f: Frame, c: Clock, up: set<int>)
    requires IsPort(arrived)
    ensures var r := Flush(l, DestOf(t, arrived, f, c).1, arrived, [f], up);
            && r.sent[arrived + 1] == l.sent[arrived + 1]
            && (Lossless(l.plan) ==> r.sent == ForwardOne(View(t, l.sent), arrived, f, c, up).sent)
  {
    hide DestOf, Grew, Served, Lossless, Flush, ForwardOne;
    var dest := DestOf(t, arrived, f, c).1;
    FlushServes(l, dest, arrived, [f], up);
    NoHairpin(t, arrived, f, c, up);
    NothingServed(l.sent, Flush(l, dest, arrived, [f], up).sent, dest, arrived, [f], up, Lossless(l.plan));
    if Lossless(l.plan) {
      ServedIsForwardOne(View(t, l.sent), Flush(l, dest, arrived, [f], up).sent, arrived, f, c, up);
    }
  }

  // ------------------------------------------------------------ a batch

  /** What the first n frames of the batch owe each port has been sent. */
  ghost predicate SentUpTo(t: Table, b: Batch, n: nat, before: seq<seq<Frame>>, after: seq<seq<Frame>>, up: set<int>,
                           lossless: bool)
    requires n <= |b.frames| == |b.clocks| && |before| == PORTS == |after|
  {
    forall i :: 0 <= i < PORTS ==> Grew(before[i], after[i], ForPort(t, b, n, i - 1, up), lossless)
  }

  lemma NothingYet(t: Table, b: Batch, sent: seq<seq<Frame>>, up: set<int>, lossless: bool)
    requires b.Valid() && |sent| == PORTS
    ensures SentUpTo(t, b, 0, sent, sent, up, lossless)
  {
    hide Grew;
    forall i | 0 <= i < PORTS
      ensures Grew(sent[i], sent[i], [], lossless)
    {
      GrewNothing(sent[i], lossless);
    }
  }

  lemma SentIsForwardEach(v: View, sent: seq<seq<Frame>>, b: Batch, up: set<int>)
    requires |v.sent| == PORTS == |sent| && b.Valid()
    requires SentUpTo(v.table, b, |b.frames|, v.sent, sent, up, true)
    ensures sent == ForwardEach(v, b, |b.frames|, up).sent
  {
    hide ForPort;
    ForwardEachByPort(v, b, |b.frames|, up);
  }

  lemma ServedIsForwardOne(v: View, sent: seq<seq<Frame>>, arrived: int, f: Frame, c: Clock, up: set<int>)
    requires |v.sent| == PORTS == |sent|
    requires Served(v.sent, sent, AllPorts(), DestOf(v.table, arrived, f, c).1, arrived, [f], up, true)
    ensures sent == ForwardOne(v, arrived, f, c, up).sent
  {
    hide DestOf, Reaches;
    var dest := DestOf(v.table, arrived, f, c).1;
    forall i | 0 <= i < PORTS
      ensures sent[i] == v.sent[i] + if Reaches(dest, arrived, i - 1, up) then [f] else []
    {
      assert i - 1 in AllPorts();
    }
  }

  /** Flushing runs gives each port what the frames owe it. */
  lemma {:induction false} BatchServes(l: Links, t: Table, b: Batch, n: nat, up: set<int>)
    requires b.Valid() && n <= |b.frames|
    ensures var r := FlushedUpTo(l, t, b, n, up);
            SentUpTo(t, b, n, l.sent, r.sent, up, Lossless(l.plan)) && (Lossless(l.plan) ==> Lossless(r.plan))
    decreases n
  {
    hide Grew, DestAt, ForPort, Flush, Lossless, SentUpTo;
    if n == 0 {
      NothingYet(t, b, l.sent, up, Lossless(l.plan));
    } else {
      var s := RunStart(t, b, n - 1);
      BatchServes(l, t, b, s, up);
      RunHasOneDest(t, b, n - 1);
      RunServes(l, FlushedUpTo(l, t, b, s, up), t, b, DestAt(t, b, n - 1), s, n, up);
    }
  }

  /** One more run. */
  lemma RunServes(l: Links, mid: Links, t: Table, b: Batch, dest: int, s: nat, n: nat, up: set<int>)
    requires b.Valid() && s < n <= |b.frames| && forall j :: s <= j < n ==> DestAt(t, b, j) == dest
    requires SentUpTo(t, b, s, l.sent, mid.sent, up, Lossless(l.plan)) && (Lossless(l.plan) ==> Lossless(mid.plan))
    ensures var r := Flush(mid, dest, b.arrived, b.frames[s..n], up);
            SentUpTo(t, b, n, l.sent, r.sent, up, Lossless(l.plan)) && (Lossless(l.plan) ==> Lossless(r.plan))
  {
    hide Grew, DestAt, ForPort, Reaches, Flush, Lossless;
    var run, r := b.frames[s..n], Flush(mid, dest, b.arrived, b.frames[s..n], up);
    FlushServes(mid, dest, b.arrived, run, up);
    forall i | 0 <= i < PORTS
      ensures Grew(l.sent[i], r.sent[i], ForPort(t, b, n, i - 1, up), Lossless(l.plan))
    {
      RunGoesTogether(t, b, s, n, dest, i - 1, up);
      assert i - 1 in AllPorts();
      var more := if Reaches(dest, b.arrived, i - 1, up) then run else [];
      GrewWeaken(mid.sent[i], r.sent[i], more, Lossless(mid.plan), Lossless(l.plan));
      GrewTwice(l.sent[i], mid.sent[i], r.sent[i], ForPort(t, b, s, i - 1, up), more, Lossless(l.plan));
    }
  }

  /**
   * What a batch leaves: at each port an in-order selection of what the one-frame forwarder
   * sends it, and without losses exactly that; at the arrival port nothing.
   */
  lemma BatchRefines(l: Links, t: Table, b: Batch, up: set<int>)
    requires b.Valid()
    ensures var r := FlushedUpTo(l, t, b, |b.frames|, up);
            && AllGrew(l.sent, r.sent, BatchOffers(t, b, up), Lossless(l.plan))
            && (Lossless(l.plan) ==> Lossless(r.plan))
            && (Lossless(l.plan) ==> r.sent == ForwardEach(View(t, l.sent), b, |b.frames|, up).sent)
            && r.sent[b.arrived + 1] == l.sent[b.arrived + 1]
  {
    hide FlushedUpTo, Grew, ForPort, Lossless, ForwardEach;
    var r := FlushedUpTo(l, t, b, |b.frames|, up);
    BatchServes(l, t, b, |b.frames|, up);
    NothingComesBack(t, b, |b.frames|, up);
    GrewByNothing(l.sent[b.arrived + 1], r.sent[b.arrived + 1], Lossless(l.plan));
    if Lossless(l.plan) {
      SentIsForwardEach(View(t, l.sent), r.sent, b, up);
    }
  }

  lemma BatchOfOne(l: Links, t: Table, b: Batch, up: set<int>)
    requires |b.frames| == 1 == |b.clocks|
    ensures TableAfter(t, b, 1) == DestOf(t, b.arrived, b.frames[0], b.clocks[0]).0
    ensures Lessons(b, 1) == Lesson(b.arrived, b.frames[0], b.clocks[0])
    ensures FlushedUpTo(l, t, b, 1, up)
            == Flush(l, DestOf(t, b.arrived, b.frames[0], b.clocks[0]).1, b.arrived, b.frames, up)
  {
    hide DestOf, Lesson, Flush;
    assert TableAfter(t, b, 0) == t && Lessons(b, 0) == [];
    assert FlushedUpTo(l, t, b, 0, up) == l && RunStart(t, b, 0) == 0;
    assert b.frames[0..1] == b.frames;
  }

  // ------------------------------------------------------------ turns, rounds, runs

  lemma TurnLinksGrow(l: Links, c: Core, w: Wiring, port: int, event: Ready)
    requires event.Timed() && (port == LISTENER || IsPort(port))
    ensures var r := TurnLinks(l, c, w, port, event);
            && AllGrew(l.sent, r.sent, TurnOffers(c, w, port, event), Lossless(l.plan))
            && (Lossless(l.plan) ==> Lossless(r.plan))
            && (IsPort(port) ==> r.sent[port + 1] == l.sent[port + 1])
  {
    hide FlushedUpTo, AllGrew, BatchOffers, Lossless, BatchOf;
    if port == LISTENER || !event.Bears() {
      AllGrewNothing(l.sent, Lossless(l.plan));
    } else {
      BatchRefines(l, c.table, BatchOf(port, event), AttachedPorts(c.peers, w.local, w.uplink));
    }
  }

  /** Every watched descriptor is the listener or a port. */
  predicate AllPortsOrListener(watched: seq<int>) {
    forall k :: 0 <= k < |watched| ==> watched[k] == LISTENER || IsPort(watched[k])
  }

  lemma {:induction false} RoundLinksGrow(l: Links, c: Core, w: Wiring, watched: seq<int>, k: nat,
                                          ready: map<int, Ready>)
    requires k <= |watched| && Timed(ready) && AllPortsOrListener(watched)
    ensures var r := RoundLinks(l, c, w, watched, k, ready);
            && AllGrew(l.sent, r.sent, RoundOffers(c, w, watched, k, ready), Lossless(l.plan))
            && (Lossless(l.plan) ==> Lossless(r.plan))
    decreases |watched| - k
  {
    hide TurnLinks, TurnOffers, TurnCore, AllGrew, Lossless, Plus;
    if k == |watched| {
      AllGrewNothing(l.sent, Lossless(l.plan));
    } else {
      var event := EventAt(ready, watched[k]);
      var (d, running) := TurnCore(c, watched[k], event);
      var m := TurnLinks(l, c, w, watched[k], event);
      TurnLinksGrow(l, c, w, watched[k], event);
      AllGrewNothing(m.sent, Lossless(m.plan));
      if running {
        RoundLinksGrow(m, d, w, watched, k + 1, ready);
      }
      AllGrewTwice(l.sent, m.sent, RoundLinks(l, c, w, watched, k, ready).sent, TurnOffers(c, w, watched[k], event),
                   if running then RoundOffers(d, w, watched, k + 1, ready) else Nothing(),
                   Lossless(l.plan), Lossless(m.plan));
    }
  }

  /** Over a whole run every port gets an in-order selection of what it is offered, and without losses all of it. */
  lemma {:induction false} LoopLinksGrow(l: Links, c: Core, w: Wiring, rounds: seq<map<int, Ready>>, i: nat)
    requires i <= |rounds| && AllTimed(rounds)
    ensures var r := LoopLinks(l, c, w, rounds, i);
            && AllGrew(l.sent, r.sent, LoopOffers(c, w, rounds, i), Lossless(l.plan))
            && (Lossless(l.plan) ==> Lossless(r.plan))
    decreases |rounds| - i
  {
    hide RoundLinks, RoundOffers, RoundCore, AllGrew, Lossless, Plus, Watched;
    if i == |rounds| {
      AllGrewNothing(l.sent, Lossless(l.plan));
    } else {
      var watched := Watched(c.peers, w.uplink);
      var (d, running) := RoundCore(c, watched, 0, rounds[i]);
      var m := RoundLinks(l, c, w, watched, 0, rounds[i]);
      WatchedArePorts(c.peers, w.uplink);
      RoundLinksGrow(l, c, w, watched, 0, rounds[i]);
      AllGrewNothing(m.sent, Lossless(m.plan));
      if running {
        LoopLinksGrow(m, d, w, rounds, i + 1);
      }
      AllGrewTwice(l.sent, m.sent, LoopLinks(l, c, w, rounds, i).sent, RoundOffers(c, w, watched, 0, rounds[i]),
                   if running then LoopOffers(d, w, rounds, i + 1) else Nothing(),
                   Lossless(l.plan), Lossless(m.plan));
    }
  }

  lemma WatchedArePorts(peers: seq<int>, uplink: bool)
    requires |peers| == MAX_PEERS
    ensures AllPortsOrListener(Watched(peers, uplink))
  {
    hide Watched;
    WatchedAreAllowed(peers, uplink);
  }
}
