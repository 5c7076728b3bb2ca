/**
 * The learning hub of vde_plug/vde_plug.c on values: where a frame goes, what the one-frame
 * forwarder and a batch leave behind, and a round of the poll loop.  Hub.dfy holds the same
 * state in arrays and is proved against these functions.  Links may lose frames: what the
 * hub knows never depends on that, and what a port is offered is stated apart from how much
 * of it the kernel took.
 */
module HubSpec {
  import opened Bytes
  import opened Subsequences
  import opened MacTable

  type Frame = seq<byte>

  const MAX_PEERS := 32
  const PORT_UPLINK := -1
  const PORT_LOCAL := MAX_PEERS
  const PORTS := MAX_PEERS + 2

  const DEST_FLOOD := -2
  const DEST_DROP := -3

  const ETH_HDRLEN := 14

  /** The clock readings of one frame: mac_learn's and mac_lookup's. */
  datatype Clock = Clock(learn: int, lookup: int)

  /** Where a frame that arrived on a port goes, and the table after learning and looking up. */
  function DestOf(t: Table, arrived: int, f: Frame, c: Clock): (Table, int) {
    if |f| < ETH_HDRLEN then (t, DEST_DROP)
    else
      var learned := Learn(t, f[6..12], arrived, c.learn);
      if f[0] % 2 == 1 then (learned, DEST_FLOOD)
      else
        var (after, answer) := Lookup(learned, f[0..6], c.lookup);
        match answer
        case None => (after, DEST_FLOOD)
        case Some(p) => (after, if p == arrived then DEST_DROP else p)
  }

  /** Does a frame with this destination leave through port p, when `up` are the attached ports? */
  predicate Reaches(dest: int, arrived: int, p: int, up: set<int>) {
    p in up && (if dest == DEST_FLOOD then p != arrived else dest == p)
  }

  predicate IsPort(p: int) {
    PORT_UPLINK <= p <= PORT_LOCAL
  }

  /** The table and what each port (number shifted by one) has been sent. */
  datatype View = View(table: Table, sent: seq<seq<Frame>>)

  /** The one-frame forwarder. */
  function ForwardOne(v: View, arrived: int, f: Frame, c: Clock, up: set<int>): (r: View)
    requires |v.sent| == PORTS
    ensures |r.sent| == PORTS
  {
    var (t, dest) := DestOf(v.table, arrived, f, c);
    View(t, seq(PORTS, i requires 0 <= i < PORTS =>
                  v.sent[i] + if Reaches(dest, arrived, i - 1, up) then [f] else []))
  }

  /** A batch of frames that arrived on one port, with the clock readings each of them sees. */
  datatype Batch = Batch(arrived: int, frames: seq<Frame>, clocks: seq<Clock>) {
    ghost predicate Valid() {
      IsPort(arrived) && |frames| == |clocks| && frames != []
    }
  }

  /** The first n frames forwarded one after the other. */
  function ForwardEach(v: View, b: Batch, n: nat, up: set<int>): (r: View)
    requires |v.sent| == PORTS && n <= |b.frames| == |b.clocks|
    ensures |r.sent| == PORTS
  {
    if n == 0 then v else ForwardOne(ForwardEach(v, b, n - 1, up), b.arrived, b.frames[n - 1], b.clocks[n - 1], up)
  }

  function TableAfter(t: Table, b: Batch, n: nat): Table
    requires n <= |b.frames| == |b.clocks|
  {
    if n == 0 then t else DestOf(TableAfter(t, b, n - 1), b.arrived, b.frames[n - 1], b.clocks[n - 1]).0
  }

  function DestAt(t: Table, b: Batch, n: nat): int
    requires n < |b.frames| == |b.clocks|
  {
    DestOf(TableAfter(t, b, n), b.arrived, b.frames[n], b.clocks[n]).1
  }

  /** What a frame reports to the MAC table: its source address, if it has a header at all. */
  function Lesson(arrived: int, f: Frame, c: Clock): seq<Event> {
    if |f| < ETH_HDRLEN then [] else [Learnt(f[6..12], arrived, c.learn)]
  }

  /** What the first n frames report. */
  function Lessons(b: Batch, n: nat): seq<Event>
    requires n <= |b.frames| == |b.clocks|
  {
    if n == 0 then [] else Lessons(b, n - 1) + Lesson(b.arrived, b.frames[n - 1], b.clocks[n - 1])
  }

  lemma DestKeepsSound(t: Table, log: seq<Event>, arrived: int, f: Frame, c: Clock)
    requires Sound(t, log)
    ensures Sound(DestOf(t, arrived, f, c).0, log + Lesson(arrived, f, c))
  {
    hide Learn, Lookup, Sound;
    if |f| < ETH_HDRLEN {
      assert log + [] == log;
    } else {
      LearnKeepsSound(t, log, f[6..12], arrived, c.learn);
      LookupKeepsSound(Learn(t, f[6..12], arrived, c.learn), log + Lesson(arrived, f, c), f[0..6], c.lookup);
    }
  }

  lemma {:induction false} BatchKeepsSound(t: Table, log: seq<Event>, b: Batch, n: nat)
    requires Sound(t, log) && n <= |b.frames| == |b.clocks|
    ensures Sound(TableAfter(t, b, n), log + Lessons(b, n))
  {
    hide DestOf, Sound, Lesson;
    if n == 0 {
      assert log + Lessons(b, n) == log;
    } else {
      BatchKeepsSound(t, log, b, n - 1);
      DestKeepsSound(TableAfter(t, b, n - 1), log + Lessons(b, n - 1), b.arrived, b.frames[n - 1], b.clocks[n - 1]);
      assert log + Lessons(b, n - 1) + Lesson(b.arrived, b.frames[n - 1], b.clocks[n - 1]) == log + Lessons(b, n);
    }
  }

  /** The frames among the first n that leave through port p. */
  function ForPort(t: Table, b: Batch, n: nat, p: int, up: set<int>): seq<Frame>
    requires n <= |b.frames| == |b.clocks|
  {
    if n == 0 then []
    else ForPort(t, b, n - 1, p, up)
         + if Reaches(DestAt(t, b, n - 1), b.arrived, p, up) then [b.frames[n - 1]] else []
  }

  lemma {:induction false} ForwardEachByPort(v: View, b: Batch, n: nat, up: set<int>)
    requires |v.sent| == PORTS && n <= |b.frames| == |b.clocks|
    ensures ForwardEach(v, b, n, up).table == TableAfter(v.table, b, n)
    ensures forall i :: 0 <= i < PORTS ==>
              ForwardEach(v, b, n, up).sent[i] == v.sent[i] + ForPort(v.table, b, n, i - 1, up)
  {
    hide DestOf;
    if n > 0 {
      ForwardEachByPort(v, b, n - 1, up);
    }
  }

  /** Frames lo..hi with one common destination go to each port all together or not at all. */
  lemma {:induction false} RunGoesTogether(t: Table, b: Batch, lo: nat, hi: nat, d: int, p: int, up: set<int>)
    requires lo <= hi <= |b.frames| == |b.clocks|
    requires forall j :: lo <= j < hi ==> DestAt(t, b, j) == d
    ensures ForPort(t, b, hi, p, up)
            == ForPort(t, b, lo, p, up) + if Reaches(d, b.arrived, p, up) then b.frames[lo..hi] else []
    decreases hi
  {
    hide DestOf, TableAfter, DestAt;
    if lo < hi {
      RunGoesTogether(t, b, lo, hi - 1, d, p, up);
      assert b.frames[lo..hi] == b.frames[lo..hi - 1] + [b.frames[hi - 1]];
    }
  }

  /** Every valid entry names an allowed port. */
  ghost predicate PortsIn(t: Table, allowed: set<int>) {
    forall s :: 0 <= s < SIZE && t[s].valid ==> t[s].port in allowed
  }

  ghost predicate PortsOk(t: Table) {
    PortsIn(t, AllPorts())
  }

  /** A frame's destination is never the port it came from. */
  lemma NoHairpin(t: Table, arrived: int, f: Frame, c: Clock, up: set<int>)
    requires IsPort(arrived)
    ensures !Reaches(DestOf(t, arrived, f, c).1, arrived, arrived, up)
  {
    hide Learn, Lookup;
  }

  lemma {:induction false} NothingComesBack(t: Table, b: Batch, n: nat, up: set<int>)
    requires b.Valid() && n <= |b.frames|
    ensures ForPort(t, b, n, b.arrived, up) == []
  {
    hide DestOf, Reaches;
    if n > 0 {
      NothingComesBack(t, b, n - 1, up);
      NoHairpin(TableAfter(t, b, n - 1), b.arrived, b.frames[n - 1], b.clocks[n - 1], up);
    }
  }

  lemma DestKeepsPorts(t: Table, arrived: int, f: Frame, c: Clock, allowed: set<int>)
    requires PortsIn(t, allowed) && arrived in allowed
    ensures PortsIn(DestOf(t, arrived, f, c).0, allowed)
    ensures var d := DestOf(t, arrived, f, c).1; d == DEST_FLOOD || d == DEST_DROP || d in allowed
  {
    hide Hash, Probe;
  }

  lemma AnswerIsPort(t: Table, arrived: int, f: Frame, c: Clock)
    requires PortsOk(t) && IsPort(arrived) && |f| >= ETH_HDRLEN
    ensures var answer := Lookup(Learn(t, f[6..12], arrived, c.learn), f[0..6], c.lookup).1;
            answer.Some? ==> IsPort(answer.value)
  {
    hide Hash, Probe;
  }

  lemma ForwardedTable(v: View, arrived: int, f: Frame, c: Clock, up: set<int>)
    requires |v.sent| == PORTS
    ensures ForwardOne(v, arrived, f, c, up).table == DestOf(v.table, arrived, f, c).0
  {
    hide DestOf;
  }

  lemma {:induction false} BatchKeepsPorts(t: Table, b: Batch, n: nat, allowed: set<int>)
    requires PortsIn(t, allowed) && b.arrived in allowed && n <= |b.frames| == |b.clocks|
    ensures PortsIn(TableAfter(t, b, n), allowed)
  {
    hide DestOf, PortsIn;
    if n > 0 {
      BatchKeepsPorts(t, b, n - 1, allowed);
      DestKeepsPorts(TableAfter(t, b, n - 1), b.arrived, b.frames[n - 1], b.clocks[n - 1], allowed);
    }
  }

  function AllPorts(): set<int> {
    set p | PORT_UPLINK <= p <= PORT_LOCAL && IsPort(p)
  }

  // ------------------------------------------------------------ sending

  /** How the kernel answers one send or sendmmsg: frames taken, EINTR, or no room (EAGAIN, ENOBUFS). */
  datatype SendStep = Took(n: nat) | Interrupted | Full

  function Behind(plan: seq<SendStep>): seq<SendStep> {
    if plan == [] then [] else plan[1..]
  }

  /** How many of n frames sendmmsg takes over its retries, and the schedule behind them. */
  function TakenOfRun(plan: seq<SendStep>, n: nat): (r: (nat, seq<SendStep>))
    ensures r.0 <= n
    decreases |plan|
  {
    if n == 0 then (0, plan)
    else if plan == [] then (n, [])
    else match plan[0]
      case Took(k) =>
        var now := if k < 1 then 1 else Min(k, n);
        var (later, rest) := TakenOfRun(plan[1..], n - now);
        (now + later, rest)
      case Interrupted => TakenOfRun(plan[1..], n)
      case Full => (0, plan[1..])
  }

  /** The same for batch_send, where a single frame gets a single try. */
  function Taken(plan: seq<SendStep>, n: nat): (r: (nat, seq<SendStep>))
    ensures r.0 <= n
  {
    if n == 1 then (if plan == [] || plan[0].Took? then 1 else 0, Behind(plan)) else TakenOfRun(plan, n)
  }

  /** The frames the kernel takes ahead of its first "no room"; a successful send takes at least one. */
  function Offer(plan: seq<SendStep>): nat {
    if plan == [] then 0
    else match plan[0]
      case Took(k) => (if k < 1 then 1 else k) + Offer(plan[1..])
      case Interrupted => Offer(plan[1..])
      case Full => 0
  }

  /** A run is cut short iff the socket fills up before the kernel has taken all of it, and then exactly there. */
  lemma {:induction false} RunStopsShortIff(plan: seq<SendStep>, n: nat)
    ensures TakenOfRun(plan, n).0 == if Full in plan && Offer(plan) < n then Offer(plan) else n
    decreases |plan|
  {
    if n > 0 && plan != [] {
      RunStopsShortIff(plan[1..], match plan[0] case Took(k) => n - (if k < 1 then 1 else Min(k, n)) case _ => n);
    }
  }

  /** A single frame has a single try: an interruption loses it too. */
  lemma SingleFrameIsTakenIff(plan: seq<SendStep>)
    ensures Taken(plan, 1).0 == if plan == [] || plan[0].Took? then 1 else 0
    ensures |Taken(plan, 1).1| == if plan == [] then 0 else |plan| - 1
  {
  }

  /** EINTR costs a run nothing: only a full socket does. */
  lemma {:induction false} RunIsTakenWhole(plan: seq<SendStep>, n: nat)
    requires Full !in plan
    ensures TakenOfRun(plan, n).0 == n
    decreases |plan|
  {
    if n > 0 && plan != [] {
      RunIsTakenWhole(plan[1..], match plan[0] case Took(k) => n - (if k < 1 then 1 else Min(k, n)) case _ => n);
    }
  }

  lemma LosslessIsTaken(plan: seq<SendStep>, n: nat)
    requires Lossless(plan)
    ensures Taken(plan, n).0 == n && Lossless(Taken(plan, n).1)
  {
    LosslessRun(plan, n);
  }

  lemma {:induction false} LosslessRun(plan: seq<SendStep>, n: nat)
    requires Lossless(plan)
    ensures TakenOfRun(plan, n).0 == n && Lossless(TakenOfRun(plan, n).1)
    decreases |plan|
  {
    if n > 0 && plan != [] {
      LosslessRun(plan[1..], if plan[0].n < 1 then n - 1 else n - Min(plan[0].n, n));
    }
  }

  predicate Lossless(plan: seq<SendStep>) {
    forall i :: 0 <= i < |plan| ==> plan[i].Took?
  }

  /** A port's output grew by some of the offered frames, in order; by all of them if nothing was lost. */
  ghost predicate Grew(before: seq<Frame>, after: seq<Frame>, offered: seq<Frame>, lossless: bool) {
    && before <= after
    && Subsequence(after[|before|..], offered)
    && (lossless ==> after == before + offered)
  }

  lemma GrewNothing(a: seq<Frame>, lossless: bool)
    ensures Grew(a, a, [], lossless)
  {
    assert a + [] == a;
  }

  lemma GrewByNothing(a: seq<Frame>, b: seq<Frame>, lossless: bool)
    requires Grew(a, b, [], lossless)
    ensures a == b
  {
    assert b == a + b[|a|..];
  }

  lemma GrewTwice(a: seq<Frame>, b: seq<Frame>, c: seq<Frame>, x: seq<Frame>, y: seq<Frame>, lossless: bool)
    requires Grew(a, b, x, lossless) && Grew(b, c, y, lossless)
    ensures Grew(a, c, x + y, lossless)
  {
    SubsequenceConcat(b[|a|..], x, c[|b|..], y);
    assert c[|a|..] == b[|a|..] + c[|b|..];
    assert a + (x + y) == a + x + y;
  }

  lemma GrewPrefix(a: seq<Frame>, got: seq<Frame>, offered: seq<Frame>, lossless: bool)
    requires got <= offered && (lossless ==> got == offered)
    ensures Grew(a, a + got, offered, lossless)
  {
    PrefixIsSubsequence(got, offered);
  }

  /** The ports a frame can leave through, given the peer slots. */
  function AttachedPorts(peers: seq<int>, local: bool, uplink: bool): set<int>
    requires |peers| == MAX_PEERS
  {
    (set p | 0 <= p < MAX_PEERS && peers[p] >= 0)
    + (if local then {PORT_LOCAL} else {})
    + (if uplink then {PORT_UPLINK} else {})
  }

  // ------------------------------------------------------------ offers to all ports

  /** One list of frames per port, shifted by one so that the uplink has index 0. */
  type Outputs = s: seq<seq<Frame>> | |s| == PORTS witness seq(PORTS, _ => [])

  function Nothing(): Outputs {
    seq(PORTS, _ => [])
  }

  function Plus(x: Outputs, y: Outputs): Outputs {
    seq(PORTS, i requires 0 <= i < PORTS => x[i] + y[i])
  }

  /** Every port grew by an in-order selection of what it was offered; by all of it if nothing was lost. */
  ghost predicate AllGrew(before: Outputs, after: Outputs, offered: Outputs, lossless: bool) {
    forall i :: 0 <= i < PORTS ==> Grew(before[i], after[i], offered[i], lossless)
  }

  lemma AllGrewNothing(a: Outputs, lossless: bool)
    ensures AllGrew(a, a, Nothing(), lossless)
  {
    hide Grew;
    forall i | 0 <= i < PORTS
      ensures Grew(a[i], a[i], [], lossless)
    {
      GrewNothing(a[i], lossless);
    }
  }

  lemma AllGrewTwice(a: Outputs, b: Outputs, c: Outputs, x: Outputs, y: Outputs, lossless: bool, strong: bool)
    requires AllGrew(a, b, x, lossless) && AllGrew(b, c, y, strong) && (lossless ==> strong)
    ensures AllGrew(a, c, Plus(x, y), lossless)
  {
    hide Grew;
    forall i | 0 <= i < PORTS
      ensures Grew(a[i], c[i], x[i] + y[i], lossless)
    {
      GrewWeaken(b[i], c[i], y[i], strong, lossless);
      GrewTwice(a[i], b[i], c[i], x[i], y[i], lossless);
    }
  }

  /** What a port got new is among what it was offered. */
  lemma GrewMembers(before: Outputs, after: Outputs, offered: Outputs, lossless: bool, i: nat)
    requires i < PORTS && AllGrew(before, after, offered, lossless)
    ensures forall f :: f in after[i][|before[i]|..] ==> f in offered[i]
    ensures before[i] <= after[i]
  {
    assert Grew(before[i], after[i], offered[i], lossless);
    SubsequenceMembers(after[i][|before[i]|..], offered[i]);
  }

  // ------------------------------------------------------------ the loop on values

  type Slots = s: seq<int> | |s| == MAX_PEERS witness seq(MAX_PEERS, _ => -1)

  /** What the hub knows: the MAC table, the events behind it, and who is connected. */
  datatype Core = Core(table: Table, log: seq<Event>, peers: Slots)

  /** Which of the two fixed ports there are. */
  datatype Wiring = Wiring(local: bool, uplink: bool)

  function FixedPorts(uplink: bool): seq<int> {
    [PORT_LOCAL] + (if uplink then [PORT_UPLINK] else []) + [LISTENER]
  }

  /** The live peers among the first n slots, in slot order. */
  function LiveUpTo(peers: seq<int>, n: nat): seq<int>
    requires n <= |peers|
  {
    if n == 0 then [] else LiveUpTo(peers, n - 1) + if peers[n - 1] >= 0 then [n - 1] else []
  }

  function Watched(peers: seq<int>, uplink: bool): seq<int>
    requires |peers| == MAX_PEERS
  {
    FixedPorts(uplink) + LiveUpTo(peers, MAX_PEERS)
  }

  lemma {:induction false} LiveUpToFacts(peers: seq<int>, n: nat)
    requires n <= |peers|
    ensures forall k :: 0 <= k < |LiveUpTo(peers, n)| ==>
              0 <= LiveUpTo(peers, n)[k] < n && peers[LiveUpTo(peers, n)[k]] >= 0
    ensures forall j, k :: 0 <= j < k < |LiveUpTo(peers, n)| ==> LiveUpTo(peers, n)[j] != LiveUpTo(peers, n)[k]
    ensures forall p :: 0 <= p < n && peers[p] >= 0 ==> p in LiveUpTo(peers, n)
  {
    if n > 0 {
      LiveUpToFacts(peers, n - 1);
    }
  }

  /** poll() watches the listener, the fixed ports and exactly the live peers, each once. */
  lemma WatchedAreAllowed(peers: seq<int>, uplink: bool)
    requires |peers| == MAX_PEERS
    ensures var w := Watched(peers, uplink);
            && (forall k :: 0 <= k < |w| ==>
                  w[k] == LISTENER || w[k] == PORT_LOCAL || w[k] == PORT_UPLINK
                  || (0 <= w[k] < MAX_PEERS && peers[w[k]] >= 0))
            && (forall j, k :: 0 <= j < k < |w| ==> w[j] != w[k])
            && (forall p :: 0 <= p < MAX_PEERS && peers[p] >= 0 ==> p in w)
            && PORT_LOCAL in w && LISTENER in w && (uplink <==> PORT_UPLINK in w)
  {
    hide LiveUpTo;
    LiveUpToFacts(peers, MAX_PEERS);
  }

  function LowestFree(peers: seq<int>, from: nat): nat
    requires from <= |peers|
    decreases |peers| - from
  {
    if from == |peers| || peers[from] < 0 then from else LowestFree(peers, from + 1)
  }

  lemma {:induction false} LowestFreeIs(peers: seq<int>, from: nat, slot: nat)
    requires from <= slot <= |peers| && (forall p :: from <= p < slot ==> peers[p] >= 0)
    requires slot < |peers| ==> peers[slot] < 0
    ensures LowestFree(peers, from) == slot
    decreases slot - from
  {
    if from < slot {
      LowestFreeIs(peers, from + 1, slot);
    }
  }

  function Joined(peers: Slots, fd: int): Slots {
    var slot := LowestFree(peers, 0);
    if slot < MAX_PEERS then peers[slot := fd] else peers
  }

  predicate Fixed(port: int) {
    port == PORT_LOCAL || port == PORT_UPLINK
  }

  /** The frames of a report that are taken up: the uplink hands over one at a time. */
  function BatchOf(port: int, event: Ready): (b: Batch)
    requires event.Bears() && event.Timed()
    ensures b.arrived == port && |b.frames| == |b.clocks| && b.frames != []
    ensures b.frames <= event.frames && b.clocks <= event.clocks
  {
    if port == PORT_UPLINK then Batch(port, event.frames[..1], event.clocks[..1])
    else Batch(port, event.frames, event.clocks)
  }

  /** One reported descriptor; the flag says whether the hub goes on. */
  function ServeCore(c: Core, port: int, event: Ready): (Core, bool)
    requires event.Timed()
  {
    if event.Gone() then
      if Fixed(port) then (c, false)
      else if 0 <= port < MAX_PEERS then
        (Core(Forget(c.table, port), c.log + [Forgot(port)], c.peers[port := -1]), true)
      else (c, true)
    else if event.Bears() then
      var b := BatchOf(port, event);
      (c.(table := TableAfter(c.table, b, |b.frames|), log := c.log + Lessons(b, |b.frames|)), true)
    else (c, true)
  }

  /** The turn of the listener or of a port. */
  function TurnCore(c: Core, port: int, event: Ready): (Core, bool)
    requires event.Timed()
  {
    if port != LISTENER then ServeCore(c, port, event)
    else if event.Joining? && event.fd >= 0 then (c.(peers := Joined(c.peers, event.fd)), true)
    else (c, true)
  }

  function BatchOffers(t: Table, b: Batch, up: set<int>): Outputs
    requires |b.frames| == |b.clocks|
  {
    seq(PORTS, i requires 0 <= i < PORTS => ForPort(t, b, |b.frames|, i - 1, up))
  }

  /** What every port is offered in that turn. */
  function TurnOffers(c: Core, w: Wiring, port: int, event: Ready): Outputs
    requires event.Timed()
  {
    if port == LISTENER || !event.Bears() then Nothing()
    else BatchOffers(c.table, BatchOf(port, event), AttachedPorts(c.peers, w.local, w.uplink))
  }

  function EventAt(ready: map<int, Ready>, port: int): Ready {
    if port in ready then ready[port] else Quiet
  }

  /** The rest of a round from the k-th watched descriptor on. */
  function RoundCore(c: Core, watched: seq<int>, k: nat, ready: map<int, Ready>): (Core, bool)
    requires k <= |watched| && Timed(ready)
    decreases |watched| - k
  {
    if k == |watched| then (c, true)
    else
      var (d, running) := TurnCore(c, watched[k], EventAt(ready, watched[k]));
      if running then RoundCore(d, watched, k + 1, ready) else (d, false)
  }

  function RoundOffers(c: Core, w: Wiring, watched: seq<int>, k: nat, ready: map<int, Ready>): Outputs
    requires k <= |watched| && Timed(ready)
    decreases |watched| - k
  {
    if k == |watched| then Nothing()
    else
      var event := EventAt(ready, watched[k]);
      var (d, running) := TurnCore(c, watched[k], event);
      Plus(TurnOffers(c, w, watched[k], event), if running then RoundOffers(d, w, watched, k + 1, ready) else Nothing())
  }

  predicate AllTimed(rounds: seq<map<int, Ready>>) {
    forall j :: 0 <= j < |rounds| ==> Timed(rounds[j])
  }

  /** The rest of the loop from round i on. */
  function LoopCore(c: Core, w: Wiring, rounds: seq<map<int, Ready>>, i: nat): Core
    requires i <= |rounds| && AllTimed(rounds)
    decreases |rounds| - i
  {
    if i == |rounds| then c
    else
      var (d, running) := RoundCore(c, Watched(c.peers, w.uplink), 0, rounds[i]);
      if running then LoopCore(d, w, rounds, i + 1) else d
  }

  function LoopOffers(c: Core, w: Wiring, rounds: seq<map<int, Ready>>, i: nat): Outputs
    requires i <= |rounds| && AllTimed(rounds)
    decreases |rounds| - i
  {
    if i == |rounds| then Nothing()
    else
      var watched := Watched(c.peers, w.uplink);
      var (d, running) := RoundCore(c, watched, 0, rounds[i]);
      Plus(RoundOffers(c, w, watched, 0, rounds[i]), if running then LoopOffers(d, w, rounds, i + 1) else Nothing())
  }

  // ------------------------------------------------------------ where frames and facts come from

  /** Descriptor q delivered the frame f in this round. */
  predicate Delivers(ready: map<int, Ready>, q: int, f: Frame) {
    q in ready && ready[q].Data? && f in ready[q].frames
  }

  ghost predicate ArrivedElsewhere(rounds: seq<map<int, Ready>>, p: int, f: Frame) {
    exists r, q :: 0 <= r < |rounds| && q != p && Delivers(rounds[r], q, f)
  }

  /** Port p delivered a frame from m whose mac_learn read the clock as `at`. */
  ghost predicate HeardFrom(ready: map<int, Ready>, p: int, m: Mac, at: int) {
    && p in ready && ready[p].Data? && |ready[p].frames| == |ready[p].clocks|
    && exists j :: 0 <= j < |ready[p].frames| && |ready[p].frames[j]| >= ETH_HDRLEN
                   && ready[p].frames[j][6..12] == m && ready[p].clocks[j].learn == at
  }

  /** An entry of the log is a frame that arrived or a peer that left. */
  ghost predicate Reports(ready: map<int, Ready>, e: Event) {
    match e
    case Learnt(m, p, at) => HeardFrom(ready, p, m, at)
    case Forgot(p) => p in ready && ready[p].Gone()
  }

  ghost predicate Happened(rounds: seq<map<int, Ready>>, e: Event) {
    exists r :: 0 <= r < |rounds| && Reports(rounds[r], e)
  }

  lemma {:induction false} ForPortMembers(t: Table, b: Batch, n: nat, p: int, up: set<int>)
    requires n <= |b.frames| == |b.clocks|
    ensures forall f :: f in ForPort(t, b, n, p, up) ==> f in b.frames
  {
    hide DestOf, Reaches, DestAt;
    if n > 0 {
      ForPortMembers(t, b, n - 1, p, up);
    }
  }

  /** In one turn the port whose frames are forwarded is offered none of them, and others only those. */
  lemma TurnOffersFrom(c: Core, w: Wiring, port: int, event: Ready, i: nat)
    requires event.Timed() && i < PORTS
    ensures TurnOffers(c, w, port, event)[i] != [] ==> i - 1 != port && event.Data?
    ensures forall f :: f in TurnOffers(c, w, port, event)[i] ==> event.Data? && f in event.frames
  {
    hide ForPort, DestOf;
    if port != LISTENER && event.Bears() {
      var b, up := BatchOf(port, event), AttachedPorts(c.peers, w.local, w.uplink);
      ForPortMembers(c.table, b, |b.frames|, i - 1, up);
      if i - 1 == port {
        NothingComesBack(c.table, b, |b.frames|, up);
      }
    }
  }

  lemma {:induction false} RoundOffersFrom(c: Core, w: Wiring, watched: seq<int>, k: nat, ready: map<int, Ready>,
                                           i: nat, f: Frame)
    requires k <= |watched| && Timed(ready) && i < PORTS && f in RoundOffers(c, w, watched, k, ready)[i]
    ensures exists q :: q != i - 1 && Delivers(ready, q, f)
    decreases |watched| - k
  {
    hide TurnOffers, TurnCore;
    var event := EventAt(ready, watched[k]);
    var (d, running) := TurnCore(c, watched[k], event);
    if f in TurnOffers(c, w, watched[k], event)[i] {
      TurnOffersFrom(c, w, watched[k], event, i);
      assert Delivers(ready, watched[k], f);
    } else {
      RoundOffersFrom(d, w, watched, k + 1, ready, i, f);
    }
  }

  /** Over a whole run, a port is only offered frames that arrived on other ports. */
  lemma {:induction false} NothingEchoes(c: Core, w: Wiring, rounds: seq<map<int, Ready>>, n: nat, i: nat, f: Frame)
    requires n <= |rounds| && AllTimed(rounds) && i < PORTS && f in LoopOffers(c, w, rounds, n)[i]
    ensures ArrivedElsewhere(rounds, i - 1, f)
    decreases |rounds| - n
  {
    hide RoundOffers, RoundCore, Watched;
    var watched := Watched(c.peers, w.uplink);
    var (d, running) := RoundCore(c, watched, 0, rounds[n]);
    if f in RoundOffers(c, w, watched, 0, rounds[n])[i] {
      RoundOffersFrom(c, w, watched, 0, rounds[n], i, f);
      var q :| q != i - 1 && Delivers(rounds[n], q, f);
    } else {
      NothingEchoes(d, w, rounds, n + 1, i, f);
    }
  }

  lemma {:induction false} LessonsFrom(port: int, event: Ready, n: nat, ready: map<int, Ready>)
    requires event.Bears() && event.Timed() && n <= |BatchOf(port, event).frames|
    requires port in ready && ready[port] == event
    ensures forall e :: e in Lessons(BatchOf(port, event), n) ==> Reports(ready, e)
  {
    if n > 0 {
      LessonsFrom(port, event, n - 1, ready);
      var b := BatchOf(port, event);
      assert b.frames[n - 1] == event.frames[n - 1] && b.clocks[n - 1] == event.clocks[n - 1];
      forall e | e in Lesson(port, b.frames[n - 1], b.clocks[n - 1])
        ensures Reports(ready, e)
      {
        assert HeardFrom(ready, port, e.mac, e.at);
      }
    }
  }

  /** A turn adds to the log only what its report says. */
  lemma TurnLogFrom(c: Core, port: int, ready: map<int, Ready>)
    requires Timed(ready)
    ensures c.log <= TurnCore(c, port, EventAt(ready, port)).0.log
    ensures forall e :: e in TurnCore(c, port, EventAt(ready, port)).0.log[|c.log|..] ==> Reports(ready, e)
  {
    hide Lessons, TableAfter, Forget, Joined;
    var event := EventAt(ready, port);
    if port != LISTENER && event.Bears() {
      LessonsFrom(port, event, |BatchOf(port, event).frames|, ready);
    }
  }

  lemma {:induction false} RoundLogFrom(c: Core, watched: seq<int>, k: nat, ready: map<int, Ready>)
    requires k <= |watched| && Timed(ready)
    ensures c.log <= RoundCore(c, watched, k, ready).0.log
    ensures forall e :: e in RoundCore(c, watched, k, ready).0.log[|c.log|..] ==> Reports(ready, e)
    decreases |watched| - k
  {
    hide TurnCore, Reports;
    if k < |watched| {
      TurnLogFrom(c, watched[k], ready);
      var (d, running) := TurnCore(c, watched[k], EventAt(ready, watched[k]));
      if running {
        RoundLogFrom(d, watched, k + 1, ready);
        var log := RoundCore(c, watched, k, ready).0.log;
        assert log[|c.log|..] == d.log[|c.log|..] + log[|d.log|..];
      }
    }
  }

  /** Over a whole run, everything in the log happened: a frame that arrived, or a peer that left. */
  lemma {:induction false} LogIsTrue(c: Core, w: Wiring, rounds: seq<map<int, Ready>>, n: nat)
    requires n <= |rounds| && AllTimed(rounds)
    ensures c.log <= LoopCore(c, w, rounds, n).log
    ensures forall e :: e in LoopCore(c, w, rounds, n).log[|c.log|..] ==> Happened(rounds, e)
    decreases |rounds| - n
  {
    hide RoundCore, Reports, Watched;
    if n < |rounds| {
      var watched := Watched(c.peers, w.uplink);
      RoundLogFrom(c, watched, 0, rounds[n]);
      var (d, running) := RoundCore(c, watched, 0, rounds[n]);
      if running {
        LogIsTrue(d, w, rounds, n + 1);
        var log := LoopCore(c, w, rounds, n).log;
        assert log[|c.log|..] == d.log[|c.log|..] + log[|d.log|..];
      }
    }
  }

  const LISTENER := -0x8000_0000

  /** What poll and the read after it report for one descriptor. */
  datatype Ready =
    | Quiet
    | Hup
    | Broken
    | Data(frames: seq<Frame>, clocks: seq<Clock>)
    | Joining(fd: int)
  {
    /** Every frame comes with its clock readings. */
    predicate Timed() {
      Data? ==> |frames| == |clocks|
    }

    predicate Bears() {
      Data? && frames != []
    }

    predicate Gone() {
      Hup? || Broken?
    }
  }

  predicate Timed(ready: map<int, Ready>) {
    forall p :: p in ready ==> ready[p].Timed()
  }

  lemma AllowedIsPorts(allowed: set<int>, t: Table)
    requires PortsIn(t, allowed) && forall p :: p in allowed ==> IsPort(p)
    ensures PortsOk(t)
  {
  }

  lemma MorePorts(t: Table, a: set<int>, b: set<int>)
    requires PortsIn(t, a) && a <= b
    ensures PortsIn(t, b)
  {
  }

  lemma ForgottenPorts(t: Table, port: int, allowed: set<int>)
    requires PortsIn(t, allowed + {port})
    ensures PortsIn(Forget(t, port), allowed)
  {
  }

  lemma GrewWeaken(a: seq<Frame>, b: seq<Frame>, offered: seq<Frame>, strong: bool, lossless: bool)
    requires Grew(a, b, offered, strong) && (lossless ==> strong)
    ensures Grew(a, b, offered, lossless)
  {
  }
}
