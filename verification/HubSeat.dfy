/**
 * The hub seat: any number of instances run the discovery loop of vdeplug-go/main.go over
 * the flock of internal/elect and the socket file of internal/unixseq.  Each system call is
 * one step, any instance may crash between two steps, and the kernel then closes the dead
 * instance's descriptors one at a time in any order.
 */
module HubSeat {
  import opened Bytes

  type Pid = nat
  type Ino = nat

  /** What the switch path names. */
  datatype Path = Absent | Socket(ino: Ino) | Other

  /** A bound socket: who has it open, and whether it listens. */
  datatype Sock = Sock(owner: Pid, listening: bool)

  /** Where an instance stands in fleet.loop, BindOrConnect, runInstance and Listener.Close. */
  datatype Pc =
    | Discover                                    // TryConnect
    | Peer                                        // wired to a hub
    | Contend                                     // TryLock
    | Seat1 | Seat2                               // the two connects under the seat
    | StatPath | Unlink | Bind
    | BindFailed                                  // the connect after a lost bind
    | Listen(ino: Ino)
    | ListenFailed(ino: Ino) | ListenCleanup      // close, then remove
    | Record(ino: Ino)                            // chmod, stat the path for its inode
    | Hub(ino: Ino, file: Option<Ino>)
    | Close(ino: Ino, file: Option<Ino>)          // close the listening descriptor
    | CloseStat(file: Option<Ino>) | CloseRemove  // remove the file only if its inode is known and still there
    | Release                                     // drop the seat, then exit
    | JoinRelease                                 // joined under the seat: drop it, then rediscover
    | Exited
    | Dying                                       // crashed, descriptors not yet closed

  datatype State = State(procs: map<Pid, Pc>, lock: Option<Pid>, path: Path, socks: map<Ino, Sock>)

  /** The outcome of an instance's next step, or something that happens to it. */
  datatype Act =
    | Launch
    | ConnectOk | ConnectFail
    | LockOk | LockFail
    | SawSocket | SawNoSocket
    | Removed | RemoveFailed
    | BindOk(ino: Ino) | BindFail
    | SocketError
    | ListenOk | ListenFail
    | Recorded | StatFailed
    | Lost
    | Shutdown
    | Closed
    | Released
    | Crash
    | KernelDropsLock
    | KernelDropsSock(ino: Ino)

  function Go(s: State, p: Pid, pc: Pc): State {
    s.(procs := s.procs[p := pc])
  }

  /** A connect can only succeed against a socket that listens at the path; it may fail at any time. */
  predicate Answers(s: State) {
    s.path.Socket? && s.path.ino in s.socks && s.socks[s.path.ino].listening
  }

  predicate Live(s: State, p: Pid) {
    p in s.procs && s.procs[p] != Exited && s.procs[p] != Dying
  }

  /** The state after instance p's step with outcome a; None when that cannot happen. */
  function Step(s: State, p: Pid, a: Act): Option<State> {
    if a.Launch? then
      if p in s.procs then None else Some(Go(s, p, Discover))
    else if p !in s.procs then None
    else if a.Crash? then
      if Live(s, p) then Some(Go(s, p, Dying)) else None
    else if a.KernelDropsLock? then
      if s.procs[p] == Dying && s.lock == Some(p) then Some(s.(lock := None)) else None
    else if a.KernelDropsSock? then
      if s.procs[p] == Dying && a.ino in s.socks && s.socks[a.ino].owner == p
      then Some(s.(socks := s.socks - {a.ino})) else None
    else Own(s, p, a)
  }

  /** The steps an instance takes itself. */
  function Own(s: State, p: Pid, a: Act): Option<State>
    requires p in s.procs
  {
    match (s.procs[p], a)
    case (Discover, ConnectOk) => if Answers(s) then Some(Go(s, p, Peer)) else None
    case (Discover, ConnectFail) => Some(Go(s, p, Contend))
    case (Peer, Lost) => Some(Go(s, p, Discover))
    case (Contend, LockOk) => if s.lock == None then Some(Go(s, p, Seat1).(lock := Some(p))) else None
    case (Contend, LockFail) => Some(Go(s, p, Discover))
    case (Seat1, ConnectOk) => if Answers(s) then Some(Go(s, p, JoinRelease)) else None
    case (Seat1, ConnectFail) => Some(Go(s, p, Seat2))
    case (Seat1, SocketError) => Some(Go(s, p, Release))
    case (Seat2, ConnectOk) => if Answers(s) then Some(Go(s, p, JoinRelease)) else None
    case (Seat2, ConnectFail) => Some(Go(s, p, StatPath))
    case (Seat2, SocketError) => Some(Go(s, p, Release))
    case (StatPath, SawSocket) => if s.path.Socket? then Some(Go(s, p, Unlink)) else None
    case (StatPath, SawNoSocket) => Some(Go(s, p, Bind))
    case (Unlink, Removed) => Some(Go(s, p, Bind).(path := Absent))
    case (Unlink, RemoveFailed) => Some(Go(s, p, Bind))
    case (Bind, BindOk(ino)) =>
      if s.path == Absent && ino !in s.socks
      then Some(Go(s, p, Listen(ino)).(path := Socket(ino), socks := s.socks[ino := Sock(p, false)]))
      else None
    case (Bind, BindFail) => Some(Go(s, p, BindFailed))
    case (Bind, SocketError) => Some(Go(s, p, Release))
    case (BindFailed, ConnectOk) => if Answers(s) then Some(Go(s, p, JoinRelease)) else None
    case (BindFailed, ConnectFail) => Some(Go(s, p, Release))
    case (BindFailed, SocketError) => Some(Go(s, p, Release))
    case (Listen(ino), ListenOk) => Some(Go(s, p, Record(ino)).(socks := s.socks[ino := Sock(p, true)]))
    case (Listen(ino), ListenFail) => Some(Go(s, p, ListenFailed(ino)))
    case (ListenFailed(ino), Closed) => Some(Go(s, p, ListenCleanup).(socks := s.socks - {ino}))
    case (ListenCleanup, Removed) => Some(Go(s, p, Release).(path := Absent))
    case (ListenCleanup, RemoveFailed) => Some(Go(s, p, Release))
    case (Record(ino), Recorded) => Some(Go(s, p, Hub(ino, if s.path.Socket? then Some(s.path.ino) else None)))
    case (Record(ino), StatFailed) => Some(Go(s, p, Hub(ino, None)))
    case (Hub(ino, file), Shutdown) => Some(Go(s, p, Close(ino, file)))
    case (Close(ino, file), Closed) => Some(Go(s, p, CloseStat(file)).(socks := s.socks - {ino}))
    case (CloseStat(file), SawSocket) =>
      if s.path.Socket? && file == Some(s.path.ino) then Some(Go(s, p, CloseRemove)) else None
    case (CloseStat(file), SawNoSocket) => Some(Go(s, p, Release))
    case (CloseRemove, Removed) => Some(Go(s, p, Release).(path := Absent))
    case (CloseRemove, RemoveFailed) => Some(Go(s, p, Release))
    case (Release, Released) => Some(Go(s, p, Exited).(lock := None))
    case (JoinRelease, Released) => Some(Go(s, p, Discover).(lock := None))
    case _ => None
  }

  // ------------------------------------------------------------ the invariant

  /** Program points between taking the seat and giving it back. */
  predicate Seated(pc: Pc) {
    match pc
    case Discover => false
    case Peer => false
    case Contend => false
    case Exited => false
    case Dying => false
    case _ => true
  }

  /** The socket an instance has bound at this point. */
  function Bound(pc: Pc): Option<Ino> {
    match pc
    case Listen(ino) => Some(ino)
    case ListenFailed(ino) => Some(ino)
    case Record(ino) => Some(ino)
    case Hub(ino, _) => Some(ino)
    case Close(ino, _) => Some(ino)
    case _ => None
  }

  /** Points at which the socket has been put to listen. */
  predicate Listening(pc: Pc) {
    pc.Record? || pc.Hub? || pc.Close?
  }

  /** A seated instance holds the lock, and the lock's holder is seated or dead. */
  ghost predicate LockInv(s: State) {
    && (forall p :: p in s.procs && Seated(s.procs[p]) ==> s.lock == Some(p))
    && (s.lock.Some? ==> s.lock.value in s.procs && (Seated(s.procs[s.lock.value]) || s.procs[s.lock.value] == Dying))
  }

  /** Bound sockets belong to the instance that is at the matching point, or to a dead one. */
  ghost predicate SocksOwned(s: State) {
    forall i :: i in s.socks ==>
      var sk := s.socks[i];
      sk.owner in s.procs
      && (s.procs[sk.owner] == Dying
          || (Bound(s.procs[sk.owner]) == Some(i) && sk.listening == Listening(s.procs[sk.owner])))
  }

  /** An instance that has bound a socket still has it, and the path still names it. */
  ghost predicate BoundHere(s: State) {
    forall p :: p in s.procs && Bound(s.procs[p]).Some? ==>
      var i := Bound(s.procs[p]).value;
      s.path == Socket(i) && i in s.socks && s.socks[i] == Sock(p, Listening(s.procs[p]))
  }

  /** What an instance at this point knows about the path. */
  predicate Knows(pc: Pc, path: Path) {
    match pc
    case Unlink => path.Socket?
    case ListenCleanup => path.Socket?
    case CloseRemove => path.Socket?
    case Hub(ino, file) => file.None? || file == Some(ino)
    case Close(ino, file) => file.None? || file == Some(ino)
    case CloseStat(file) => file.None? || path == Socket(file.value)
    case _ => true
  }

  ghost predicate PathInv(s: State) {
    forall p :: p in s.procs ==> Knows(s.procs[p], s.path)
  }

  ghost predicate Inv(s: State) {
    LockInv(s) && SocksOwned(s) && BoundHere(s) && PathInv(s)
  }

  /** A cold start: nobody runs, nothing is bound; the path may name anything, a stale socket included. */
  ghost predicate Initial(s: State) {
    s.procs == map[] && s.lock == None && s.socks == map[]
  }

  lemma InitialInv(s: State)
    requires Initial(s)
    ensures Inv(s)
  {
  }

  /** Only one instance is seated. */
  lemma OneSeat(s: State, p: Pid, q: Pid)
    requires LockInv(s) && p in s.procs && q in s.procs && Seated(s.procs[p]) && Seated(s.procs[q])
    ensures p == q
  {
  }

  /** The steps that open, put to listen, or close a socket. */
  predicate TouchesSocks(a: Act) {
    a.BindOk? || a.ListenOk? || a.Closed? || a.KernelDropsSock?
  }

  /** The steps that may change what the path names. */
  predicate TouchesPath(a: Act) {
    a.BindOk? || a.Removed?
  }

  /** The steps that take or drop the seat. */
  predicate TouchesLock(a: Act) {
    a.LockOk? || a.Released? || a.KernelDropsLock?
  }

  /** What a step leaves alone. */
  lemma StepFrame(s: State, p: Pid, a: Act)
    requires Step(s, p, a).Some?
    ensures var t := Step(s, p, a).value;
            && p in t.procs && t.procs == s.procs[p := t.procs[p]]
            && (!TouchesSocks(a) ==> t.socks == s.socks)
            && (!TouchesPath(a) ==> t.path == s.path)
            && (!TouchesLock(a) ==> t.lock == s.lock)
  {
    hide Step, TouchesSocks, TouchesPath, TouchesLock;
    FrameProcs(s, p, a);
    FrameKernel(s, p, a);
  }

  lemma FrameProcs(s: State, p: Pid, a: Act)
    requires Step(s, p, a).Some?
    ensures p in Step(s, p, a).value.procs
    ensures Step(s, p, a).value.procs == s.procs[p := Step(s, p, a).value.procs[p]]
  {
    if !a.Launch? {
      assert s.procs[p := s.procs[p]] == s.procs;
    }
  }

  lemma FrameKernel(s: State, p: Pid, a: Act)
    requires Step(s, p, a).Some?
    ensures !TouchesSocks(a) ==> Step(s, p, a).value.socks == s.socks
    ensures !TouchesPath(a) ==> Step(s, p, a).value.path == s.path
    ensures !TouchesLock(a) ==> Step(s, p, a).value.lock == s.lock
  {
  }

  /** A step that leaves the sockets alone does not change what the instance has bound. */
  lemma StepKeepsPoint(s: State, p: Pid, a: Act)
    requires Step(s, p, a).Some? && !TouchesSocks(a)
    ensures var pc := Step(s, p, a).value.procs[p];
            if p !in s.procs then pc == Discover
            else pc == Dying
                 || (Bound(pc) == Bound(s.procs[p]) && (Bound(pc).Some? ==> Listening(pc) == Listening(s.procs[p])))
  {
  }

  /** A step that leaves the lock alone does not seat or unseat a live instance. */
  lemma StepKeepsSeat(s: State, p: Pid, a: Act)
    requires Step(s, p, a).Some? && !TouchesLock(a)
    ensures var pc := Step(s, p, a).value.procs[p];
            if p !in s.procs then pc == Discover
            else pc == Dying || (s.procs[p] != Dying && Seated(pc) == Seated(s.procs[p]))
  {
    hide Own, Seated;
    if p in s.procs && Own(s, p, a).Some? {
      OwnKeepsSeat(s, p, a);
    }
  }

  lemma OwnKeepsSeat(s: State, p: Pid, a: Act)
    requires p in s.procs && Own(s, p, a).Some? && !TouchesLock(a)
    ensures p in Own(s, p, a).value.procs && s.procs[p] != Dying
    ensures Seated(Own(s, p, a).value.procs[p]) == Seated(s.procs[p])
  {
  }

  lemma StepKeepsLock(s: State, p: Pid, a: Act)
    requires LockInv(s) && Step(s, p, a).Some?
    ensures LockInv(Step(s, p, a).value)
  {
    if TouchesLock(a) {
      LockStep(s, p, a);
    } else {
      hide Step, Seated, TouchesLock;
      StepFrame(s, p, a);
      StepKeepsSeat(s, p, a);
      SeatStays(s, p, Step(s, p, a).value);
    }
  }

  /** A live instance that stays seated or unseated, and one that starts or dies, keep the invariant. */
  lemma SeatStays(s: State, p: Pid, t: State)
    requires LockInv(s) && p in t.procs && t.procs == s.procs[p := t.procs[p]] && t.lock == s.lock
    requires if p !in s.procs then t.procs[p] == Discover
             else t.procs[p] == Dying || (s.procs[p] != Dying && Seated(t.procs[p]) == Seated(s.procs[p]))
    ensures LockInv(t)
  {
    hide Seated;
    assert !Seated(Discover) && !Seated(Dying) by { NotSeated(); }
  }

  lemma NotSeated()
    ensures !Seated(Discover) && !Seated(Dying)
  {
  }

  lemma LockStep(s: State, p: Pid, a: Act)
    requires LockInv(s) && Step(s, p, a).Some? && TouchesLock(a)
    ensures LockInv(Step(s, p, a).value)
  {
  }

  lemma StepKeepsSocks(s: State, p: Pid, a: Act)
    requires SocksOwned(s) && BoundHere(s) && Step(s, p, a).Some?
    ensures SocksOwned(Step(s, p, a).value)
  {
    if TouchesSocks(a) {
      SockStep(s, p, a);
    } else {
      hide Step;
      StepFrame(s, p, a);
      StepKeepsPoint(s, p, a);
    }
  }

  lemma SockStep(s: State, p: Pid, a: Act)
    requires SocksOwned(s) && BoundHere(s) && Step(s, p, a).Some? && TouchesSocks(a)
    ensures SocksOwned(Step(s, p, a).value)
  {
    if a.BindOk? || a.ListenOk? {
      SockOpened(s, p, a);
    } else {
      SockClosed(s, p, a);
    }
  }

  lemma SockOpened(s: State, p: Pid, a: Act)
    requires SocksOwned(s) && BoundHere(s) && Step(s, p, a).Some? && (a.BindOk? || a.ListenOk?)
    ensures SocksOwned(Step(s, p, a).value)
  {
  }

  lemma SockClosed(s: State, p: Pid, a: Act)
    requires SocksOwned(s) && BoundHere(s) && Step(s, p, a).Some? && (a.Closed? || a.KernelDropsSock?)
    ensures SocksOwned(Step(s, p, a).value)
  {
  }

  lemma StepKeepsBound(s: State, p: Pid, a: Act)
    requires LockInv(s) && BoundHere(s) && Step(s, p, a).Some?
    ensures BoundHere(Step(s, p, a).value)
  {
    if TouchesSocks(a) || TouchesPath(a) {
      BoundStep(s, p, a);
    } else {
      hide Step;
      StepFrame(s, p, a);
      StepKeepsPoint(s, p, a);
    }
  }

  lemma BoundStep(s: State, p: Pid, a: Act)
    requires LockInv(s) && BoundHere(s) && Step(s, p, a).Some? && (TouchesSocks(a) || TouchesPath(a))
    ensures BoundHere(Step(s, p, a).value)
  {
    hide Step;
    if a.BindOk? || a.ListenOk? {
      BoundOpened(s, p, a);
    } else if a.Removed? {
      BoundRemoved(s, p, a);
    } else {
      BoundClosed(s, p, a);
    }
  }

  lemma BoundOpened(s: State, p: Pid, a: Act)
    requires LockInv(s) && BoundHere(s) && Step(s, p, a).Some? && (a.BindOk? || a.ListenOk?)
    ensures BoundHere(Step(s, p, a).value)
  {
  }

  lemma BoundRemoved(s: State, p: Pid, a: Act)
    requires LockInv(s) && BoundHere(s) && Step(s, p, a).Some? && a.Removed?
    ensures BoundHere(Step(s, p, a).value)
  {
  }

  lemma BoundClosed(s: State, p: Pid, a: Act)
    requires LockInv(s) && BoundHere(s) && Step(s, p, a).Some? && (a.Closed? || a.KernelDropsSock?)
    ensures BoundHere(Step(s, p, a).value)
  {
  }

  lemma StepKeepsPath(s: State, p: Pid, a: Act)
    requires Inv(s) && Step(s, p, a).Some?
    ensures PathInv(Step(s, p, a).value)
  {
    var t := Step(s, p, a).value;
    StepKnows(s, p, a);
    hide Step;
    StepFrame(s, p, a);
    forall q | q in t.procs && q != p
      ensures Knows(t.procs[q], t.path)
    {
      if TouchesPath(a) {
        PathChangerIsSeated(s, p, a);
        if Seated(s.procs[q]) {
          OneSeat(s, p, q);
        }
      }
    }
  }

  lemma StepKnows(s: State, p: Pid, a: Act)
    requires BoundHere(s) && PathInv(s) && Step(s, p, a).Some?
    ensures Knows(Step(s, p, a).value.procs[p], Step(s, p, a).value.path)
  {
    hide Step;
    if TouchesSocks(a) || TouchesPath(a) {
      ChangeKnows(s, p, a);
    } else {
      LookKnows(s, p, a);
    }
  }

  lemma ChangeKnows(s: State, p: Pid, a: Act)
    requires BoundHere(s) && PathInv(s) && Step(s, p, a).Some? && (TouchesSocks(a) || TouchesPath(a))
    ensures Knows(Step(s, p, a).value.procs[p], Step(s, p, a).value.path)
  {
  }

  lemma LookKnows(s: State, p: Pid, a: Act)
    requires BoundHere(s) && PathInv(s) && Step(s, p, a).Some? && !TouchesSocks(a) && !TouchesPath(a)
    ensures Knows(Step(s, p, a).value.procs[p], Step(s, p, a).value.path)
  {
  }

  lemma PathChangerIsSeated(s: State, p: Pid, a: Act)
    requires Step(s, p, a).Some? && TouchesPath(a)
    ensures p in s.procs && Seated(s.procs[p])
  {
  }

  lemma StepKeepsInv(s: State, p: Pid, a: Act)
    requires Inv(s) && Step(s, p, a).Some?
    ensures Inv(Step(s, p, a).value)
  {
    hide *;
    StepKeepsLock(s, p, a) by { InvParts(s); }
    StepKeepsSocks(s, p, a) by { InvParts(s); }
    StepKeepsBound(s, p, a) by { InvParts(s); }
    StepKeepsPath(s, p, a);
    InvWhole(Step(s, p, a).value);
  }

  lemma InvParts(s: State)
    requires Inv(s)
    ensures LockInv(s) && SocksOwned(s) && BoundHere(s) && PathInv(s)
  {
  }

  lemma InvWhole(s: State)
    requires LockInv(s) && SocksOwned(s) && BoundHere(s) && PathInv(s)
    ensures Inv(s)
  {
  }

  // ------------------------------------------------------------ every interleaving

  /** The state after an interleaving, if all of it can happen. */
  function After(s: State, trace: seq<(Pid, Act)>): Option<State>
    decreases |trace|
  {
    if trace == [] then Some(s)
    else match Step(s, trace[0].0, trace[0].1)
      case None => None
      case Some(t) => After(t, trace[1..])
  }

  ghost predicate Reachable(s: State) {
    exists start, trace :: Initial(start) && After(start, trace) == Some(s)
  }

  lemma {:induction false} TraceInv(s: State, trace: seq<(Pid, Act)>)
    requires Inv(s) && After(s, trace).Some?
    ensures Inv(After(s, trace).value)
    decreases |trace|
  {
    hide Inv, Step;
    if trace != [] {
      StepKeepsInv(s, trace[0].0, trace[0].1);
      TraceInv(Step(s, trace[0].0, trace[0].1).value, trace[1..]);
    }
  }

  lemma ReachableInv(s: State)
    requires Reachable(s)
    ensures Inv(s)
  {
    hide Inv, Step, After;
    var start, trace :| Initial(start) && After(start, trace) == Some(s);
    InitialInv(start);
    TraceInv(start, trace);
  }

  /** An instance that owns a bound listener holds the seat, and at most one does. */
  lemma SingleHub(s: State, p: Pid, q: Pid)
    requires Reachable(s)
    requires p in s.procs && Bound(s.procs[p]).Some?
    ensures s.lock == Some(p)
    ensures q in s.procs && Bound(s.procs[q]).Some? ==> q == p
  {
    hide Reachable;
    ReachableInv(s);
  }

  /** Whoever joins while a hub is up joins that hub: the path names its socket and no other. */
  lemma JoinersReachTheHub(s: State, hub: Pid)
    requires Reachable(s) && hub in s.procs && s.procs[hub].Hub?
    ensures Answers(s) && s.path == Socket(s.procs[hub].ino) && s.socks[s.path.ino].owner == hub
  {
    hide Reachable;
    ReachableInv(s);
    assert Bound(s.procs[hub]).Some?;
  }

  /** Socket i is still open only because the kernel has not closed a dead instance's descriptors yet. */
  predicate Lingers(s: State, i: Ino) {
    i in s.socks && s.socks[i].owner in s.procs && s.procs[s.socks[i].owner] == Dying
  }

  /** A Remove never deletes the file of a live instance's socket. */
  lemma RemoveSparesLiveListeners(s: State, p: Pid)
    requires Reachable(s) && Step(s, p, Removed).Some?
    ensures s.path.Socket?
    ensures s.path.ino in s.socks ==> Lingers(s, s.path.ino)
  {
    hide Reachable;
    ReachableInv(s);
    PathChangerIsSeated(s, p, Removed);
    if s.path.ino in s.socks {
      var owner := s.socks[s.path.ino].owner;
      if s.procs[owner] != Dying {
        OneSeat(s, p, owner);
      }
    }
  }

  /** A file at the path that is not a socket is never removed or replaced. */
  lemma RegularFileSurvives(s: State, p: Pid, a: Act)
    requires Reachable(s) && Step(s, p, a).Some? && s.path == Other
    ensures Step(s, p, a).value.path == Other
  {
    hide Reachable;
    if a == Removed {
      RemoveSparesLiveListeners(s, p);
    }
  }

  /** Joining a hub while holding the seat can only happen against a dead instance's lingering socket. */
  lemma JoinUnderSeatMeetsTheDead(s: State, p: Pid)
    requires Reachable(s) && p in s.procs && Seated(s.procs[p]) && Step(s, p, ConnectOk).Some?
    ensures s.path.Socket? && Lingers(s, s.path.ino)
  {
    hide Reachable;
    ReachableInv(s);
    var owner := s.socks[s.path.ino].owner;
    if s.procs[owner] != Dying {
      OneSeat(s, p, owner);
    }
  }

  /** Under the seat, a join is possible exactly when the path names a dead instance's socket that still listens. */
  lemma JoinUnderSeatIff(s: State, p: Pid)
    requires Reachable(s) && p in s.procs
    requires s.procs[p].Seat1? || s.procs[p].Seat2? || s.procs[p].BindFailed?
    ensures Step(s, p, ConnectOk).Some? <==>
              s.path.Socket? && Lingers(s, s.path.ino) && s.socks[s.path.ino].listening
  {
    hide Reachable;
    if Step(s, p, ConnectOk).Some? {
      JoinUnderSeatMeetsTheDead(s, p);
    }
  }

  /** No dead instance still has a socket: crashes that close everything at once. */
  ghost predicate CleanCrashes(s: State) {
    forall i :: i in s.socks ==> !Lingers(s, i)
  }

  /** With crashes that close everything at once, the join branch under the seat is dead code. */
  lemma JoinUnderSeatUnreachable(s: State, p: Pid)
    requires Reachable(s) && CleanCrashes(s) && p in s.procs && Seated(s.procs[p])
    ensures Step(s, p, ConnectOk) == None
  {
    hide Reachable, Step;
    if Step(s, p, ConnectOk).Some? {
      ReachableInv(s);
      JoinUnderSeatMeetsTheDead(s, p);
    }
  }

  lemma {:induction false} AfterSnoc(s: State, trace: seq<(Pid, Act)>, p: Pid, a: Act)
    requires After(s, trace).Some?
    ensures After(s, trace + [(p, a)]) == Step(After(s, trace).value, p, a)
    decreases |trace|
  {
    hide Step;
    if trace == [] {
      assert trace + [(p, a)] == [(p, a)] && [(p, a)][1..] == [];
    } else {
      assert (trace + [(p, a)])[0] == trace[0] && (trace + [(p, a)])[1..] == trace[1..] + [(p, a)];
      AfterSnoc(Step(s, trace[0].0, trace[0].1).value, trace[1..], p, a);
    }
  }

  lemma ReachStep(s: State, p: Pid, a: Act) returns (t: State)
    requires Reachable(s) && Step(s, p, a).Some?
    ensures t == Step(s, p, a).value && Reachable(t)
  {
    hide Step;
    var start, trace :| Initial(start) && After(start, trace) == Some(s);
    AfterSnoc(start, trace, p, a);
    t := Step(s, p, a).value;
  }

  /** Two instances have found nobody; one of them took the seat and is about to bind. */
  lemma BinderAndContender() returns (s: State)
    ensures Reachable(s) && s == State(map[0 := Bind, 1 := Contend], Some(0), Absent, map[])
  {
    hide Reachable, Step;
    s := BothLooking();
    s := MoveOn(s, LockOk, Seat1);
    s := MoveOn(s, ConnectFail, Seat2);
    s := MoveOn(s, ConnectFail, StatPath);
    s := MoveOn(s, SawNoSocket, Bind);
  }

  /** One step of instance 0 towards its bind, with nothing at the path and instance 1 waiting. */
  lemma MoveOn(s: State, a: Act, pc: Pc) returns (t: State)
    requires Reachable(s) && 0 in s.procs && s.path == Absent && s.socks == map[]
    requires s.procs == map[0 := s.procs[0], 1 := Contend] && s.lock == (if a.LockOk? then None else Some(0))
    requires match s.procs[0]
             case Contend => a.LockOk? && pc == Seat1
             case Seat1 => a.ConnectFail? && pc == Seat2
             case Seat2 => a.ConnectFail? && pc == StatPath
             case StatPath => a.SawNoSocket? && pc == Bind
             case _ => false
    ensures Reachable(t) && t == State(map[0 := pc, 1 := Contend], Some(0), Absent, map[])
  {
    hide Reachable;
    t := ReachStep(s, 0, a);
  }

  lemma BothLooking() returns (s: State)
    ensures Reachable(s) && s == State(map[0 := Contend, 1 := Contend], None, Absent, map[])
  {
    hide Reachable;
    s := State(map[], None, Absent, map[]);
    AtStart(s);
    s := ReachStep(s, 0, Launch);
    s := ReachStep(s, 1, Launch);
    assert s.procs == map[0 := Discover, 1 := Discover];
    s := ReachStep(s, 1, ConnectFail);
    s := ReachStep(s, 0, ConnectFail);
    assert s.procs == map[0 := Contend, 1 := Contend];
  }

  lemma AtStart(s: State)
    requires Initial(s)
    ensures Reachable(s)
  {
    assert After(s, []) == Some(s);
  }

  /** ... but a kernel that drops a crashed hub's lock before its socket makes it reachable. */
  lemma LingeringSocketIsJoined() returns (s: State)
    ensures Reachable(s) && 1 in s.procs && Seated(s.procs[1]) && Step(s, 1, ConnectOk).Some?
  {
    hide Reachable;
    s := BinderAndContender();
    s := ReachStep(s, 0, BindOk(7));
    s := ReachStep(s, 0, ListenOk);
    s := ReachStep(s, 0, Crash);
    s := ReachStep(s, 0, KernelDropsLock);
    s := ReachStep(s, 1, LockOk);
  }

  // ------------------------------------------------------------ promotion is never blocked

  /**
   * What an instance does next when it runs alone and every system call goes as the state
   * allows; ino is the inode the file system picks for a new socket file.
   */
  function Solo(s: State, p: Pid, ino: Ino): Act
    requires p in s.procs
  {
    match s.procs[p]
    case Peer => Lost
    case Discover => if Answers(s) then ConnectOk else ConnectFail
    case Contend => if s.lock == None then LockOk else LockFail
    case Seat1 => if Answers(s) then ConnectOk else ConnectFail
    case Seat2 => if Answers(s) then ConnectOk else ConnectFail
    case StatPath => if s.path.Socket? then SawSocket else SawNoSocket
    case Unlink => Removed
    case Bind => if s.path == Absent then BindOk(ino) else BindFail
    case BindFailed => if Answers(s) then ConnectOk else ConnectFail
    case Listen(_) => ListenOk
    case Record(_) => Recorded
    case Release => Released
    case _ => Shutdown
  }

  /** p running alone for n steps. */
  function SoloRun(s: State, p: Pid, ino: Ino, n: nat): Option<State>
    decreases n
  {
    if n == 0 then Some(s)
    else if p !in s.procs then None
    else match Step(s, p, Solo(s, p, ino))
      case None => None
      case Some(t) => SoloRun(t, p, ino, n - 1)
  }

  /** The seat is free and nobody answers at the path: it is absent, stale, or not a socket. */
  predicate Leaderless(s: State) {
    s.lock == None && !Answers(s)
  }

  /** Steps left for a solo instance until its fate is sealed. */
  function Rank(pc: Pc): nat {
    match pc
    case Peer => 10
    case Discover => 9
    case Contend => 8
    case Seat1 => 7
    case Seat2 => 6
    case StatPath => 5
    case Unlink => 4
    case Bind => 3
    case Listen(_) => 2
    case BindFailed => 2
    case Record(_) => 1
    case Release => 1
    case _ => 0
  }

  /** On its way from a leaderless state to the hub; `file` says whether a non-socket blocks the path. */
  predicate OnTheWay(s: State, p: Pid, ino: Ino, file: bool) {
    p in s.procs &&
    match s.procs[p]
    case Peer => Leaderless(s) && ino !in s.socks && (file <==> s.path.Other?)
    case Discover => Leaderless(s) && ino !in s.socks && (file <==> s.path.Other?)
    case Contend => Leaderless(s) && ino !in s.socks && (file <==> s.path.Other?)
    case Seat1 => !Answers(s) && ino !in s.socks && (file <==> s.path.Other?)
    case Seat2 => !Answers(s) && ino !in s.socks && (file <==> s.path.Other?)
    case StatPath => !Answers(s) && ino !in s.socks && (file <==> s.path.Other?)
    case Unlink => !file && !Answers(s) && ino !in s.socks && s.path.Socket?
    case Bind => ino !in s.socks && (if file then s.path.Other? else s.path.Absent?)
    case BindFailed => file && s.path.Other?
    case Listen(i) => !file && s.path == Socket(i)
    case Record(i) => !file && s.path == Socket(i)
    case Release => file && s.path.Other?
    case Hub(i, _) => !file && s.path == Socket(i)
    case Exited => file && s.path.Other?
    case _ => false
  }

  lemma SoloAdvances(s: State, p: Pid, ino: Ino, file: bool)
    requires OnTheWay(s, p, ino, file) && Rank(s.procs[p]) > 0
    ensures Step(s, p, Solo(s, p, ino)).Some?
    ensures var t := Step(s, p, Solo(s, p, ino)).value;
            OnTheWay(t, p, ino, file) && Rank(t.procs[p]) < Rank(s.procs[p])
  {
  }

  lemma {:induction false} SoloArrives(s: State, p: Pid, ino: Ino, file: bool) returns (n: nat)
    requires OnTheWay(s, p, ino, file)
    ensures n <= Rank(s.procs[p]) && SoloRun(s, p, ino, n).Some?
    ensures OnTheWay(SoloRun(s, p, ino, n).value, p, ino, file) && Rank(SoloRun(s, p, ino, n).value.procs[p]) == 0
    decreases Rank(s.procs[p])
  {
    hide Step, Solo, OnTheWay;
    n := 0;
    OnTheWayRuns(s, p, ino, file);
    if Rank(s.procs[p]) > 0 {
      SoloAdvances(s, p, ino, file);
      var t := Step(s, p, Solo(s, p, ino)).value;
      OnTheWayRuns(t, p, ino, file);
      var k := SoloArrives(t, p, ino, file);
      n := k + 1;
    }
  }

  lemma OnTheWayRuns(s: State, p: Pid, ino: Ino, file: bool)
    requires OnTheWay(s, p, ino, file)
    ensures p in s.procs
  {
  }

  /**
   * From every reachable leaderless state, any live instance running alone is done within ten
   * steps: it is the hub, with its own socket at the path, if and only if the path did not
   * name something that is not a socket; in that one case it has exited and left the file alone.
   */
  lemma PromotionIsNeverBlocked(s: State, p: Pid, ino: Ino) returns (n: nat)
    requires Reachable(s) && Live(s, p) && Leaderless(s) && ino !in s.socks
    ensures n <= 10 && SoloRun(s, p, ino, n).Some?
    ensures var t := SoloRun(s, p, ino, n).value;
            && p in t.procs
            && (s.path != Other <==> t.procs[p].Hub? && t.path == Socket(t.procs[p].ino))
            && (s.path == Other <==> t.procs[p] == Exited && t.path == Other)
  {
    hide Reachable, Step, Solo;
    ReachableInv(s);
    assert !Seated(s.procs[p]);
    n := SoloArrives(s, p, ino, s.path.Other?);
  }

  // ------------------------------------------------------------ joining, failing, leaving

  /**
   * While a hub is up, every other live instance, running alone, is wired to it as a peer within
   * two steps, and nobody else notices.
   */
  lemma EveryoneElseJoins(s: State, hub: Pid, p: Pid, ino: Ino) returns (n: nat)
    requires Reachable(s) && hub in s.procs && s.procs[hub].Hub? && p != hub && Live(s, p)
    ensures n <= 2 && SoloRun(s, p, ino, n) == Some(Go(s, p, Peer))
    ensures s.path == Socket(s.procs[hub].ino) && s.path.ino in s.socks && s.socks[s.path.ino].owner == hub
  {
    hide Reachable;
    ReachableInv(s);
    JoinersReachTheHub(s, hub);
    if Seated(s.procs[p]) {
      OneSeat(s, p, hub);
    }
    var looking := Go(s, p, Discover);
    assert Go(looking, p, Peer) == Go(s, p, Peer);
    assert SoloRun(looking, p, ino, 1) == SoloRun(Go(s, p, Peer), p, ino, 0);
    match s.procs[p]
    case Contend => n := 2;
    case Discover => assert looking == s; n := 1;
    case Peer => assert Go(s, p, Peer) == s; n := 0;
    case _ =>
  }

  /** Under the seat, finding somebody listening gives the seat back and makes the instance a peer. */
  lemma LateJoinersBecomePeers(s: State, p: Pid)
    requires p in s.procs && Answers(s) && s.lock == Some(p)
    requires s.procs[p].Seat1? || s.procs[p].Seat2? || s.procs[p].BindFailed?
    ensures After(s, [(p, ConnectOk), (p, Released), (p, ConnectOk)]) == Some(Go(s, p, Peer).(lock := None))
  {
    hide After, Step;
    var t1 := Go(s, p, JoinRelease);
    LateJoinerSteps(s, p);
    AfterThree(s, t1, Go(s, p, Discover).(lock := None), p, ConnectOk, Released, ConnectOk);
  }

  lemma LateJoinerSteps(s: State, p: Pid)
    requires p in s.procs && Answers(s) && s.lock == Some(p)
    requires s.procs[p].Seat1? || s.procs[p].Seat2? || s.procs[p].BindFailed?
    ensures var t2 := Go(s, p, Discover).(lock := None);
            && Step(s, p, ConnectOk) == Some(Go(s, p, JoinRelease))
            && Step(Go(s, p, JoinRelease), p, Released) == Some(t2)
            && Step(t2, p, ConnectOk) == Some(Go(s, p, Peer).(lock := None))
  {
    var t2 := Go(s, p, Discover).(lock := None);
    assert Go(Go(s, p, JoinRelease), p, Discover) == Go(s, p, Discover);
    assert Go(t2, p, Peer) == Go(s, p, Peer).(lock := None);
  }

  lemma AfterThree(s: State, t1: State, t2: State, p: Pid, a: Act, b: Act, c: Act)
    requires Step(s, p, a) == Some(t1) && Step(t1, p, b) == Some(t2)
    ensures After(s, [(p, a), (p, b), (p, c)]) == Step(t2, p, c)
  {
    hide Step;
    assert [(p, a), (p, b), (p, c)][1..] == [(p, b), (p, c)] && [(p, b), (p, c)][1..] == [(p, c)];
    assert [(p, c)][1..] == [];
    assert forall t3 :: After(t3, []) == Some(t3);
    assert After(t2, [(p, c)]) == Step(t2, p, c);
    assert After(t1, [(p, b), (p, c)]) == After(t2, [(p, c)]);
  }

  /** A socket error under the seat gives the seat back and ends the instance; nothing else changes. */
  lemma ErrorsGiveTheSeatBack(s: State, p: Pid)
    requires p in s.procs && s.lock == Some(p)
    requires s.procs[p].Seat1? || s.procs[p].Seat2? || s.procs[p].Bind? || s.procs[p].BindFailed?
    ensures Step(s, p, SocketError).Some?
    ensures Step(Step(s, p, SocketError).value, p, Released) == Some(Go(s, p, Exited).(lock := None))
  {
    var t := Step(s, p, SocketError).value;
    assert Go(t, p, Exited).(lock := None) == Go(s, p, Exited).(lock := None);
  }

  /** A failed listen closes the socket, clears the path and ends the instance without the seat. */
  lemma FailedListenCleansUp(s: State, p: Pid)
    requires p in s.procs && s.procs[p].Listen?
    ensures var ino := s.procs[p].ino;
            After(s, [(p, ListenFail), (p, Closed), (p, Removed), (p, Released)])
            == Some(State(s.procs[p := Exited], None, Absent, s.socks - {ino}))
  {
    hide After, Step;
    var ino := s.procs[p].ino;
    var t2 := Go(s, p, ListenCleanup).(socks := s.socks - {ino});
    ListenCloses(s, p);
    CleanupRemoves(t2, p);
    AfterFirst(s, Go(s, p, ListenFailed(ino)), p, ListenFail, [(p, Closed), (p, Removed), (p, Released)]);
    assert [(p, ListenFail)] + [(p, Closed), (p, Removed), (p, Released)]
        == [(p, ListenFail), (p, Closed), (p, Removed), (p, Released)];
    AfterThree(Go(s, p, ListenFailed(ino)), t2, Go(t2, p, Release).(path := Absent), p, Closed, Removed, Released);
    assert t2.procs[p := Exited] == s.procs[p := Exited];
  }

  lemma ListenCloses(s: State, p: Pid)
    requires p in s.procs && s.procs[p].Listen?
    ensures var ino := s.procs[p].ino;
            && Step(s, p, ListenFail) == Some(Go(s, p, ListenFailed(ino)))
            && Step(Go(s, p, ListenFailed(ino)), p, Closed)
               == Some(Go(s, p, ListenCleanup).(socks := s.socks - {ino}))
  {
    var ino := s.procs[p].ino;
    assert Go(Go(s, p, ListenFailed(ino)), p, ListenCleanup) == Go(s, p, ListenCleanup);
  }

  /** Removing the file, then giving the seat back. */
  lemma CleanupRemoves(s: State, p: Pid)
    requires p in s.procs && (s.procs[p].ListenCleanup? || s.procs[p].CloseRemove?)
    ensures var t := Go(s, p, Release).(path := Absent);
            && Step(s, p, Removed) == Some(t)
            && Step(t, p, Released) == Some(State(s.procs[p := Exited], None, Absent, s.socks))
  {
    var t := Go(s, p, Release).(path := Absent);
    assert t.procs[p := Exited] == s.procs[p := Exited];
  }

  /**
   * A stale file that cannot be removed blocks the bind: the instance tries it, and one more
   * connect, then exits without the seat and leaves the path as it was.
   */
  lemma StuckFileEndsTheAttempt(s: State, p: Pid)
    requires p in s.procs && s.procs[p].Unlink?
    ensures After(s, [(p, RemoveFailed), (p, BindFail), (p, ConnectFail), (p, Released)])
            == Some(State(s.procs[p := Exited], None, s.path, s.socks))
  {
    hide After, Step;
    BindIsLost(s, p);
    AfterFirst(s, Go(s, p, Bind), p, RemoveFailed, [(p, BindFail), (p, ConnectFail), (p, Released)]);
    assert [(p, RemoveFailed)] + [(p, BindFail), (p, ConnectFail), (p, Released)]
        == [(p, RemoveFailed), (p, BindFail), (p, ConnectFail), (p, Released)];
    AfterThree(Go(s, p, Bind), Go(s, p, BindFailed), Go(s, p, Release), p, BindFail, ConnectFail, Released);
    GivesTheSeatBack(s, p);
  }

  lemma BindIsLost(s: State, p: Pid)
    requires p in s.procs && s.procs[p].Unlink?
    ensures Step(s, p, RemoveFailed) == Some(Go(s, p, Bind))
    ensures Step(Go(s, p, Bind), p, BindFail) == Some(Go(s, p, BindFailed))
    ensures Step(Go(s, p, BindFailed), p, ConnectFail) == Some(Go(s, p, Release))
  {
    assert Go(Go(s, p, Bind), p, BindFailed) == Go(s, p, BindFailed);
    assert Go(Go(s, p, BindFailed), p, Release) == Go(s, p, Release);
  }

  lemma GivesTheSeatBack(s: State, p: Pid)
    ensures Step(Go(s, p, Release), p, Released) == Some(State(s.procs[p := Exited], None, s.path, s.socks))
  {
    assert Go(s, p, Release).procs[p := Exited] == s.procs[p := Exited];
  }

  /** A file that cannot be removed on the way out stays, and the seat is given back all the same. */
  lemma StuckFileIsLeft(s: State, p: Pid)
    requires p in s.procs && (s.procs[p].ListenCleanup? || s.procs[p].CloseRemove?)
    ensures Step(s, p, RemoveFailed).Some?
    ensures Step(Step(s, p, RemoveFailed).value, p, Released)
            == Some(State(s.procs[p := Exited], None, s.path, s.socks))
  {
    GivesTheSeatBack(s, p);
    assert Step(s, p, RemoveFailed) == Some(Go(s, p, Release));
  }

  /** A new hub that can stat its path remembers the very file it bound. */
  lemma HubRemembersItsFile(s: State, p: Pid)
    requires Reachable(s) && p in s.procs && s.procs[p].Record?
    ensures var ino := s.procs[p].ino; Step(s, p, Recorded) == Some(Go(s, p, Hub(ino, Some(ino))))
  {
    hide Reachable;
    ReachableInv(s);
    assert Bound(s.procs[p]).Some?;
  }

  lemma AfterFirst(s: State, t: State, p: Pid, a: Act, rest: seq<(Pid, Act)>)
    requires Step(s, p, a) == Some(t)
    ensures After(s, [(p, a)] + rest) == After(t, rest)
  {
    hide Step;
    assert ([(p, a)] + rest)[1..] == rest;
  }

  lemma HubKnowsItsFile(s: State, p: Pid)
    requires Reachable(s) && p in s.procs && s.procs[p].Hub?
    ensures var Hub(ino, file) := s.procs[p]; s.path == Socket(ino) && (file.None? || file == Some(ino))
  {
    hide Reachable;
    ReachableInv(s);
    assert Bound(s.procs[p]).Some?;
  }

  /**
   * An orderly shutdown closes the hub's socket, removes its file if it knows it to be its own,
   * gives the seat back and ends the instance.
   */
  lemma ShutdownCleansUp(s: State, p: Pid) returns (trace: seq<(Pid, Act)>)
    requires Reachable(s) && p in s.procs && s.procs[p].Hub?
    ensures forall i :: 0 <= i < |trace| ==> trace[i].0 == p && trace[i].1 != Crash
    ensures var Hub(ino, file) := s.procs[p];
            After(s, trace)
            == Some(State(s.procs[p := Exited], None, if file.Some? then Absent else s.path, s.socks - {ino}))
  {
    hide Reachable, After, Step;
    HubKnowsItsFile(s, p);
    var Hub(ino, file) := s.procs[p];
    var closed := Go(s, p, CloseStat(file)).(socks := s.socks - {ino});
    var rest := if file.Some? then [(p, SawSocket), (p, Removed), (p, Released)] else [(p, SawNoSocket), (p, Released)];
    trace := [(p, Shutdown)] + ([(p, Closed)] + rest);
    HubCloses(s, p);
    AfterFirst(s, Go(s, p, Close(ino, file)), p, Shutdown, [(p, Closed)] + rest);
    AfterFirst(Go(s, p, Close(ino, file)), closed, p, Closed, rest);
    if file.Some? {
      OwnFileIsRemoved(closed, p, ino);
    } else {
      UnknownFileIsLeft(closed, p);
    }
    assert closed.procs[p := Exited] == s.procs[p := Exited];
  }

  lemma HubCloses(s: State, p: Pid)
    requires p in s.procs && s.procs[p].Hub?
    ensures var Hub(ino, file) := s.procs[p];
            && Step(s, p, Shutdown) == Some(Go(s, p, Close(ino, file)))
            && Step(Go(s, p, Close(ino, file)), p, Closed)
               == Some(Go(s, p, CloseStat(file)).(socks := s.socks - {ino}))
  {
    var Hub(ino, file) := s.procs[p];
    assert Go(Go(s, p, Close(ino, file)), p, CloseStat(file)) == Go(s, p, CloseStat(file));
  }

  lemma OwnFileIsRemoved(s: State, p: Pid, ino: Ino)
    requires p in s.procs && s.procs[p] == CloseStat(Some(ino)) && s.path == Socket(ino)
    ensures After(s, [(p, SawSocket), (p, Removed), (p, Released)])
            == Some(State(s.procs[p := Exited], None, Absent, s.socks))
  {
    hide After, Step;
    var t1 := Go(s, p, CloseRemove);
    OwnFileIsSeen(s, p, ino);
    CleanupRemoves(t1, p);
    AfterThree(s, t1, Go(t1, p, Release).(path := Absent), p, SawSocket, Removed, Released);
    assert t1.procs[p := Exited] == s.procs[p := Exited];
  }

  lemma OwnFileIsSeen(s: State, p: Pid, ino: Ino)
    requires p in s.procs && s.procs[p] == CloseStat(Some(ino)) && s.path == Socket(ino)
    ensures Step(s, p, SawSocket) == Some(Go(s, p, CloseRemove))
  {
  }

  lemma UnknownFileIsLeft(s: State, p: Pid)
    requires p in s.procs && s.procs[p] == CloseStat(None)
    ensures After(s, [(p, SawNoSocket), (p, Released)]) == Some(State(s.procs[p := Exited], None, s.path, s.socks))
  {
    hide After, Step;
    UnknownFileIsSkipped(s, p);
    GivesTheSeatBack(s, p);
    AfterTwo(s, Go(s, p, Release), p, SawNoSocket, Released);
  }

  lemma UnknownFileIsSkipped(s: State, p: Pid)
    requires p in s.procs && s.procs[p] == CloseStat(None)
    ensures Step(s, p, SawNoSocket) == Some(Go(s, p, Release))
  {
  }

  lemma AfterTwo(s: State, t: State, p: Pid, a: Act, b: Act)
    requires Step(s, p, a) == Some(t) && Step(t, p, b).Some?
    ensures After(s, [(p, a), (p, b)]) == Step(t, p, b)
  {
    hide After, Step;
    AfterFirst(s, t, p, a, [(p, b)]);
    AfterFirst(t, Step(t, p, b).value, p, b, []);
    NothingHappens(Step(t, p, b).value);
    assert [(p, a)] + [(p, b)] == [(p, a), (p, b)] && [(p, b)] + [] == [(p, b)];
  }

  lemma NothingHappens(s: State)
    ensures After(s, []) == Some(s)
  {
  }

  /** Own steps an instance may still take before it has given the seat back or is the hub. */
  function SeatRank(pc: Pc): nat {
    match pc
    case Seat1 => 10
    case Seat2 => 9
    case StatPath => 8
    case Unlink => 7
    case Bind => 6
    case Listen(_) => 5
    case BindFailed => 5
    case ListenFailed(_) => 4
    case Record(_) => 4
    case ListenCleanup => 3
    case Close(_, _) => 4
    case CloseStat(_) => 3
    case CloseRemove => 2
    case Release => 1
    case JoinRelease => 1
    case _ => 0
  }

  predicate OwnStep(a: Act) {
    !a.Launch? && !a.Crash? && !a.KernelDropsLock? && !a.KernelDropsSock?
  }

  /**
   * Whatever its system calls answer, an instance under the seat is the hub or has given the
   * seat back after at most ten steps of its own ...
   */
  lemma SeatIsNotKept(s: State, p: Pid, a: Act)
    requires p in s.procs && Seated(s.procs[p]) && !s.procs[p].Hub? && OwnStep(a) && Step(s, p, a).Some?
    ensures 1 <= SeatRank(s.procs[p]) <= 10
    ensures var t := Step(s, p, a).value;
            p in t.procs && if Seated(t.procs[p]) then t.procs[p].Hub? || SeatRank(t.procs[p]) < SeatRank(s.procs[p])
                            else t.lock == None
  {
  }

  /** ... and is never stuck on the way. */
  lemma SeatHolderCanMove(s: State, p: Pid) returns (a: Act)
    requires p in s.procs && Seated(s.procs[p]) && !s.procs[p].Hub?
    ensures OwnStep(a) && Step(s, p, a).Some?
  {
    a := match s.procs[p]
      case Seat1 => ConnectFail
      case Seat2 => ConnectFail
      case StatPath => SawNoSocket
      case Unlink => RemoveFailed
      case Bind => BindFail
      case BindFailed => ConnectFail
      case Listen(_) => ListenFail
      case ListenFailed(_) => Closed
      case ListenCleanup => RemoveFailed
      case Record(_) => StatFailed
      case Close(_, _) => Closed
      case CloseStat(_) => SawNoSocket
      case CloseRemove => RemoveFailed
      case _ => Released;
  }
}
