/**
 * Lease inheritance across hub failovers: the pool of the hub, the beacons its peers cache
 * (vdeplug-go/main.go), and the promotion that seeds a new pool from a cache.
 */
module LeaseChain {
  import opened Bytes
  import opened LeasePool
  import B = Beacon

  // ------------------------------------------------------------ snapshots and caches

  /** leaseMap: a later entry for the same MAC wins. */
  function LeaseMap(ls: seq<B.Lease>): map<Mac, uint32> {
    if ls == [] then map[]
    else
      var last := ls[|ls| - 1];
      LeaseMap(ls[..|ls| - 1])[last.mac := last.ip]
  }

  /** Of several entries for one MAC the last one counts. */
  lemma {:induction false} LastEntryWins(ls: seq<B.Lease>, i: nat)
    requires i < |ls| && forall j :: i < j < |ls| ==> ls[j].mac != ls[i].mac
    ensures ls[i].mac in LeaseMap(ls) && LeaseMap(ls)[ls[i].mac] == ls[i].ip
    decreases |ls|
  {
    if i < |ls| - 1 {
      LastEntryWins(ls[..|ls| - 1], i);
    }
  }

  method LeaseMapOf(ls: seq<B.Lease>) returns (m: map<Mac, uint32>)
    ensures m == LeaseMap(ls)
  {
    m := map[];
    var i := 0;
    while i < |ls|
      invariant 0 <= i <= |ls| && m == LeaseMap(ls[..i])
    {
      assert ls[..i + 1][..i] == ls[..i];
      m := m[ls[i].mac := ls[i].ip];
      i := i + 1;
    }
    assert ls[..i] == ls;
  }

  /** ls is the table a in some order: what ranging over the map may produce. */
  ghost predicate Lists(ls: seq<B.Lease>, a: map<Mac, uint32>) {
    && (forall i :: 0 <= i < |ls| ==> ls[i].mac in a && a[ls[i].mac] == ls[i].ip)
    && (forall i, j :: 0 <= i < j < |ls| ==> ls[i].mac != ls[j].mac)
    && (forall m :: m in a ==> exists i :: 0 <= i < |ls| && ls[i].mac == m)
  }

  lemma {:induction false} LeaseMapContents(ls: seq<B.Lease>)
    requires forall i, j :: 0 <= i < j < |ls| ==> ls[i].mac != ls[j].mac
    ensures forall i :: 0 <= i < |ls| ==> ls[i].mac in LeaseMap(ls) && LeaseMap(ls)[ls[i].mac] == ls[i].ip
    ensures forall m :: m in LeaseMap(ls) ==> exists i :: 0 <= i < |ls| && ls[i].mac == m
    decreases |ls|
  {
    if ls != [] {
      LeaseMapContents(ls[..|ls| - 1]);
    }
  }

  lemma LeaseMapOfListing(ls: seq<B.Lease>, a: map<Mac, uint32>)
    requires Lists(ls, a)
    ensures LeaseMap(ls) == a
  {
    LeaseMapContents(ls);
  }

  /** What a peer caches on hearing a frame: the parsed table, if it parses. */
  function Heard(frame: seq<byte>): Option<map<Mac, uint32>> {
    match B.Parse(frame)
    case None => None
    case Some((_, ls)) => Some(LeaseMap(ls))
  }

  /** A table of at most MAX_LEASES entries survives the beacon, whatever order it is listed in. */
  lemma HeardIsSnapshot(src: seq<byte>, number: uint32, ls: seq<B.Lease>, a: map<Mac, uint32>)
    requires Lists(ls, a) && |ls| <= B.MAX_LEASES
    ensures Heard(B.Encode(src, number, ls)) == Some(a)
  {
    hide B.Encode, B.Parse;
    B.RoundTrip(src, number, ls);
    LeaseMapOfListing(ls, a);
  }

  /** A pool a peer may restore from a beacon with this listing of p's table. */
  ghost predicate RestoredFromBeacon(p: State, src: seq<byte>, number: uint32, ls: seq<B.Lease>, q: State) {
    var heard := Heard(B.Encode(src, number, ls));
    q.base == p.base && q.size == p.size && heard.Some? && Restored(q, heard.value)
  }

  /** The whole way: snapshot, beacon, parse, cache, restore give back exactly the pool that was snapshotted. */
  lemma SnapshotToRestore(p: State, src: seq<byte>, number: uint32, ls: seq<B.Lease>, q: State)
    requires Prefix(p) && Lists(ls, p.leased) && |ls| <= B.MAX_LEASES
    requires RestoredFromBeacon(p, src, number, ls, q)
    ensures q == p
  {
    hide Heard, Restored, Prefix;
    HeardIsSnapshot(src, number, ls, p.leased);
    RestoreOfSnapshot(p, q);
  }

  // ------------------------------------------------------------ tables too big for a beacon

  /**
   * A pool of more than MAX_LEASES entries is cut to some MAX_LEASES of them.  What a peer
   * restores from that is safe exactly when the cut kept the lowest addresses.
   */
  lemma CutBeaconIsSafeIff(p: State, src: seq<byte>, number: uint32, ls: seq<B.Lease>, q: State)
    requires Prefix(p) && Lists(ls, p.leased) && |ls| > B.MAX_LEASES
    requires RestoredFromBeacon(p, src, number, ls, q)
    ensures Safe(q) <==> forall i :: 0 <= i < B.MAX_LEASES ==> OffsetOf(p.base, ls[i].ip) < B.MAX_LEASES
  {
    hide B.Encode, B.Parse, Safe, Restored, LeaseMap, LeaseAddr, OffsetOf, Lists, Prefix, Gapless;
    B.RoundTrip(src, number, ls);
    var cut := B.Capped(ls);
    CutTable(p, ls, q);
    SafeIffGapless(q, LeaseMap(cut));
    CutOffsets(p, ls, cut, LeaseMap(cut));
  }

  /** All of a cut table is restored. */
  lemma CutTable(p: State, ls: seq<B.Lease>, q: State)
    requires Prefix(p) && Lists(ls, p.leased) && |ls| > B.MAX_LEASES && q.base == p.base && q.size == p.size
    requires Restored(q, LeaseMap(B.Capped(ls)))
    ensures q.next == B.MAX_LEASES
  {
    hide LeaseAddr, OffsetOf, Restored, Prefix, LeaseMap;
    var cut := B.Capped(ls);
    LeaseMapContents(cut);
    RestoreKeepsAll(p, LeaseMap(cut), q);
    CountOf(cut, LeaseMap(cut));
  }

  lemma CutOffsets(p: State, ls: seq<B.Lease>, cut: seq<B.Lease>, leases: map<Mac, uint32>)
    requires Prefix(p) && Lists(ls, p.leased) && |ls| > B.MAX_LEASES && cut == B.Capped(ls) && leases == LeaseMap(cut)
    ensures (forall m :: m in leases && OffsetOf(p.base, leases[m]) < p.size ==>
               OffsetOf(p.base, leases[m]) < B.MAX_LEASES)
            <==> forall i :: 0 <= i < B.MAX_LEASES ==> OffsetOf(p.base, ls[i].ip) < B.MAX_LEASES
  {
    hide LeaseAddr, OffsetOf, LeaseMap;
    LeaseMapContents(cut);
    PrefixIsBijection(p);
    forall i | 0 <= i < B.MAX_LEASES
      ensures ls[i].mac in leases && leases[ls[i].mac] == ls[i].ip && OffsetOf(p.base, ls[i].ip) < p.size
    {
      assert cut[i] == ls[i];
    }
  }

  lemma CountOf(ls: seq<B.Lease>, a: map<Mac, uint32>)
    requires Lists(ls, a)
    ensures |a.Keys| == |ls|
  {
    var macs := seq(|ls|, i requires 0 <= i < |ls| => ls[i].mac);
    forall m
      ensures m in macs <==> m in a.Keys
    {
      if m in a.Keys {
        var i :| 0 <= i < |ls| && ls[i].mac == m;
        assert macs[i] == m;
      }
    }
    DistinctCount(macs, a.Keys);
  }

  /** The listing of a healthy pool that starts at offset k and wraps around. */
  function ListFrom(p: State, k: nat): (ls: seq<B.Lease>)
    requires Prefix(p) && k <= |p.order|
  {
    seq(|p.order|, i requires 0 <= i < |p.order| =>
      var j := if i + k < |p.order| then i + k else i + k - |p.order|;
      B.Lease(p.order[j], p.leased[p.order[j]]))
  }

  lemma ListFromLists(p: State, k: nat)
    requires Prefix(p) && k <= |p.order|
    ensures Lists(ListFrom(p, k), p.leased)
  {
    hide LeaseAddr;
    var ls := ListFrom(p, k);
    forall m | m in p.leased
      ensures exists i :: 0 <= i < |ls| && ls[i].mac == m
    {
      var j :| 0 <= j < |p.order| && p.order[j] == m;
      var i := if j >= k then j - k else j - k + |p.order|;
      assert ls[i].mac == m;
    }
  }

  /** Every pool too big for a beacon has an iteration order after which a promoted hub leases some address twice. */
  lemma BigTablesCanGoWrong(p: State, src: seq<byte>, number: uint32) returns (ls: seq<B.Lease>)
    requires Prefix(p) && p.next > B.MAX_LEASES
    ensures Lists(ls, p.leased)
    ensures forall q :: RestoredFromBeacon(p, src, number, ls, q) ==> !Safe(q)
  {
    hide RestoredFromBeacon, Safe, LeaseAddr, OffsetOf, Lists;
    ls := ListFrom(p, p.next - 1);
    ListFromLists(p, p.next - 1);
    assert ls[0].ip == LeaseAddr(p.base, p.next - 1);
    OffsetOfAddr(p.base, p.next - 1);
    forall q | RestoredFromBeacon(p, src, number, ls, q)
      ensures !Safe(q)
    {
      HighEntryIsUnsafe(p, src, number, ls, q);
    }
  }

  lemma HighEntryIsUnsafe(p: State, src: seq<byte>, number: uint32, ls: seq<B.Lease>, q: State)
    requires Prefix(p) && Lists(ls, p.leased) && |ls| > B.MAX_LEASES
    requires OffsetOf(p.base, ls[0].ip) >= B.MAX_LEASES && RestoredFromBeacon(p, src, number, ls, q)
    ensures !Safe(q)
  {
    hide RestoredFromBeacon, Safe, OffsetOf, Lists, Prefix;
    CutBeaconIsSafeIff(p, src, number, ls, q);
  }

  // ------------------------------------------------------------ what a beacon keeps

  /** The entries of the listing that fit a beacon hold the lowest addresses of the pool. */
  ghost predicate LowestKept(base: uint32, ls: seq<B.Lease>) {
    forall i :: 0 <= i < |B.Capped(ls)| ==> OffsetOf(base, B.Capped(ls)[i].ip) < B.MAX_LEASES
  }

  /** A table that fits is kept whole, so its beacon always qualifies. */
  lemma FittingTablesQualify(p: State, ls: seq<B.Lease>)
    requires Prefix(p) && Lists(ls, p.leased) && |ls| <= B.MAX_LEASES
    ensures LowestKept(p.base, ls)
  {
    hide LeaseAddr, OffsetOf;
    PrefixIsBijection(p);
    CountOf(ls, p.leased);
    DistinctCount(p.order, p.leased.Keys);
  }

  /** The first MAX_LEASES leases of a pool. */
  function Lowest(p: State): map<Mac, uint32> {
    map m | m in p.leased && OffsetOf(p.base, p.leased[m]) < B.MAX_LEASES :: p.leased[m]
  }

  /** The pool of just those leases. */
  function FirstPart(p: State): State
    requires p.next <= |p.order|
  {
    var k := if p.next < B.MAX_LEASES then p.next else B.MAX_LEASES;
    State(p.base, p.size, k, Lowest(p), p.order[..k])
  }

  lemma LowestIsSnapshot(p: State)
    requires Prefix(p)
    ensures IsSnapshot(Lowest(p), p.base, p.size) && SubMap(Lowest(p), p.leased)
    ensures |Lowest(p).Keys| == if p.next < B.MAX_LEASES then p.next else B.MAX_LEASES
  {
    hide LeaseAddr, OffsetOf;
    FirstPartIsPrefix(p);
    var q := FirstPart(p);
    assert q.leased == Lowest(p);
    DistinctCount(q.order, q.leased.Keys);
  }

  lemma FirstPartIsPrefix(p: State)
    requires Prefix(p)
    ensures Prefix(FirstPart(p))
  {
    hide LeaseAddr, OffsetOf, Lowest;
    var q := FirstPart(p);
    forall m
      ensures m in q.order <==> m in q.leased
    {
      LowestMember(p, q.next, m);
    }
    forall i | 0 <= i < q.next
      ensures q.leased[q.order[i]] == LeaseAddr(p.base, i)
    {
      assert q.order[i] in q.order;
      LowestMember(p, q.next, q.order[i]);
    }
  }

  lemma LowestMember(p: State, k: nat, m: Mac)
    requires Prefix(p) && k == if p.next < B.MAX_LEASES then p.next else B.MAX_LEASES
    ensures m in p.order[..k] <==> m in Lowest(p)
    ensures m in Lowest(p) ==> m in p.leased && Lowest(p)[m] == p.leased[m]
  {
    hide LeaseAddr, OffsetOf;
    if m in p.leased {
      var i :| 0 <= i < |p.order| && p.order[i] == m;
      OffsetOfAddr(p.base, i);
      if i < k {
        assert p.order[..k][i] == m;
      }
    }
  }

  lemma SameWhenAsMany(a: set<Mac>, b: set<Mac>)
    requires a <= b && |b| <= |a|
    ensures a == b
  {
    if x :| x in b && x !in a {
      SubsetSize(a + {x}, b);
    }
  }

  /** A peer hears the lowest leases of the pool, whatever order the table was listed in. */
  lemma HeardIsLowest(src: seq<byte>, number: uint32, ls: seq<B.Lease>, p: State)
    requires Prefix(p) && Lists(ls, p.leased) && LowestKept(p.base, ls)
    ensures Heard(B.Encode(src, number, ls)) == Some(Lowest(p))
  {
    hide B.Encode, B.Parse, LeaseMap, Lowest, Prefix;
    B.RoundTrip(src, number, ls);
    CutIsLowest(ls, p);
  }

  lemma CutIsLowest(ls: seq<B.Lease>, p: State)
    requires Prefix(p) && Lists(ls, p.leased) && LowestKept(p.base, ls)
    ensures LeaseMap(B.Capped(ls)) == Lowest(p)
  {
    hide *;
    CutCount(ls, p);
    CutInside(ls, p);
    SameWhenAsMany(LeaseMap(B.Capped(ls)).Keys, Lowest(p).Keys);
  }

  lemma CutCount(ls: seq<B.Lease>, p: State)
    requires Prefix(p) && Lists(ls, p.leased)
    ensures |LeaseMap(B.Capped(ls)).Keys| == |Lowest(p).Keys|
  {
    hide LeaseMap, LeaseAddr, OffsetOf, IsSnapshot, Lowest;
    var cut := B.Capped(ls);
    LeaseMapContents(cut);
    CountOf(cut, LeaseMap(cut));
    CountOf(ls, p.leased);
    DistinctCount(p.order, p.leased.Keys);
    LowestIsSnapshot(p);
  }

  lemma CutInside(ls: seq<B.Lease>, p: State)
    requires Lists(ls, p.leased) && LowestKept(p.base, ls)
    ensures forall m :: m in LeaseMap(B.Capped(ls)) ==> m in Lowest(p) && Lowest(p)[m] == LeaseMap(B.Capped(ls))[m]
  {
    hide LeaseMap, LeaseAddr, OffsetOf;
    var cut := B.Capped(ls);
    LeaseMapContents(cut);
    forall m | m in LeaseMap(cut)
      ensures m in Lowest(p) && Lowest(p)[m] == LeaseMap(cut)[m]
    {
      var i :| 0 <= i < |cut| && cut[i].mac == m;
      assert cut[i] == ls[i];
    }
  }

  /** The leases of some healthy pool with this base and size. */
  ghost predicate IsSnapshot(leases: map<Mac, uint32>, base: uint32, size: nat) {
    exists q :: Prefix(q) && q.base == base && q.size == size && q.leased == leases
  }

  ghost predicate SubMap(a: map<Mac, uint32>, b: map<Mac, uint32>) {
    forall m :: m in a ==> m in b && b[m] == a[m]
  }

  // ------------------------------------------------------------ the chain of hubs

  /** A cached table and the hub generation it was heard from. */
  datatype Gossip = Gossip(gen: nat, leases: map<Mac, uint32>)

  /** The current hub's pool and what each peer has cached. */
  datatype Chain = Chain(pool: State, gen: nat, caches: map<nat, Gossip>)

  datatype Step =
    | Request(mac: Mac)
    | Beat(src: seq<byte>, number: uint32, ls: seq<B.Lease>, hearers: set<nat>)
    | Promote(peer: nat)
    | Restart(peer: nat)

  /** The seed a peer has for its own pool; f.leases is empty when it heard nothing. */
  function Seed(s: Chain, peer: nat): map<Mac, uint32> {
    if peer in s.caches then s.caches[peer].leases else map[]
  }

  /**
   * One step.  A beacon carries the whole table or, when that is too big, the lowest part of it;
   * CutBeaconIsSafeIff says what any other cut would do.
   */
  ghost predicate Next(s: Chain, step: Step, s': Chain) {
    match step
    case Request(m) => s' == s.(pool := Assign(s.pool, m).0)
    case Beat(src, number, ls, hearers) =>
      && Lists(ls, s.pool.leased) && LowestKept(s.pool.base, ls)
      && var heard := Heard(B.Encode(src, number, ls));
      s' == if heard.None? then s
            else s.(caches := s.caches + map p | p in hearers :: Gossip(s.gen, heard.value))
    case Promote(peer) =>
      && s'.pool.base == s.pool.base && s'.pool.size == s.pool.size
      && Restored(s'.pool, Seed(s, peer))
      && s'.gen == s.gen + 1 && s'.caches == s.caches - {peer}
    case Restart(peer) => s' == s.(caches := s.caches - {peer})
  }

  function Start(base: uint32, size: nat): Chain {
    Chain(Fresh(base, size), 0, map[])
  }

  ghost predicate Inv(s: Chain) {
    && Prefix(s.pool)
    && forall p :: p in s.caches ==>
         && IsSnapshot(s.caches[p].leases, s.pool.base, s.pool.size)
         && s.caches[p].gen <= s.gen
         && (s.caches[p].gen == s.gen ==> SubMap(s.caches[p].leases, s.pool.leased))
  }

  lemma StartInv(base: uint32, size: nat)
    requires size <= SPACE
    ensures Inv(Start(base, size))
  {
    FreshIsPrefix(base, size);
  }

  lemma SeedIsSnapshot(s: Chain, peer: nat)
    requires Inv(s)
    ensures IsSnapshot(Seed(s, peer), s.pool.base, s.pool.size)
  {
    hide Prefix;
    if peer !in s.caches {
      assert s.pool.size <= SPACE by { PrefixSize(s.pool); }
      FreshIsPrefix(s.pool.base, s.pool.size);
      assert Fresh(s.pool.base, s.pool.size).leased == map[];
    }
  }

  lemma PrefixSize(p: State)
    requires Prefix(p)
    ensures p.size <= SPACE
  {
  }

  /** A promoted hub's pool is a healthy pool, and holds exactly the leases it was seeded with. */
  lemma PromotedPool(s: Chain, peer: nat, s': Chain)
    requires Inv(s) && Next(s, Promote(peer), s')
    ensures Prefix(s'.pool) && s'.pool.leased == Seed(s, peer)
  {
    hide Prefix, Restored;
    SeedIsSnapshot(s, peer);
    var q :| Prefix(q) && q.base == s.pool.base && q.size == s.pool.size && q.leased == Seed(s, peer);
    RestoreOfSnapshot(q, s'.pool);
  }

  /** Every step keeps the invariant: every hub's pool is a bijection onto its first addresses. */
  lemma NextKeepsInv(s: Chain, step: Step, s': Chain)
    requires Inv(s) && Next(s, step, s')
    ensures Inv(s')
  {
    hide Prefix, Restored, Lists, Heard, B.Encode, Assign, LowestKept, Lowest, IsSnapshot;
    match step
    case Request(m) => RequestKeepsInv(s, m, s');
    case Beat(_, _, _, _) => BeatKeepsInv(s, step, s');
    case Promote(peer) => PromotedPool(s, peer, s');
    case Restart(peer) =>
  }

  lemma BeatKeepsInv(s: Chain, step: Step, s': Chain)
    requires Inv(s) && Next(s, step, s') && step.Beat?
    ensures Inv(s')
  {
    hide Prefix, Restored, Lists, Heard, B.Encode, Assign, LowestKept, Lowest, IsSnapshot, SubMap;
    HeardIsLowest(step.src, step.number, step.ls, s.pool);
    LowestIsSnapshot(s.pool);
  }

  lemma RequestKeepsInv(s: Chain, m: Mac, s': Chain)
    requires Inv(s) && Next(s, Request(m), s')
    ensures Inv(s') && SubMap(s.pool.leased, s'.pool.leased)
  {
    hide Prefix;
    AssignKeepsPrefix(s.pool, m);
    assert s'.pool.base == s.pool.base && s'.pool.size == s.pool.size;
  }

  /** A run: steps[i] leads from states[i] to states[i + 1]. */
  ghost predicate Run(states: seq<Chain>, steps: seq<Step>) {
    |states| == |steps| + 1 && forall i :: 0 <= i < |steps| ==> Next(states[i], steps[i], states[i + 1])
  }

  lemma {:induction false} RunInv(states: seq<Chain>, steps: seq<Step>, n: nat)
    requires Run(states, steps) && Inv(states[0]) && n <= |steps|
    ensures Inv(states[n])
  {
    hide Inv, Next;
    if n > 0 {
      RunInv(states, steps, n - 1);
      NextKeepsInv(states[n - 1], steps[n - 1], states[n]);
    }
  }

  /**
   * In every run of requests, beacons, promotions and restarts from a cold start, at every
   * moment the hub's leases are a bijection from MACs onto the first `next` pool addresses.
   */
  lemma EveryHubLeasesCleanly(base: uint32, size: nat, states: seq<Chain>, steps: seq<Step>, n: nat)
    requires size <= SPACE && Run(states, steps) && states[0] == Start(base, size) && n <= |steps|
    ensures Injective(states[n].pool.leased)
    ensures forall off :: 0 <= off < states[n].pool.next ==> Holds(states[n].pool.leased, LeaseAddr(base, off))
    ensures forall m :: m in states[n].pool.leased ==> OffsetOf(base, states[n].pool.leased[m]) < states[n].pool.next
  {
    hide LeaseAddr, OffsetOf, Holds, Next, Injective;
    StartInv(base, size);
    RunInv(states, steps, n);
    PrefixIsBijection(states[n].pool);
    RunBase(states, steps, n);
  }

  lemma {:induction false} RunBase(states: seq<Chain>, steps: seq<Step>, n: nat)
    requires Run(states, steps) && n <= |steps|
    ensures states[n].pool.base == states[0].pool.base && states[n].pool.size == states[0].pool.size
  {
    hide Restored, Lists, Heard, B.Encode;
    if n > 0 {
      RunBase(states, steps, n - 1);
      assert Next(states[n - 1], steps[n - 1], states[n]);
    }
  }

  /** Promotions in this run only use caches heard from the hub being replaced, and those know m. */
  ghost predicate Carries(states: seq<Chain>, steps: seq<Step>, m: Mac)
    requires Run(states, steps)
  {
    forall i :: 0 <= i < |steps| && steps[i].Promote? ==>
      var s, p := states[i], steps[i].peer;
      p in s.caches && s.caches[p].gen == s.gen && m in s.caches[p].leases
  }

  /** A lease that every promoted peer had heard of never changes address, over any number of failovers. */
  lemma {:induction false} InheritedNeverMoves(states: seq<Chain>, steps: seq<Step>, m: Mac, n: nat)
    requires Run(states, steps) && Inv(states[0]) && m in states[0].pool.leased && n <= |steps|
    requires Carries(states, steps, m)
    ensures m in states[n].pool.leased && states[n].pool.leased[m] == states[0].pool.leased[m]
  {
    hide Inv, Next;
    if n > 0 {
      InheritedNeverMoves(states, steps, m, n - 1);
      RunInv(states, steps, n - 1);
      StepKeepsLease(states[n - 1], steps[n - 1], states[n], m);
    }
  }

  lemma StepKeepsLease(s: Chain, step: Step, s': Chain, m: Mac)
    requires Inv(s) && Next(s, step, s') && m in s.pool.leased
    requires step.Promote? ==>
               step.peer in s.caches && s.caches[step.peer].gen == s.gen && m in s.caches[step.peer].leases
    ensures m in s'.pool.leased && s'.pool.leased[m] == s.pool.leased[m]
  {
    hide Prefix, Restored, Lists, Heard, B.Encode, Assign, IsSnapshot;
    match step
    case Request(k) => RequestKeepsInv(s, k, s');
    case Beat(_, _, _, _) =>
    case Promote(peer) => PromotedPool(s, peer, s');
    case Restart(_) =>
  }

  /** Somebody else holds this address. */
  ghost predicate HeldByOther(a: map<Mac, uint32>, ip: uint32, m: Mac) {
    exists k :: k in a && k != m && a[k] == ip
  }

  /** The MACs the hub leased to that a peer has not heard of, in the order they came. */
  function Late(s: Chain, peer: nat): (ms: seq<Mac>)
    requires peer in s.caches && |s.caches[peer].leases| <= |s.pool.order|
  {
    s.pool.order[|s.caches[peer].leases|..]
  }

  /**
   * The limit of inheritance.  A peer promoted from what it heard of the hub it replaces gives
   * its next newcomer an address the old hub had leased to another MAC if and only if the old
   * hub leased something the peer had not heard of, and first of all to some other MAC.
   */
  lemma LateLeasesAreReusedIff(s: Chain, peer: nat, s': Chain, newcomer: Mac)
    requires Inv(s) && Next(s, Promote(peer), s')
    requires peer in s.caches && s.caches[peer].gen == s.gen
    requires newcomer !in s'.pool.leased && s'.pool.next < s'.pool.size
    ensures |s.caches[peer].leases| <= |s.pool.order|
    ensures Assign(s'.pool, newcomer).1.Some?
    ensures HeldByOther(s.pool.leased, Assign(s'.pool, newcomer).1.value, newcomer)
            <==> Late(s, peer) != [] && Late(s, peer)[0] != newcomer
  {
    hide LeaseAddr, OffsetOf, Restored, Prefix, HeldByOther, IsSnapshot;
    PromotedPool(s, peer, s');
    LaterAddressHeldIff(s.pool, s'.pool, newcomer);
  }

  lemma LaterAddressHeldIff(p: State, q: State, m: Mac)
    requires Prefix(p) && Prefix(q) && p.base == q.base && p.size == q.size && q.next < q.size
    requires SubMap(q.leased, p.leased)
    ensures |q.leased| == q.next <= p.next == |p.order|
    ensures HeldByOther(p.leased, LeaseAddr(p.base, q.next), m) <==> q.next < p.next && p.order[q.next] != m
  {
    hide LeaseAddr, OffsetOf, Prefix;
    PrefixCounts(p);
    PrefixCounts(q);
    SubsetSize(q.leased.Keys, p.leased.Keys);
    if q.next < p.next {
      HolderOf(p, q.next);
    } else {
      NextIsFree(p);
    }
  }

  lemma PrefixCounts(p: State)
    requires Prefix(p)
    ensures |p.leased.Keys| == |p.leased| == p.next == |p.order|
  {
    DistinctCount(p.order, p.leased.Keys);
  }

  /** The address at an offset in use is held by the MAC listed there, and by no other. */
  lemma HolderOf(p: State, off: nat)
    requires Prefix(p) && off < |p.order|
    ensures p.order[off] in p.leased
    ensures forall k :: k in p.leased ==> (p.leased[k] == LeaseAddr(p.base, off) <==> k == p.order[off])
  {
    hide LeaseAddr, OffsetOf;
    PrefixIsBijection(p);
    assert p.order[off] in p.leased;
  }

  /**
   * It does happen: a is leased and gossiped, b is leased after that, the hub is lost, and the
   * promoted peer gives b's address to c.
   */
  lemma LateLeaseIsReused(base: uint32, size: nat, a: Mac, b: Mac, c: Mac)
    returns (states: seq<Chain>, steps: seq<Step>)
    requires 2 <= size <= SPACE && a != b && b != c && a != c
    ensures Run(states, steps) && states[0] == Start(base, size) && |steps| == 5
    ensures b in states[3].pool.leased && c in states[5].pool.leased
    ensures states[5].pool.leased[c] == states[3].pool.leased[b]
  {
    hide LeaseAddr, Next;
    var ls := [B.Lease(a, LeaseAddr(base, 0))];
    steps := [Request(a), Beat([], 0, ls, {1}), Request(b), Promote(1), Request(c)];
    var p1 := Assign(Fresh(base, size), a).0;
    var p2, p3 := Assign(p1, b).0, Assign(p1, c).0;
    var heard := map[1 := Gossip(0, p1.leased)];
    states := [Start(base, size), Chain(p1, 0, map[]), Chain(p1, 0, heard), Chain(p2, 0, heard), Chain(p1, 1, map[]),
               Chain(p3, 1, map[])];
    FirstThree(base, size, a, b, p1, p2, ls);
    LastTwo(p1, p2, c);
  }

  lemma LastTwo(p1: State, p2: State, c: Mac)
    requires Prefix(p1) && p2.base == p1.base && p2.size == p1.size
    ensures Next(Chain(p2, 0, map[1 := Gossip(0, p1.leased)]), Promote(1), Chain(p1, 1, map[]))
    ensures Next(Chain(p1, 1, map[]), Request(c), Chain(Assign(p1, c).0, 1, map[]))
  {
    hide Prefix, Restored;
    PrefixIsRestored(p1);
    assert map[1 := Gossip(0, p1.leased)] - {1} == map[];
  }

  lemma OneLease(base: uint32, size: nat, a: Mac)
    requires size > 0
    ensures Assign(Fresh(base, size), a).0.leased == map[a := LeaseAddr(base, 0)]
    ensures Lists([B.Lease(a, LeaseAddr(base, 0))], map[a := LeaseAddr(base, 0)])
  {
    hide LeaseAddr;
    assert [B.Lease(a, LeaseAddr(base, 0))][0].mac == a;
  }

  lemma FirstThree(base: uint32, size: nat, a: Mac, b: Mac, p1: State, p2: State, ls: seq<B.Lease>)
    requires p1 == Assign(Fresh(base, size), a).0 && p2 == Assign(p1, b).0
    requires size <= SPACE && size > 0 && ls == [B.Lease(a, LeaseAddr(base, 0))]
    ensures Prefix(p1)
    ensures var heard := map[1 := Gossip(0, p1.leased)];
            && Next(Start(base, size), Request(a), Chain(p1, 0, map[]))
            && Next(Chain(p1, 0, map[]), Beat([], 0, ls, {1}), Chain(p1, 0, heard))
            && Next(Chain(p1, 0, heard), Request(b), Chain(p2, 0, heard))
  {
    hide LeaseAddr, OffsetOf, Prefix, Lists, Heard, B.Encode, LowestKept, Assign;
    FreshIsPrefix(base, size);
    AssignKeepsPrefix(Fresh(base, size), a);
    OneLease(base, size, a);
    HeardIsSnapshot([], 0, ls, p1.leased);
    FittingTablesQualify(p1, ls);
    var none: map<nat, Gossip>, hearers: set<nat> := map[], {1};
    assert none + (map p | p in hearers :: Gossip(0, p1.leased)) == map[1 := Gossip(0, p1.leased)];
  }

  lemma NextIsFree(p: State)
    requires Prefix(p) && p.next < p.size
    ensures !Holds(p.leased, LeaseAddr(p.base, p.next))
  {
    hide LeaseAddr, OffsetOf;
    PrefixIsBijection(p);
    OffsetOfAddr(p.base, p.next);
  }
}
