/**
 * The hub's 256-slot MAC table (vde_plug/vde_plug.c): open addressing with linear probing,
 * entries invalidated in place.  The table is a value here; Hub.dfy holds it in an array and
 * its loops are proved against these functions.  The Go switch's map
 * (vdeplug-go/internal/vswitch/vswitch.go) is the reference it is compared with.
 */
module MacTable {
  import opened Bytes

  const SIZE := 256
  const TTL := 300

  /** A slot of the table. */
  datatype Entry = Entry(mac: Mac, port: int, seen: int, valid: bool)

  const FREE := Entry([0, 0, 0, 0, 0, 0], 0, 0, false)

  type Table = t: seq<Entry> | |t| == SIZE witness seq(SIZE, _ => FREE)

  const EMPTY: Table := seq(SIZE, _ => FREE)

  predicate Multicast(m: Mac) {
    m[0] % 2 == 1
  }

  function Hash(m: Mac): (h: nat)
    ensures h < SIZE
  {
    var x := ((m[3] as bv32) << 16) ^ ((m[4] as bv32) << 8) ^ (m[5] as bv32) ^ ((m[0] as bv32) << 4);
    (x % 256) as nat
  }

  /** Only the first and the last byte decide the bucket: the shifts push the others out of its eight bits. */
  lemma HashIgnoresTheMiddle(m: Mac, n: Mac)
    requires m[0] == n[0] && m[5] == n[5]
    ensures Hash(m) == Hash(n)
  {
    LowByte(m[3] as bv32, m[4] as bv32, m[5] as bv32, m[0] as bv32);
    LowByte(n[3] as bv32, n[4] as bv32, m[5] as bv32, m[0] as bv32);
  }

  lemma LowByte(a: bv32, b: bv32, c: bv32, d: bv32)
    ensures ((a << 16) ^ (b << 8) ^ c ^ (d << 4)) % 256 == (c ^ (d << 4)) % 256
  {
  }

  /** Two buckets worked out by hand. */
  lemma SomeHashes()
    ensures Hash([0x52, 0x54, 0x00, 0x12, 0x34, 0x56]) == 0x76
    ensures Hash([0x0a, 0x00, 0x00, 0x00, 0x00, 0x01]) == 0xa1
  {
  }

  /** The i-th slot of a probe that starts at h. */
  function Slot(h: nat, i: nat): (s: nat)
    ensures s < SIZE
  {
    (h + i) % SIZE
  }

  /** Where a probe for m stops. */
  predicate Stops(e: Entry, m: Mac) {
    !e.valid || e.mac == m
  }

  /** The first stop of the probe for m at or after step i; SIZE when there is none. */
  function Probe(t: Table, m: Mac, i: nat): (k: nat)
    requires i <= SIZE
    ensures i <= k <= SIZE
    ensures k < SIZE ==> Stops(t[Slot(Hash(m), k)], m)
    ensures forall j :: i <= j < k ==> !Stops(t[Slot(Hash(m), j)], m)
    decreases SIZE - i
  {
    if i == SIZE || Stops(t[Slot(Hash(m), i)], m) then i else Probe(t, m, i + 1)
  }

  /** A probe stops where it can, and not before. */
  lemma ProbeStops(t: Table, m: Mac, i: nat)
    requires i < SIZE && Stops(t[Slot(Hash(m), i)], m)
    requires forall j :: 0 <= j < i ==> !Stops(t[Slot(Hash(m), j)], m)
    ensures Probe(t, m, 0) == i
  {
  }

  /** The slot a learn of m writes: the probe's stop, or the bucket head of a full table. */
  function Home(t: Table, m: Mac): (s: nat)
    ensures s < SIZE
  {
    var k := Probe(t, m, 0);
    Slot(Hash(m), if k == SIZE then 0 else k)
  }

  function Learn(t: Table, m: Mac, port: int, now: int): Table {
    if Multicast(m) then t else t[Home(t, m) := Entry(m, port, now, true)]
  }

  /** What a learn does when its probe stops at step i. */
  lemma LearnAt(t: Table, m: Mac, port: int, now: int, i: nat)
    requires !Multicast(m) && i < SIZE && Stops(t[Slot(Hash(m), i)], m)
    requires forall j :: 0 <= j < i ==> !Stops(t[Slot(Hash(m), j)], m)
    ensures Learn(t, m, port, now) == t[Slot(Hash(m), i) := Entry(m, port, now, true)]
  {
    hide Hash;
    ProbeStops(t, m, i);
  }

  /** What a learn does to a full table that does not hold m. */
  lemma LearnFull(t: Table, m: Mac, port: int, now: int)
    requires !Multicast(m) && forall j :: 0 <= j < SIZE ==> !Stops(t[Slot(Hash(m), j)], m)
    ensures Learn(t, m, port, now) == t[Hash(m) := Entry(m, port, now, true)]
  {
    hide Hash, Probe, Stops;
    assert Probe(t, m, 0) == SIZE;
    assert Slot(Hash(m), 0) == Hash(m);
  }

  /** The answer of a lookup and the table it leaves: an expired entry is invalidated. */
  function Lookup(t: Table, m: Mac, now: int): (Table, Option<int>) {
    var k := Probe(t, m, 0);
    var s := Slot(Hash(m), k);
    if k == SIZE || !t[s].valid then (t, None)
    else if now - t[s].seen > TTL then (t[s := t[s].(valid := false)], None)
    else (t, Some(t[s].port))
  }

  function Forget(t: Table, port: int): Table {
    seq(SIZE, i requires 0 <= i < SIZE => if t[i].valid && t[i].port == port then t[i].(valid := false) else t[i])
  }

  // ------------------------------------------------------------ structure: chains and duplicates

  /** Every valid entry is found by a lookup of its own MAC. */
  ghost predicate Findable(t: Table) {
    forall s :: 0 <= s < SIZE && t[s].valid ==> Probe(t, t[s].mac, 0) < SIZE && Home(t, t[s].mac) == s
  }

  ghost predicate NoDuplicates(t: Table) {
    forall a, b :: 0 <= a < SIZE && 0 <= b < SIZE && t[a].valid && t[b].valid && t[a].mac == t[b].mac ==> a == b
  }

  /** No free slot lies on the way from an entry's bucket head to the entry. */
  ghost predicate Chained(t: Table) {
    forall s, i :: 0 <= s < SIZE && t[s].valid && 0 <= i < Steps(t[s].mac, s)
                   ==> t[Slot(Hash(t[s].mac), i)].valid
  }

  /** The probe step at which m reaches slot s. */
  function Steps(m: Mac, s: nat): (i: nat)
    requires s < SIZE
    ensures i < SIZE && Slot(Hash(m), i) == s
  {
    (s + SIZE - Hash(m)) % SIZE
  }

  lemma StepsUnique(m: Mac, i: nat)
    requires i < SIZE
    ensures Steps(m, Slot(Hash(m), i)) == i
  {
    hide Hash;
  }

  /** Two ways to say that the probing is healthy. */
  lemma FindableIffHealthy(t: Table)
    ensures Findable(t) <==> NoDuplicates(t) && Chained(t)
  {
    hide Hash;
    if Findable(t) {
      forall s, i | 0 <= s < SIZE && t[s].valid && 0 <= i < Steps(t[s].mac, s)
        ensures t[Slot(Hash(t[s].mac), i)].valid
      {
        StepsUnique(t[s].mac, Probe(t, t[s].mac, 0));
      }
    }
    if NoDuplicates(t) && Chained(t) {
      forall s | 0 <= s < SIZE && t[s].valid
        ensures Probe(t, t[s].mac, 0) < SIZE && Home(t, t[s].mac) == s
      {
        FoundAtStep(t, s);
      }
    }
  }

  lemma FoundAtStep(t: Table, s: nat)
    requires s < SIZE && t[s].valid && NoDuplicates(t) && Chained(t)
    ensures Probe(t, t[s].mac, 0) == Steps(t[s].mac, s)
  {
    hide Hash;
    var m, k := t[s].mac, Probe(t, t[s].mac, 0);
    assert Stops(t[Slot(Hash(m), Steps(m, s))], m);
    assert k <= Steps(m, s);
    if k < Steps(m, s) {
      assert t[Slot(Hash(m), k)].valid;
      StepsUnique(m, k);
    }
  }

  lemma EmptyIsFindable()
    ensures Findable(EMPTY)
  {
  }

  /** Writing a slot moves another entry's stop only if it opens or fills the probe before it. */
  lemma {:induction false} ProbeAfterWrite(t: Table, w: nat, e: Entry, m: Mac, i: nat)
    requires w < SIZE && i <= SIZE && e.valid && e.mac != m
    requires Probe(t, m, i) < SIZE && t[Slot(Hash(m), Probe(t, m, i))].valid && Slot(Hash(m), Probe(t, m, i)) != w
    ensures Probe(t[w := e], m, i) == Probe(t, m, i)
    decreases SIZE - i
  {
    hide Hash;
    if !Stops(t[Slot(Hash(m), i)], m) {
      ProbeAfterWrite(t, w, e, m, i + 1);
    }
  }

  /** Learning keeps the probing healthy, even when it overwrites a full table's bucket head. */
  lemma LearnKeepsFindable(t: Table, m: Mac, port: int, now: int)
    requires Findable(t)
    ensures Findable(Learn(t, m, port, now))
  {
    hide Hash;
    if !Multicast(m) {
      var w, e := Home(t, m), Entry(m, port, now, true);
      var u := t[w := e];
      forall s | 0 <= s < SIZE && u[s].valid
        ensures Probe(u, u[s].mac, 0) < SIZE && Home(u, u[s].mac) == s
      {
        if s == w {
          LearnedIsFound(t, m, port, now);
        } else {
          assert t[s].mac != m;
          ProbeAfterWrite(t, w, e, t[s].mac, 0);
        }
      }
    }
  }

  lemma LearnedIsFound(t: Table, m: Mac, port: int, now: int)
    requires !Multicast(m)
    ensures var u := Learn(t, m, port, now);
            Probe(u, m, 0) < SIZE && Home(u, m) == Home(t, m) && u[Home(t, m)] == Entry(m, port, now, true)
  {
    hide Hash, Steps;
    var u, k := Learn(t, m, port, now), Probe(t, m, 0);
    var stop := if k == SIZE then 0 else k;
    assert Stops(u[Slot(Hash(m), stop)], m);
    forall j | 0 <= j < stop
      ensures !Stops(u[Slot(Hash(m), j)], m)
    {
      StepsUnique(m, j);
      StepsUnique(m, stop);
    }
    ProbeStops(u, m, stop);
  }

  /** Whatever the table's state, a lookup right after a learn answers with the port just learned. */
  lemma LookupAfterLearn(t: Table, m: Mac, port: int, learned: int, now: int)
    requires !Multicast(m) && now - learned <= TTL
    ensures Lookup(Learn(t, m, port, learned), m, now) == (Learn(t, m, port, learned), Some(port))
  {
    hide Hash;
    LearnedIsFound(t, m, port, learned);
  }

  // ------------------------------------------------------------ the reference: a plain map

  datatype Seen = Seen(port: int, seen: int)

  type MacMap = map<Mac, Seen>

  function MapLearn(g: MacMap, m: Mac, port: int, now: int): MacMap {
    if Multicast(m) then g else g[m := Seen(port, now)]
  }

  function MapLookup(g: MacMap, m: Mac, now: int): (MacMap, Option<int>) {
    if m !in g then (g, None)
    else if now - g[m].seen > TTL then (g - {m}, None)
    else (g, Some(g[m].port))
  }

  function MapForget(g: MacMap, port: int): MacMap {
    map m | m in g && g[m].port != port :: g[m]
  }

  /** The table and the map hold the same facts. */
  ghost predicate Same(t: Table, g: MacMap) {
    && (forall s :: 0 <= s < SIZE && t[s].valid ==> t[s].mac in g && g[t[s].mac] == Seen(t[s].port, t[s].seen))
    && (forall m :: m in g ==> exists s :: 0 <= s < SIZE && t[s].valid && t[s].mac == m)
  }

  /** A healthy table answers every lookup as the map holding the same facts does. */
  lemma LookupAgrees(t: Table, g: MacMap, m: Mac, now: int)
    requires Findable(t) && Same(t, g)
    ensures Lookup(t, m, now).1 == MapLookup(g, m, now).1
  {
    hide Hash;
    if m in g {
      var s :| 0 <= s < SIZE && t[s].valid && t[s].mac == m;
      assert Home(t, m) == s;
    }
  }

  lemma AllTaken(t: Table, m: Mac)
    requires Probe(t, m, 0) == SIZE
    ensures forall s :: 0 <= s < SIZE ==> t[s].valid && t[s].mac != m
  {
    hide Hash;
    forall s | 0 <= s < SIZE
      ensures t[s].valid && t[s].mac != m
    {
      assert !Stops(t[Slot(Hash(m), Steps(m, s))], m);
    }
  }

  /** When the probe for m finds no stop, the table holds SIZE different MACs and m is not one of them. */
  lemma FullWithout(t: Table, g: MacMap, m: Mac)
    requires Findable(t) && Same(t, g) && Probe(t, m, 0) == SIZE
    ensures m !in g && |g.Keys| >= SIZE
  {
    hide Hash, Probe;
    AllTaken(t, m);
    FindableIffHealthy(t);
    var _ := MacsUpTo(t, g, SIZE);
  }

  lemma {:induction false} MacsUpTo(t: Table, g: MacMap, n: nat) returns (ms: set<Mac>)
    requires n <= SIZE && NoDuplicates(t) && forall s :: 0 <= s < SIZE ==> t[s].valid && t[s].mac in g
    ensures |ms| == n && ms <= g.Keys && forall m :: m in ms ==> exists s :: 0 <= s < n && t[s].mac == m
    ensures |g.Keys| >= n
    decreases n
  {
    hide Hash, Probe;
    ms := {};
    if n > 0 {
      var rest := MacsUpTo(t, g, n - 1);
      assert t[n - 1].mac !in rest;
      ms := rest + {t[n - 1].mac};
    }
    SubsetSize(ms, g.Keys);
  }

  /** Learning keeps table and map in step as long as the map stays within SIZE entries. */
  lemma LearnKeepsSame(t: Table, g: MacMap, m: Mac, port: int, now: int)
    requires Findable(t) && Same(t, g) && (Multicast(m) || |g.Keys + {m}| <= SIZE)
    ensures Same(Learn(t, m, port, now), MapLearn(g, m, port, now))
  {
    hide Hash, Probe;
    if !Multicast(m) {
      FitsMeansStop(t, g, m);
      var w := Home(t, m);
      assert t[w].valid ==> t[w].mac == m;
      forall s | 0 <= s < SIZE && t[s].valid && t[s].mac == m
        ensures s == w
      {
        assert Home(t, t[s].mac) == s;
      }
      WriteKeepsSame(t, g, w, m, port, now);
    }
  }

  lemma FitsMeansStop(t: Table, g: MacMap, m: Mac)
    requires Findable(t) && Same(t, g) && |g.Keys + {m}| <= SIZE
    ensures Probe(t, m, 0) < SIZE
  {
    hide Hash, Probe;
    if Probe(t, m, 0) == SIZE {
      FullWithout(t, g, m);
    }
  }

  lemma WriteKeepsSame(t: Table, g: MacMap, w: nat, m: Mac, port: int, now: int)
    requires w < SIZE && Same(t, g) && (t[w].valid ==> t[w].mac == m)
    requires forall s :: 0 <= s < SIZE && t[s].valid && t[s].mac == m ==> s == w
    ensures Same(t[w := Entry(m, port, now, true)], g[m := Seen(port, now)])
  {
    var u: Table := t[w := Entry(m, port, now, true)];
    var h := g[m := Seen(port, now)];
    forall x | x in h
      ensures exists s :: 0 <= s < SIZE && u[s].valid && u[s].mac == x
    {
      if x == m {
        assert u[w].mac == x;
      } else {
        var s :| 0 <= s < SIZE && t[s].valid && t[s].mac == x;
        assert u[s].mac == x;
      }
    }
  }

  // ------------------------------------------------------------ runs without invalidation

  /** One table operation, with the clock it reads. */
  datatype Op = DoLearn(mac: Mac, port: int, at: int) | DoLookup(mac: Mac, at: int)

  function RunTable(t: Table, ops: seq<Op>): seq<Option<int>>
    decreases |ops|
  {
    if ops == [] then []
    else match ops[0]
      case DoLearn(m, p, at) => RunTable(Learn(t, m, p, at), ops[1..])
      case DoLookup(m, at) => [Lookup(t, m, at).1] + RunTable(Lookup(t, m, at).0, ops[1..])
  }

  function RunMap(g: MacMap, ops: seq<Op>): seq<Option<int>>
    decreases |ops|
  {
    if ops == [] then []
    else match ops[0]
      case DoLearn(m, p, at) => RunMap(MapLearn(g, m, p, at), ops[1..])
      case DoLookup(m, at) => [MapLookup(g, m, at).1] + RunMap(MapLookup(g, m, at).0, ops[1..])
  }

  /** No lookup of the run meets an expired entry, except perhaps the last one. */
  predicate Fresh(g: MacMap, ops: seq<Op>)
    decreases |ops|
  {
    |ops| <= 1 ||
    match ops[0]
    case DoLearn(m, p, at) => Fresh(MapLearn(g, m, p, at), ops[1..])
    case DoLookup(m, at) => (m in g ==> at - g[m].seen <= TTL) && Fresh(g, ops[1..])
  }

  /** The unicast MACs a run learns. */
  function Learned(ops: seq<Op>): set<Mac> {
    if ops == [] then {}
    else (if ops[0].DoLearn? && !Multicast(ops[0].mac) then {ops[0].mac} else {}) + Learned(ops[1..])
  }

  lemma KeysOfStep(g: MacMap, ops: seq<Op>)
    requires ops != [] && ops[0].DoLearn?
    ensures MapLearn(g, ops[0].mac, ops[0].port, ops[0].at).Keys + Learned(ops[1..]) == g.Keys + Learned(ops)
    ensures Multicast(ops[0].mac) || g.Keys + {ops[0].mac} <= g.Keys + Learned(ops)
  {
  }

  lemma LearnStep(t: Table, g: MacMap, ops: seq<Op>)
    requires ops != [] && ops[0].DoLearn?
    requires Findable(t) && Same(t, g) && |g.Keys + Learned(ops)| <= SIZE
    ensures var u, h := Learn(t, ops[0].mac, ops[0].port, ops[0].at), MapLearn(g, ops[0].mac, ops[0].port, ops[0].at);
            Findable(u) && Same(u, h) && |h.Keys + Learned(ops[1..])| <= SIZE
  {
    hide *;
    KeysOfStep(g, ops);
    if !Multicast(ops[0].mac) {
      SubsetSize(g.Keys + {ops[0].mac}, g.Keys + Learned(ops));
    }
    LearnKeepsFindable(t, ops[0].mac, ops[0].port, ops[0].at);
    LearnKeepsSame(t, g, ops[0].mac, ops[0].port, ops[0].at);
  }

  lemma {:induction false} RunsAgreeFrom(t: Table, g: MacMap, ops: seq<Op>)
    requires Findable(t) && Same(t, g) && Fresh(g, ops) && |g.Keys + Learned(ops)| <= SIZE
    ensures RunTable(t, ops) == RunMap(g, ops)
    decreases |ops|
  {
    hide Hash, Probe, Learn, Findable, Same, MapLearn, Lookup;
    if ops != [] {
      match ops[0]
      case DoLearn(m, p, at) =>
        LearnStep(t, g, ops);
        RunsAgreeFrom(Learn(t, m, p, at), MapLearn(g, m, p, at), ops[1..]);
      case DoLookup(m, at) =>
        LookupAgrees(t, g, m, at);
        if |ops| > 1 {
          LookupChangesNothing(t, g, m, at);
          RunsAgreeFrom(t, g, ops[1..]);
        } else {
          assert ops[1..] == [];
        }
    }
  }

  lemma LookupChangesNothing(t: Table, g: MacMap, m: Mac, now: int)
    requires Findable(t) && Same(t, g) && (m in g ==> now - g[m].seen <= TTL)
    ensures Lookup(t, m, now).0 == t && MapLookup(g, m, now).0 == g
  {
    hide Hash;
    if Probe(t, m, 0) < SIZE {
      var s := Home(t, m);
      assert t[s].valid ==> t[s].mac in g;
    }
  }

  /**
   * From empty, with at most 256 distinct unicast MACs learned and nothing invalidated, the
   * probing table answers every lookup exactly as the Go switch's map does.
   */
  lemma TableIsMap(ops: seq<Op>)
    requires Fresh(map[], ops) && |Learned(ops)| <= SIZE
    ensures RunTable(EMPTY, ops) == RunMap(map[], ops)
  {
    EmptyIsFindable();
    var none: MacMap := map[];
    assert none.Keys + Learned(ops) == Learned(ops);
    RunsAgreeFrom(EMPTY, none, ops);
  }

  // ------------------------------------------------------------ what invalidation does to agreement

  function Invalidate(t: Table, dead: set<int>): Table {
    seq(SIZE, i requires 0 <= i < SIZE => if i in dead then t[i].(valid := false) else t[i])
  }

  /** The map without the facts the dead slots held. */
  function MapWithout(t: Table, g: MacMap, dead: set<int>): MacMap {
    map m | m in g && Home(t, m) !in dead :: g[m]
  }

  /** No surviving entry has a dead slot between its bucket head and itself. */
  ghost predicate PathsAvoid(t: Table, dead: set<int>) {
    forall s, i :: 0 <= s < SIZE && t[s].valid && s !in dead && 0 <= i < Steps(t[s].mac, s)
                   ==> Slot(Hash(t[s].mac), i) !in dead
  }

  ghost predicate AgreeOnAll(t: Table, g: MacMap) {
    forall m: Mac, now: int :: Lookup(t, m, now).1 == MapLookup(g, m, now).1
  }

  lemma SurvivorsStayFindable(t: Table, dead: set<int>)
    requires Findable(t) && PathsAvoid(t, dead)
    ensures Findable(Invalidate(t, dead))
  {
    hide Hash, Probe;
    var u := Invalidate(t, dead);
    FindableIffHealthy(t);
    assert Chained(u) by {
      forall s, i | 0 <= s < SIZE && u[s].valid && 0 <= i < Steps(u[s].mac, s)
        ensures u[Slot(Hash(u[s].mac), i)].valid
      {
        assert t[Slot(Hash(t[s].mac), i)].valid;
      }
    }
    FindableIffHealthy(u);
  }

  lemma SurvivorsStaySame(t: Table, g: MacMap, dead: set<int>)
    requires Findable(t) && Same(t, g)
    ensures Same(Invalidate(t, dead), MapWithout(t, g, dead))
  {
    hide Hash, Probe;
    var u, h := Invalidate(t, dead), MapWithout(t, g, dead);
    forall m | m in h
      ensures exists s :: 0 <= s < SIZE && u[s].valid && u[s].mac == m
    {
      var s :| 0 <= s < SIZE && t[s].valid && t[s].mac == m;
      assert Home(t, m) == s;
      assert u[s].valid && u[s].mac == m;
    }
  }

  lemma CutPathIsLost(t: Table, g: MacMap, dead: set<int>, s: nat, i: nat)
    requires Findable(t) && Same(t, g) && s < SIZE && t[s].valid && s !in dead
    requires i < Steps(t[s].mac, s) && Slot(Hash(t[s].mac), i) in dead
    ensures !AgreeOnAll(Invalidate(t, dead), MapWithout(t, g, dead))
  {
    hide Hash, Probe;
    var m := t[s].mac;
    assert Home(t, m) == s;
    StopsEarly(t, dead, m, s, i);
    assert Lookup(Invalidate(t, dead), m, t[s].seen).1 == None;
    assert MapLookup(MapWithout(t, g, dead), m, t[s].seen).1 == Some(t[s].port);
  }

  lemma StopsEarly(t: Table, dead: set<int>, m: Mac, s: nat, i: nat)
    requires s < SIZE && t[s].valid && t[s].mac == m && Probe(t, m, 0) < SIZE && Home(t, m) == s
    requires i < Steps(m, s) && Slot(Hash(m), i) in dead
    ensures var k := Probe(Invalidate(t, dead), m, 0);
            k < SIZE && !Invalidate(t, dead)[Slot(Hash(m), k)].valid
  {
    hide Hash;
    StepsUnique(m, Probe(t, m, 0));
    assert Stops(Invalidate(t, dead)[Slot(Hash(m), i)], m);
    assert !Stops(t[Slot(Hash(m), Probe(Invalidate(t, dead), m, 0))], m);
  }

  /** Different MACs sit in different slots. */
  lemma {:induction false} MacsNeedSlots(t: Table, ms: set<Mac>, n: nat, unused: nat)
    requires n <= SIZE
    requires forall m :: m in ms ==> exists s :: 0 <= s < n && s != unused && t[s].mac == m
    ensures |ms| <= if unused < n then n - 1 else n
    decreases n
  {
    if n == 0 {
      assert ms == {};
    } else if n - 1 == unused {
      MacsNeedSlots(t, ms, n - 1, unused);
    } else {
      MacsNeedSlots(t, ms - {t[n - 1].mac}, n - 1, unused);
    }
  }

  /** A map of SIZE entries leaves the table that agrees with it no room for another MAC. */
  lemma NoRoomFor(t: Table, g: MacMap, m: Mac)
    requires Findable(t) && Same(t, g) && |g.Keys + {m}| > SIZE
    ensures Probe(t, m, 0) == SIZE
  {
    hide Hash, Probe, Findable;
    assert m in g ==> g.Keys + {m} == g.Keys;
    FactsNeedSlots(t, g, SIZE);
    if Probe(t, m, 0) < SIZE {
      FactsNeedSlots(t, g, Slot(Hash(m), Probe(t, m, 0)));
    }
  }

  lemma FactsNeedSlots(t: Table, g: MacMap, unused: nat)
    requires Same(t, g) && (unused < SIZE ==> !t[unused].valid)
    ensures |g.Keys| <= if unused < SIZE then SIZE - 1 else SIZE
  {
    MacsNeedSlots(t, g.Keys, SIZE, unused);
  }

  /** Whoever sat at the bucket head of a full table is lost to it, but not to the map. */
  lemma OverwriteLoses(t: Table, g: MacMap, m: Mac, port: int, now: int)
    requires Findable(t) && Same(t, g) && !Multicast(m) && Probe(t, m, 0) == SIZE
    ensures !AgreeOnAll(Learn(t, m, port, now), MapLearn(g, m, port, now))
  {
    hide Hash, Probe, Lookup, Learn, Findable, Chained;
    AllTaken(t, m);
    FindableIffHealthy(t);
    var w := Hash(m);
    var x := t[w].mac;
    LearnFull(t, m, port, now);
    NotInTable(Learn(t, m, port, now), x, t[w].seen);
    assert MapLookup(MapLearn(g, m, port, now), x, t[w].seen).1 == Some(t[w].port);
  }

  lemma NotInTable(t: Table, m: Mac, now: int)
    requires forall s :: 0 <= s < SIZE ==> !Stops(t[s], m)
    ensures Lookup(t, m, now).1 == None
  {
    hide Hash;
  }

  /**
   * A learn leaves a healthy table in agreement with the map, on every lookup to come, iff
   * both still fit: the 257th MAC pushes another one out of the table.
   */
  lemma LearnAgreesIff(t: Table, g: MacMap, m: Mac, port: int, now: int)
    requires Findable(t) && Same(t, g)
    ensures AgreeOnAll(Learn(t, m, port, now), MapLearn(g, m, port, now)) <==>
              Multicast(m) || |g.Keys + {m}| <= SIZE
  {
    hide Hash, Probe, Lookup, MapLookup, Learn, Findable, Same, MapLearn;
    if Multicast(m) || |g.Keys + {m}| <= SIZE {
      LearnKeepsFindable(t, m, port, now);
      LearnKeepsSame(t, g, m, port, now);
      forall x: Mac, at: int
        ensures Lookup(Learn(t, m, port, now), x, at).1 == MapLookup(MapLearn(g, m, port, now), x, at).1
      {
        LookupAgrees(Learn(t, m, port, now), MapLearn(g, m, port, now), x, at);
      }
    } else {
      NoRoomFor(t, g, m);
      OverwriteLoses(t, g, m, port, now);
    }
  }

  /** After invalidating slots of a healthy table, it still answers as the map does iff no survivor's path was cut. */
  lemma InvalidateAgreesIff(t: Table, g: MacMap, dead: set<int>)
    requires Findable(t) && Same(t, g)
    ensures AgreeOnAll(Invalidate(t, dead), MapWithout(t, g, dead)) <==> PathsAvoid(t, dead)
  {
    hide Hash, Probe, Lookup, MapLookup;
    if PathsAvoid(t, dead) {
      SurvivorsStayFindable(t, dead);
      SurvivorsStaySame(t, g, dead);
      forall m: Mac, now: int
        ensures Lookup(Invalidate(t, dead), m, now).1 == MapLookup(MapWithout(t, g, dead), m, now).1
      {
        LookupAgrees(Invalidate(t, dead), MapWithout(t, g, dead), m, now);
      }
    } else {
      var s, i :| 0 <= s < SIZE && t[s].valid && s !in dead && 0 <= i < Steps(t[s].mac, s)
                  && Slot(Hash(t[s].mac), i) in dead;
      CutPathIsLost(t, g, dead, s, i);
    }
  }

  /** The slots mac_forget_port invalidates. */
  function SlotsOf(t: Table, port: int): set<int> {
    set s | 0 <= s < SIZE && t[s].valid && t[s].port == port
  }

  /** mac_forget_port leaves table and map in agreement iff no other port's entry was probed past the port's slots. */
  lemma ForgetAgreesIff(t: Table, g: MacMap, port: int)
    requires Findable(t) && Same(t, g)
    ensures AgreeOnAll(Forget(t, port), MapForget(g, port)) <==> PathsAvoid(t, SlotsOf(t, port))
  {
    hide Hash, Probe, Lookup, MapLookup, AgreeOnAll, PathsAvoid;
    var dead := SlotsOf(t, port);
    assert Forget(t, port) == Invalidate(t, dead);
    forall m | m in g
      ensures Home(t, m) in dead <==> g[m].port == port
    {
      var s :| 0 <= s < SIZE && t[s].valid && t[s].mac == m;
      assert Home(t, m) == s;
    }
    assert MapForget(g, port) == MapWithout(t, g, dead);
    InvalidateAgreesIff(t, g, dead);
  }

  /** A lookup that expires an entry leaves them in agreement iff no other entry was probed past its slot. */
  lemma ExpiryAgreesIff(t: Table, g: MacMap, m: Mac, now: int)
    requires Findable(t) && Same(t, g) && m in g && now - g[m].seen > TTL
    ensures AgreeOnAll(Lookup(t, m, now).0, MapLookup(g, m, now).0) <==> PathsAvoid(t, {Home(t, m)})
  {
    hide Hash, Probe, AgreeOnAll, PathsAvoid;
    var s :| 0 <= s < SIZE && t[s].valid && t[s].mac == m;
    assert Home(t, m) == s;
    assert Lookup(t, m, now).0 == Invalidate(t, {s});
    forall x | x in g && x != m
      ensures Home(t, x) != s
    {
      var z :| 0 <= z < SIZE && t[z].valid && t[z].mac == x;
      assert Home(t, x) == z;
    }
    assert MapLookup(g, m, now).0 == MapWithout(t, g, {s});
    InvalidateAgreesIff(t, g, {s});
  }

  /**
   * A cut path in the flesh: two MACs share a bucket, the first one's port leaves, and the
   * table no longer finds the second, which the map still knows.
   */
  lemma ForgetHidesNeighbour()
    ensures var a, b := [2, 0, 0, 0, 0, 0], [2, 0, 0, 0, 1, 0];
            var t := Forget(Learn(Learn(EMPTY, a, 0, 0), b, 1, 0), 0);
            var g := MapForget(MapLearn(MapLearn(map[], a, 0, 0), b, 1, 0), 0);
            Lookup(t, b, 0).1 == None && MapLookup(g, b, 0).1 == Some(1)
  {
    var a: Mac, b: Mac := [2, 0, 0, 0, 0, 0], [2, 0, 0, 0, 1, 0];
    CollidingHashes();
    assert Slot(32, 0) == 32 && Slot(32, 1) == 33;
    var t1: Table := Learn(EMPTY, a, 0, 0);
    assert Home(EMPTY, a) == 32;
    assert !Stops(t1[Slot(32, 0)], b) && Stops(t1[Slot(32, 1)], b);
    assert Home(t1, b) == 33;
  }

  /**
   * Forgetting can also bring an older answer back: a was last taught at port 2, which left,
   * yet the table still answers with port 1, learned before; the map knows nothing of a.
   */
  lemma ForgetUncoversOlder()
    ensures var a, b := [2, 0, 0, 0, 0, 0], [2, 0, 0, 0, 1, 0];
            var t := Learn(Forget(Learn(Forget(Learn(Learn(EMPTY, b, 0, 0), a, 1, 0), 0), a, 2, 0), 2), b, 3, 0);
            Lookup(t, a, 0).1 == Some(1)
  {
    hide Hash;
    var a: Mac, b: Mac := [2, 0, 0, 0, 0, 0], [2, 0, 0, 0, 1, 0];
    CollidingHashes();
    assert Slot(32, 0) == 32 && Slot(32, 1) == 33;
    var t1: Table := Learn(EMPTY, b, 0, 0);
    assert Home(EMPTY, b) == 32;
    assert !Stops(t1[Slot(32, 0)], a) && Stops(t1[Slot(32, 1)], a);
    var t2 := Learn(t1, a, 1, 0);
    assert Home(t1, a) == 33;
    var t3 := Forget(t2, 0);
    assert t3[32] == FREE.(mac := b) && t3[33] == Entry(a, 1, 0, true);
    assert Stops(t3[Slot(32, 0)], a);
    var t4 := Learn(t3, a, 2, 0);
    assert Home(t3, a) == 32;
    var t5 := Forget(t4, 2);
    assert !t5[32].valid && t5[33] == Entry(a, 1, 0, true);
    assert Stops(t5[Slot(32, 0)], b);
    var t6 := Learn(t5, b, 3, 0);
    assert Home(t5, b) == 32;
    assert !Stops(t6[Slot(32, 0)], a) && Stops(t6[Slot(32, 1)], a);
    assert Probe(t6, a, 0) == 1;
  }

  lemma CollidingHashes()
    ensures Hash([2, 0, 0, 0, 0, 0]) == 32 == Hash([2, 0, 0, 0, 1, 0])
  {
  }

  // ------------------------------------------------------------ soundness over every history

  /** What happened to the table: learns, and ports forgotten. */
  datatype Event = Learnt(mac: Mac, port: int, at: int) | Forgot(port: int)

  /** Event k of the log taught m at port p at time at, and p was not forgotten since. */
  ghost predicate Taught(log: seq<Event>, k: nat, m: Mac, p: int, at: int) {
    && k < |log| && log[k] == Learnt(m, p, at)
    && forall j :: k < j < |log| ==> log[j] != Forgot(p)
  }

  /** Port p was taught for m at most TTL seconds ago and not forgotten since. */
  ghost predicate Backed(log: seq<Event>, m: Mac, p: int, now: int) {
    exists k, at :: Taught(log, k, m, p, at) && now - at <= TTL
  }

  /** Every valid entry was taught, with nothing since that should have removed it. */
  ghost predicate Sound(t: Table, log: seq<Event>) {
    forall s :: 0 <= s < SIZE && t[s].valid ==> exists k :: Taught(log, k, t[s].mac, t[s].port, t[s].seen)
  }

  lemma LearnKeepsSound(t: Table, log: seq<Event>, m: Mac, port: int, now: int)
    requires Sound(t, log)
    ensures Sound(Learn(t, m, port, now), log + [Learnt(m, port, now)])
  {
    hide Hash, Home;
    var u, after := Learn(t, m, port, now), log + [Learnt(m, port, now)];
    forall s | 0 <= s < SIZE && u[s].valid
      ensures exists k :: Taught(after, k, u[s].mac, u[s].port, u[s].seen)
    {
      if u[s] == t[s] {
        var k :| Taught(log, k, t[s].mac, t[s].port, t[s].seen);
        assert Taught(after, k, u[s].mac, u[s].port, u[s].seen);
      } else {
        assert Taught(after, |log|, m, port, now);
      }
    }
  }

  lemma ForgetKeepsSound(t: Table, log: seq<Event>, port: int)
    requires Sound(t, log)
    ensures Sound(Forget(t, port), log + [Forgot(port)])
    ensures forall s :: 0 <= s < SIZE && Forget(t, port)[s].valid ==> Forget(t, port)[s].port != port
  {
    var u, after := Forget(t, port), log + [Forgot(port)];
    forall s | 0 <= s < SIZE && u[s].valid
      ensures exists k :: Taught(after, k, u[s].mac, u[s].port, u[s].seen)
    {
      var k :| Taught(log, k, t[s].mac, t[s].port, t[s].seen);
      assert Taught(after, k, u[s].mac, u[s].port, u[s].seen);
    }
  }

  lemma LookupKeepsSound(t: Table, log: seq<Event>, m: Mac, now: int)
    requires Sound(t, log)
    ensures Sound(Lookup(t, m, now).0, log)
    ensures Lookup(t, m, now).1.Some? ==> Backed(log, m, Lookup(t, m, now).1.value, now)
  {
    hide Hash;
    var r := Lookup(t, m, now);
    forall s | 0 <= s < SIZE && r.0[s].valid
      ensures exists k :: Taught(log, k, r.0[s].mac, r.0[s].port, r.0[s].seen)
    {
      assert r.0[s] == t[s];
    }
    if r.1.Some? {
      var s := Home(t, m);
      var k :| Taught(log, k, t[s].mac, t[s].port, t[s].seen);
      assert Taught(log, k, m, r.1.value, t[s].seen);
    }
  }

  /** Any operation at all, forgets included. */
  datatype Act = Teach(mac: Mac, port: int, at: int) | Ask(mac: Mac, at: int) | Drop(port: int)

  function Perform(t: Table, a: Act): Table {
    match a
    case Teach(m, p, at) => Learn(t, m, p, at)
    case Ask(m, at) => Lookup(t, m, at).0
    case Drop(p) => Forget(t, p)
  }

  function PerformAll(t: Table, acts: seq<Act>): Table
    decreases |acts|
  {
    if acts == [] then t else PerformAll(Perform(t, acts[0]), acts[1..])
  }

  function EventOf(a: Act): seq<Event> {
    match a
    case Teach(m, p, at) => [Learnt(m, p, at)]
    case Ask(_, _) => []
    case Drop(p) => [Forgot(p)]
  }

  function LogOf(acts: seq<Act>): seq<Event> {
    if acts == [] then [] else EventOf(acts[0]) + LogOf(acts[1..])
  }

  lemma ActKeepsSound(t: Table, log: seq<Event>, a: Act)
    requires Sound(t, log)
    ensures Sound(Perform(t, a), log + EventOf(a))
  {
    hide Learn, Lookup, Forget, Sound;
    match a
    case Teach(m, p, at) => LearnKeepsSound(t, log, m, p, at);
    case Ask(m, at) => LookupKeepsSound(t, log, m, at); assert log + [] == log;
    case Drop(p) => ForgetKeepsSound(t, log, p);
  }

  lemma {:induction false} RunKeepsSound(t: Table, log: seq<Event>, acts: seq<Act>)
    requires Sound(t, log)
    ensures Sound(PerformAll(t, acts), log + LogOf(acts))
    decreases |acts|
  {
    hide Perform, Sound, EventOf;
    if acts == [] {
      assert log + LogOf(acts) == log;
    } else {
      ActKeepsSound(t, log, acts[0]);
      RunKeepsSound(Perform(t, acts[0]), log + EventOf(acts[0]), acts[1..]);
      assert log + EventOf(acts[0]) + LogOf(acts[1..]) == log + LogOf(acts);
    }
  }

  /**
   * After any run of learns, lookups (with their expiries) and forgets, a port returned for a
   * MAC was learned for that MAC at most TTL seconds ago and not forgotten since.
   */
  lemma AnswersAreSound(acts: seq<Act>, m: Mac, now: int, p: int)
    requires Lookup(PerformAll(EMPTY, acts), m, now).1 == Some(p)
    ensures Backed(LogOf(acts), m, p, now)
  {
    RunKeepsSound(EMPTY, [], acts);
    assert [] + LogOf(acts) == LogOf(acts);
    LookupKeepsSound(PerformAll(EMPTY, acts), LogOf(acts), m, now);
  }
}
