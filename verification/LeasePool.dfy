/**
 * The DHCP lease pool (vdeplug-go/internal/dhcp/dhcp.go): stable leases per MAC, and the
 * restore of a table gossiped by a previous hub.  Addresses are 32-bit values.
 */
module LeasePool {
  import opened Bytes

  const SPACE := 0x1_0000_0000

  datatype State = State(base: uint32, size: nat, next: nat, leased: map<Mac, uint32>, order: seq<Mac>)

  function Fresh(base: uint32, size: nat): State {
    State(base, size, 0, map[], [])
  }

  /** The pool address at an offset, in 32-bit arithmetic. */
  function LeaseAddr(base: uint32, off: nat): uint32 {
    (base + off) % SPACE
  }

  /** The offset of an address; below the pool size means inside the pool. */
  function OffsetOf(base: uint32, ip: uint32): (off: nat)
    ensures off < SPACE && LeaseAddr(base, off) == ip
  {
    (ip - base) % SPACE
  }

  lemma OffsetOfAddr(base: uint32, off: nat)
    requires off < SPACE
    ensures OffsetOf(base, LeaseAddr(base, off)) == off
  {
  }

  function Assign(p: State, m: Mac): (State, Option<uint32>) {
    if m in p.leased then (p, Some(p.leased[m]))
    else if p.next >= p.size then (p, None)
    else
      var ip := LeaseAddr(p.base, p.next);
      (p.(next := p.next + 1, leased := p.leased[m := ip], order := p.order + [m]), Some(ip))
  }

  function AssignAll(p: State, ms: seq<Mac>): State
    decreases |ms|
  {
    if ms == [] then p else AssignAll(Assign(p, ms[0]).0, ms[1..])
  }

  // ------------------------------------------------------------ invariants

  ghost predicate Injective(a: map<Mac, uint32>) {
    forall m, n :: m in a && n in a && a[m] == a[n] ==> m == n
  }

  /** Some MAC holds this address. */
  ghost predicate Holds(a: map<Mac, uint32>, ip: uint32) {
    exists m :: m in a && a[m] == ip
  }

  /** order lists the leased MACs, each once, and next counts them. */
  ghost predicate Listed(p: State) {
    && p.size <= SPACE
    && p.next == |p.order|
    && (forall i, j :: 0 <= i < j < |p.order| ==> p.order[i] != p.order[j])
    && (forall m :: m in p.order <==> m in p.leased)
  }

  /** The i-th client holds the i-th address: a bijection from MACs onto the first `next` addresses. */
  ghost predicate Prefix(p: State) {
    && Listed(p) && p.next <= p.size
    && forall i :: 0 <= i < |p.order| ==> p.leased[p.order[i]] == LeaseAddr(p.base, i)
  }

  lemma PrefixIsBijection(p: State)
    requires Prefix(p)
    ensures Injective(p.leased)
    ensures forall m :: m in p.leased ==> OffsetOf(p.base, p.leased[m]) < p.next
    ensures forall off :: 0 <= off < p.next ==> Holds(p.leased, LeaseAddr(p.base, off))
  {
    hide LeaseAddr, OffsetOf;
    forall m | m in p.leased
      ensures OffsetOf(p.base, p.leased[m]) < p.next && p.order[OffsetOf(p.base, p.leased[m])] == m
    {
      var i :| 0 <= i < |p.order| && p.order[i] == m;
      OffsetOfAddr(p.base, i);
    }
    assert Injective(p.leased) by {
      forall m, n | m in p.leased && n in p.leased && p.leased[m] == p.leased[n]
        ensures m == n
      {
        assert p.order[OffsetOf(p.base, p.leased[m])] == p.order[OffsetOf(p.base, p.leased[n])];
      }
    }
    forall off | 0 <= off < p.next
      ensures Holds(p.leased, LeaseAddr(p.base, off))
    {
      assert p.order[off] in p.leased;
    }
  }

  lemma FreshIsPrefix(base: uint32, size: nat)
    requires size <= SPACE
    ensures Prefix(Fresh(base, size))
  {
  }

  /** A lease never moves, and a healthy pool stays healthy. */
  lemma AssignKeepsPrefix(p: State, m: Mac)
    requires Prefix(p)
    ensures Prefix(Assign(p, m).0)
    ensures forall k :: k in p.leased ==> k in Assign(p, m).0.leased && Assign(p, m).0.leased[k] == p.leased[k]
    ensures Assign(p, m).1 == None <==> m !in p.leased && p.next == p.size
    ensures Assign(p, m).1.Some? ==> m in Assign(p, m).0.leased && Assign(p, m).0.leased[m] == Assign(p, m).1.value
  {
    hide LeaseAddr;
  }

  // ------------------------------------------------------------ restoring gossip

  /** What a restore of `leases` into an empty pool may leave; the map's iteration order is free. */
  ghost predicate Restored(q: State, leases: map<Mac, uint32>) {
    && Listed(q) && q.next <= q.size
    && (forall m :: m in q.leased ==>
          m in leases && leases[m] == q.leased[m] && OffsetOf(q.base, leases[m]) < q.size)
    && Injective(q.leased)
    && (forall m :: m in leases && OffsetOf(q.base, leases[m]) < q.size ==> Holds(q.leased, leases[m]))
    && Ascending(q.base, q.leased, q.order)
  }

  /** MACs are listed in strictly ascending address order. */
  ghost predicate Ascending(base: uint32, leased: map<Mac, uint32>, order: seq<Mac>)
    requires forall m :: m in order ==> m in leased
  {
    forall i, j :: 0 <= i < j < |order| ==> OffsetOf(base, leased[order[i]]) < OffsetOf(base, leased[order[j]])
  }

  /** First() names the lowest restored address. */
  lemma FirstIsLowest(q: State, leases: map<Mac, uint32>, m: Mac)
    requires Restored(q, leases) && m in leases && OffsetOf(q.base, leases[m]) < q.size
    ensures q.order != [] && OffsetOf(q.base, q.leased[q.order[0]]) <= OffsetOf(q.base, leases[m])
  {
    hide OffsetOf, LeaseAddr, Ascending, Injective;
    var k :| k in q.leased && q.leased[k] == leases[m];
    assert k in q.order;
    var i :| 0 <= i < |q.order| && q.order[i] == k;
    if i > 0 {
      AscendingPair(q.base, q.leased, q.order, 0, i);
    }
  }

  lemma AscendingPair(base: uint32, leased: map<Mac, uint32>, order: seq<Mac>, i: nat, j: nat)
    requires forall m :: m in order ==> m in leased
    requires Ascending(base, leased, order) && i < j < |order|
    ensures OffsetOf(base, leased[order[i]]) < OffsetOf(base, leased[order[j]])
  {
    hide OffsetOf;
  }

  /** n strictly ascending numbers below n are 0, 1, ... n-1. */
  lemma {:induction false} AscendingBelow(a: seq<nat>, i: nat)
    requires i < |a| && (forall j, k :: 0 <= j < k < |a| ==> a[j] < a[k]) && (forall j :: 0 <= j < |a| ==> a[j] < |a|)
    ensures a[i] == i
  {
    AtLeast(a, i);
    AtMost(a, i);
  }

  lemma {:induction false} AtLeast(a: seq<nat>, i: nat)
    requires i < |a| && forall j, k :: 0 <= j < k < |a| ==> a[j] < a[k]
    ensures a[i] >= i
  {
    if i > 0 {
      AtLeast(a, i - 1);
    }
  }

  lemma {:induction false} AtMost(a: seq<nat>, i: nat)
    requires i < |a| && (forall j, k :: 0 <= j < k < |a| ==> a[j] < a[k]) && (forall j :: 0 <= j < |a| ==> a[j] < |a|)
    ensures a[i] <= i
    decreases |a| - i
  {
    if i + 1 < |a| {
      AtMost(a, i + 1);
    }
  }

  /** Nothing of a part of a healthy pool's table is lost by a restore. */
  lemma RestoreKeepsAll(p: State, leases: map<Mac, uint32>, q: State)
    requires Prefix(p) && Restored(q, leases) && q.base == p.base && q.size == p.size
    requires forall m :: m in leases ==> m in p.leased && p.leased[m] == leases[m]
    ensures q.leased == leases && q.next == |leases.Keys|
  {
    hide OffsetOf, LeaseAddr, Ascending;
    PrefixIsBijection(p);
    forall m | m in leases
      ensures m in q.leased
    {
      assert Holds(q.leased, leases[m]);
      var k :| k in q.leased && q.leased[k] == leases[m];
    }
    DistinctCount(q.order, q.leased.Keys);
  }

  /** Restoring a healthy pool's own table gives back that very pool: table, order and next. */
  lemma RestoreOfSnapshot(p: State, q: State)
    requires Prefix(p) && Restored(q, p.leased) && q.base == p.base && q.size == p.size
    ensures q == p
  {
    hide Prefix, Restored, OffsetOf, LeaseAddr;
    RestoreKeepsAll(p, p.leased, q);
    RestoredParts(q, p.leased);
    SameOrder(p, q);
  }

  /** A healthy pool is what restoring its own table may leave. */
  lemma PrefixIsRestored(p: State)
    requires Prefix(p)
    ensures Restored(p, p.leased)
  {
    hide LeaseAddr, OffsetOf;
    PrefixIsBijection(p);
    forall m | m in p.leased
      ensures Holds(p.leased, p.leased[m])
    {
    }
    forall i | 0 <= i < |p.order|
      ensures OffsetOf(p.base, p.leased[p.order[i]]) == i
    {
      OffsetOfAddr(p.base, i);
    }
  }

  lemma RestoredParts(q: State, leases: map<Mac, uint32>)
    requires Restored(q, leases)
    ensures Listed(q) && Ascending(q.base, q.leased, q.order)
  {
  }

  /** An ascending listing of a healthy pool's table is the pool's own order. */
  lemma SameOrder(p: State, q: State)
    requires Prefix(p) && Listed(q) && q.base == p.base && q.leased == p.leased
    requires Ascending(q.base, q.leased, q.order)
    ensures q.order == p.order && q.next == p.next
  {
    hide OffsetOf, LeaseAddr;
    PrefixIsBijection(p);
    SameLength(p, q);
    var offs := seq(|q.order|, i requires 0 <= i < |q.order| => OffsetOf(q.base, q.leased[q.order[i]]));
    forall i | 0 <= i < |q.order|
      ensures q.order[i] == p.order[i]
    {
      AscendingBelow(offs, i);
      SameHolder(p, i, q.order[i]);
    }
  }

  lemma SameHolder(p: State, i: nat, m: Mac)
    requires Prefix(p) && i < |p.order| && m in p.leased && OffsetOf(p.base, p.leased[m]) == i
    ensures p.order[i] == m
  {
    hide LeaseAddr, OffsetOf;
    var j :| 0 <= j < |p.order| && p.order[j] == m;
    OffsetOfAddr(p.base, j);
  }

  lemma SameLength(p: State, q: State)
    requires Listed(p) && Listed(q) && p.leased == q.leased
    ensures |p.order| == |q.order|
  {
    DistinctCount(p.order, p.leased.Keys);
    DistinctCount(q.order, q.leased.Keys);
  }

  lemma {:induction false} DistinctCount(s: seq<Mac>, keys: set<Mac>)
    requires forall i, j :: 0 <= i < j < |s| ==> s[i] != s[j]
    requires forall m :: m in s <==> m in keys
    ensures |s| == |keys|
    decreases |s|
  {
    if s != [] {
      var last := |s| - 1;
      assert forall m :: m in s[..last] <==> m in keys - {s[last]};
      DistinctCount(s[..last], keys - {s[last]});
    }
  }

  // ------------------------------------------------------------ when is a restored pool safe?

  /** No future run of lease requests gives one address to two MACs. */
  ghost predicate Safe(q: State) {
    forall ms: seq<Mac> :: Injective(AssignAll(q, ms).leased)
  }

  /** The restored offsets have no gap: all of them lie below their number. */
  ghost predicate Gapless(q: State) {
    forall m :: m in q.leased ==> OffsetOf(q.base, q.leased[m]) < q.next
  }

  lemma {:induction false} GaplessRunIsInjective(q: State, ms: seq<Mac>)
    requires Listed(q) && Injective(q.leased) && Gapless(q)
    ensures Injective(AssignAll(q, ms).leased)
    decreases |ms|
  {
    hide LeaseAddr, OffsetOf;
    if ms != [] {
      if ms[0] !in q.leased && q.next < q.size {
        OffsetOfAddr(q.base, q.next);
      }
      GaplessRunIsInjective(Assign(q, ms[0]).0, ms[1..]);
    }
  }

  /** Distinct MACs that a pool of this size has not all seen: a supply of newcomers. */
  function MacNumber(k: nat): Mac
    requires k < SPACE * 256
  {
    [2] + [k / SPACE] + Be32(k % SPACE)
  }

  lemma MacNumberInjective(j: nat, k: nat)
    requires j < SPACE * 256 && k < SPACE * 256 && MacNumber(j) == MacNumber(k)
    ensures j == k
  {
    var a, b := MacNumber(j), MacNumber(k);
    assert a[1] == b[1] && a[2..] == Be32(j % SPACE) && b[2..] == Be32(k % SPACE);
    Un32Be32(j % SPACE);
    Un32Be32(k % SPACE);
  }

  lemma {:induction false} Numbered(n: nat) returns (ms: set<Mac>)
    requires n <= SPACE * 256
    ensures |ms| == n
    ensures forall m :: m in ms ==> exists k :: 0 <= k < n && MacNumber(k) == m
    decreases n
  {
    hide MacNumber;
    ms := {};
    if n > 0 {
      var rest := Numbered(n - 1);
      var m := MacNumber(n - 1);
      if m in rest {
        var k :| 0 <= k < n - 1 && MacNumber(k) == m;
        MacNumberInjective(k, n - 1);
      }
      ms := rest + {m};
    }
  }

  lemma Newcomer(seen: set<Mac>) returns (m: Mac)
    requires |seen| < SPACE * 256
    ensures m !in seen
  {
    var ms := Numbered(|seen| + 1);
    if ms <= seen {
      SubsetSize(ms, seen);
    }
    m :| m in ms && m !in seen;
  }

  /** With a gap, enough newcomers are handed an address that is already leased. */
  lemma {:induction false} GapLeadsToDoubleLease(q: State, victim: Mac) returns (ms: seq<Mac>)
    requires Listed(q) && victim in q.leased
    requires q.next <= OffsetOf(q.base, q.leased[victim]) < q.size
    ensures !Injective(AssignAll(q, ms).leased)
    decreases OffsetOf(q.base, q.leased[victim]) - q.next
  {
    hide LeaseAddr, OffsetOf, Injective;
    DistinctCount(q.order, q.leased.Keys);
    var m := Newcomer(q.leased.Keys);
    var off := OffsetOf(q.base, q.leased[victim]);
    var (after, given) := Assign(q, m);
    if off == q.next {
      ms := [m];
      assert ms[1..] == [];
      assert AssignAll(after, []) == after;
      assert after.leased[m] == after.leased[victim];
      NotInjective(after.leased, m, victim);
    } else {
      var rest := GapLeadsToDoubleLease(after, victim);
      ms := [m] + rest;
      assert ms[1..] == rest;
    }
  }

  lemma NotInjective(a: map<Mac, uint32>, m: Mac, n: Mac)
    requires m in a && n in a && m != n && a[m] == a[n]
    ensures !Injective(a)
  {
  }

  /** A restored pool is safe iff its counter is above all restored offsets. */
  lemma SafeIffGapless(q: State, leases: map<Mac, uint32>)
    requires Restored(q, leases)
    ensures Safe(q) <==> Gapless(q)
    ensures Gapless(q) <==> forall m :: m in leases && OffsetOf(q.base, leases[m]) < q.size ==>
                                       OffsetOf(q.base, leases[m]) < q.next
  {
    hide LeaseAddr, OffsetOf, Ascending;
    if Gapless(q) {
      forall ms: seq<Mac>
        ensures Injective(AssignAll(q, ms).leased)
      {
        GaplessRunIsInjective(q, ms);
      }
    } else {
      var victim :| victim in q.leased && OffsetOf(q.base, q.leased[victim]) >= q.next;
      var ms := GapLeadsToDoubleLease(q, victim);
    }
  }

  /** No pool address that somebody claims lies above one that nobody claims. */
  ghost predicate NoHoles(leases: map<Mac, uint32>, base: uint32, size: nat) {
    forall lo: nat, hi: nat ::
      lo < hi < size && Holds(leases, LeaseAddr(base, hi)) ==> Holds(leases, LeaseAddr(base, lo))
  }

  /** Strictly ascending numbers among which are all below k are at least k many. */
  lemma {:induction false} AscendingDense(a: seq<nat>, k: nat)
    requires (forall i, j :: 0 <= i < j < |a| ==> a[i] < a[j]) && (forall v: nat :: v < k ==> v in a)
    ensures |a| >= k
    decreases k
  {
    if k > 0 {
      var top: nat := k - 1;
      assert top in a;
      var j :| 0 <= j < |a| && a[j] == top;
      forall v: nat | v < top
        ensures v in a[..j]
      {
        assert v in a;
        var i :| 0 <= i < |a| && a[i] == v;
        assert a[..j][i] == v;
      }
      AscendingDense(a[..j], top);
    }
  }

  /** The offsets of a restored pool, in the order they were restored. */
  ghost function Offsets(q: State): (a: seq<nat>)
    requires Listed(q) && Ascending(q.base, q.leased, q.order)
    ensures |a| == q.next && forall i, j :: 0 <= i < j < |a| ==> a[i] < a[j]
  {
    seq(|q.order|, i requires 0 <= i < |q.order| => OffsetOf(q.base, q.leased[q.order[i]]))
  }

  /** An offset of the pool is among the restored ones iff somebody claimed its address. */
  lemma OffsetsAreClaims(q: State, leases: map<Mac, uint32>, off: nat)
    requires Restored(q, leases) && off < q.size
    ensures off in Offsets(q) <==> Holds(leases, LeaseAddr(q.base, off))
  {
    hide LeaseAddr, OffsetOf, Ascending;
    OffsetOfAddr(q.base, off);
    if off in Offsets(q) {
      var i :| 0 <= i < |q.order| && Offsets(q)[i] == off;
      var m := q.order[i];
      assert m in leases && leases[m] == LeaseAddr(q.base, off);
    }
    if Holds(leases, LeaseAddr(q.base, off)) {
      var m :| m in leases && leases[m] == LeaseAddr(q.base, off);
      var h :| h in q.leased && q.leased[h] == leases[m];
      var i :| 0 <= i < |q.order| && q.order[i] == h;
      assert Offsets(q)[i] == off;
    }
  }

  lemma GaplessIffNoHoles(q: State, leases: map<Mac, uint32>)
    requires Restored(q, leases)
    ensures Gapless(q) <==> NoHoles(leases, q.base, q.size)
  {
    hide LeaseAddr, OffsetOf, Ascending, Holds, Restored;
    RestoredParts(q, leases);
    if Gapless(q) {
      GaplessHasNoHoles(q, leases);
    } else {
      GapIsHole(q, leases);
    }
  }

  lemma GaplessHasNoHoles(q: State, leases: map<Mac, uint32>)
    requires Restored(q, leases) && Gapless(q)
    ensures NoHoles(leases, q.base, q.size)
  {
    hide LeaseAddr, OffsetOf, Ascending, Holds;
    var a := Offsets(q);
    assert forall i :: 0 <= i < |a| ==> q.order[i] in q.leased;
    forall lo: nat, hi: nat | lo < hi < q.size && Holds(leases, LeaseAddr(q.base, hi))
      ensures Holds(leases, LeaseAddr(q.base, lo))
    {
      OffsetsAreClaims(q, leases, hi);
      AscendingBelow(a, lo);
      OffsetsAreClaims(q, leases, lo);
    }
  }

  lemma GapIsHole(q: State, leases: map<Mac, uint32>)
    requires Restored(q, leases) && !Gapless(q)
    ensures !NoHoles(leases, q.base, q.size)
  {
    hide LeaseAddr, OffsetOf, Ascending;
    var m :| m in q.leased && OffsetOf(q.base, q.leased[m]) >= q.next;
    var hi := OffsetOf(q.base, q.leased[m]);
    assert Holds(leases, LeaseAddr(q.base, hi));
    if NoHoles(leases, q.base, q.size) {
      forall v: nat | v < hi + 1
        ensures v in Offsets(q)
      {
        OffsetsAreClaims(q, leases, v);
      }
      AscendingDense(Offsets(q), hi + 1);
    }
  }

  /**
   * A restored pool never leases one address twice, on any run, if and only if the gossip has
   * no hole: it claims no pool address above one that nobody claims.
   */
  lemma RestoredIsSafeIff(q: State, leases: map<Mac, uint32>)
    requires Restored(q, leases)
    ensures Safe(q) <==> NoHoles(leases, q.base, q.size)
  {
    hide Restored, Safe, Gapless, NoHoles;
    SafeIffGapless(q, leases);
    GaplessIffNoHoles(q, leases);
  }

  /** The hole of the repository's own restore test: 10.0.2.5 and 10.0.3.0 restored into a pool from 10.0.2.0. */
  lemma RestoreTestPoolIsUnsafe(q: State)
    requires q.base == 0x0A00_0200 && q.size == 300
    requires Restored(q, map[[0x52, 0x54, 0, 0, 0, 1] := 0x0A00_0205, [0x52, 0x54, 0, 0, 0, 2] := 0x0A00_0300])
    ensures !Safe(q)
  {
    hide Restored, Safe;
    var a: Mac, b: Mac := [0x52, 0x54, 0, 0, 0, 1], [0x52, 0x54, 0, 0, 0, 2];
    var leases: map<Mac, uint32> := map[a := 0x0A00_0205, b := 0x0A00_0300];
    assert a[5] != b[5];
    assert a in leases && leases[a] == LeaseAddr(q.base, 5);
    assert Holds(leases, LeaseAddr(q.base, 5)) && !Holds(leases, LeaseAddr(q.base, 0));
    RestoredIsSafeIff(q, leases);
  }

  // ------------------------------------------------------------ the subnet bound

  function Pow2(n: nat): (p: nat)
    ensures p >= 1
  {
    if n == 0 then 1 else 2 * Pow2(n - 1)
  }

  /** A parsed IPv4 network: an address and its prefix length. */
  datatype Cidr = Cidr(ip: uint32, bits: nat) {
    predicate Valid() {
      bits <= 32
    }

    /** Number of addresses; ^mask is one less. */
    function Block(): nat
      requires Valid()
    {
      Pow2(32 - bits)
    }

    function NetAddr(): int
      requires Valid()
    {
      ip - ip % Block()
    }

    /** netAddr | ^mask, whose operands share no bit. */
    function BroadcastAddr(): int
      requires Valid()
    {
      NetAddr() + (Block() - 1)
    }

    predicate Contains(a: int)
      requires Valid()
    {
      a - a % Block() == NetAddr()
    }
  }

  /** UsableLeases; None stands for a network or start that does not parse as IPv4. */
  function UsableLeases(network: Option<Cidr>, start: Option<uint32>, max: int): int
    requires network.Some? ==> network.value.Valid()
  {
    if start.None? || network.None? then 0
    else if start.value < network.value.NetAddr() || start.value >= network.value.BroadcastAddr() then 0
    else
      var n := network.value.BroadcastAddr() - start.value;
      if n > max then max else n
  }

  lemma MulMonotone(x: int, y: int, b: nat)
    requires x <= y
    ensures x * b <= y * b
  {
  }

  lemma DivModUnique(x: int, q: int, m: int, d: nat)
    requires 0 <= m < d && x == q * d + m
    ensures x / d == q && x % d == m
  {
    var q2, m2 := x / d, x % d;
    assert x == q2 * d + m2;
    if q2 > q {
      MulMonotone(q + 1, q2, d);
    } else if q2 < q {
      MulMonotone(q2 + 1, q, d);
    }
  }

  /** 2^m is a multiple of 2^n. */
  lemma {:induction false} Pow2Multiple(n: nat, m: nat) returns (k: nat)
    requires n <= m
    ensures Pow2(m) == k * Pow2(n)
    decreases m - n
  {
    if n == m {
      k := 1;
    } else {
      var h := Pow2Multiple(n, m - 1);
      k := 2 * h;
    }
  }

  lemma NetAddrIsMultiple(c: Cidr)
    requires c.Valid()
    ensures c.NetAddr() == (c.ip / c.Block()) * c.Block()
  {
    hide Pow2;
  }

  /** The block of a network ends at or below 2^32, and holds exactly the addresses from its base on. */
  lemma BlockFacts(c: Cidr)
    requires c.Valid()
    ensures 0 <= c.NetAddr() && c.NetAddr() + c.Block() <= SPACE
    ensures forall a: nat :: c.NetAddr() <= a < c.NetAddr() + c.Block() ==> c.Contains(a)
  {
    hide Pow2;
    var b, k := c.Block(), c.ip / c.Block();
    NetAddrIsMultiple(c);
    MulMonotone(0, k, b);
    var n := Pow2Multiple(32 - c.bits, 32);
    Pow2Is32();
    if k >= n {
      MulMonotone(n, k, b);
    }
    MulMonotone(k + 1, n, b);
    assert (k + 1) * b == k * b + b;
    forall a: nat | c.NetAddr() <= a < c.NetAddr() + b
      ensures c.Contains(a)
    {
      DivModUnique(a, k, a - k * b, b);
    }
  }

  /** The network's addresses run from its base to its broadcast address, both included. */
  lemma BlockIsExact(c: Cidr, a: int)
    requires c.Valid()
    ensures c.Contains(a) <==> c.NetAddr() <= a <= c.BroadcastAddr()
  {
    hide Pow2;
    var b, k := c.Block(), c.ip / c.Block();
    NetAddrIsMultiple(c);
    if c.NetAddr() <= a <= c.BroadcastAddr() {
      DivModUnique(a, k, a - k * b, b);
    }
  }

  lemma {:induction false} Pow2Adds(a: nat, b: nat)
    ensures Pow2(a + b) == Pow2(a) * Pow2(b)
    decreases a
  {
    if a > 0 {
      Pow2Adds(a - 1, b);
    }
  }

  lemma Pow2Is32()
    ensures Pow2(32) == SPACE
  {
    assert Pow2(2) == 4;
    Pow2Adds(2, 2);
    Pow2Adds(4, 4);
    Pow2Adds(8, 8);
    Pow2Adds(16, 16);
  }

  /**
   * The addresses of a pool sized by UsableLeases never wrap, are pairwise distinct, lie inside
   * the subnet and below its broadcast address; and the pool is as large as that allows.
   */
  lemma LeasesStayInside(c: Cidr, start: uint32, max: int, off: nat)
    requires c.Valid() && off < UsableLeases(Some(c), Some(start), max)
    ensures LeaseAddr(start, off) == start + off
    ensures c.Contains(LeaseAddr(start, off)) && LeaseAddr(start, off) < c.BroadcastAddr()
    ensures UsableLeases(Some(c), Some(start), max) == max
            || start + UsableLeases(Some(c), Some(start), max) == c.BroadcastAddr()
  {
    BlockFacts(c);
  }

  /**
   * The pool of a start inside the subnet is as large as is wanted, or reaches up to the broadcast
   * address, whichever is less; any other start, and anything that does not parse, gives none.
   */
  lemma PoolIsAsLargeAsFits(c: Cidr, start: uint32, max: nat)
    requires c.Valid()
    ensures var k := UsableLeases(Some(c), Some(start), max);
            if c.NetAddr() <= start < c.BroadcastAddr() then
              0 <= k <= max && start + k <= c.BroadcastAddr() && (k == max || start + k == c.BroadcastAddr())
            else k == 0
    ensures UsableLeases(None, Some(start), max) == 0 == UsableLeases(Some(c), None, max)
  {
    BlockFacts(c);
  }

  lemma {:induction false} RunsKeepPrefix(p: State, ms: seq<Mac>)
    requires Prefix(p)
    ensures Prefix(AssignAll(p, ms)) && AssignAll(p, ms).base == p.base && AssignAll(p, ms).size == p.size
    decreases |ms|
  {
    hide Prefix;
    if ms != [] {
      AssignKeepsPrefix(p, ms[0]);
      RunsKeepPrefix(Assign(p, ms[0]).0, ms[1..]);
    }
  }

  /** No run of lease requests on such a pool ever leaves the subnet or touches its broadcast address. */
  lemma RunsStayInside(c: Cidr, start: uint32, max: int, ms: seq<Mac>, m: Mac)
    requires c.Valid() && UsableLeases(Some(c), Some(start), max) > 0
    requires m in AssignAll(Fresh(start, UsableLeases(Some(c), Some(start), max)), ms).leased
    ensures var a := AssignAll(Fresh(start, UsableLeases(Some(c), Some(start), max)), ms).leased[m];
            c.Contains(a) && start <= a < c.BroadcastAddr()
  {
    hide AssignAll, Pow2, OffsetOf, LeaseAddr;
    var size := UsableLeases(Some(c), Some(start), max);
    BlockFacts(c);
    FreshIsPrefix(start, size);
    RunsKeepPrefix(Fresh(start, size), ms);
    var p := AssignAll(Fresh(start, size), ms);
    PrefixIsBijection(p);
    LeasesStayInside(c, start, max, OffsetOf(start, p.leased[m]));
  }

  // ------------------------------------------------------------ the object

  class Pool {
    const base: uint32
    const size: nat
    var next: nat
    var leased: map<Mac, uint32>
    var order: seq<Mac>

    function Value(): State
      reads this
    {
      State(base, size, next, leased, order)
    }

    /** NewPool.  An address space holds at most 2^32 leases. */
    constructor (start: uint32, size: nat)
      requires size <= SPACE
      ensures Value() == Fresh(start, size)
    {
      this.base, this.size := start, size;
      next, leased, order := 0, map[], [];
    }

    method GetOrAssign(hardware: seq<byte>) returns (ip: Option<uint32>)
      modifies this
      ensures (Value(), ip) == Assign(old(Value()), Padded(hardware))
    {
      hide LeaseAddr;
      var key := Padded(hardware);
      if key in leased {
        return Some(leased[key]);
      }
      if next >= size {
        return None;
      }
      ip := Some(LeaseAddr(base, next));
      next := next + 1;
      leased := leased[key := ip.value];
      order := order + [key];
    }

    /** The first lease; in a restored pool that is the lowest in-range address of the gossip. */
    method First() returns (ip: Option<uint32>)
      requires Listed(Value())
      ensures ip == if order == [] then None else Some(leased[order[0]])
      ensures forall leases: map<Mac, uint32>, m: Mac ::
                Restored(Value(), leases) && m in leases && OffsetOf(base, leases[m]) < size ==>
                  ip.Some? && OffsetOf(base, ip.value) <= OffsetOf(base, leases[m])
    {
      hide Restored, OffsetOf, LeaseAddr;
      forall leases: map<Mac, uint32>, m: Mac
        | Restored(Value(), leases) && m in leases && OffsetOf(base, leases[m]) < size
        ensures order != [] && OffsetOf(base, leased[order[0]]) <= OffsetOf(base, leases[m])
      {
        FirstIsLowest(Value(), leases, m);
      }
      if |order| == 0 {
        return None;
      }
      return Some(leased[order[0]]);
    }

    /** Restore: any holder of an address may be picked; a MAC that has a lease already keeps it. */
    method Restore(leases: map<Mac, uint32>)
      requires Tidy(leased, order) && size <= SPACE
      modifies this
      ensures RestoredOnto(old(Value()), Value(), leases)
      ensures old(Value()) == Fresh(base, size) ==> Restored(Value(), leases)
    {
      var off := 0;
      ghost var was := Value();
      assert RestoredBelow(was, leased, order, leases, 0);
      hide *;
      while off < size
        invariant 0 <= off <= size
        invariant RestoredBelow(was, leased, order, leases, off)
      {
        RestoreOffset(leases, off, was);
        off := off + 1;
      }
      next := |leased|;
      WalkedThrough(was, Value(), leases);
      if was == Fresh(base, size) {
        OntoFresh(Value(), leases);
      }
    }

    method RestoreOffset(leases: map<Mac, uint32>, off: nat, ghost was: State)
      requires off < size <= SPACE && was.base == base && RestoredBelow(was, leased, order, leases, off)
      modifies this`leased, this`order
      ensures RestoredBelow(was, leased, order, leases, off + 1)
    {
      hide *;
      var ip := LeaseAddr(base, off);
      if m :| m in leases && leases[m] == ip {
        HolderIsNew(was, leased, order, leases, off, m);
        if m !in leased {
          leased := leased[m := ip];
          order := order + [m];
        }
      } else {
        NoHolder(was, leased, order, leases, off);
      }
    }
  }

  /** order lists the leased MACs, each once. */
  ghost predicate Tidy(leased: map<Mac, uint32>, order: seq<Mac>) {
    && (forall i, j :: 0 <= i < j < |order| ==> order[i] != order[j])
    && (forall m :: m in order <==> m in leased)
  }

  /** The holder picked for this address has a lease: this one, or the one it had before. */
  ghost predicate Claimed(leased: map<Mac, uint32>, leases: map<Mac, uint32>, ip: uint32) {
    exists h :: h in leases && leases[h] == ip && h in leased
  }

  /**
   * The walk of Restore over the pool `was` has passed the offsets below k.  Old leases stand;
   * new ones are the gossip's, inside the pool, one per address, listed behind the old ones in
   * ascending order; and every address of the gossip passed so far is claimed.
   */
  ghost predicate RestoredBelow(was: State, leased: map<Mac, uint32>, order: seq<Mac>, leases: map<Mac, uint32>, k: nat)
  {
    && Tidy(leased, order) && was.order <= order
    && (forall m :: m in was.leased ==> m in leased && leased[m] == was.leased[m])
    && (forall m :: m in leased && m !in was.leased ==>
          m in leases && leases[m] == leased[m] && OffsetOf(was.base, leases[m]) < k)
    && (forall m, n :: m in leased && n in leased && m !in was.leased && n !in was.leased && leased[m] == leased[n]
                       ==> m == n)
    && (forall m :: m in leases && OffsetOf(was.base, leases[m]) < k ==> Claimed(leased, leases, leases[m]))
    && (forall m :: m in order[|was.order|..] ==> m !in was.leased)
    && Ascending(was.base, leased, order[|was.order|..])
  }

  /** What a restore into any pool leaves; next counts all leases. */
  ghost predicate RestoredOnto(was: State, q: State, leases: map<Mac, uint32>) {
    && q.base == was.base && q.size == was.size && q.next == |q.leased|
    && RestoredBelow(was, q.leased, q.order, leases, q.size)
  }

  lemma WalkedThrough(was: State, q: State, leases: map<Mac, uint32>)
    requires q.base == was.base && q.size == was.size && q.next == |q.leased|
    requires RestoredBelow(was, q.leased, q.order, leases, q.size)
    ensures RestoredOnto(was, q, leases)
  {
  }

  lemma HolderIsNew(was: State, leased: map<Mac, uint32>, order: seq<Mac>, leases: map<Mac, uint32>, off: nat, m: Mac)
    requires off < SPACE && RestoredBelow(was, leased, order, leases, off)
    requires m in leases && leases[m] == LeaseAddr(was.base, off)
    ensures m in leased ==> RestoredBelow(was, leased, order, leases, off + 1)
    ensures m !in leased ==> RestoredBelow(was, leased[m := leases[m]], order + [m], leases, off + 1)
  {
    hide LeaseAddr, OffsetOf, Ascending;
    OffsetOfAddr(was.base, off);
    ClaimsGrow(was, leased, leases, off, m);
    if m !in leased {
      NewestIsLast(was, leased, order, leases, off, m);
    }
  }

  /** Once m has a lease, the address at this offset is claimed as well. */
  lemma ClaimsGrow(was: State, leased: map<Mac, uint32>, leases: map<Mac, uint32>, off: nat, m: Mac)
    requires forall x :: x in leases && OffsetOf(was.base, leases[x]) < off ==> Claimed(leased, leases, leases[x])
    requires off < SPACE && m in leases && leases[m] == LeaseAddr(was.base, off)
    ensures var l2 := if m in leased then leased else leased[m := leases[m]];
            forall x :: x in leases && OffsetOf(was.base, leases[x]) < off + 1 ==> Claimed(l2, leases, leases[x])
  {
    hide LeaseAddr, OffsetOf;
    var l2 := if m in leased then leased else leased[m := leases[m]];
    forall x | x in leases && OffsetOf(was.base, leases[x]) < off + 1
      ensures Claimed(l2, leases, leases[x])
    {
      if OffsetOf(was.base, leases[x]) == off {
        assert leases[x] == LeaseAddr(was.base, OffsetOf(was.base, leases[x]));
        assert m in l2;
      } else {
        var h :| h in leases && leases[h] == leases[x] && h in leased;
        assert h in l2;
      }
    }
  }

  lemma NewestIsLast(was: State, leased: map<Mac, uint32>, order: seq<Mac>, leases: map<Mac, uint32>, off: nat, m: Mac)
    requires off < SPACE && RestoredBelow(was, leased, order, leases, off) && m !in leased
    requires m in leases && leases[m] == LeaseAddr(was.base, off)
    ensures var l2, o2 := leased[m := leases[m]], (order + [m])[|was.order|..];
            (forall x :: x in o2 ==> x in l2 && x !in was.leased) && Ascending(was.base, l2, o2)
  {
    hide LeaseAddr, OffsetOf;
    OffsetOfAddr(was.base, off);
    var l2, n := leased[m := leases[m]], |was.order|;
    var before, after := order[n..], (order + [m])[n..];
    assert after == before + [m];
    forall i, j | 0 <= i < j < |after|
      ensures OffsetOf(was.base, l2[after[i]]) < OffsetOf(was.base, l2[after[j]])
    {
      assert before[i] in order;
      if j < |before| {
        assert before[j] in order;
        AscendingPair(was.base, leased, before, i, j);
      }
    }
  }

  lemma NoHolder(was: State, leased: map<Mac, uint32>, order: seq<Mac>, leases: map<Mac, uint32>, off: nat)
    requires off < SPACE && RestoredBelow(was, leased, order, leases, off)
    requires forall m :: m in leases ==> leases[m] != LeaseAddr(was.base, off)
    ensures RestoredBelow(was, leased, order, leases, off + 1)
  {
    hide LeaseAddr, OffsetOf, Ascending;
    forall m | m in leases
      ensures OffsetOf(was.base, leases[m]) != off
    {
      assert LeaseAddr(was.base, OffsetOf(was.base, leases[m])) == leases[m];
    }
  }

  /** Restoring into a pool that has leased nothing leaves the gossip's in-range leases and no other. */
  lemma OntoFresh(q: State, leases: map<Mac, uint32>)
    requires q.size <= SPACE && RestoredOnto(Fresh(q.base, q.size), q, leases)
    ensures Restored(q, leases)
  {
    hide LeaseAddr, OffsetOf, Ascending;
    DistinctCount(q.order, q.leased.Keys);
    assert |q.leased| == |q.leased.Keys|;
    assert q.order[0..] == q.order;
    forall m | m in leases && OffsetOf(q.base, leases[m]) < q.size
      ensures Holds(q.leased, leases[m])
    {
      ClaimIsHeld(q, leases, leases[m]);
    }
    AllBelowSize(q);
  }

  lemma ClaimIsHeld(q: State, leases: map<Mac, uint32>, ip: uint32)
    requires Claimed(q.leased, leases, ip) && forall m :: m in q.leased ==> m in leases && leases[m] == q.leased[m]
    ensures Holds(q.leased, ip)
  {
    var h :| h in leases && leases[h] == ip && h in q.leased;
  }

  lemma AllBelowSize(q: State)
    requires Listed(q) && Ascending(q.base, q.leased, q.order)
    requires forall m :: m in q.leased ==> OffsetOf(q.base, q.leased[m]) < q.size
    ensures q.next <= q.size
  {
    hide LeaseAddr, OffsetOf, Ascending;
    if q.order != [] {
      AtLeast(Offsets(q), |q.order| - 1);
      assert q.order[|q.order| - 1] in q.leased;
    }
  }
}
