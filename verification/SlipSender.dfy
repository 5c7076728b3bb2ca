/**
 * The writing half of legacy/slirp.c: write_all, writev_all and slip_send over a file
 * descriptor that accepts bytes in whatever portions its schedule dictates.
 */
module SlipSender {
  import opened Bytes
  import opened SlipSpec

  /** How the kernel answers one write: some bytes (perhaps none), EINTR, EAGAIN, or a real error. */
  datatype WriteStep = Accept(n: nat) | Interrupted | NotReady | Broken

  datatype WriteResult = Wrote(n: nat) | Retry | Failed

  /** A descriptor open for writing.  Once its schedule runs out it accepts everything. */
  class OutFd {
    var written: seq<byte>
    var plan: seq<WriteStep>

    constructor (plan: seq<WriteStep>)
      ensures written == [] && this.plan == plan
    {
      written, this.plan := [], plan;
    }

    method Write(bytes: seq<byte>) returns (r: WriteResult)
      modifies this
      ensures plan == Behind(old(plan)) && r == AnswerTo(old(plan), |bytes|)
      ensures written == old(written) + if r.Wrote? then bytes[..r.n] else []
    {
      r := AnswerTo(plan, |bytes|);
      plan := Behind(plan);
      written := written + if r.Wrote? then bytes[..r.n] else [];
    }
  }

  function Behind<T>(plan: seq<T>): seq<T> {
    if plan == [] then [] else plan[1..]
  }

  /** The kernel's answer to a write of n bytes. */
  function AnswerTo(plan: seq<WriteStep>, n: nat): (r: WriteResult)
    ensures r.Wrote? ==> r.n <= n
  {
    if plan == [] then Wrote(n)
    else match plan[0]
      case Accept(k) => Wrote(Min(k, n))
      case Broken => Failed
      case _ => Retry
  }

  /** How many of n bytes a schedule leaves unwritten, and the schedule behind them. */
  function Drain(plan: seq<WriteStep>, n: nat): (r: (nat, seq<WriteStep>))
    ensures r.0 <= n
    decreases |plan|
  {
    if n == 0 then (0, plan)
    else if plan == [] then (0, [])
    else match plan[0]
      case Accept(k) => Drain(plan[1..], n - Min(k, n))
      case Broken => (n, plan[1..])
      case _ => Drain(plan[1..], n)
  }

  /** What the kernel accepts ahead of its first real error. */
  function Room(plan: seq<WriteStep>): nat {
    if plan == [] then 0
    else match plan[0]
      case Accept(k) => k + Room(plan[1..])
      case Broken => 0
      case _ => Room(plan[1..])
  }

  /** Bytes stay unwritten only when a real error comes before the kernel has accepted them all. */
  lemma {:induction false} DrainStopsShortIff(plan: seq<WriteStep>, n: nat)
    ensures Drain(plan, n).0 == if Broken in plan && Room(plan) < n then n - Room(plan) else 0
    ensures Broken !in plan ==> Broken !in Drain(plan, n).1
    decreases |plan|
  {
    if n > 0 && plan != [] {
      DrainStopsShortIff(plan[1..], match plan[0] case Accept(k) => n - Min(k, n) case _ => n);
    }
  }

  /**
   * write_all.  EINTR, EAGAIN and short writes never stop it; a real error leaves unwritten
   * exactly what was not accepted before it.
   */
  method WriteAll(fd: OutFd, buf: seq<byte>) returns (ok: bool)
    modifies fd
    ensures var (left, rest) := Drain(old(fd.plan), |buf|);
            ok == (left == 0) && fd.plan == rest && fd.written == old(fd.written) + buf[..|buf| - left]
  {
    var at := 0;
    while at < |buf|
      invariant 0 <= at <= |buf|
      invariant fd.written == old(fd.written) + buf[..at]
      invariant Drain(old(fd.plan), |buf|) == Drain(fd.plan, |buf| - at)
      decreases |fd.plan|, |buf| - at
    {
      var r := fd.Write(buf[at..]);
      match r
      case Wrote(n) =>
        assert buf[..at] + buf[at..][..n] == buf[..at + n];
        at := at + n;
      case Retry =>
      case Failed => return false;
    }
    return true;
  }

  /** The bytes a vector of buffers stands for. */
  function Flatten(iov: seq<seq<byte>>): seq<byte> {
    if iov == [] then [] else iov[0] + Flatten(iov[1..])
  }

  lemma {:induction false} FlattenTriple(a: seq<byte>, b: seq<byte>, c: seq<byte>)
    ensures Flatten([a, b, c]) == a + b + c
  {
    assert [a, b, c][1..] == [b, c] && [b, c][1..] == [c] && [c][1..] == [];
    assert Flatten([c]) == c;
    assert Flatten([b, c]) == b + c;
  }

  /**
   * The iovec array is consumed in place: finished entries are skipped and the first
   * unfinished one is cut at the front.  writev returning 0 makes no progress, so a vector
   * holding only empty buffers would spin; callers never pass one.
   */
  method WritevAll(fd: OutFd, iov: array<seq<byte>>) returns (ok: bool)
    requires iov.Length == 0 || Flatten(iov[..]) != []
    modifies fd, iov
    ensures var all := old(Flatten(iov[..]));
            var (left, rest) := Drain(old(fd.plan), |all|);
            ok == (left == 0) && fd.plan == rest && fd.written == old(fd.written) + all[..|all| - left]
  {
    ghost var all := Flatten(iov[..]);
    ghost var done := 0;
    var first := 0;
    while first < iov.Length
      invariant 0 <= first <= iov.Length && 0 <= done <= |all|
      invariant fd.written == old(fd.written) + all[..done]
      invariant Drain(old(fd.plan), |all|) == Drain(fd.plan, |all| - done)
      invariant Flatten(iov[first..]) == all[done..]
      invariant first < iov.Length ==> done < |all|
      decreases |fd.plan|, iov.Length - first
    {
      var r := fd.Write(Flatten(iov[first..]));
      match r
      case Wrote(count) =>
        assert all[..done] + all[done..][..count] == all[..done + count];
        ghost var before := done;
        done := done + count;
        if count > 0 {
          first := Advance(iov, first, count, all, before);
        }
      case Retry =>
      case Failed => return false;
    }
    assert all[done..] == [];
    return true;
  }

  /** Step past the first n bytes of iov[first..]. */
  method Advance(iov: array<seq<byte>>, first: nat, n: nat, ghost all: seq<byte>, ghost at: nat) returns (next: nat)
    requires first <= iov.Length && at + n <= |all| && Flatten(iov[first..]) == all[at..]
    modifies iov
    ensures first <= next <= iov.Length
    ensures Flatten(iov[next..]) == all[at + n..]
    ensures next < iov.Length ==> at + n < |all|
    ensures at + n == |all| ==> next == iov.Length
  {
    var left := n;
    next := first;
    ghost var gone := at;
    while next < iov.Length && left >= |iov[next]|
      invariant first <= next <= iov.Length && 0 <= left <= n && gone + left == at + n && gone <= |all|
      invariant Flatten(iov[next..]) == all[gone..]
    {
      FlattenStep(iov[next..], all, gone);
      assert iov[next..][1..] == iov[next + 1..];
      left, gone := left - |iov[next]|, gone + |iov[next]|;
      next := next + 1;
    }
    if next < iov.Length {
      FlattenStep(iov[next..], all, gone);
      assert iov[next..][1..] == iov[next + 1..];
      if left > 0 {
        ghost var head, rest := iov[next], iov[next + 1..];
        iov[next] := iov[next][left..];
        assert iov[next..][1..] == rest;
        assert all[gone..] == head + Flatten(rest);
        assert all[gone..][left..] == all[gone + left..];
        assert (head + Flatten(rest))[left..] == head[left..] + Flatten(rest);
        assert Flatten(iov[next..]) == head[left..] + Flatten(rest);
      }
    } else {
      assert iov[next..] == [];
      assert Flatten(iov[next..]) == [];
      assert |all[gone..]| == |all| - gone;
    }
  }

  lemma FlattenStep(iov: seq<seq<byte>>, all: seq<byte>, gone: nat)
    requires iov != [] && gone <= |all| && Flatten(iov) == all[gone..]
    ensures gone + |iov[0]| <= |all|
    ensures Flatten(iov[1..]) == all[gone + |iov[0]|..]
    ensures all[gone..] == iov[0] + Flatten(iov[1..])
  {
    assert |all[gone..]| == |all| - gone;
    assert all[gone..][|iov[0]|..] == all[gone + |iov[0]|..];
  }

  /** slip_send with its drop counter (g_stat_drop on the writing side). */
  class Sender {
    const fd: OutFd
    var drop: nat

    constructor (fd: OutFd)
      ensures this.fd == fd && drop == 0
    {
      this.fd, drop := fd, 0;
    }

    /**
     * Either path writes Encode(pkt), as far as the kernel lets it; stopping short counts one drop.
     */
    method Send(pkt: seq<byte>) returns (ok: bool)
      modifies this, fd
      ensures drop == old(drop) + if ok then 0 else 1
      ensures var (left, rest) := Drain(old(fd.plan), |Encode(pkt)|);
              && ok == (left == 0) && fd.plan == rest
              && fd.written == old(fd.written) + Encode(pkt)[..|Encode(pkt)| - left]
    {
      var p := Clamp(pkt);
      assert Encode(p) == Encode(pkt);
      if END !in p && ESC !in p {
        ok := SendPlain(p);
      } else {
        ok := SendStuffed(p);
      }
      if !ok {
        drop := drop + 1;
      }
    }

    /** The writev fast path. */
    method SendPlain(p: seq<byte>) returns (ok: bool)
      requires END !in p && ESC !in p && |p| <= MAXPKT
      modifies fd
      ensures var (left, rest) := Drain(old(fd.plan), |Encode(p)|);
              && ok == (left == 0) && fd.plan == rest
              && fd.written == old(fd.written) + Encode(p)[..|Encode(p)| - left]
    {
      StuffIsClean(p);
      var iov := new seq<byte>[3](i => if i == 1 then p else [END]);
      assert iov[..] == [[END], p, [END]];
      FlattenTriple([END], p, [END]);
      assert Flatten(iov[..]) == Encode(p);
      ok := WritevAll(fd, iov);
    }

    /** The byte-stuffing slow path: buf is the stack buffer of SLIP_MAXPKT bytes. */
    method SendStuffed(p: seq<byte>) returns (ok: bool)
      requires |p| <= MAXPKT
      modifies fd
      ensures var (left, rest) := Drain(old(fd.plan), |Encode(p)|);
              && ok == (left == 0) && fd.plan == rest
              && fd.written == old(fd.written) + Encode(p)[..|Encode(p)| - left]
    {
      var buf := new byte[SLIP_MAXPKT];
      var i := StuffInto(buf, p);
      ok := WriteAll(fd, buf[..i]);
    }
  }

  /** Fill buf with the encoding of p; it always fits. */
  method StuffInto(buf: array<byte>, p: seq<byte>) returns (i: nat)
    requires buf.Length == SLIP_MAXPKT && |p| <= MAXPKT
    modifies buf
    ensures i <= buf.Length && buf[..i] == Encode(p)
  {
    buf[0] := END;
    i := 1;
    var c := 0;
    while c < |p|
      invariant 0 <= c <= |p| && 1 <= i <= 2 * c + 1
      invariant buf[..i] == [END] + Stuff(p[..c])
    {
      StuffSnoc(p, c);
      i := PutStuffed(buf, i, p[c]);
      c := c + 1;
    }
    assert p[..c] == p;
    buf[i] := END;
    i := i + 1;
    assert buf[..i] == [END] + Stuff(p) + [END];
  }

  lemma {:induction false} StuffSnoc(p: seq<byte>, c: nat)
    requires c < |p|
    ensures Stuff(p[..c + 1]) == Stuff(p[..c]) + StuffByte(p[c])
    decreases c
  {
    if c == 0 {
      assert p[..1][1..] == [];
    } else {
      StuffSnoc(p[1..], c - 1);
      assert p[..c + 1][1..] == p[1..][..c] && p[..c][1..] == p[1..][..c - 1];
    }
  }

  method PutStuffed(buf: array<byte>, at: nat, b: byte) returns (next: nat)
    requires at + 2 <= buf.Length
    modifies buf
    ensures at < next <= at + 2 && buf[..next] == old(buf[..at]) + StuffByte(b)
  {
    if b == END {
      buf[at], buf[at + 1] := ESC, ESC_END;
      next := at + 2;
    } else if b == ESC {
      buf[at], buf[at + 1] := ESC, ESC_ESC;
      next := at + 2;
    } else {
      buf[at] := b;
      next := at + 1;
    }
  }
}
