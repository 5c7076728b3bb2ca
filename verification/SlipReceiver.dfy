/**
 * The reading half of legacy/slirp.c: slip_recv over the fixed buffer of slip_recv_state_t,
 * and slip_to_outside, which writes an Ethernet header in front of the packet it is given.
 *
 * The struct is one block of memory: 14 bytes of headroom, SLIP_MAXPKT bytes of data, 14
 * bytes of tailroom, then scratch.  Pointers are offsets into that block, so the header
 * written before a packet really lands in the bytes that precede it.
 */
module SlipReceiver {
  import opened Bytes
  import opened SlipSpec

  const HEADROOM := 14
  const SLIP_RAW_SIZE := HEADROOM + SLIP_MAXPKT + HEADROOM
  const SCRATCH := SLIP_RAW_SIZE
  const STATE_SIZE := SLIP_RAW_SIZE + MAXPKT

  const GATEWAY_MAC: seq<byte> := [0x52, 0x55, 0x0a, 0x00, 0x02, 0x02]
  const MY_MAC: seq<byte> := [0xaa, 0xaa, 0xaa, 0xaa, 0xaa, 0xaa]
  const IPV4_TYPE: seq<byte> := [0x08, 0x00]

  /** The Ethernet frame slip_to_outside injects for one IP packet. */
  function EthernetFrame(p: seq<byte>): seq<byte> {
    GATEWAY_MAC + MY_MAC + IPV4_TYPE + p
  }

  /** It is an IPv4 frame from the program's own address to the NAT's gateway address, around the packet as it is. */
  lemma EthernetFields(p: seq<byte>)
    ensures var f := EthernetFrame(p);
            && f[0..6] == [0x52, 0x55, 10, 0, 2, 2] && f[6..12] == [0xaa, 0xaa, 0xaa, 0xaa, 0xaa, 0xaa]
            && f[12..14] == [0x08, 0x00] && f[14..] == p
  {
  }

  /** How the kernel answers one read: up to n bytes, EINTR, EAGAIN, end of file, or an error. */
  datatype ReadStep = Chunk(n: nat) | Interrupted | NotReady | EndOfFile | Broken

  datatype ReadResult = Got(n: nat) | Again | Stop

  /** The kernel's answer to a read when at most `room` bytes are both there and wanted. */
  function AnswerTo(plan: seq<ReadStep>, room: nat): (r: ReadResult)
    ensures r.Got? ==> 1 <= r.n <= room
  {
    if plan == [] then Stop
    else match plan[0]
      case Interrupted => Again
      case Chunk(n) => if Min(n, room) == 0 then Stop else Got(Min(n, room))
      case _ => Stop
  }

  /** The bytes slip_recv has room for when it reads behind the history h: those pending take up the rest. */
  function Room(h: seq<byte>): (n: int)
    ensures n >= 1
  {
    PendingIsShort(START, h);
    SLIP_MAXPKT - |Scan(START, h).pending|
  }

  lemma {:induction false} PendingIsShort(st: Stream, s: seq<byte>)
    requires |st.pending| < SLIP_MAXPKT
    ensures |Scan(st, s).pending| < SLIP_MAXPKT
    decreases |s|
  {
    if s != [] {
      PendingIsShort(Feed(st, s[0]), s[1..]);
    }
  }

  /**
   * What has been read, and what is still to come, when reading goes on from here until the
   * kernel answers with end of file, no data yet or an error.
   */
  function ReadOn(h: seq<byte>, coming: seq<byte>, plan: seq<ReadStep>): (seq<byte>, seq<byte>)
    decreases |plan|
  {
    match AnswerTo(plan, Min(Room(h), |coming|))
    case Got(n) => ReadOn(h + coming[..n], coming[n..], plan[1..])
    case Again => ReadOn(h, coming, plan[1..])
    case Stop => (h, coming)
  }

  /** One read on the way. */
  lemma ReadOnUnfolds(h: seq<byte>, coming: seq<byte>, plan: seq<ReadStep>)
    ensures match AnswerTo(plan, Min(Room(h), |coming|))
            case Got(n) => plan != [] && ReadOn(h, coming, plan) == ReadOn(h + coming[..n], coming[n..], plan[1..])
            case Again => plan != [] && ReadOn(h, coming, plan) == ReadOn(h, coming, plan[1..])
            case Stop => ReadOn(h, coming, plan) == (h, coming)
  {
  }

  /** Reading moves bytes from what is to come to what has been read. */
  lemma {:induction false} ReadOnKeepsBytes(h: seq<byte>, coming: seq<byte>, plan: seq<ReadStep>)
    ensures var (h2, left) := ReadOn(h, coming, plan); h <= h2 && h2 + left == h + coming
    decreases |plan|
  {
    hide Room;
    match AnswerTo(plan, Min(Room(h), |coming|))
    case Got(n) =>
      ReadOnKeepsBytes(h + coming[..n], coming[n..], plan[1..]);
      assert h + coming[..n] + coming[n..] == h + coming;
    case Again => ReadOnKeepsBytes(h, coming, plan[1..]);
    case Stop =>
  }

  /** Each data-bearing read brings a byte or more, until there is none left. */
  lemma {:induction false} ReadOnBrings(h: seq<byte>, coming: seq<byte>, plan: seq<ReadStep>)
    ensures var (h2, left) := ReadOn(h, coming, plan); left == [] || |h2| >= |h| + Gets(plan)
    ensures coming == [] ==> ReadOn(h, coming, plan) == (h, coming)
    decreases |plan|
  {
    hide Room;
    match AnswerTo(plan, Min(Room(h), |coming|))
    case Got(n) => ReadOnBrings(h + coming[..n], coming[n..], plan[1..]);
    case Again => ReadOnBrings(h, coming, plan[1..]);
    case Stop =>
  }

  /** The reads of a schedule that bring data, ahead of the first that has none to bring. */
  function Gets(plan: seq<ReadStep>): nat {
    if plan == [] then 0
    else match plan[0]
      case Interrupted => Gets(plan[1..])
      case Chunk(n) => if n == 0 then 0 else 1 + Gets(plan[1..])
      case _ => 0
  }

  /** A descriptor open for reading, holding the bytes still to come.  Out of schedule it has nothing to say. */
  class InFd {
    var incoming: seq<byte>
    var plan: seq<ReadStep>

    constructor (incoming: seq<byte>, plan: seq<ReadStep>)
      ensures this.incoming == incoming && this.plan == plan
    {
      this.incoming, this.plan := incoming, plan;
    }

    /** read(fd, mem + at, space); Got is only used for a positive count. */
    method Read(mem: array<byte>, at: nat, space: nat) returns (r: ReadResult)
      requires at + space <= mem.Length
      modifies this, mem
      ensures plan == if old(plan) == [] then [] else old(plan)[1..]
      ensures r == AnswerTo(old(plan), Min(space, |old(incoming)|))
      ensures r.Got? ==> incoming == old(incoming)[r.n..]
      ensures r.Got? ==> mem[at..at + r.n] == old(incoming)[..r.n]
      ensures r.Got? ==> forall i :: 0 <= i < mem.Length && !(at <= i < at + r.n) ==> mem[i] == old(mem[i])
      ensures !r.Got? ==> incoming == old(incoming) && forall i :: 0 <= i < mem.Length ==> mem[i] == old(mem[i])
    {
      r := AnswerTo(plan, Min(space, |incoming|));
      plan := if plan == [] then [] else plan[1..];
      match r
      case Got(k) =>
        forall i | 0 <= i < k {
          mem[at + i] := incoming[i];
        }
        incoming := incoming[k..];
      case _ =>
    }
  }

  /** memchr over mem[lo..hi]: the first position holding b, or -1. */
  method MemChr(mem: array<byte>, lo: nat, hi: nat, b: byte) returns (p: int)
    requires lo <= hi <= mem.Length
    ensures p == -1 ==> b !in mem[lo..hi]
    ensures p != -1 ==> lo <= p < hi && mem[p] == b && b !in mem[lo..p]
  {
    p := lo;
    while p < hi
      invariant lo <= p <= hi && b !in mem[lo..p]
    {
      if mem[p] == b {
        return;
      }
      p := p + 1;
    }
    p := -1;
  }

  datatype Recv = Null | Packet(at: nat, len: nat)

  class Receiver {
    const mem: array<byte>
    var index: nat
    var discard: nat
    /** g_stat_drop, by who counted: slip_recv and slip_to_outside. */
    var drop: nat
    var outDrop: nat
    /** g_stat_tx_packets. */
    var tx: nat

    /** Every byte ever read, and every packet ever handed out. */
    ghost var history: seq<byte>
    ghost var delivered: seq<seq<byte>>

    ghost function Unread(): (u: seq<byte>)
      reads this, mem
      requires mem.Length == STATE_SIZE && discard <= index <= SLIP_MAXPKT
      ensures |u| == index - discard
    {
      mem[HEADROOM + discard..HEADROOM + index]
    }

    /** What was handed out and dropped, continued over the unread bytes, is what the whole stream gives. */
    ghost predicate Valid()
      reads this, mem
    {
      && mem.Length == STATE_SIZE
      && discard <= index <= SLIP_MAXPKT
      && Scan(START, history) == Scan(Stream(delivered, drop, []), Unread())
    }

    constructor ()
      ensures Valid() && fresh(mem)
      ensures history == [] && delivered == [] && drop == outDrop == tx == 0 && Unread() == []
    {
      mem := new byte[STATE_SIZE](_ => 0);
      index, discard, drop, outDrop, tx := 0, 0, 0, 0, 0;
      history, delivered := [], [];
    }

    /** Move the unread bytes to the front of the data area. */
    method Compact()
      requires Valid()
      modifies this`index, this`discard, mem
      ensures Valid() && Unread() == old(Unread()) && discard == 0
    {
      if discard > 0 {
        var n := index - discard;
        forall i | 0 <= i < n {
          mem[HEADROOM + i] := mem[HEADROOM + discard + i];
        }
        index, discard := n, 0;
        assert Unread() == old(Unread());
      }
    }

    /** Overflow protection: a full buffer without an END is thrown away. */
    method ResetIfFull()
      requires Valid() && discard == 0 && END !in Unread()
      modifies this`index, this`drop
      ensures Valid() && discard == 0 && END !in Unread() && index < SLIP_MAXPKT
    {
      if index >= SLIP_MAXPKT {
        ScanFull(Stream(delivered, drop, []), Unread());
        index := 0;
        drop := drop + 1;
        assert Unread() == [];
      }
    }

    /** With no END among them, the unread bytes are the pending ones, and the buffer's space is their complement. */
    lemma SpaceIsRoom()
      requires Valid() && discard == 0 && index < SLIP_MAXPKT && END !in Unread()
      ensures Room(history) == SLIP_MAXPKT - index
    {
      NothingFinished();
    }

    /** One read behind the unread bytes. */
    method ReadBehind(fd: InFd) returns (r: ReadResult)
      requires Valid() && discard == 0 && index < SLIP_MAXPKT
      modifies this`index, this`history, mem, fd
      ensures Valid() && discard == 0
      ensures r == AnswerTo(old(fd.plan), Min(SLIP_MAXPKT - old(index), |old(fd.incoming)|))
      ensures fd.plan == if old(fd.plan) == [] then [] else old(fd.plan)[1..]
      ensures if r.Got? then history == old(history) + old(fd.incoming)[..r.n] && fd.incoming == old(fd.incoming)[r.n..]
              else Unread() == old(Unread()) && history == old(history) && fd.incoming == old(fd.incoming)
    {
      hide Scan;
      ghost var unread, coming := Unread(), fd.incoming;
      r := fd.Read(mem, HEADROOM + index, SLIP_MAXPKT - index);
      assert mem[HEADROOM..HEADROOM + index] == unread;
      if r.Got? {
        ghost var more := coming[..r.n];
        ScanSame(START, history, Stream(delivered, drop, []), unread, more);
        assert mem[HEADROOM..HEADROOM + index] + mem[HEADROOM + index..HEADROOM + index + r.n]
            == mem[HEADROOM..HEADROOM + index + r.n];
        history := history + more;
        index := index + r.n;
      }
    }

    /** The same as a step of ReadOn. */
    method ReadMore(fd: InFd) returns (r: ReadResult)
      requires Valid() && discard == 0 && index < SLIP_MAXPKT && END !in Unread()
      modifies this`index, this`history, mem, fd
      ensures Valid() && discard == 0 && old(history) <= history
      ensures history + fd.incoming == old(history) + old(fd.incoming)
      ensures !r.Got? ==> Unread() == old(Unread())
      ensures ReadOn(old(history), old(fd.incoming), old(fd.plan))
              == if r.Stop? then (history, fd.incoming) else ReadOn(history, fd.incoming, fd.plan)
      ensures |fd.plan| <= |old(fd.plan)| && (r.Stop? || |fd.plan| < |old(fd.plan)|)
    {
      hide Scan, ReadOn, Room, AnswerTo;
      SpaceIsRoom();
      ReadOnUnfolds(history, fd.incoming, fd.plan);
      ghost var coming := fd.incoming;
      r := ReadBehind(fd);
      if r.Got? {
        assert coming[..r.n] + coming[r.n..] == coming;
      }
    }

    /** p is the position of the first END among the unread bytes. */
    ghost predicate EndAt(p: int)
      reads this, mem
      requires mem.Length == STATE_SIZE && discard <= index <= SLIP_MAXPKT
    {
      HEADROOM + discard <= p < HEADROOM + index && mem[p] == END && END !in mem[HEADROOM + discard..p]
    }

    /**
     * The read loop: returns the position of the first END, or -1 for "come back later", which
     * it says exactly when the descriptor does.
     */
    method Fill(fd: InFd) returns (p: int)
      requires Valid() && END !in Unread()
      modifies this`index, this`discard, this`drop, this`history, mem, fd
      ensures Valid()
      ensures old(history) <= history && history + fd.incoming == old(history) + old(fd.incoming)
      ensures p != -1 ==> EndAt(p) && |fd.plan| < |old(fd.plan)|
      ensures p == -1 ==> END !in Unread() && |Unread()| < SLIP_MAXPKT
      ensures ReadOn(old(history), old(fd.incoming), old(fd.plan))
              == if p == -1 then (history, fd.incoming) else ReadOn(history, fd.incoming, fd.plan)
    {
      hide ReadOn;
      while true
        invariant Valid() && END !in Unread()
        invariant old(history) <= history && history + fd.incoming == old(history) + old(fd.incoming)
        invariant |fd.plan| <= |old(fd.plan)|
        invariant ReadOn(old(history), old(fd.incoming), old(fd.plan)) == ReadOn(history, fd.incoming, fd.plan)
        decreases |fd.plan|
      {
        Compact();
        ResetIfFull();
        var r := ReadMore(fd);
        match r
        case Got(_) =>
          p := MemChr(mem, HEADROOM, HEADROOM + index, END);
          if p != -1 {
            return;
          }
        case Again =>
        case Stop =>
          return -1;
      }
    }

    /** The unescape loop: decode mem[base..base + len] into scratch; -1 is a dangling ESC. */
    method Unescape(base: nat, len: nat, ghost decoded: Option<seq<byte>>) returns (out: int)
      requires mem.Length == STATE_SIZE && base + len <= SLIP_RAW_SIZE
      requires decoded == Unstuff(mem[base..base + len], MAXPKT)
      modifies mem
      ensures forall i :: 0 <= i < SLIP_RAW_SIZE ==> mem[i] == old(mem[i])
      ensures out == -1 ==> decoded == None
      ensures out != -1 ==> 0 <= out <= MAXPKT && decoded == Some(mem[SCRATCH..SCRATCH + out])
    {
      hide Unstuff;
      ghost var f := mem[base..base + len];
      var c := 0;
      out := 0;
      PrependNothing(mem[SCRATCH..SCRATCH + 0], Unstuff(f, MAXPKT));
      assert f[0..] == f;
      while c < len && out < MAXPKT
        invariant 0 <= c <= len && 0 <= out <= MAXPKT
        invariant forall i :: 0 <= i < SLIP_RAW_SIZE ==> mem[i] == old(mem[i])
        invariant Unstuff(f, MAXPKT) == PrependAll(mem[SCRATCH..SCRATCH + out], Unstuff(f[c..], MAXPKT - out))
      {
        ghost var sofar := mem[SCRATCH..SCRATCH + out];
        UnstuffStep(f, c, MAXPKT - out);
        assert f[c] == mem[base + c];
        if mem[base + c] == ESC {
          c := c + 1;
          if c >= len {
            return -1;
          }
          assert f[c] == mem[base + c];
          mem[SCRATCH + out] := Meaning(mem[base + c]);
        } else {
          mem[SCRATCH + out] := mem[base + c];
        }
        assert mem[SCRATCH..SCRATCH + out + 1] == sofar + [mem[SCRATCH + out]];
        PrependAllSnoc(sofar, mem[SCRATCH + out], Unstuff(f[c + 1..], MAXPKT - out - 1));
        out := out + 1;
        c := c + 1;
      }
      UnstuffStops(f[c..], MAXPKT - out);
      assert mem[SCRATCH..SCRATCH + out] + [] == mem[SCRATCH..SCRATCH + out];
    }

    /** The bytes up to the END at p are one frame; what the stream gives continues after it. */
    lemma NextFrame(p: int)
      requires Valid() && EndAt(p)
      ensures var f := mem[HEADROOM + discard..p];
              Scan(START, history) == Scan(Close(delivered, drop, f), mem[p + 1..HEADROOM + index])
    {
      hide Scan, Close;
      var f, rest := mem[HEADROOM + discard..p], mem[p + 1..HEADROOM + index];
      assert Unread() == f + [END] + rest;
      ScanFrame(Stream(delivered, drop, []), f, rest);
      assert [] + f == f;
    }

    /** The 14 bytes in front of a returned packet hold nothing that is still to be read. */
    ghost predicate HeaderRoom(at: int)
      reads this
    {
      HEADROOM <= at <= HEADROOM + discard || at == SCRATCH
    }

    /** Without an END among the unread bytes, they are what the stream has pending. */
    lemma NothingFinished()
      requires Valid() && END !in Unread() && |Unread()| < SLIP_MAXPKT
      ensures Scan(START, history) == Stream(delivered, drop, Unread())
    {
      ScanPending(Stream(delivered, drop, []), Unread());
      assert [] + Unread() == Unread();
    }

    /**
     * slip_recv.  A packet is the next one of the stream; Null means that the descriptor said
     * end of file, no data yet or an error, every complete frame read so far was handed out or dropped, and
     * exactly the unread bytes are still pending.
     */
    method Recv(fd: InFd) returns (r: Recv)
      requires Valid()
      modifies this`index, this`discard, this`drop, this`history, this`delivered, mem, fd
      ensures Valid()
      ensures old(history) <= history && history + fd.incoming == old(history) + old(fd.incoming)
      ensures r.Null? ==> delivered == old(delivered) && Scan(START, history) == Stream(delivered, drop, Unread())
      ensures ReadOn(old(history), old(fd.incoming), old(fd.plan))
              == if r.Null? then (history, fd.incoming) else ReadOn(history, fd.incoming, fd.plan)
      ensures r.Packet? ==> HeaderRoom(r.at) && 1 <= r.len && r.at + r.len <= STATE_SIZE
                            && delivered == old(delivered) + [mem[r.at..r.at + r.len]]
      ensures r.Packet? ==> |fd.plan| < |old(fd.plan)| || (|fd.plan| == |old(fd.plan)| && |Unread()| < |old(Unread())|)
    {
      hide Scan, ReadOn;
      while true
        invariant Valid() && delivered == old(delivered)
        invariant old(history) <= history && history + fd.incoming == old(history) + old(fd.incoming)
        invariant |fd.plan| < |old(fd.plan)| || (|fd.plan| == |old(fd.plan)| && |Unread()| <= |old(Unread())|)
        invariant ReadOn(old(history), old(fd.incoming), old(fd.plan)) == ReadOn(history, fd.incoming, fd.plan)
        decreases |fd.plan|, |Unread()|
      {
        var p := FindFrame(fd);
        if p == -1 {
          NothingFinished();
          return Null;
        }
        r := TakeFrame(p);
        if r.Packet? {
          return;
        }
      }
    }

    /** A complete frame that is already buffered, or else one the read loop gets. */
    method FindFrame(fd: InFd) returns (p: int)
      requires Valid()
      modifies this`index, this`discard, this`drop, this`history, mem, fd
      ensures Valid()
      ensures old(history) <= history && history + fd.incoming == old(history) + old(fd.incoming)
      ensures p != -1 ==> EndAt(p)
      ensures p != -1 ==> |fd.plan| < |old(fd.plan)| || (|fd.plan| == |old(fd.plan)| && |Unread()| == |old(Unread())|)
      ensures p == -1 ==> END !in Unread() && |Unread()| < SLIP_MAXPKT
      ensures ReadOn(old(history), old(fd.incoming), old(fd.plan))
              == if p == -1 then (history, fd.incoming) else ReadOn(history, fd.incoming, fd.plan)
    {
      hide Scan, ReadOn;
      p := -1;
      if index > discard {
        p := MemChr(mem, HEADROOM + discard, HEADROOM + index, END);
      }
      if p == -1 {
        p := Fill(fd);
      }
    }

    /** Step over the frame ending at p; the stream goes on from the closed frame. */
    method Step(p: int)
      requires Valid() && EndAt(p)
      modifies this`discard
      ensures discard == p + 1 - HEADROOM <= index
      ensures Scan(START, history) == Scan(Close(delivered, drop, mem[HEADROOM + old(discard)..p]), Unread())
    {
      NextFrame(p);
      discard := p + 1 - HEADROOM;
    }

    /** The decode label: consume the frame ending at p.  Null is "goto retry". */
    method TakeFrame(p: int) returns (r: Recv)
      requires Valid() && EndAt(p)
      modifies this`discard, this`drop, this`delivered, mem
      ensures Valid() && |Unread()| < |old(Unread())|
      ensures r.Null? ==> delivered == old(delivered)
      ensures r.Packet? ==> HeaderRoom(r.at) && 1 <= r.len && r.at + r.len <= STATE_SIZE
                            && delivered == old(delivered) + [mem[r.at..r.at + r.len]]
    {
      hide Scan;
      var base := HEADROOM + discard;
      var len := p - base;
      var esc := MemChr(mem, base, p, ESC);
      Step(p);
      if len == 0 {
        return Null;
      }
      if esc == -1 {
        delivered := delivered + [mem[base..p]];
        return Packet(base, len);
      }
      r := TakeEscaped(base, len);
    }

    /** The slow half of decode, for a frame with an ESC that has been stepped over. */
    method TakeEscaped(base: nat, len: nat) returns (r: Recv)
      requires mem.Length == STATE_SIZE && discard <= index <= SLIP_MAXPKT
      requires len > 0 && HEADROOM <= base && base + len < SLIP_RAW_SIZE && ESC in mem[base..base + len]
      requires Scan(START, history) == Scan(Close(delivered, drop, mem[base..base + len]), Unread())
      modifies this`drop, this`delivered, mem
      ensures Valid()
      ensures r.Null? ==> delivered == old(delivered)
      ensures r.Packet? ==> r.at == SCRATCH && 1 <= r.len && SCRATCH + r.len <= STATE_SIZE
                            && delivered == old(delivered) + [mem[r.at..r.at + r.len]]
    {
      hide Scan, Close, Unstuff, Decode;
      ghost var settled, unread := Close(delivered, drop, mem[base..base + len]), Unread();
      ghost var decoded := CloseEscaped(delivered, drop, mem[base..base + len]);
      var out := Unescape(base, len, decoded);
      assert Unread() == unread;
      if out == -1 {
        drop := drop + 1;
        return Null;
      }
      delivered := delivered + [mem[SCRATCH..SCRATCH + out]];
      return Packet(SCRATCH, out);
    }

    /**
     * slip_to_outside: prepend the Ethernet header in place and hand the frame out.  A packet
     * too short for an IP header, and a frame the NAT does not take, count as dropped.  The
     * receiver's stream is not disturbed.
     */
    method ToOutside(at: nat, len: nat, taken: bool) returns (frame: Option<seq<byte>>)
      requires Valid() && HeaderRoom(at) && at + len <= STATE_SIZE
      modifies this`outDrop, this`tx, mem
      ensures Valid() && Unread() == old(Unread())
      ensures if frame.Some? && taken then tx == old(tx) + 1 && outDrop == old(outDrop)
              else tx == old(tx) && outDrop == old(outDrop) + 1
      ensures frame == if len < 20 then None else Some(EthernetFrame(old(mem[at..at + len])))
    {
      hide Scan, EthernetFrame, HeaderRoom;
      if len < 20 {
        outDrop := outDrop + 1;
        return None;
      }
      PutHeader(at, len);
      if taken {
        tx := tx + 1;
      } else {
        outDrop := outDrop + 1;
      }
      return Some(mem[at - HEADROOM..at + len]);
    }

    /** The 14 bytes in front of the packet become its Ethernet header. */
    method PutHeader(at: nat, len: nat)
      requires Valid() && HeaderRoom(at) && at + len <= STATE_SIZE
      modifies mem
      ensures Valid() && Unread() == old(Unread())
      ensures HEADROOM <= at && mem[at - HEADROOM..at + len] == EthernetFrame(old(mem[at..at + len]))
    {
      hide Scan;
      var start := at - HEADROOM;
      ghost var unread, pkt := Unread(), mem[at..at + len];
      var header := GATEWAY_MAC + MY_MAC + IPV4_TYPE;
      forall i | 0 <= i < HEADROOM {
        mem[start + i] := header[i];
      }
      assert Unread() == unread;
      assert mem[start..at] == header;
      assert mem[at..at + len] == pkt;
      assert mem[start..at + len] == mem[start..at] + mem[at..at + len];
    }

    /**
     * The stdin branch of the event loop: hand out packets until slip_recv says NULL.  The
     * descriptor has been read until it had nothing to say; every packet of the bytes read so far was
     * handed to the NAT, wrapped, in order, unless it was too short; and each one is counted
     * once, as sent if the NAT took it.  takes(j) says whether the NAT takes its j-th frame.
     */
    method Pump(fd: InFd, injected: seq<seq<byte>>, takes: nat -> bool) returns (out: seq<seq<byte>>)
      requires Valid()
      modifies this, mem, fd
      ensures Valid()
      ensures old(history) <= history && history + fd.incoming == old(history) + old(fd.incoming)
      ensures Scan(START, history) == Stream(delivered, drop, Unread()) && old(delivered) <= delivered
      ensures (history, fd.incoming) == ReadOn(old(history), old(fd.incoming), old(fd.plan))
      ensures out == injected + Wrap(delivered[|old(delivered)|..])
      ensures tx == old(tx) + CountTaken(takes, |injected|, |out|)
      ensures tx + outDrop - old(tx) - old(outDrop) == |delivered| - |old(delivered)|
    {
      hide Scan, EthernetFrame, ReadOn, HeaderRoom, Wrap, CountTaken;
      NothingYet(takes, |injected|);
      out := injected;
      assert delivered[|old(delivered)|..] == [];
      while true
        invariant Valid() && old(delivered) <= delivered
        invariant old(history) <= history && history + fd.incoming == old(history) + old(fd.incoming)
        invariant out == injected + Wrap(delivered[|old(delivered)|..])
        invariant |injected| <= |out| && tx == old(tx) + CountTaken(takes, |injected|, |out|)
        invariant tx + outDrop - old(tx) - old(outDrop) == |delivered| - |old(delivered)|
        invariant ReadOn(old(history), old(fd.incoming), old(fd.plan)) == ReadOn(history, fd.incoming, fd.plan)
        decreases |fd.plan|, |Unread()|
      {
        ghost var before := delivered[|old(delivered)|..];
        var r := Recv(fd);
        match r
        case Null => return;
        case Packet(at, len) =>
          assert delivered[|old(delivered)|..] == before + [mem[at..at + len]];
          out := Inject(at, len, takes, before, out, injected);
      }
    }

    /** One turn of that loop. */
    method Inject(at: nat, len: nat, takes: nat -> bool, ghost before: seq<seq<byte>>, soFar: seq<seq<byte>>,
                  ghost injected: seq<seq<byte>>)
      returns (out: seq<seq<byte>>)
      requires Valid() && HeaderRoom(at) && at + len <= STATE_SIZE && soFar == injected + Wrap(before)
      modifies this`outDrop, this`tx, mem
      ensures Valid() && |Unread()| == |old(Unread())|
      ensures out == injected + Wrap(before + [old(mem[at..at + len])])
      ensures |injected| <= |out|
      ensures tx - CountTaken(takes, |injected|, |out|) == old(tx) - CountTaken(takes, |injected|, |soFar|)
      ensures tx + outDrop == old(tx) + old(outDrop) + 1
    {
      hide Scan, EthernetFrame, CountTaken, HeaderRoom, Wrap;
      WrapSnoc(before, mem[at..at + len]);
      OneMore(takes, |injected|, |soFar|);
      out := soFar;
      var frame := ToOutside(at, len, takes(|out|));
      match frame {
        case Some(e) => out := out + [e];
        case None =>
      }
    }
  }

  /** How many of the frames lo, lo + 1, ... below hi are taken. */
  function CountTaken(takes: nat -> bool, lo: nat, hi: nat): nat
    decreases hi
  {
    if hi <= lo then 0 else CountTaken(takes, lo, hi - 1) + if takes(hi - 1) then 1 else 0
  }

  lemma NothingYet(takes: nat -> bool, n: nat)
    ensures Wrap([]) == [] && CountTaken(takes, n, n) == 0
  {
  }

  lemma OneMore(takes: nat -> bool, lo: nat, hi: nat)
    requires lo <= hi
    ensures CountTaken(takes, lo, hi + 1) == CountTaken(takes, lo, hi) + if takes(hi) then 1 else 0
  {
  }

  /** What the outside is handed for a list of packets. */
  function Wrap(ps: seq<seq<byte>>): seq<seq<byte>> {
    if ps == [] then [] else WrapOne(ps[0]) + Wrap(ps[1..])
  }

  function WrapOne(p: seq<byte>): seq<seq<byte>> {
    if |p| < 20 then [] else [EthernetFrame(p)]
  }

  /** Packets too short for an IPv4 header are left out, all others go out behind 14 bytes of Ethernet header. */
  lemma WrappedIff(p: seq<byte>)
    ensures WrapOne(p) == [] <==> |p| < 20
    ensures |p| >= 20 ==> |WrapOne(p)| == 1 && |WrapOne(p)[0]| == |p| + 14 && WrapOne(p)[0][14..] == p
  {
  }

  lemma {:induction false} WrapSnoc(ps: seq<seq<byte>>, p: seq<byte>)
    ensures Wrap(ps + [p]) == Wrap(ps) + WrapOne(p)
    decreases |ps|
  {
    hide WrapOne;
    if ps == [] {
      assert ps + [p] == [p] && [p][1..] == [];
    } else {
      assert (ps + [p])[1..] == ps[1..] + [p] && (ps + [p])[0] == ps[0];
      WrapSnoc(ps[1..], p);
    }
  }

  lemma CloseEscaped(frames: seq<seq<byte>>, drops: nat, f: seq<byte>) returns (decoded: Option<seq<byte>>)
    requires f != [] && ESC in f
    ensures decoded == Unstuff(f, MAXPKT)
    ensures decoded.None? ==> Close(frames, drops, f) == Stream(frames, drops + 1, [])
    ensures decoded.Some? ==>
              decoded.value != [] && Close(frames, drops, f) == Stream(frames + [decoded.value], drops, [])
  {
    decoded := Unstuff(f, MAXPKT);
  }

  lemma ScanSame(a: Stream, s: seq<byte>, b: Stream, t: seq<byte>, more: seq<byte>)
    requires Scan(a, s) == Scan(b, t)
    ensures Scan(a, s + more) == Scan(b, t + more)
  {
    ScanConcat(a, s, more);
    ScanConcat(b, t, more);
  }

  ghost function PrependAll(s: seq<byte>, rest: Option<seq<byte>>): Option<seq<byte>> {
    match rest
    case None => None
    case Some(t) => Some(s + t)
  }

  /** One turn of the unescape loop at position c. */
  lemma UnstuffStep(f: seq<byte>, c: nat, room: nat)
    requires c < |f| && room > 0
    ensures f[c] != ESC ==> Unstuff(f[c..], room) == Prepend(f[c], Unstuff(f[c + 1..], room - 1))
    ensures f[c] == ESC && c + 1 == |f| ==> Unstuff(f[c..], room) == None
    ensures f[c] == ESC && c + 1 < |f| ==>
              Unstuff(f[c..], room) == Prepend(Meaning(f[c + 1]), Unstuff(f[c + 2..], room - 1))
  {
    assert f[c..][1..] == f[c + 1..];
    if c + 1 < |f| {
      assert f[c..][2..] == f[c + 2..];
    }
  }

  lemma UnstuffStops(f: seq<byte>, room: nat)
    requires f == [] || room == 0
    ensures Unstuff(f, room) == Some([])
  {
  }

  lemma PrependNothing(s: seq<byte>, rest: Option<seq<byte>>)
    requires s == []
    ensures PrependAll(s, rest) == rest
  {
    if rest.Some? {
      assert s + rest.value == rest.value;
    }
  }

  lemma PrependAllSnoc(s: seq<byte>, b: byte, rest: Option<seq<byte>>)
    ensures PrependAll(s, Prepend(b, rest)) == PrependAll(s + [b], rest)
  {
    if rest.Some? {
      assert s + ([b] + rest.value) == s + [b] + rest.value;
    }
  }
}
