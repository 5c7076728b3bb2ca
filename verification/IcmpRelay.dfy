/**
 * The ICMP echo relay (vdeplug-go/internal/nat/icmp.go): guests' echo requests leave through
 * one host socket under a 16-bit host sequence, and replies are matched back to the flow that
 * holds the sequence.
 */
module IcmpRelay {
  import opened Bytes
  import opened Checksum

  type Ip4 = s: seq<byte> | |s| == 4 witness [0, 0, 0, 0]

  const ETH := 14
  const IPV4 := 20
  const ICMP := 8
  const ECHO: byte := 8
  const ECHO_REPLY: byte := 0
  const PROTO_ICMP: byte := 1
  const FLOW_TTL := 30
  const SEQS := 0x1_0000

  // ------------------------------------------------------------ frames

  /** An ICMP echo message with its checksum in place. */
  function Icmp(kind: byte, id: uint16, number: uint16, payload: seq<byte>): (b: seq<byte>)
    ensures |b| == ICMP + |payload|
  {
    Seal([kind, 0, 0, 0] + Be16(id) + Be16(number) + payload, 2)
  }

  /** A 20-byte IPv4 header: no options, TTL 64, checksum in place; the length field is 16 bits wide. */
  function IpHeader(length: nat, src: Ip4, dst: Ip4): (b: seq<byte>)
    ensures |b| == IPV4
  {
    Seal([0x45, 0] + Be16(length % SEQS) + [0, 0, 0, 0, 64, PROTO_ICMP, 0, 0] + src + dst, 10)
  }

  function EchoFrame(dstMac: Mac, srcMac: Mac, src: Ip4, dst: Ip4, icmp: seq<byte>): (f: seq<byte>)
    ensures |f| == ETH + IPV4 + |icmp|
  {
    dstMac + srcMac + [0x08, 0x00] + IpHeader(IPV4 + |icmp|, src, dst) + icmp
  }

  /** What the relay remembers of a request. */
  datatype Flow = Flow(guestMac: Mac, guestIp: Ip4, dst: Ip4, id: uint16, number: uint16, deadline: int)

  /** The frame buildEchoReply assembles. */
  function ReplyFrame(srcMac: Mac, f: Flow, from: Ip4, payload: seq<byte>): seq<byte> {
    EchoFrame(f.guestMac, srcMac, from, f.guestIp, Icmp(ECHO_REPLY, f.id, f.number, payload))
  }

  datatype Echo = Echo(dst: Ip4, id: uint16, number: uint16, payload: seq<byte>)

  /** parseEchoRequest; None is ok=false. */
  function ParseEchoRequest(frame: seq<byte>): Option<Echo> {
    if |frame| < ETH + IPV4 + ICMP then None
    else if Un16(frame[12..14]) != 0x0800 then None
    else if frame[ETH + 9] != PROTO_ICMP then None
    else
      var ihl := (frame[ETH] % 16) * 4;
      if |frame| < ETH + ihl + ICMP then None
      else
        var icmp := frame[ETH + ihl..];
        if icmp[0] != ECHO then None
        else
          var said := Un16(frame[ETH + 2..ETH + 4]) as int;
          var total := if said < ihl + ICMP || ETH + said > |frame| then |frame| - ETH else said;
          Some(Echo(frame[ETH + 16..ETH + 20], Un16(icmp[4..6]), Un16(icmp[6..8]), icmp[ICMP..total - ihl]))
  }

  lemma IcmpFields(kind: byte, id: uint16, number: uint16, payload: seq<byte>)
    ensures var b := Icmp(kind, id, number, payload);
            b[0] == kind && b[4..6] == Be16(id) && b[6..8] == Be16(number) && b[8..] == payload
  {
    hide Be16, Sum;
    var raw := [kind, 0, 0, 0] + Be16(id) + Be16(number) + payload;
    var b := Icmp(kind, id, number, payload);
    assert b == raw[..2] + Be16(Sum(raw)) + raw[4..];
    assert raw[4..] == Be16(id) + Be16(number) + payload;
    assert b[4..] == raw[4..];
    assert b[4..6] == b[4..][..2] && b[6..8] == b[4..][2..4] && b[8..] == b[4..][4..];
  }

  lemma IpHeaderFields(length: nat, src: Ip4, dst: Ip4)
    ensures var b := IpHeader(length, src, dst);
            && b[0] == 0x45 && b[1] == 0 && b[2..4] == Be16(length % SEQS) && b[4..8] == [0, 0, 0, 0]
            && b[8] == 64 && b[9] == PROTO_ICMP && b[12..16] == src && b[16..20] == dst
  {
    hide Be16, Sum;
    var raw := [0x45, 0] + Be16(length % SEQS) + [0, 0, 0, 0, 64, PROTO_ICMP, 0, 0] + src + dst;
    var b := IpHeader(length, src, dst);
    assert b[..10] == raw[..10] && b[12..] == raw[12..];
    assert raw[12..16] == src && raw[16..20] == dst && raw[2..4] == Be16(length % SEQS);
    assert b[2..4] == b[..10][2..4] && b[12..16] == b[12..][..4] && b[16..20] == b[12..][4..];
    assert raw[4..8] == [0, 0, 0, 0] && raw[8] == 64;
    assert b[4..8] == b[..10][4..8] && raw[4..8] == raw[..10][4..8];
    assert b[1] == b[..10][1] && b[8] == b[..10][8] && b[9] == b[..10][9];
  }

  /** Both checksums of every frame the relay builds verify. */
  lemma FrameChecksums(kind: byte, id: uint16, number: uint16, payload: seq<byte>, src: Ip4, dst: Ip4)
    requires ICMP + |payload| <= 65535
    ensures Sum(Icmp(kind, id, number, payload)) == 0
    ensures Sum(IpHeader(IPV4 + ICMP + |payload|, src, dst)) == 0
  {
    hide Sum;
    var raw := [kind, 0, 0, 0] + Be16(id) + Be16(number) + payload;
    SealVerifies(raw, 2);
    var hdr := [0x45, 0] + Be16((IPV4 + ICMP + |payload|) % SEQS) + [0, 0, 0, 0, 64, PROTO_ICMP, 0, 0] + src + dst;
    SealVerifies(hdr, 10);
  }

  lemma FrameLayout(dstMac: Mac, srcMac: Mac, src: Ip4, dst: Ip4, icmp: seq<byte>, pad: seq<byte>)
    requires |icmp| >= ICMP
    ensures var f := EchoFrame(dstMac, srcMac, src, dst, icmp) + pad;
            var h := IpHeader(IPV4 + |icmp|, src, dst);
            && f[..6] == dstMac && f[6..12] == srcMac && f[12..14] == [0x08, 0x00]
            && f[ETH..ETH + IPV4] == h && f[ETH + IPV4..] == icmp + pad
            && f[26..30] == src && f[30..34] == dst
            && f[ETH] == h[0] && f[ETH + 2..ETH + 4] == h[2..4] && f[ETH + 9] == h[9]
  {
    hide IpHeader;
    IpHeaderFields(IPV4 + |icmp|, src, dst);
    var h := IpHeader(IPV4 + |icmp|, src, dst);
    var f := EchoFrame(dstMac, srcMac, src, dst, icmp) + pad;
    assert f[ETH..ETH + IPV4] == h;
    assert f[26..30] == h[12..16] && f[30..34] == h[16..20];
  }

  /** A delivered frame carries the flow's own MAC, address, id and sequence, and the replier's address and data. */
  lemma ReplyRestores(srcMac: Mac, f: Flow, from: Ip4, payload: seq<byte>)
    ensures var b := ReplyFrame(srcMac, f, from, payload);
            && b[..6] == f.guestMac && b[6..12] == srcMac && b[26..30] == from && b[30..34] == f.guestIp
            && b[34] == ECHO_REPLY && b[38..40] == Be16(f.id) && b[40..42] == Be16(f.number) && b[42..] == payload
  {
    hide Icmp, EchoFrame, Be16;
    var icmp := Icmp(ECHO_REPLY, f.id, f.number, payload);
    IcmpFields(ECHO_REPLY, f.id, f.number, payload);
    FrameLayout(f.guestMac, srcMac, from, f.guestIp, icmp, []);
    var b := ReplyFrame(srcMac, f, from, payload);
    assert b + [] == b && icmp + [] == icmp;
    assert b[34..] == icmp;
    assert b[38..40] == b[34..][4..6] && b[40..42] == b[34..][6..8] && b[42..] == b[34..][8..];
  }

  /** A guest's request parses to its fields, and Ethernet padding behind it is left out of the data. */
  lemma ParseRequest(dstMac: Mac, guestMac: Mac, guestIp: Ip4, dst: Ip4, id: uint16, number: uint16, payload: seq<byte>,
                     pad: seq<byte>)
    requires IPV4 + ICMP + |payload| < SEQS
    ensures ParseEchoRequest(EchoFrame(dstMac, guestMac, guestIp, dst, Icmp(ECHO, id, number, payload)) + pad)
            == Some(Echo(dst, id, number, payload))
  {
    hide Icmp, EchoFrame, IpHeader, Be16, Un16;
    var icmp := Icmp(ECHO, id, number, payload);
    var f := EchoFrame(dstMac, guestMac, guestIp, dst, icmp) + pad;
    IcmpFields(ECHO, id, number, payload);
    IpHeaderFields(IPV4 + |icmp|, guestIp, dst);
    FrameLayout(dstMac, guestMac, guestIp, dst, icmp, pad);
    Un16Be16(IPV4 + |icmp|);
    Un16Be16(id);
    Un16Be16(number);
    TypeIsIpv4();
    var body := f[ETH + IPV4..];
    assert body[0] == icmp[0] && body[4..6] == icmp[4..6] && body[6..8] == icmp[6..8];
    assert body[ICMP..|icmp|] == icmp[ICMP..];
  }

  lemma TypeIsIpv4()
    ensures Un16([0x08, 0x00]) == 0x0800
  {
  }

  /** The 16-bit number at this offset, most significant byte first. */
  function Word(b: seq<byte>, at: nat): int
    requires at + 2 <= |b|
  {
    (b[at] as int) * 256 + b[at + 1] as int
  }

  /** Where the ICMP message of an IPv4 frame starts, by its header length field. */
  function IcmpAt(frame: seq<byte>): nat
    requires |frame| > ETH
  {
    ETH + frame[ETH] % 16 * 4
  }

  /** A frame is taken for an echo request iff its wire fields say so and it is long enough. */
  lemma IsRequestIff(frame: seq<byte>)
    ensures ParseEchoRequest(frame).Some? <==>
              |frame| >= 42 && frame[12..14] == [0x08, 0x00] && frame[23] == 1
              && |frame| >= IcmpAt(frame) + 8 && frame[IcmpAt(frame)] == 8
  {
    if |frame| >= 42 {
      assert frame[12..14] == [frame[12], frame[13]];
    }
  }

  /**
   * What is read off a request, with header options or without: the fields at their offsets, and
   * the data up to the IP length, or to the end of the frame where that length cannot be right.
   */
  lemma RequestFields(frame: seq<byte>)
    requires ParseEchoRequest(frame).Some?
    ensures |frame| >= 42 && |frame| >= IcmpAt(frame) + 8
    ensures var e, at, said := ParseEchoRequest(frame).value, IcmpAt(frame), Word(frame, 16);
            && e.dst == frame[30..34] && e.id == Word(frame, at + 4) && e.number == Word(frame, at + 6)
            && (at + 8 <= ETH + said <= |frame| ==> e.payload == frame[at + 8..ETH + said])
            && (!(at + 8 <= ETH + said <= |frame|) ==> e.payload == frame[at + 8..])
  {
    var at, said := IcmpAt(frame), Word(frame, 16);
    assert Un16(frame[ETH + 2..ETH + 4]) == said;
    var icmp := frame[at..];
    assert icmp[4..6] == [frame[at + 4], frame[at + 5]] && icmp[6..8] == [frame[at + 6], frame[at + 7]];
    if at + 8 <= ETH + said <= |frame| {
      assert icmp[ICMP..said - (at - ETH)] == frame[at + 8..ETH + said];
    } else {
      assert icmp[ICMP..|frame| - ETH - (at - ETH)] == frame[at + 8..];
    }
  }

  // ------------------------------------------------------------ filling frames

  method PutBytes(b: array<byte>, at: nat, s: seq<byte>)
    requires at + |s| <= b.Length
    modifies b
    ensures b[..at + |s|] == old(b[..at]) + s
    ensures b[at + |s|..] == old(b[at + |s|..])
  {
    forall i | 0 <= i < |s| {
      b[at + i] := s[i];
    }
  }

  /** Write the checksum of the whole buffer into it. */
  method SealBuffer(b: array<byte>, at: nat)
    requires at + 2 <= b.Length
    modifies b
    ensures b[..] == Seal(old(b[..]), at)
  {
    hide Be16, Sum;
    ghost var raw := b[..];
    var c := Compute(b[..]);
    PutBytes(b, at, Be16(c));
    assert b[..] == b[..at + 2] + b[at + 2..];
  }

  /** The message sendEchoRequest hands to the host socket, and the ICMP part of a reply frame. */
  method BuildIcmp(kind: byte, id: uint16, number: uint16, payload: seq<byte>) returns (b: array<byte>)
    ensures fresh(b) && b[..] == Icmp(kind, id, number, payload)
  {
    hide Be16, Seal;
    b := new byte[ICMP + |payload|](_ => 0);
    PutBytes(b, 0, [kind, 0, 0, 0]);
    assert b[..4] == [kind, 0, 0, 0];
    PutBytes(b, 4, Be16(id));
    PutBytes(b, 6, Be16(number));
    PutBytes(b, ICMP, payload);
    assert b[..] == [kind, 0, 0, 0] + Be16(id) + Be16(number) + payload;
    SealBuffer(b, 2);
  }

  method BuildIpHeader(length: nat, src: Ip4, dst: Ip4) returns (b: array<byte>)
    ensures fresh(b) && b[..] == IpHeader(length, src, dst)
  {
    hide Be16, Seal;
    b := new byte[IPV4](_ => 0);
    PutBytes(b, 0, [0x45, 0]);
    assert b[..2] == [0x45, 0];
    PutBytes(b, 2, Be16(length % SEQS));
    PutBytes(b, 4, [0, 0, 0, 0, 64, PROTO_ICMP, 0, 0]);
    PutBytes(b, 12, src);
    PutBytes(b, 16, dst);
    assert b[..] == [0x45, 0] + Be16(length % SEQS) + [0, 0, 0, 0, 64, PROTO_ICMP, 0, 0] + src + dst;
    SealBuffer(b, 10);
  }

  method BuildEchoReply(srcMac: Mac, f: Flow, from: Ip4, payload: seq<byte>) returns (frame: array<byte>)
    ensures fresh(frame) && frame[..] == ReplyFrame(srcMac, f, from, payload)
  {
    hide Icmp, IpHeader;
    var icmp := BuildIcmp(ECHO_REPLY, f.id, f.number, payload);
    var ip := BuildIpHeader(IPV4 + icmp.Length, from, f.guestIp);
    frame := new byte[ETH + IPV4 + icmp.Length](_ => 0);
    PutBytes(frame, 0, f.guestMac);
    PutBytes(frame, 6, srcMac);
    PutBytes(frame, 12, [0x08, 0x00]);
    PutBytes(frame, ETH, ip[..]);
    PutBytes(frame, ETH + IPV4, icmp[..]);
    assert frame[..] == frame[..ETH + IPV4 + icmp.Length];
  }

  // ------------------------------------------------------------ host sequences

  /** The host sequence of the i-th relayed request (counting from 0). */
  function SeqOf(i: nat): uint16 {
    (i + 1) % SEQS
  }

  /** Among n relayed requests, the latest one that was given host sequence k; negative if there is none. */
  function Latest(n: nat, k: uint16): int {
    n - 1 - (n - k) % SEQS
  }

  /** Latest is what its name says. */
  lemma LatestIsLatest(n: nat, k: uint16)
    ensures Latest(n, k) < n
    ensures Latest(n, k) >= 0 ==> SeqOf(Latest(n, k)) == k
    ensures forall j: nat :: Latest(n, k) < j < n ==> SeqOf(j) != k
  {
    var m := n - k;
    var r := m % SEQS;
    if Latest(n, k) >= 0 {
      ModShift(k, m - r);
    }
    forall j: nat | Latest(n, k) < j < n
      ensures SeqOf(j) != k
    {
      var d := n - 1 - j;
      assert 0 <= d < r;
      if SeqOf(j) == k {
        ModUnique(m, j + 1 - k, d, r);
      }
    }
  }

  lemma ModShift(k: uint16, x: int)
    requires x % SEQS == 0
    ensures (k + x) % SEQS == k
  {
  }

  lemma ModUnique(m: int, x: int, d: int, r: int)
    requires m == x + d && x % SEQS == 0 && 0 <= d < SEQS && r == m % SEQS
    ensures d == r
  {
  }

  /** A reply under the sequence of request i reaches request i iff fewer than 65536 requests followed it. */
  lemma SequenceStillOwnedIff(n: nat, i: nat)
    requires i < n
    ensures Latest(n, SeqOf(i)) == i <==> n - 1 - i < SEQS
  {
    var k := SeqOf(i);
    assert (i + 1 - k) % SEQS == 0;
    if n - 1 - i < SEQS {
      ModUnique(n - k, i + 1 - k, n - 1 - i, (n - k) % SEQS);
    }
  }

  lemma LatestAfterIssue(n: nat, k: uint16)
    ensures Latest(n + 1, k) == if k == SeqOf(n) then n else Latest(n, k)
  {
    var m := n - k;
    if k == SeqOf(n) {
      ModUnique(m + 1, n + 1 - k, 0, (m + 1) % SEQS);
    } else {
      assert (m + 1) % SEQS != 0;
      assert (m + 1) % SEQS == m % SEQS + 1;
    }
  }

  // ------------------------------------------------------------ every run of the relay

  /** A delivered reply: which request it answers, who replied, and with what. */
  datatype Answer = Answer(request: nat, from: Ip4, payload: seq<byte>)

  /** The flow table and counter, with every relayed request and every delivered reply so far. */
  datatype Book = Book(flows: map<uint16, Flow>, number: uint16, issued: seq<Flow>, answers: seq<Answer>)

  const BLANK := Book(map[], 0, [], [])

  /** What can happen, in any order; a send error may come long after its request. */
  datatype Event =
    | FromGuest(frame: seq<byte>, own: set<Ip4>, now: int, sweep: int)
    | SendError(number: uint16)
    | FromHost(pkt: seq<byte>, src: Ip4)

  predicate Relayable(frame: seq<byte>, own: set<Ip4>) {
    ParseEchoRequest(frame).Some? && ParseEchoRequest(frame).value.dst !in own
  }

  function FlowOf(frame: seq<byte>, now: int): Flow
    requires ParseEchoRequest(frame).Some?
  {
    var echo := ParseEchoRequest(frame).value;
    Flow(frame[6..12], frame[26..30], echo.dst, echo.id, echo.number, now + FLOW_TTL)
  }

  function Swept(flows: map<uint16, Flow>, now: int): map<uint16, Flow> {
    map k | k in flows && now <= flows[k].deadline :: flows[k]
  }

  /** The next host sequence now belongs to this flow, whoever held it before. */
  function Entered(b: Book, f: Flow): Book {
    var k := (b.number + 1) % SEQS;
    b.(flows := b.flows[k := f], number := k, issued := b.issued + [f])
  }

  predicate Answerable(b: Book, pkt: seq<byte>) {
    |pkt| >= ICMP && pkt[0] == ECHO_REPLY && Un16(pkt[6..8]) in b.flows
  }

  /** The flow under the reply's sequence is retired and booked as answering the latest request given that sequence. */
  function Answered(b: Book, pkt: seq<byte>, src: Ip4): Book
    requires Answerable(b, pkt)
  {
    var k := Un16(pkt[6..8]);
    var i := Latest(|b.issued|, k);
    b.(flows := b.flows - {k}, answers := b.answers + [Answer(if i < 0 then 0 else i, src, pkt[ICMP..])])
  }

  function Happens(b: Book, e: Event): Book {
    match e
    case FromGuest(frame, own, now, sweep) =>
      if Relayable(frame, own) then Entered(b.(flows := Swept(b.flows, sweep)), FlowOf(frame, now)) else b
    case SendError(k) => b.(flows := b.flows - {k})
    case FromHost(pkt, src) => if Answerable(b, pkt) then Answered(b, pkt, src) else b
  }

  function AfterAll(b: Book, events: seq<Event>): Book
    decreases |events|
  {
    if events == [] then b else AfterAll(Happens(b, events[0]), events[1..])
  }

  /** The flow under k is that of the latest request given k, and that request was not answered yet. */
  ghost predicate Owned(b: Book, k: uint16)
    requires k in b.flows
  {
    var i := Latest(|b.issued|, k);
    && 0 <= i < |b.issued| && b.flows[k] == b.issued[i]
    && (forall j :: 0 <= j < |b.answers| ==> b.answers[j].request != i)
  }

  ghost predicate Inv(b: Book) {
    && b.number == |b.issued| % SEQS
    && (forall k :: k in b.flows ==> Owned(b, k))
    && (forall j :: 0 <= j < |b.answers| ==> b.answers[j].request < |b.issued|)
    && (forall i, j :: 0 <= i < j < |b.answers| ==> b.answers[i].request != b.answers[j].request)
  }

  lemma EnteredKeepsInv(b: Book, f: Flow)
    requires Inv(b)
    ensures Inv(Entered(b, f)) && Entered(b, f).number == SeqOf(|b.issued|)
  {
    hide Latest;
    var c := Entered(b, f);
    forall k | k in c.flows
      ensures Owned(c, k)
    {
      LatestAfterIssue(|b.issued|, k);
      if k != c.number {
        assert Owned(b, k);
      }
    }
  }

  /** Flows under different sequences belong to different requests. */
  lemma OthersAreOther(b: Book, k: uint16)
    requires (forall h :: h in b.flows ==> Owned(b, h)) && k in b.flows
    ensures forall h :: h in b.flows && h != k ==> Latest(|b.issued|, h) != Latest(|b.issued|, k)
  {
    hide Latest, SeqOf;
    assert Owned(b, k);
    LatestIsLatest(|b.issued|, k);
    forall h | h in b.flows && h != k
      ensures Latest(|b.issued|, h) != Latest(|b.issued|, k)
    {
      assert Owned(b, h);
      LatestIsLatest(|b.issued|, h);
    }
  }

  lemma AnsweredKeepsInv(b: Book, pkt: seq<byte>, src: Ip4)
    requires Inv(b) && Answerable(b, pkt)
    ensures Inv(Answered(b, pkt, src))
    ensures var k := Un16(pkt[6..8]);
            var i := Latest(|b.issued|, k);
            && 0 <= i < |b.issued| && b.flows[k] == b.issued[i]
            && Answered(b, pkt, src).answers == b.answers + [Answer(i, src, pkt[ICMP..])]
  {
    hide Latest, Un16;
    var k := Un16(pkt[6..8]);
    assert Owned(b, k);
    OthersAreOther(b, k);
    var c := Answered(b, pkt, src);
    forall h | h in c.flows
      ensures Owned(c, h)
    {
      assert Owned(b, h);
    }
  }

  lemma FewerFlowsKeepInv(b: Book, flows: map<uint16, Flow>)
    requires Inv(b) && forall k :: k in flows ==> k in b.flows && flows[k] == b.flows[k]
    ensures Inv(b.(flows := flows))
  {
    hide Latest;
    var c := b.(flows := flows);
    forall k | k in c.flows
      ensures Owned(c, k)
    {
      assert Owned(b, k);
    }
  }

  lemma HappensKeepsInv(b: Book, e: Event)
    requires Inv(b)
    ensures Inv(Happens(b, e))
    ensures b.issued <= Happens(b, e).issued && b.answers <= Happens(b, e).answers
  {
    hide Inv, ParseEchoRequest, Latest, Un16;
    match e
    case FromGuest(frame, own, now, sweep) =>
      if Relayable(frame, own) {
        FewerFlowsKeepInv(b, Swept(b.flows, sweep));
        EnteredKeepsInv(b.(flows := Swept(b.flows, sweep)), FlowOf(frame, now));
      }
    case SendError(k) => FewerFlowsKeepInv(b, b.flows - {k});
    case FromHost(pkt, src) =>
      if Answerable(b, pkt) {
        AnsweredKeepsInv(b, pkt, src);
      }
  }

  lemma {:induction false} RunKeepsInv(b: Book, events: seq<Event>)
    requires Inv(b)
    ensures Inv(AfterAll(b, events))
    ensures b.issued <= AfterAll(b, events).issued && b.answers <= AfterAll(b, events).answers
    decreases |events|
  {
    hide Inv, Happens;
    if events != [] {
      HappensKeepsInv(b, events[0]);
      RunKeepsInv(Happens(b, events[0]), events[1..]);
    }
  }

  /**
   * After any interleaving of requests, sweeps, send errors and replies: no request has been
   * answered twice, and only relayed requests have been answered.
   */
  lemma NoRequestAnsweredTwice(events: seq<Event>, i: nat, j: nat)
    requires i < j < |AfterAll(BLANK, events).answers|
    ensures var b := AfterAll(BLANK, events);
            b.answers[i].request != b.answers[j].request && b.answers[i].request < |b.issued|
  {
    hide AfterAll;
    RunKeepsInv(BLANK, events);
  }

  /**
   * In any run, a reply under the host sequence of the i-th relayed request is booked under
   * that very request when fewer than 65536 were relayed after it; otherwise under the latest
   * one given the same sequence.
   */
  lemma ReplyMeetsItsRequest(events: seq<Event>, i: nat, pkt: seq<byte>, src: Ip4)
    requires i < |AfterAll(BLANK, events).issued|
    requires Answerable(AfterAll(BLANK, events), pkt) && Un16(pkt[6..8]) == SeqOf(i)
    ensures var b := AfterAll(BLANK, events);
            var after := Happens(b, FromHost(pkt, src)).answers;
            && |after| == |b.answers| + 1
            && (after[|b.answers|].request == i <==> |b.issued| - 1 - i < SEQS)
            && after[|b.answers|].request >= i && SeqOf(after[|b.answers|].request) == SeqOf(i)
            && after[|b.answers|].request < |b.issued|
            && b.flows[SeqOf(i)] == b.issued[after[|b.answers|].request]
  {
    hide AfterAll, Latest, SeqOf, Un16;
    var b := AfterAll(BLANK, events);
    RunKeepsInv(BLANK, events);
    AnsweredKeepsInv(b, pkt, src);
    SequenceStillOwnedIff(|b.issued|, i);
    LatestIsLatest(|b.issued|, SeqOf(i));
  }

  // ------------------------------------------------------------ when a flow waits for its reply

  /** This request is relayed under host sequence k. */
  predicate Issues(b: Book, e: Event, k: uint16) {
    e.FromGuest? && Relayable(e.frame, e.own) && k == (b.number + 1) % SEQS
  }

  predicate RepliesTo(pkt: seq<byte>, k: uint16) {
    |pkt| >= ICMP && pkt[0] == ECHO_REPLY && Un16(pkt[6..8]) == k
  }

  /** What takes a flow with this deadline from under k: a reply, a send error, or a sweep past the deadline. */
  predicate Ends(e: Event, k: uint16, deadline: int) {
    match e
    case FromGuest(frame, own, _, sweep) => Relayable(frame, own) && sweep > deadline
    case SendError(j) => j == k
    case FromHost(pkt, _) => RepliesTo(pkt, k)
  }

  /** The n-th event relayed a request under k. */
  predicate Begins(events: seq<Event>, n: nat, k: uint16) {
    n < |events| && Issues(AfterAll(BLANK, events[..n]), events[n], k)
  }

  function Deadline(e: Event): int {
    if e.FromGuest? then e.now + FLOW_TTL else 0
  }

  /** The n-th event relayed a request under k, no later one did, and nothing ended its flow since. */
  ghost predicate Waits(events: seq<Event>, n: nat, k: uint16) {
    && Begins(events, n, k)
    && forall j: nat :: n < j < |events| ==> !Begins(events, j, k) && !Ends(events[j], k, Deadline(events[n]))
  }

  lemma {:induction false} AfterAllSnoc(b: Book, events: seq<Event>, e: Event)
    ensures AfterAll(b, events + [e]) == Happens(AfterAll(b, events), e)
    decreases |events|
  {
    hide Happens;
    if events == [] {
      assert events + [e] == [e] && [e][1..] == [];
    } else {
      assert (events + [e])[0] == events[0] && (events + [e])[1..] == events[1..] + [e];
      AfterAllSnoc(Happens(b, events[0]), events[1..], e);
    }
  }

  /** One event's effect on what sequence k holds. */
  lemma HappensToFlow(b: Book, e: Event, k: uint16)
    ensures k in Happens(b, e).flows <==> Issues(b, e, k) || (k in b.flows && !Ends(e, k, b.flows[k].deadline))
    ensures k in Happens(b, e).flows ==>
              Happens(b, e).flows[k] == if Issues(b, e, k) then FlowOf(e.frame, e.now) else b.flows[k]
  {
    hide ParseEchoRequest, Un16, Latest;
  }

  lemma BeginsBefore(events: seq<Event>, e: Event, n: nat, k: uint16)
    ensures n < |events| ==> (Begins(events + [e], n, k) <==> Begins(events, n, k))
    ensures Begins(events + [e], |events|, k) <==> Issues(AfterAll(BLANK, events), e, k)
  {
    hide AfterAll, Issues;
    assert (events + [e])[..|events|] == events;
    if n < |events| {
      assert (events + [e])[..n] == events[..n];
    }
  }

  lemma WaitsLonger(events: seq<Event>, e: Event, n: nat, k: uint16)
    requires n < |events|
    ensures Waits(events + [e], n, k) <==>
              Waits(events, n, k) && !Issues(AfterAll(BLANK, events), e, k) && !Ends(e, k, Deadline(events[n]))
  {
    hide AfterAll, Issues, Ends, Begins;
    var longer := events + [e];
    forall j: nat
      ensures j < |events| ==> (Begins(longer, j, k) <==> Begins(events, j, k)) && longer[j] == events[j]
    {
      BeginsBefore(events, e, j, k);
    }
    BeginsBefore(events, e, n, k);
    assert longer[|events|] == e;
    if Waits(longer, n, k) {
      assert !Begins(longer, |events|, k);
    }
  }

  /** The flow under k, if there is one, is that of the request that waits. */
  ghost predicate FlowTold(events: seq<Event>, k: uint16) {
    && (k in AfterAll(BLANK, events).flows <==> exists n: nat :: Waits(events, n, k))
    && (forall n: nat :: Waits(events, n, k) ==>
          events[n].FromGuest? && Relayable(events[n].frame, events[n].own)
          && k in AfterAll(BLANK, events).flows
          && AfterAll(BLANK, events).flows[k] == FlowOf(events[n].frame, events[n].now))
  }

  /**
   * In every run, host sequence k has a flow waiting for its reply if and only if some request
   * was relayed under k, no later one was, and since then there was no reply under k, no send
   * error under k, and no sweep past that request's deadline; and the flow is that request's.
   */
  lemma {:induction false} FlowWaitsIff(events: seq<Event>, k: uint16)
    ensures k in AfterAll(BLANK, events).flows <==> exists n: nat :: Waits(events, n, k)
    ensures FlowTold(events, k)
    decreases |events|
  {
    hide Waits;
    if events == [] {
      NothingWaits(k);
    } else {
      hide AfterAll;
      var before, e := events[..|events| - 1], events[|events| - 1];
      FlowWaitsIff(before, k);
      FlowWaitsStep(before, e, k);
      assert events == before + [e];
    }
  }

  lemma FlowWaitsStep(before: seq<Event>, e: Event, k: uint16)
    requires FlowTold(before, k)
    ensures FlowTold(before + [e], k)
  {
    hide AfterAll, Happens, Ends, ParseEchoRequest, Waits, Begins;
    var b, events := AfterAll(BLANK, before), before + [e];
    AfterAllSnoc(BLANK, before, e);
    HappensToFlow(b, e, k);
    NewestWaits(before, e, k);
    assert events[|before|] == e;
    forall n: nat
      ensures Waits(events, n, k) ==> n < |events|
      ensures Waits(before, n, k) ==> n < |before| && b.flows[k].deadline == Deadline(before[n])
      ensures n < |before| ==> events[n] == before[n]
      ensures n < |before| ==>
                (Waits(events, n, k) <==> Waits(before, n, k) && !Issues(b, e, k) && !Ends(e, k, Deadline(before[n])))
    {
      WaitsInside(before, n, k);
      WaitsInside(events, n, k);
      if n < |before| {
        WaitsLonger(before, e, n, k);
      }
    }
  }

  lemma NothingWaits(k: uint16)
    ensures forall n: nat :: !Waits([], n, k)
  {
  }

  lemma WaitsInside(events: seq<Event>, n: nat, k: uint16)
    ensures Waits(events, n, k) ==> n < |events|
  {
  }

  lemma NewestWaits(events: seq<Event>, e: Event, k: uint16)
    ensures Waits(events + [e], |events|, k) <==> Issues(AfterAll(BLANK, events), e, k)
  {
    hide AfterAll, Issues, Ends;
    BeginsBefore(events, e, 0, k);
  }

  /** A packet from the host is delivered to a guest iff it is an echo reply under a sequence that waits. */
  lemma DeliversIff(events: seq<Event>, pkt: seq<byte>, src: Ip4)
    ensures var b := AfterAll(BLANK, events);
            |Happens(b, FromHost(pkt, src)).answers| == |b.answers| + (if Answerable(b, pkt) then 1 else 0)
    ensures Answerable(AfterAll(BLANK, events), pkt) <==>
              |pkt| >= ICMP && RepliesTo(pkt, Un16(pkt[6..8])) && exists n: nat :: Waits(events, n, Un16(pkt[6..8]))
  {
    hide AfterAll, Waits, Un16, Latest;
    if |pkt| >= ICMP {
      FlowWaitsIff(events, Un16(pkt[6..8]));
    }
  }

  /** The frame delivered for an answer. */
  function DeliveredFrame(srcMac: Mac, b: Book, a: Answer): seq<byte>
    requires a.request < |b.issued|
  {
    ReplyFrame(srcMac, b.issued[a.request], a.from, a.payload)
  }

  /** A guest's request is remembered by the guest's own addresses, id and sequence. */
  lemma RequestIsRemembered(dstMac: Mac, guestMac: Mac, guestIp: Ip4, dst: Ip4, id: uint16, number: uint16,
                            payload: seq<byte>, pad: seq<byte>, now: int)
    requires IPV4 + ICMP + |payload| < SEQS
    ensures var frame := EchoFrame(dstMac, guestMac, guestIp, dst, Icmp(ECHO, id, number, payload)) + pad;
            && ParseEchoRequest(frame).Some?
            && FlowOf(frame, now) == Flow(guestMac, guestIp, dst, id, number, now + FLOW_TTL)
            && forall own: set<Ip4> :: Relayable(frame, own) <==> dst !in own
  {
    hide ParseEchoRequest, EchoFrame, Icmp;
    ParseRequest(dstMac, guestMac, guestIp, dst, id, number, payload, pad);
    FrameLayout(dstMac, guestMac, guestIp, dst, Icmp(ECHO, id, number, payload), pad);
  }

  /** The host's answer to the message sent out for a request, once relayed. */
  lemma ReplyIsAnswerable(b: Book, f: Flow, hostId: uint16, k: uint16, data: seq<byte>)
    requires k == (b.number + 1) % SEQS
    ensures var pkt := Icmp(ECHO_REPLY, hostId, k, data);
            Answerable(Entered(b, f), pkt) && Un16(pkt[6..8]) == k && pkt[ICMP..] == data
            && Entered(b, f).flows[k] == f
  {
    hide Icmp, Be16, Un16;
    IcmpFields(ECHO_REPLY, hostId, k, data);
    Un16Be16(k);
  }

  /**
   * A whole ping, whatever else is in the table: a guest's request for a public address is
   * relayed, and the host's reply under its sequence comes back as one frame to that guest's
   * addresses, with its own id and sequence, from the address it pinged, with the reply's data.
   */
  lemma PingComesBack(b: Book, dstMac: Mac, guestMac: Mac, guestIp: Ip4, dst: Ip4, id: uint16, number: uint16,
                      payload: seq<byte>, pad: seq<byte>, own: set<Ip4>, now: int, sweep: int, srcMac: Mac,
                      hostId: uint16, data: seq<byte>)
    requires Inv(b) && IPV4 + ICMP + |payload| < SEQS && dst !in own
    ensures var frame := EchoFrame(dstMac, guestMac, guestIp, dst, Icmp(ECHO, id, number, payload)) + pad;
            var asked := Happens(b, FromGuest(frame, own, now, sweep));
            var done := Happens(asked, FromHost(Icmp(ECHO_REPLY, hostId, SeqOf(|b.issued|), data), dst));
            && |done.answers| == |b.answers| + 1 && done.answers[|b.answers|].request < |done.issued|
            && var r := DeliveredFrame(srcMac, done, done.answers[|b.answers|]);
            && |r| == ETH + IPV4 + ICMP + |data| && r[..6] == guestMac && r[6..12] == srcMac
            && r[26..30] == dst && r[30..34] == guestIp && r[34] == ECHO_REPLY
            && r[38..40] == Be16(id) && r[40..42] == Be16(number) && r[42..] == data
  {
    hide ParseEchoRequest, EchoFrame, Icmp, Be16, Un16, Latest, Swept, Relayable, FlowOf, Answerable, Entered,
      Inv, ReplyFrame;
    var frame := EchoFrame(dstMac, guestMac, guestIp, dst, Icmp(ECHO, id, number, payload)) + pad;
    var k, flow := SeqOf(|b.issued|), Flow(guestMac, guestIp, dst, id, number, now + FLOW_TTL);
    RequestIsRemembered(dstMac, guestMac, guestIp, dst, id, number, payload, pad, now);
    HappensKeepsInv(b, FromGuest(frame, own, now, sweep));
    var swept := b.(flows := Swept(b.flows, sweep));
    NextSequence(b);
    ReplyIsAnswerable(swept, flow, hostId, k, data);
    EnteredBooks(swept, flow);
    var asked := Entered(swept, flow);
    assert asked == Happens(b, FromGuest(frame, own, now, sweep));
    AnsweredKeepsInv(asked, Icmp(ECHO_REPLY, hostId, k, data), dst);
    ReplyRestores(srcMac, flow, dst, data);
    ReplyLength(srcMac, flow, dst, data);
  }

  lemma NextSequence(b: Book)
    requires Inv(b)
    ensures SeqOf(|b.issued|) == (b.number + 1) % SEQS
  {
  }

  lemma EnteredBooks(b: Book, f: Flow)
    ensures Entered(b, f).issued == b.issued + [f] && Entered(b, f).answers == b.answers
  {
  }

  lemma ReplyLength(srcMac: Mac, f: Flow, from: Ip4, payload: seq<byte>)
    ensures |ReplyFrame(srcMac, f, from, payload)| == ETH + IPV4 + ICMP + |payload|
  {
  }

  // ------------------------------------------------------------ the object

  class Relay {
    const srcMac: Mac
    const hostId: uint16
    const ready: bool
    var flows: map<uint16, Flow>
    var number: uint16
    var delivered: seq<seq<byte>>

    /** Every relayed request in order, and what each delivered frame answers. */
    ghost var issued: seq<Flow>
    ghost var answers: seq<Answer>

    ghost function Value(): Book
      reads this
    {
      Book(flows, number, issued, answers)
    }

    ghost predicate Valid()
      reads this
    {
      && Inv(Value())
      && |delivered| == |answers|
      && (forall j :: 0 <= j < |answers| ==> answers[j].request < |issued|
                                             && delivered[j] == DeliveredFrame(srcMac, Value(), answers[j]))
    }

    constructor (srcMac: Mac, hostId: uint16, ready: bool)
      ensures Valid() && Value() == BLANK
    {
      this.srcMac, this.hostId, this.ready := srcMac, hostId, ready;
      flows, number, delivered := map[], 0, [];
      issued, answers := [], [];
    }

    /** sweepLocked: flows whose replies never came back. */
    method Sweep(now: int)
      modifies this`flows
      ensures flows == Swept(old(flows), now)
    {
      ghost var was := flows;
      var todo := flows.Keys;
      while todo != {}
        invariant todo <= flows.Keys <= was.Keys
        invariant forall k :: k in flows ==> flows[k] == was[k]
        invariant forall k :: k in was && k !in todo ==> (k in flows <==> now <= was[k].deadline)
        decreases |todo|
      {
        var k :| k in todo;
        if now > flows[k].deadline {
          flows := flows - {k};
        }
        todo := todo - {k};
      }
    }

    /**
     * HandleFrame up to the send: a public echo request gets the next host sequence and a flow,
     * and the message to send.  None means the frame is not the relay's.
     */
    method Issue(frame: seq<byte>, own: set<Ip4>, now: int, sweep: int) returns (out: Option<(uint16, seq<byte>, Ip4)>)
      requires Valid()
      modifies this`flows, this`number, this`issued
      ensures Valid()
      ensures out.Some? <==> ready && Relayable(frame, own)
      ensures Value() == if ready then Happens(old(Value()), FromGuest(frame, own, now, sweep)) else old(Value())
      ensures out.Some? ==>
                var echo := ParseEchoRequest(frame).value;
                out.value == (SeqOf(|old(issued)|), Icmp(ECHO, hostId, SeqOf(|old(issued)|), echo.payload), echo.dst)
    {
      hide ReplyFrame, Icmp, ParseEchoRequest, Latest, Owned;
      if !ready {
        return None;
      }
      var parsed := ParseEchoRequest(frame);
      if parsed.None? {
        return None;
      }
      var echo := parsed.value;
      if echo.dst in own {
        return None;
      }
      HappensKeepsInv(Value(), FromGuest(frame, own, now, sweep));
      LongEnough(frame);
      var flow := Flow(frame[6..12], frame[26..30], echo.dst, echo.id, echo.number, now + FLOW_TTL);
      Sweep(sweep);
      number := (number + 1) % SEQS;
      flows := flows[number := flow];
      issued := issued + [flow];
      var pkt := BuildIcmp(ECHO, hostId, number, echo.payload);
      return Some((number, pkt[..], echo.dst));
    }

    /** The send failed: whatever flow holds the sequence by now is dropped. */
    method SendFailed(k: uint16)
      requires Valid()
      modifies this`flows
      ensures Valid() && Value() == Happens(old(Value()), SendError(k))
    {
      hide ReplyFrame, Inv;
      HappensKeepsInv(Value(), SendError(k));
      flows := flows - {k};
    }

    /** HandleFrame with nothing happening between the unlock and the send's outcome. */
    method HandleFrame(frame: seq<byte>, own: set<Ip4>, now: int, sweep: int, sent: bool) returns (consumed: bool)
      requires Valid()
      modifies this`flows, this`number, this`issued
      ensures Valid()
      ensures consumed <==> sent && ready && Relayable(frame, own)
      ensures var requested := Happens(old(Value()), FromGuest(frame, own, now, sweep));
              Value() == if !ready || !Relayable(frame, own) then old(Value())
                         else if sent then requested
                         else Happens(requested, SendError(SeqOf(|old(issued)|)))
    {
      hide ReplyFrame, Icmp, ParseEchoRequest, Inv, Entered;
      var out := Issue(frame, own, now, sweep);
      if out.None? {
        return false;
      }
      if !sent {
        SendFailed(out.value.0);
        return false;
      }
      return true;
    }

    /**
     * handleReply: an echo reply whose sequence a flow holds is delivered once, to the guest of
     * the latest request given that sequence, and the flow is retired.
     */
    method HandleReply(pkt: seq<byte>, src: Ip4)
      requires Valid()
      modifies this`flows, this`delivered, this`answers
      ensures Valid() && Value() == Happens(old(Value()), FromHost(pkt, src))
      ensures delivered == if |answers| == |old(answers)| then old(delivered)
                           else old(delivered) + [DeliveredFrame(srcMac, Value(), answers[|old(answers)|])]
    {
      hide ReplyFrame, Latest, Un16, Owned;
      if |pkt| < ICMP || pkt[0] != ECHO_REPLY {
        return;
      }
      var k := Un16(pkt[6..8]);
      if k !in flows {
        return;
      }
      AnsweredKeepsInv(Value(), pkt, src);
      var flow := flows[k];
      ghost var i := Latest(|issued|, k);
      flows := flows - {k};
      var frame := BuildEchoReply(srcMac, flow, src, pkt[ICMP..]);
      answers := answers + [Answer(i, src, pkt[ICMP..])];
      delivered := delivered + [frame[..]];
    }

    /** Each delivered frame is addressed to the guest of the request it answers, under its own id and sequence. */
    lemma DeliveredToItsGuest(j: nat)
      requires Valid() && j < |delivered|
      ensures answers[j].request < |issued|
      ensures var f, b := issued[answers[j].request], delivered[j];
              |b| >= ETH + IPV4 + ICMP && b[..6] == f.guestMac && b[30..34] == f.guestIp && b[26..30] == answers[j].from
              && b[38..40] == Be16(f.id) && b[40..42] == Be16(f.number) && b[42..] == answers[j].payload
    {
      hide Be16, Inv;
      ReplyRestores(srcMac, issued[answers[j].request], answers[j].from, answers[j].payload);
    }

    /** Any interleaving of requests, send errors and replies. */
    method Run(events: seq<Event>)
      requires Valid() && ready
      modifies this
      ensures Valid() && Value() == AfterAll(old(Value()), events) && old(delivered) <= delivered
    {
      hide DeliveredFrame, Inv, Happens, Icmp, ParseEchoRequest;
      var n := 0;
      while n < |events|
        invariant 0 <= n <= |events| && Valid() && old(delivered) <= delivered
        invariant AfterAll(old(Value()), events) == AfterAll(Value(), events[n..])
      {
        assert events[n..][1..] == events[n + 1..];
        match events[n] {
          case FromGuest(frame, own, now, sweep) =>
            var _ := Issue(frame, own, now, sweep);
          case SendError(k) =>
            SendFailed(k);
          case FromHost(pkt, src) =>
            HandleReply(pkt, src);
        }
        n := n + 1;
      }
    }
  }

  lemma LongEnough(frame: seq<byte>)
    requires ParseEchoRequest(frame).Some?
    ensures |frame| >= ETH + IPV4 + ICMP
  {
  }
}
