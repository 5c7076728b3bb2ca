/**
 * The SLIP stream of legacy/slirp.c as pure functions: the byte-stuffing encoder, the
 * decoder of one delimited frame, and the automaton a byte stream drives.  Nothing here
 * knows about buffers, reads or writes; SlipSender and SlipReceiver are proved against it.
 */
module SlipSpec {
  import opened Bytes
  import opened Subsequences

  const END: byte := 0xC0
  const ESC: byte := 0xDB
  const ESC_END: byte := 0xDC
  const ESC_ESC: byte := 0xDD

  const MAXPKT := 1600
  const SLIP_MAXPKT := MAXPKT * 2 + 2

  // ---------------------------------------------------------------- encoding

  function StuffByte(b: byte): seq<byte> {
    if b == END then [ESC, ESC_END] else if b == ESC then [ESC, ESC_ESC] else [b]
  }

  function Stuff(p: seq<byte>): seq<byte> {
    if p == [] then [] else StuffByte(p[0]) + Stuff(p[1..])
  }

  function Clamp(p: seq<byte>): seq<byte> {
    if |p| > MAXPKT then p[..MAXPKT] else p
  }

  /** The bytes slip_send puts on the wire for one packet. */
  function Encode(p: seq<byte>): seq<byte> {
    [END] + Stuff(Clamp(p)) + [END]
  }

  function EncodeAll(ps: seq<seq<byte>>): seq<byte> {
    if ps == [] then [] else Encode(ps[0]) + EncodeAll(ps[1..])
  }

  // ---------------------------------------------------------------- decoding

  /** What the byte after an ESC stands for; unknown escapes pass through. */
  function Meaning(b: byte): byte {
    if b == ESC_END then END else if b == ESC_ESC then ESC else b
  }

  /** The unescape loop with room for `room` more bytes; None is an ESC with nothing after it. */
  function Unstuff(f: seq<byte>, room: nat): Option<seq<byte>> {
    if f == [] || room == 0 then Some([])
    else if f[0] == ESC then
      if |f| == 1 then None
      else Prepend(Meaning(f[1]), Unstuff(f[2..], room - 1))
    else Prepend(f[0], Unstuff(f[1..], room - 1))
  }

  function Prepend(b: byte, rest: Option<seq<byte>>): Option<seq<byte>> {
    match rest
    case None => None
    case Some(s) => Some([b] + s)
  }

  /** The packet carried by the bytes before an END; a frame without ESC is handed out as it is. */
  function Decode(f: seq<byte>): Option<seq<byte>> {
    if ESC !in f then Some(f) else Unstuff(f, MAXPKT)
  }

  // ---------------------------------------------------------------- the stream automaton

  /** Packets found, frames dropped, and the bytes since the last END (or reset). */
  datatype Stream = Stream(frames: seq<seq<byte>>, drops: nat, pending: seq<byte>)

  const START := Stream([], 0, [])

  /** The effect of an END after the bytes f. */
  function Close(frames: seq<seq<byte>>, drops: nat, f: seq<byte>): Stream {
    if f == [] then Stream(frames, drops, [])
    else match Decode(f)
      case Some(p) => Stream(frames + [p], drops, [])
      case None => Stream(frames, drops + 1, [])
  }

  /** One byte.  SLIP_MAXPKT bytes without an END are thrown away: the overflow reset. */
  function Feed(st: Stream, b: byte): Stream {
    if b == END then Close(st.frames, st.drops, st.pending)
    else if |st.pending| + 1 >= SLIP_MAXPKT then Stream(st.frames, st.drops + 1, [])
    else st.(pending := st.pending + [b])
  }

  function Scan(st: Stream, s: seq<byte>): Stream
    decreases |s|
  {
    if s == [] then st else Scan(Feed(st, s[0]), s[1..])
  }

  // ---------------------------------------------------------------- laws of the automaton

  lemma {:induction false} ScanConcat(st: Stream, a: seq<byte>, b: seq<byte>)
    ensures Scan(st, a + b) == Scan(Scan(st, a), b)
    decreases |a|
  {
    if a == [] {
      assert a + b == b;
    } else {
      assert (a + b)[1..] == a[1..] + b;
      ScanConcat(Feed(st, a[0]), a[1..], b);
    }
  }

  /** Bytes without an END only pile up, as long as they stay short of the limit. */
  lemma {:induction false} ScanPending(st: Stream, u: seq<byte>)
    requires END !in u && |st.pending| + |u| < SLIP_MAXPKT
    ensures Scan(st, u) == st.(pending := st.pending + u)
    decreases |u|
  {
    if u != [] {
      ScanPending(Feed(st, u[0]), u[1..]);
      assert st.pending + [u[0]] + u[1..] == st.pending + u;
    }
  }

  lemma ScanFull(st: Stream, u: seq<byte>)
    requires END !in u && st.pending == [] && |u| == SLIP_MAXPKT
    ensures Scan(st, u) == Stream(st.frames, st.drops + 1, [])
  {
    var k := |u| - 1;
    assert u == u[..k] + [u[k]];
    ScanConcat(st, u[..k], [u[k]]);
    ScanPending(st, u[..k]);
    assert [u[k]][1..] == [];
  }

  lemma ScanFrame(st: Stream, u: seq<byte>, rest: seq<byte>)
    requires END !in u && |st.pending| + |u| < SLIP_MAXPKT
    ensures Scan(st, u + [END] + rest) == Scan(Close(st.frames, st.drops, st.pending + u), rest)
  {
    assert u + [END] + rest == u + ([END] + rest);
    ScanConcat(st, u, [END] + rest);
    ScanPending(st, u);
    assert ([END] + rest)[1..] == rest;
  }

  /** Packets are only ever appended: reading more of a stream never revises what was found. */
  lemma {:induction false} ScanMonotone(st: Stream, s: seq<byte>)
    ensures st.frames <= Scan(st, s).frames && st.drops <= Scan(st, s).drops
    decreases |s|
  {
    if s != [] {
      ScanMonotone(Feed(st, s[0]), s[1..]);
    }
  }

  /** What was found before does not influence what is found next. */
  lemma {:induction false} ScanOffset(frames: seq<seq<byte>>, drops: nat, st: Stream, s: seq<byte>)
    ensures var r := Scan(st, s);
            Scan(Stream(frames + st.frames, drops + st.drops, st.pending), s)
            == Stream(frames + r.frames, drops + r.drops, r.pending)
    decreases |s|
  {
    if s != [] {
      var lifted := Stream(frames + st.frames, drops + st.drops, st.pending);
      var n := Feed(st, s[0]);
      assert Feed(lifted, s[0]) == Stream(frames + n.frames, drops + n.drops, n.pending) by {
        if s[0] == END && st.pending != [] && Decode(st.pending).Some? {
          assert frames + st.frames + [Decode(st.pending).value]
              == frames + (st.frames + [Decode(st.pending).value]);
        }
      }
      ScanOffset(frames, drops, n, s[1..]);
    }
  }

  // ---------------------------------------------------------------- stuffing is undone

  lemma {:induction false} StuffIsClean(p: seq<byte>)
    ensures END !in Stuff(p)
    ensures |p| <= |Stuff(p)| <= 2 * |p|
    ensures ESC in Stuff(p) <==> (END in p || ESC in p)
    ensures ESC !in Stuff(p) ==> Stuff(p) == p
  {
    if p != [] {
      StuffIsClean(p[1..]);
      assert p == [p[0]] + p[1..];
    }
  }

  lemma {:induction false} UnstuffStuff(p: seq<byte>, room: nat)
    requires |p| <= room
    ensures Unstuff(Stuff(p), room) == Some(p)
    decreases |p|
  {
    if p != [] {
      var s, rest := StuffByte(p[0]), Stuff(p[1..]);
      UnstuffStuff(p[1..], room - 1);
      assert (s + rest)[|s|..] == rest;
      assert [p[0]] + p[1..] == p;
    }
  }

  lemma DecodeStuff(p: seq<byte>)
    requires |p| <= MAXPKT
    ensures Decode(Stuff(p)) == Some(p)
  {
    StuffIsClean(p);
    UnstuffStuff(p, MAXPKT);
  }

  /** The bytes of section "Protocol" of RFC 1055: END is 192, ESC 219, and the escaped ones 220 and 221. */
  lemma SpecialBytesOnTheWire(a: byte)
    requires a != 192 && a != 219
    ensures Encode([a, 192, 219, a]) == [192, a, 219, 220, 219, 221, a, 192]
    ensures Encode([]) == [192, 192]
  {
    assert [a, 192, 219, a][1..] == [192, 219, a] && [192, 219, a][1..] == [219, a] && [219, a][1..] == [a];
    assert [a][1..] == [];
    assert Stuff([a]) == [a];
    assert Stuff([219, a]) == [219, 221, a];
    assert Stuff([192, 219, a]) == [219, 220, 219, 221, a];
  }

  /** What a sender of any kind may put between two ENDs, byte by byte: a plain byte, or ESC and another. */
  datatype Token = Plain(b: byte) | Escaped(b: byte)

  function TokenBytes(t: Token): seq<byte> {
    match t case Plain(b) => [b] case Escaped(b) => [219, b]
  }

  /** What it stands for; an escape RFC 1055 does not define stands for the escaped byte itself. */
  function TokenMeans(t: Token): byte {
    match t
    case Plain(b) => b
    case Escaped(b) => if b == 220 then 192 else if b == 221 then 219 else b
  }

  function OnTheWire(ts: seq<Token>): seq<byte> {
    if ts == [] then [] else TokenBytes(ts[0]) + OnTheWire(ts[1..])
  }

  function Meanings(ts: seq<Token>): (p: seq<byte>)
    ensures |p| == |ts|
  {
    if ts == [] then [] else [TokenMeans(ts[0])] + Meanings(ts[1..])
  }

  lemma UnstuffToken(t: Token, rest: seq<byte>, room: nat)
    requires room > 0 && (t.Plain? ==> t.b != 219)
    ensures Unstuff(TokenBytes(t) + rest, room) == Prepend(TokenMeans(t), Unstuff(rest, room - 1))
  {
    match t
    case Plain(b) => assert ([b] + rest)[1..] == rest;
    case Escaped(b) => assert ([219, b] + rest)[2..] == rest;
  }

  /**
   * Any frame with an escape decodes to what its bytes stand for, cut to the room there is; a
   * last ESC with nothing behind it makes it malformed, unless the cut comes first.
   */
  lemma {:induction false} UnstuffMeans(ts: seq<Token>, room: nat)
    requires forall t :: t in ts && t.Plain? ==> t.b != 219
    ensures Unstuff(OnTheWire(ts), room) == Some(if |ts| <= room then Meanings(ts) else Meanings(ts)[..room])
    ensures Unstuff(OnTheWire(ts) + [219], room) == if |ts| < room then None else Some(Meanings(ts)[..room])
    decreases |ts|
  {
    hide TokenBytes, TokenMeans;
    if ts == [] {
      assert OnTheWire(ts) + [219] == [219];
    } else if room > 0 {
      var rest := OnTheWire(ts[1..]);
      UnstuffMeans(ts[1..], room - 1);
      assert ts[0] in ts;
      UnstuffToken(ts[0], rest, room);
      UnstuffToken(ts[0], rest + [219], room);
      assert TokenBytes(ts[0]) + rest + [219] == TokenBytes(ts[0]) + (rest + [219]);
      if room <= |ts| {
        assert Meanings(ts)[..room] == [TokenMeans(ts[0])] + Meanings(ts[1..])[..room - 1];
      }
    }
  }

  // ---------------------------------------------------------------- the main results

  /** A packet the far end hands out: empty ones vanish, long ones are cut to MAXPKT. */
  function Arrives(p: seq<byte>): seq<seq<byte>> {
    if p == [] then [] else [Clamp(p)]
  }

  function ArriveAll(ps: seq<seq<byte>>): seq<seq<byte>> {
    if ps == [] then [] else Arrives(ps[0]) + ArriveAll(ps[1..])
  }

  /** The stream after one sent packet: what was pending is closed, then the packet arrives. */
  function AfterPacket(st: Stream, p: seq<byte>): Stream {
    var closed := Close(st.frames, st.drops, st.pending);
    Stream(closed.frames + Arrives(p), closed.drops, [])
  }

  /**
   * Resynchronisation.  Whatever state the stream is in, one encoded packet first closes
   * whatever was pending and is then returned intact, before anything that follows it.
   */
  lemma Resync(st: Stream, p: seq<byte>, rest: seq<byte>)
    ensures Scan(st, Encode(p) + rest) == Scan(AfterPacket(st, p), rest)
  {
    var body := Stuff(Clamp(p));
    var closed := Close(st.frames, st.drops, st.pending);
    StuffIsClean(Clamp(p));
    DecodeStuff(Clamp(p));
    assert Encode(p) + rest == [END] + (body + [END] + rest);
    assert ([END] + (body + [END] + rest))[1..] == body + [END] + rest;
    ScanFrame(closed, body, rest);
    assert closed.pending + body == body;
    if p == [] {
      assert closed.frames + Arrives(p) == closed.frames;
    }
  }

  /** Resynchronisation after arbitrary garbage: the packet follows exactly what the garbage alone would give. */
  lemma ResyncAfterGarbage(g: seq<byte>, p: seq<byte>, rest: seq<byte>)
    ensures var junk := Scan(START, g + [END]);
            Scan(START, g + Encode(p) + rest) == Scan(Stream(junk.frames + Arrives(p), junk.drops, []), rest)
    ensures Scan(START, g + [END]).frames + Arrives(p) <= Scan(START, g + Encode(p) + rest).frames
  {
    var st := Scan(START, g);
    assert g + Encode(p) + rest == g + (Encode(p) + rest);
    ScanConcat(START, g, Encode(p) + rest);
    ScanConcat(START, g, [END]);
    assert [END][1..] == [];
    assert Scan(st, [END]) == Close(st.frames, st.drops, st.pending);
    Resync(st, p, rest);
    ScanMonotone(Stream(Scan(START, g + [END]).frames + Arrives(p), Scan(START, g + [END]).drops, []), rest);
  }

  /** Round trip from any clean state: every packet arrives, in order, and nothing is dropped. */
  lemma {:induction false} RoundTripFrom(frames: seq<seq<byte>>, drops: nat, ps: seq<seq<byte>>)
    ensures Scan(Stream(frames, drops, []), EncodeAll(ps)) == Stream(frames + ArriveAll(ps), drops, [])
    decreases |ps|
  {
    if ps == [] {
      assert frames + ArriveAll(ps) == frames;
    } else {
      Resync(Stream(frames, drops, []), ps[0], EncodeAll(ps[1..]));
      RoundTripFrom(frames + Arrives(ps[0]), drops, ps[1..]);
      assert frames + Arrives(ps[0]) + ArriveAll(ps[1..]) == frames + ArriveAll(ps);
    }
  }

  /** Of a packet that is too long its first 1600 bytes arrive; of an empty one nothing does. */
  lemma ArrivesCut(p: seq<byte>)
    ensures Arrives(p) == if p == [] then [] else if |p| <= 1600 then [p] else [p[..1600]]
  {
  }

  lemma {:induction false} ArriveAllIntact(ps: seq<seq<byte>>)
    requires forall p :: p in ps ==> 1 <= |p| <= MAXPKT
    ensures ArriveAll(ps) == ps
  {
    if ps != [] {
      ArriveAllIntact(ps[1..]);
      assert ps == [ps[0]] + ps[1..];
    }
  }

  /** The stream law: packets of 1..MAXPKT bytes come back exactly, with no drop and no reset. */
  lemma RoundTrip(ps: seq<seq<byte>>)
    requires forall p :: p in ps ==> 1 <= |p| <= MAXPKT
    ensures Scan(START, EncodeAll(ps)) == Stream(ps, 0, [])
  {
    RoundTripFrom([], 0, ps);
    ArriveAllIntact(ps);
    assert [] + ArriveAll(ps) == ps;
  }

  /** At every moment of a transfer the packets found are the first ones sent, and nothing was dropped. */
  lemma RoundTripSoFar(ps: seq<seq<byte>>, got: seq<byte>)
    requires forall p :: p in ps ==> 1 <= |p| <= MAXPKT
    requires got <= EncodeAll(ps)
    ensures Scan(START, got).frames <= ps && Scan(START, got).drops == 0
  {
    RoundTrip(ps);
    var rest := EncodeAll(ps)[|got|..];
    assert EncodeAll(ps) == got + rest;
    ScanConcat(START, got, rest);
    ScanMonotone(Scan(START, got), rest);
  }

  // ---------------------------------------------------------------- torn writes

  /** One attempt to send: the whole encoding went out, or arbitrary bytes did (a cut frame, line noise). */
  datatype Attempt = Whole(p: seq<byte>) | Torn(bytes: seq<byte>)

  function Wire(log: seq<Attempt>): seq<byte> {
    if log == [] then []
    else (match log[0] case Whole(p) => Encode(p) case Torn(b) => b) + Wire(log[1..])
  }

  /** The packets whose encoding went out whole. */
  function Completed(log: seq<Attempt>): seq<seq<byte>> {
    if log == [] then []
    else (match log[0] case Whole(p) => Arrives(p) case Torn(_) => []) + Completed(log[1..])
  }

  lemma SubsequenceStep(arrived: seq<seq<byte>>, a: seq<seq<byte>>, junk: seq<seq<byte>>, b: seq<seq<byte>>)
    requires |arrived| <= 1 && Subsequence(a, b)
    ensures Subsequence(arrived + a, junk + (arrived + b))
  {
    if arrived == [] {
      assert arrived + a == a && arrived + b == b;
    } else {
      assert (arrived + a)[1..] == a && (arrived + b)[1..] == b;
    }
    SubsequenceShift(arrived + a, junk, arrived + b);
  }

  /** One attempt moves the stream from st to a state whose frames are those of st, some junk, and what arrived. */
  lemma AttemptStep(st: Stream, log: seq<Attempt>) returns (mid: Stream, junk: seq<seq<byte>>, arrived: seq<seq<byte>>)
    requires log != []
    ensures mid.frames == st.frames + junk + arrived && |arrived| <= 1
    ensures Scan(st, Wire(log)) == Scan(mid, Wire(log[1..]))
    ensures Completed(log) == arrived + Completed(log[1..])
  {
    match log[0]
    case Torn(b) =>
      ScanConcat(st, b, Wire(log[1..]));
      ScanMonotone(st, b);
      mid, arrived := Scan(st, b), [];
      junk := mid.frames[|st.frames|..];
    case Whole(p) =>
      var closed := Close(st.frames, st.drops, st.pending);
      Resync(st, p, Wire(log[1..]));
      mid, arrived := Stream(closed.frames + Arrives(p), closed.drops, []), Arrives(p);
      junk := closed.frames[|st.frames|..];
  }

  /**
   * Torn writes never cost a later packet: however whole sends and torn ones are mixed, the
   * completed packets all arrive, in order, after whatever had been found before.
   */
  lemma {:induction false} TornWritesAreHarmless(st: Stream, log: seq<Attempt>)
    ensures st.frames <= Scan(st, Wire(log)).frames
    ensures Subsequence(Completed(log), Scan(st, Wire(log)).frames[|st.frames|..])
    decreases |log|
  {
    ScanMonotone(st, Wire(log));
    if log != [] {
      var mid, junk, arrived := AttemptStep(st, log);
      TornWritesAreHarmless(mid, log[1..]);
      var out := Scan(st, Wire(log)).frames;
      SubsequenceStep(arrived, Completed(log[1..]), junk, out[|mid.frames|..]);
      assert out[|st.frames|..] == junk + (arrived + out[|mid.frames|..]);
    }
  }
}
