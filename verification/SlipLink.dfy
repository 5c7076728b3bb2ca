/**
 * Both halves joined: packets sent with slip_send over a descriptor that may write short or
 * fail, and read back by the event loop of the far end in arbitrary pieces.
 */
module SlipLink {
  import opened Bytes
  import opened Subsequences
  import opened SlipSpec
  import opened SlipSender
  import opened SlipReceiver

  /** What a schedule makes of one send: the whole encoding, or what was accepted before a real error. */
  function AttemptOn(plan: seq<WriteStep>, p: seq<byte>): Attempt {
    var left := Drain(plan, |Encode(p)|).0;
    if left == 0 then Whole(p) else Torn(Encode(p)[..|Encode(p)| - left])
  }

  /** What it makes of a list of sends. */
  function Sends(plan: seq<WriteStep>, ps: seq<seq<byte>>): (log: seq<Attempt>)
    ensures |log| == |ps|
    decreases |ps|
  {
    if ps == [] then []
    else [AttemptOn(plan, ps[0])] + Sends(Drain(plan, |Encode(ps[0])|).1, ps[1..])
  }

  /** Without a real error in the schedule every packet goes out whole; with one, some may be strict prefixes. */
  lemma {:induction false} SendsAreWholeOrTorn(plan: seq<WriteStep>, ps: seq<seq<byte>>)
    ensures forall i :: 0 <= i < |ps| ==>
              var a := Sends(plan, ps)[i];
              a == Whole(ps[i]) || (a.Torn? && a.bytes < Encode(ps[i]) && WriteStep.Broken in plan)
    ensures WriteStep.Broken !in plan ==> Wire(Sends(plan, ps)) == EncodeAll(ps)
    decreases |ps|
  {
    hide Encode, Drain;
    if ps != [] {
      var n := |Encode(ps[0])|;
      DrainStopsShortIff(plan, n);
      DrainIsSuffix(plan, n);
      SendsAreWholeOrTorn(Drain(plan, n).1, ps[1..]);
    }
  }

  lemma {:induction false} DrainIsSuffix(plan: seq<WriteStep>, n: nat)
    ensures WriteStep.Broken in Drain(plan, n).1 ==> WriteStep.Broken in plan
    decreases |plan|
  {
    if n > 0 && plan != [] {
      DrainIsSuffix(plan[1..], match plan[0] case Accept(k) => n - Min(k, n) case _ => n);
    }
  }

  lemma {:induction false} WireSnoc(log: seq<Attempt>, a: Attempt)
    ensures Wire(log + [a]) == Wire(log) + (match a case Whole(p) => Encode(p) case Torn(b) => b)
    decreases |log|
  {
    hide Encode;
    if log == [] {
      assert log + [a] == [a] && [a][1..] == [];
    } else {
      assert (log + [a])[0] == log[0] && (log + [a])[1..] == log[1..] + [a];
      WireSnoc(log[1..], a);
    }
  }

  /** The packets that failed. */
  function TornOnes(log: seq<Attempt>): nat {
    if log == [] then 0 else TornOnes(log[..|log| - 1]) + if log[|log| - 1].Torn? then 1 else 0
  }

  /** One send and its entry in the log. */
  method SendOne(s: Sender, p: seq<byte>) returns (ok: bool)
    modifies s, s.fd
    ensures var a := AttemptOn(old(s.fd.plan), p);
            && ok == a.Whole? && s.drop == old(s.drop) + (if a.Torn? then 1 else 0)
            && s.fd.written == old(s.fd.written) + (match a case Whole(p) => Encode(p) case Torn(b) => b)
    ensures s.fd.plan == Drain(old(s.fd.plan), |Encode(p)|).1
  {
    hide Encode, Drain;
    ok := s.Send(p);
    assert Encode(p)[..|Encode(p)|] == Encode(p);
  }

  /** For every schedule of writes, wire and drop counter hold exactly what the schedule makes of the packets. */
  method SendAll(s: Sender, ps: seq<seq<byte>>) returns (oks: seq<bool>)
    modifies s, s.fd
    ensures var log := Sends(old(s.fd.plan), ps);
            && |oks| == |ps| && (forall i :: 0 <= i < |ps| ==> (oks[i] <==> log[i].Whole?))
            && s.fd.written == old(s.fd.written) + Wire(log)
            && s.drop == old(s.drop) + TornOnes(log)
  {
    hide Encode, Wire, Drain, AttemptOn;
    oks := [];
    ghost var log := [];
    var i := 0;
    assert Wire(log) == [] by { WireNil(); }
    assert Sends(s.fd.plan, ps) == log + Sends(s.fd.plan, ps[i..]);
    while i < |ps|
      invariant 0 <= i <= |ps| && |log| == i == |oks|
      invariant Sends(old(s.fd.plan), ps) == log + Sends(s.fd.plan, ps[i..])
      invariant forall j :: 0 <= j < i ==> (oks[j] <==> log[j].Whole?)
      invariant s.fd.written == old(s.fd.written) + Wire(log)
      invariant s.drop == old(s.drop) + TornOnes(log)
    {
      ghost var a := AttemptOn(s.fd.plan, ps[i]);
      assert ps[i..][1..] == ps[i + 1..];
      var ok := SendOne(s, ps[i]);
      WireSnoc(log, a);
      assert (log + [a])[..i] == log;
      assert log + ([a] + Sends(s.fd.plan, ps[i + 1..])) == log + [a] + Sends(s.fd.plan, ps[i + 1..]);
      oks, log, i := oks + [ok], log + [a], i + 1;
    }
    assert ps[i..] == [] && log + [] == log;
  }

  lemma WireNil()
    ensures Wire([]) == []
  {
  }

  /** The reads that bring data, over all rounds of the event loop. */
  function Reads(rounds: seq<seq<ReadStep>>): nat {
    if rounds == [] then 0 else Reads(rounds[..|rounds| - 1]) + Gets(rounds[|rounds| - 1])
  }

  /** What has been read, and what is still on the wire, after all rounds. */
  function ReadRounds(h: seq<byte>, coming: seq<byte>, rounds: seq<seq<ReadStep>>): (seq<byte>, seq<byte>) {
    if rounds == [] then (h, coming)
    else
      var (h1, coming1) := ReadRounds(h, coming, rounds[..|rounds| - 1]);
      ReadOn(h1, coming1, rounds[|rounds| - 1])
  }

  /** As many data-bearing reads as there are bytes read all of them, however short they are. */
  lemma {:induction false} ReadRoundsBring(h: seq<byte>, coming: seq<byte>, rounds: seq<seq<ReadStep>>)
    ensures var (h2, left) := ReadRounds(h, coming, rounds);
            h2 + left == h + coming && (left == [] || |h2| >= |h| + Reads(rounds))
    decreases |rounds|
  {
    hide ReadOn, Gets;
    if rounds != [] {
      var before, last := rounds[..|rounds| - 1], rounds[|rounds| - 1];
      ReadRoundsBring(h, coming, before);
      var (h1, coming1) := ReadRounds(h, coming, before);
      ReadOnKeepsBytes(h1, coming1, last);
      ReadOnBrings(h1, coming1, last);
    }
  }

  /** The far end: any number of rounds over what is on the wire. */
  method ReceiveAll(wire: seq<byte>, rounds: seq<seq<ReadStep>>, takes: nat -> bool)
    returns (r: Receiver, out: seq<seq<byte>>, left: seq<byte>)
    ensures r.Valid() && r.history + left == wire && out == Wrap(r.delivered)
    ensures Scan(START, r.history) == Stream(r.delivered, r.drop, r.Unread())
    ensures (r.history, left) == ReadRounds([], wire, rounds)
  {
    hide Scan, Wrap, ReadOn;
    assert Wrap([]) == [] by { WrapNil(); }
    r := new Receiver();
    var fd := new InFd(wire, []);
    assert Scan(START, r.history) == Stream(r.delivered, r.drop, r.Unread()) by { ScanNothing(); }
    out := [];
    var i := 0;
    while i < |rounds|
      invariant 0 <= i <= |rounds| && r.Valid()
      invariant fresh(r) && fresh(r.mem) && fresh(fd)
      invariant r.history + fd.incoming == wire && out == Wrap(r.delivered)
      invariant (r.history, fd.incoming) == ReadRounds([], wire, rounds[..i])
      invariant Scan(START, r.history) == Stream(r.delivered, r.drop, r.Unread())
    {
      fd.plan := rounds[i];
      out := Round(r, fd, out, takes);
      assert rounds[..i + 1][..i] == rounds[..i];
      i := i + 1;
    }
    assert rounds[..i] == rounds;
    left := fd.incoming;
  }

  /**
   * A whole session: any packets, any write schedule, then any number of event-loop rounds
   * each with its own read schedule.  What reaches the wire follows from the write schedule
   * and what is read of it from the read schedules, wherever they cut it or put it off.
   * So without a real write error the packets handed out are the first ones sent, none is
   * dropped, and once nothing is left they are all of them; torn writes cost no complete packet.
   */
  method Session(ps: seq<seq<byte>>, writes: seq<WriteStep>, rounds: seq<seq<ReadStep>>, takes: nat -> bool)
    returns (oks: seq<bool>, r: Receiver, out: seq<seq<byte>>, left: seq<byte>)
    ensures |oks| == |ps| && forall i :: 0 <= i < |ps| ==> (oks[i] <==> Sends(writes, ps)[i].Whole?)
    ensures r.Valid() && r.history + left == Wire(Sends(writes, ps)) && out == Wrap(r.delivered)
    ensures Scan(START, r.history) == Stream(r.delivered, r.drop, r.Unread())
    ensures (r.history, left) == ReadRounds([], Wire(Sends(writes, ps)), rounds)
    ensures left == [] ==> Subsequence(Completed(Sends(writes, ps)), r.delivered)
    ensures WriteStep.Broken !in writes ==> false !in oks && r.delivered <= ArriveAll(ps) && r.drop == 0
    ensures WriteStep.Broken !in writes && left == [] ==> r.delivered == ArriveAll(ps)
    ensures WriteStep.Broken !in writes && Reads(rounds) >= |EncodeAll(ps)| ==> left == []
  {
    hide Scan, Wire, Wrap, Completed, ArriveAll, Subsequence, Sends, EncodeAll, Reads, ReadRounds;
    var wfd := new OutFd(writes);
    var sender := new Sender(wfd);
    oks := SendAll(sender, ps);
    assert [] + Wire(Sends(writes, ps)) == Wire(Sends(writes, ps));
    r, out, left := ReceiveAll(wfd.written, rounds, takes);
    ReadRoundsBring([], wfd.written, rounds);
    SendsAreWholeOrTorn(writes, ps);
    SessionLaws(Sends(writes, ps), r.history, left, Stream(r.delivered, r.drop, r.Unread()), ps);
  }

  /** One pass of the event loop, with everything injected so far. */
  method Round(r: Receiver, fd: InFd, soFar: seq<seq<byte>>, takes: nat -> bool) returns (out: seq<seq<byte>>)
    requires r.Valid() && soFar == Wrap(r.delivered)
    modifies r, r.mem, fd
    ensures r.Valid() && out == Wrap(r.delivered)
    ensures r.history + fd.incoming == old(r.history) + old(fd.incoming)
    ensures (r.history, fd.incoming) == ReadOn(old(r.history), old(fd.incoming), old(fd.plan))
    ensures Scan(START, r.history) == Stream(r.delivered, r.drop, r.Unread())
  {
    hide Scan, Wrap, ReadOn;
    ghost var before := r.delivered;
    out := r.Pump(fd, soFar, takes);
    WrapConcat(before, r.delivered[|before|..]);
    assert before + r.delivered[|before|..] == r.delivered;
  }

  lemma WrapNil()
    ensures Wrap([]) == []
  {
  }

  lemma ScanNothing()
    ensures Scan(START, []) == START
  {
  }

  lemma {:induction false} WrapConcat(a: seq<seq<byte>>, b: seq<seq<byte>>)
    ensures Wrap(a + b) == Wrap(a) + Wrap(b)
    decreases |a|
  {
    hide EthernetFrame;
    if a == [] {
      assert a + b == b;
    } else {
      assert (a + b)[0] == a[0] && (a + b)[1..] == a[1..] + b;
      WrapConcat(a[1..], b);
    }
  }

  /** What follows for a receiver that has read `got` of the wire and says `st`. */
  lemma SessionLaws(log: seq<Attempt>, got: seq<byte>, left: seq<byte>, st: Stream, ps: seq<seq<byte>>)
    requires got + left == Wire(log) && Scan(START, got) == st
    ensures left == [] ==> Subsequence(Completed(log), st.frames)
    ensures Wire(log) == EncodeAll(ps) ==> st.frames <= ArriveAll(ps) && st.drops == 0
    ensures Wire(log) == EncodeAll(ps) && left == [] ==> st.frames == ArriveAll(ps)
  {
    if left == [] {
      assert got == Wire(log);
      TornWritesAreHarmless(START, log);
      assert Scan(START, Wire(log)).frames[0..] == st.frames;
    }
    if Wire(log) == EncodeAll(ps) {
      RoundTripFrom([], 0, ps);
      assert [] + ArriveAll(ps) == ArriveAll(ps);
      ScanConcat(START, got, left);
      ScanMonotone(st, left);
    }
  }
}
