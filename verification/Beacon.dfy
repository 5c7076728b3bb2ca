/**
 * Hub heartbeats (vdeplug-go/internal/elect/elect.go): the frame that carries the DHCP lease
 * table to the peers, and its parser.  IPv4 addresses are their 32-bit value here.
 */
module Beacon {
  import opened Bytes

  const ETHERTYPE: uint16 := 0x88B5
  const MAGIC: seq<byte> := [0x56, 0x44, 0x48, 0x42]
  const VERSION: byte := 1
  const BROADCAST: seq<byte> := [0xff, 0xff, 0xff, 0xff, 0xff, 0xff]
  const MAX_LEASES := 32

  /** Where the lease entries start, and how long each is. */
  const HEAD := 25
  const ENTRY := 10

  datatype Lease = Lease(mac: Mac, ip: uint32)

  function EntryBytes(l: Lease): (b: seq<byte>)
    ensures |b| == ENTRY
  {
    l.mac + Be32(l.ip)
  }

  function Entries(ls: seq<Lease>): (b: seq<byte>)
    ensures |b| == ENTRY * |ls|
  {
    if ls == [] then [] else EntryBytes(ls[0]) + Entries(ls[1..])
  }

  /** The table that fits one beacon. */
  function Capped(ls: seq<Lease>): (r: seq<Lease>)
    ensures |r| <= MAX_LEASES && r <= ls
  {
    if |ls| > MAX_LEASES then ls[..MAX_LEASES] else ls
  }

  function Header(src: seq<byte>, number: uint32, n: uint16): (b: seq<byte>)
    ensures |b| == HEAD
  {
    BROADCAST + Padded(src) + Be16(ETHERTYPE) + MAGIC + [VERSION] + Be32(number) + Be16(n)
  }

  /** The frame EncodeBeacon builds. */
  function Encode(src: seq<byte>, number: uint32, ls: seq<Lease>): seq<byte> {
    Header(src, number, |Capped(ls)|) + Entries(Capped(ls))
  }

  predicate IsBeacon(frame: seq<byte>) {
    |frame| >= HEAD && frame[0] % 2 == 1 && Un16(frame[12..14]) == ETHERTYPE && frame[14..18] == MAGIC
  }

  function DecodeEntry(b: seq<byte>): Lease
    requires |b| == ENTRY
  {
    Lease(b[..6], Un32(b[6..]))
  }

  /** The first n entries of the table in the frame. */
  function DecodeEntries(frame: seq<byte>, n: nat): (ls: seq<Lease>)
    requires HEAD + ENTRY * n <= |frame|
    ensures |ls| == n
  {
    if n == 0 then []
    else DecodeEntries(frame, n - 1) + [DecodeEntry(frame[HEAD + ENTRY * (n - 1)..HEAD + ENTRY * n])]
  }

  /** What ParseBeacon returns; None stands for its errors. */
  function Parse(frame: seq<byte>): Option<(uint32, seq<Lease>)> {
    if !IsBeacon(frame) || frame[18] != VERSION then None
    else
      var n := Un16(frame[23..25]);
      if n > MAX_LEASES || |frame| < HEAD + ENTRY * n then None
      else Some((Un32(frame[19..23]), DecodeEntries(frame, n)))
  }

  // ------------------------------------------------------------ round trip

  lemma HeaderFields(src: seq<byte>, number: uint32, n: uint16)
    ensures var h := Header(src, number, n);
            && h[..6] == BROADCAST && h[6..12] == Padded(src) && h[12..14] == Be16(ETHERTYPE)
            && h[14..18] == MAGIC && h[18] == VERSION && h[19..23] == Be32(number) && h[23..25] == Be16(n)
  {
    hide Be16, Be32, Padded;
  }

  lemma EntryRoundTrip(l: Lease)
    ensures DecodeEntry(EntryBytes(l)) == l
  {
    Un32Be32(l.ip);
    assert EntryBytes(l)[..6] == l.mac && EntryBytes(l)[6..] == Be32(l.ip);
  }

  lemma {:induction false} EntryAt(ls: seq<Lease>, i: nat)
    requires i < |ls|
    ensures Entries(ls)[ENTRY * i..ENTRY * i + ENTRY] == EntryBytes(ls[i])
    decreases i
  {
    hide EntryBytes;
    if i > 0 {
      EntryAt(ls[1..], i - 1);
      assert Entries(ls)[ENTRY * i..ENTRY * i + ENTRY] == Entries(ls[1..])[ENTRY * (i - 1)..ENTRY * (i - 1) + ENTRY];
    }
  }

  lemma {:induction false} EntriesRoundTrip(head: seq<byte>, ls: seq<Lease>, n: nat)
    requires |head| == HEAD && n <= |ls|
    ensures DecodeEntries(head + Entries(ls), n) == ls[..n]
    decreases n
  {
    hide DecodeEntry, EntryBytes;
    if n > 0 {
      var i := n - 1;
      EntriesRoundTrip(head, ls, i);
      EntryAt(ls, i);
      assert (head + Entries(ls))[HEAD + ENTRY * i..HEAD + ENTRY * n] == Entries(ls)[ENTRY * i..ENTRY * i + ENTRY];
      EntryRoundTrip(ls[i]);
    }
  }

  /** Parsing an encoded beacon gives back its number and the first MAX_LEASES leases. */
  lemma RoundTrip(src: seq<byte>, number: uint32, ls: seq<Lease>)
    ensures IsBeacon(Encode(src, number, ls))
    ensures Parse(Encode(src, number, ls)) == Some((number, Capped(ls)))
  {
    hide DecodeEntries, Entries, Header, Be16, Be32, Un16, Un32;
    var ks := Capped(ls);
    var h, frame := Header(src, number, |ks|), Encode(src, number, ls);
    HeaderFields(src, number, |ks|);
    HeaderIn(h, Entries(ks));
    Un16Be16(|ks|);
    Un16Be16(ETHERTYPE);
    Un32Be32(number);
    EntriesRoundTrip(h, ks, |ks|);
    assert h[..6][0] == 0xff;
    assert ks[..|ks|] == ks;
  }

  lemma HeaderIn(h: seq<byte>, rest: seq<byte>)
    requires |h| == HEAD
    ensures var f := h + rest;
            && f[0] == h[..6][0] && f[12..14] == h[12..14] && f[14..18] == h[14..18]
            && f[18] == h[18] && f[19..23] == h[19..23] && f[23..25] == h[23..25]
  {
  }

  lemma {:induction false} EntriesReadBack(frame: seq<byte>, n: nat)
    requires HEAD + ENTRY * n <= |frame|
    ensures Entries(DecodeEntries(frame, n)) == frame[HEAD..HEAD + ENTRY * n]
    decreases n
  {
    hide DecodeEntry, EntryBytes;
    if n > 0 {
      var b := frame[HEAD + ENTRY * (n - 1)..HEAD + ENTRY * n];
      EntriesReadBack(frame, n - 1);
      EntriesSnoc(DecodeEntries(frame, n - 1), DecodeEntry(b));
      EntryReadBack(b);
      assert frame[HEAD..HEAD + ENTRY * n] == frame[HEAD..HEAD + ENTRY * (n - 1)] + b;
    }
  }

  lemma EntryReadBack(b: seq<byte>)
    requires |b| == ENTRY
    ensures EntryBytes(DecodeEntry(b)) == b
  {
    Be32Un32(b[6..]);
    assert b[..6] + b[6..] == b;
  }

  lemma {:induction false} EntriesSnoc(ls: seq<Lease>, l: Lease)
    ensures Entries(ls + [l]) == Entries(ls) + EntryBytes(l)
    decreases |ls|
  {
    hide EntryBytes;
    if ls == [] {
      assert ls + [l] == [l] && [l][1..] == [];
    } else {
      assert (ls + [l])[0] == ls[0] && (ls + [l])[1..] == ls[1..] + [l];
      EntriesSnoc(ls[1..], l);
    }
  }

  /** Exactly which frames are taken for beacons: the whole table they announce must be there, and fit. */
  lemma AcceptedIff(frame: seq<byte>)
    ensures Parse(frame).Some? <==>
              && |frame| >= 25 && frame[0] % 2 == 1 && frame[12..14] == [0x88, 0xb5]
              && frame[14..18] == [0x56, 0x44, 0x48, 0x42] && frame[18] == 1
              && var n := (frame[23] as int) * 256 + frame[24] as int;
              && n <= 32 && |frame| >= 25 + 10 * n
  {
    hide DecodeEntries;
    if |frame| >= 25 {
      assert frame[12..14] == [frame[12], frame[13]] && frame[23..25] == [frame[23], frame[24]];
    }
  }

  lemma TypeBytes()
    ensures Be16(ETHERTYPE) == [0x88, 0xb5]
  {
  }

  /**
   * The beacon on the wire: broadcast from src, EtherType 0x88b5, "VDHB", version 1, the sequence
   * number and the entry count, then ten bytes an entry, address behind MAC; numbers in network order.
   */
  lemma BeaconLayout(src: seq<byte>, number: uint32, ls: seq<Lease>, i: nat)
    requires i < |Capped(ls)|
    ensures var f, at := Encode(src, number, ls), 25 + 10 * i;
            && |f| == 25 + 10 * |Capped(ls)|
            && f[0..6] == [0xff, 0xff, 0xff, 0xff, 0xff, 0xff] && f[6..12] == Padded(src)
            && f[12..14] == [0x88, 0xb5] && f[14..18] == [0x56, 0x44, 0x48, 0x42] && f[18] == 1
            && f[19..23] == Be32(number) && f[23..25] == Be16(|Capped(ls)|)
            && f[at..at + 6] == ls[i].mac && f[at + 6..at + 10] == Be32(ls[i].ip)
    ensures |Capped(ls)| == if |ls| > 32 then 32 else |ls|
  {
    hide Header, Entries, Be16, Be32, Padded;
    var ks := Capped(ls);
    var h, f, at := Header(src, number, |ks|), Encode(src, number, ls), 25 + 10 * i;
    HeaderFields(src, number, |ks|);
    HeaderIn(h, Entries(ks));
    EntryAt(ks, i);
    TypeBytes();
    var e := EntryBytes(ks[i]);
    assert f[at..at + 10] == Entries(ks)[10 * i..10 * i + 10];
    assert f[at..at + 6] == f[at..at + 10][..6] && f[at + 6..at + 10] == f[at..at + 10][6..];
    assert e[..6] == ks[i].mac && e[6..] == Be32(ks[i].ip);
  }

  /**
   * Whatever ParseBeacon accepts is, past the destination address, exactly what EncodeBeacon
   * writes for the parsed table; bytes after the table are ignored.
   */
  lemma ParseReadsWhatEncodeWrites(frame: seq<byte>)
    requires Parse(frame).Some?
    ensures var (number, ls) := Parse(frame).value;
            && |ls| <= MAX_LEASES && HEAD + ENTRY * |ls| <= |frame|
            && frame[6..HEAD + ENTRY * |ls|] == Encode(frame[6..12], number, ls)[6..]
  {
    hide DecodeEntries, Entries, Be16, Be32, Un16, Un32, Header;
    var (number, ls) := Parse(frame).value;
    var n := |ls|;
    EntriesReadBack(frame, n);
    Be16Un16(frame[23..25]);
    Be16Un16(frame[12..14]);
    Be32Un32(frame[19..23]);
    var h := Header(frame[6..12], number, n);
    HeaderFields(frame[6..12], number, n);
    HeadFieldsDetermine(h, frame);
    assert Encode(frame[6..12], number, ls)[6..] == h[6..] + Entries(ls);
    assert frame[6..HEAD + ENTRY * n] == frame[6..HEAD] + frame[HEAD..HEAD + ENTRY * n];
  }

  /** Past the destination address, a header is its six fields. */
  lemma HeadFieldsDetermine(a: seq<byte>, b: seq<byte>)
    requires |a| == HEAD <= |b|
    requires a[6..12] == b[6..12] && a[12..14] == b[12..14] && a[14..18] == b[14..18]
    requires a[18] == b[18] && a[19..23] == b[19..23] && a[23..25] == b[23..25]
    ensures a[6..] == b[6..HEAD]
  {
    forall k | 6 <= k < HEAD
      ensures a[k] == b[k]
    {
      if k < 12 {
        assert a[k] == a[6..12][k - 6] && b[k] == b[6..12][k - 6];
      } else if k < 14 {
        assert a[k] == a[12..14][k - 12] && b[k] == b[12..14][k - 12];
      } else if k < 18 {
        assert a[k] == a[14..18][k - 14] && b[k] == b[14..18][k - 14];
      } else if 18 < k < 23 {
        assert a[k] == a[19..23][k - 19] && b[k] == b[19..23][k - 19];
      } else if 23 <= k {
        assert a[k] == a[23..25][k - 23] && b[k] == b[23..25][k - 23];
      }
    }
  }

  // ------------------------------------------------------------ the loops

  /** EncodeBeacon: the frame is filled in place. */
  method EncodeBeacon(src: seq<byte>, number: uint32, leases: seq<Lease>) returns (frame: array<byte>)
    ensures fresh(frame) && frame[..] == Encode(src, number, leases)
  {
    hide Header, EntryBytes, Entries;
    var ls := Capped(leases);
    frame := new byte[HEAD + ENTRY * |ls|];
    ghost var h := Header(src, number, |ls|);
    PutHeader(frame, src, number, |ls|);
    var i := 0;
    assert Entries(ls[..0]) == [] by { EntriesNil(); }
    while i < |ls|
      invariant 0 <= i <= |ls|
      invariant frame[..HEAD + ENTRY * i] == h + Entries(ls[..i])
    {
      ghost var done := frame[..HEAD + ENTRY * i];
      var e := EntryBytes(ls[i]);
      forall k | 0 <= k < ENTRY {
        frame[HEAD + ENTRY * i + k] := e[k];
      }
      assert frame[..HEAD + ENTRY * (i + 1)] == done + e;
      EntriesSnoc(ls[..i], ls[i]);
      assert ls[..i + 1] == ls[..i] + [ls[i]];
      i := i + 1;
    }
    assert ls[..i] == ls;
    assert frame[..] == frame[..HEAD + ENTRY * i];
  }

  lemma EntriesNil()
    ensures Entries([]) == []
  {
  }

  method PutHeader(frame: array<byte>, src: seq<byte>, number: uint32, n: uint16)
    requires frame.Length >= HEAD
    modifies frame
    ensures frame[..HEAD] == Header(src, number, n)
  {
    var mac := Padded(src);
    forall k | 0 <= k < 6 {
      frame[k] := BROADCAST[k];
    }
    forall k | 0 <= k < 6 {
      frame[6 + k] := mac[k];
    }
    frame[12], frame[13] := Be16(ETHERTYPE)[0], Be16(ETHERTYPE)[1];
    forall k | 0 <= k < 4 {
      frame[14 + k] := MAGIC[k];
    }
    frame[18] := VERSION;
    forall k | 0 <= k < 4 {
      frame[19 + k] := Be32(number)[k];
    }
    frame[23], frame[24] := Be16(n)[0], Be16(n)[1];
  }

  /** ParseBeacon: the table is rebuilt entry by entry. */
  method ParseBeacon(frame: seq<byte>) returns (r: Option<(uint32, seq<Lease>)>)
    ensures r == Parse(frame)
  {
    if !IsBeacon(frame) {
      return None;
    }
    if frame[18] != VERSION {
      return None;
    }
    var number := Un32(frame[19..23]);
    var n := Un16(frame[23..25]);
    if n > MAX_LEASES || |frame| < HEAD + ENTRY * n {
      return None;
    }
    var leases := [];
    var i := 0;
    while i < n
      invariant 0 <= i <= n
      invariant leases == DecodeEntries(frame, i)
    {
      leases := leases + [DecodeEntry(frame[HEAD + ENTRY * i..HEAD + ENTRY * i + ENTRY])];
      i := i + 1;
    }
    return Some((number, leases));
  }
}
