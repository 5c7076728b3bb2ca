/**
 * The Internet checksum as vdeplug-go/internal/nat/icmp.go computes it: 16-bit words added
 * in 32 bits, carries folded at the end.  The reference is section 1 of RFC 1071, where every
 * addition is ones'-complement.
 */
module Checksum {
  import opened Bytes

  const WORDS := 0x1_0000
  const ONES := 0xffff

  /** Longest input whose word sum cannot exceed 32 bits. */
  const SAFE_LENGTH := 131074

  /** The plain sum of the big-endian words; an odd last byte is a word's high half. */
  function WordSum(b: seq<byte>): nat {
    if |b| == 0 then 0
    else if |b| == 1 then (b[0] as int) * 256
    else (b[0] as int) * 256 + (b[1] as int) + WordSum(b[2..])
  }

  function Fold(x: nat): (r: uint16)
    decreases x
  {
    if x < WORDS then x else Fold(x / WORDS + x % WORDS)
  }

  /** icmpChecksum, with the sum taken modulo 2^32 as a uint32 holds it. */
  function Sum(b: seq<byte>): uint16 {
    ONES - Fold(WordSum(b) % 0x1_0000_0000)
  }

  lemma {:induction false} WordSumBound(b: seq<byte>)
    ensures WordSum(b) <= ONES * ((|b| + 1) / 2)
    decreases |b|
  {
    if |b| >= 2 {
      WordSumBound(b[2..]);
    }
  }

  /** The 32-bit sum never overflows on any input up to SAFE_LENGTH bytes. */
  lemma NoOverflow(b: seq<byte>)
    requires |b| <= SAFE_LENGTH
    ensures WordSum(b) < 0x1_0000_0000
    ensures Sum(b) == ONES - Fold(WordSum(b))
  {
    hide WordSum, Fold;
    WordSumBound(b);
  }

  /** Appending after an even number of bytes adds the sums. */
  lemma {:induction false} WordSumConcat(a: seq<byte>, b: seq<byte>)
    requires |a| % 2 == 0
    ensures WordSum(a + b) == WordSum(a) + WordSum(b)
    decreases |a|
  {
    if a == [] {
      assert a + b == b;
    } else {
      assert (a + b)[2..] == a[2..] + b;
      WordSumConcat(a[2..], b);
    }
  }

  /** Folding keeps the value modulo 2^16 - 1, and only zero folds to zero. */
  lemma {:induction false} FoldFacts(x: nat)
    ensures Fold(x) % ONES == x % ONES
    ensures Fold(x) == 0 <==> x == 0
    decreases x
  {
    if x >= WORDS {
      var hi, lo := x / WORDS, x % WORDS;
      assert x == hi + lo + ONES * hi;
      AddMultiple(hi + lo, hi);
      FoldFacts(hi + lo);
    }
  }

  lemma AddMultiple(x: nat, k: nat)
    ensures (x + ONES * k) % ONES == x % ONES
  {
  }

  // ------------------------------------------------------------ the ones'-complement reference

  /** Ones'-complement addition: a carry out of the top comes back in at the bottom. */
  function OnesAdd(a: uint16, b: uint16): uint16 {
    if a + b > ONES then a + b - ONES else a + b
  }

  function OnesSum(b: seq<byte>): uint16 {
    if |b| == 0 then 0
    else if |b| == 1 then (b[0] as int) * 256
    else OnesAdd(Un16(b[..2]), OnesSum(b[2..]))
  }

  lemma {:induction false} OnesSumFacts(b: seq<byte>)
    ensures OnesSum(b) % ONES == WordSum(b) % ONES
    ensures OnesSum(b) == 0 <==> WordSum(b) == 0
    decreases |b|
  {
    if |b| >= 2 {
      OnesSumFacts(b[2..]);
      var w: int, o: int, s: int := Un16(b[..2]), OnesSum(b[2..]), WordSum(b[2..]);
      assert WordSum(b) == w + s;
      SameResidue(w, o, s);
    }
  }

  lemma SameResidue(w: nat, o: nat, s: nat)
    requires o % ONES == s % ONES && w <= ONES && o <= ONES
    ensures (w + o) % ONES == (w + s) % ONES
    ensures w + o > ONES ==> (w + o - ONES) % ONES == (w + s) % ONES
  {
  }

  /** Adding in 32 bits and folding at the end is ones'-complement addition throughout. */
  lemma SumIsOnesComplement(b: seq<byte>)
    requires |b| <= SAFE_LENGTH
    ensures Sum(b) == ONES - OnesSum(b)
  {
    hide WordSum, Fold, OnesSum, Sum;
    NoOverflow(b);
    FoldFacts(WordSum(b));
    OnesSumFacts(b);
  }

  // ------------------------------------------------------------ sealing a packet

  /** b with a 16-bit field written at an offset. */
  function WithField(b: seq<byte>, at: nat, f: uint16): (r: seq<byte>)
    requires at + 2 <= |b|
    ensures |r| == |b|
  {
    b[..at] + Be16(f) + b[at + 2..]
  }

  /** b with its own checksum written at an offset that is zero so far. */
  function Seal(b: seq<byte>, at: nat): (r: seq<byte>)
    requires at + 2 <= |b|
    ensures |r| == |b|
  {
    WithField(b, at, Sum(b))
  }

  lemma FieldAdds(b: seq<byte>, at: nat, f: uint16)
    requires at % 2 == 0 && at + 2 <= |b| && b[at] == 0 == b[at + 1]
    ensures WordSum(WithField(b, at, f)) == WordSum(b) + f
  {
    hide WordSum;
    var head, mid, tail := b[..at], b[at..at + 2], b[at + 2..];
    assert b == head + (mid + tail);
    assert WithField(b, at, f) == head + (Be16(f) + tail);
    WordSumConcat(head, mid + tail);
    WordSumConcat(mid, tail);
    WordSumConcat(head, Be16(f) + tail);
    WordSumConcat(Be16(f), tail);
    TwoBytes(mid);
    TwoBytes(Be16(f));
  }

  lemma TwoBytes(b: seq<byte>)
    requires |b| == 2
    ensures WordSum(b) == (b[0] as int) * 256 + b[1] as int
  {
  }

  /**
   * Which field values a receiver accepts: with the field zero so far, a packet carrying f has
   * checksum zero exactly when f is the computed checksum, or is 0xffff where that is 0.
   */
  lemma AcceptedIff(b: seq<byte>, at: nat, f: uint16)
    requires at % 2 == 0 && at + 2 <= |b| <= 65535 && b[at] == 0 == b[at + 1]
    ensures Sum(WithField(b, at, f)) == 0 <==> f == Sum(b) || (f == ONES && Sum(b) == 0)
  {
    hide WordSum, Fold;
    NoOverflow(b);
    NoOverflow(WithField(b, at, f));
    FieldAdds(b, at, f);
    FoldFacts(WordSum(b));
    FoldFacts(WordSum(b) + f);
    AcceptedArithmetic(WordSum(b), Fold(WordSum(b)), f, Fold(WordSum(b) + f));
  }

  lemma AcceptedArithmetic(s: nat, g: uint16, f: uint16, h: uint16)
    requires g % ONES == s % ONES && (g == 0 <==> s == 0)
    requires h % ONES == (s + f) % ONES && (h == 0 <==> s + f == 0)
    ensures h == ONES <==> f == ONES - g || (f == ONES && g == ONES)
  {
  }

  /** Writing the checksum into its field makes the checksum over the whole packet zero. */
  lemma SealVerifies(b: seq<byte>, at: nat)
    requires at % 2 == 0 && at + 2 <= |b| <= 65535 && b[at] == 0 == b[at + 1]
    ensures Sum(Seal(b, at)) == 0
  {
    hide Sum;
    AcceptedIff(b, at, Sum(b));
  }

  // ------------------------------------------------------------ the loop

  /** icmpChecksum. */
  method Compute(b: seq<byte>) returns (c: uint16)
    ensures c == Sum(b)
  {
    hide Fold, WordSum;
    var sum := AddWords(b);
    sum := FoldDown(sum);
    c := ONES - sum;
  }

  /** The words added in a uint32. */
  method AddWords(b: seq<byte>) returns (sum: uint32)
    ensures sum == WordSum(b) % 0x1_0000_0000
  {
    sum := 0;
    var i := 0;
    while i + 1 < |b|
      invariant 0 <= i <= |b| && i % 2 == 0
      invariant (sum + WordSum(b[i..])) % 0x1_0000_0000 == WordSum(b) % 0x1_0000_0000
    {
      assert b[i..][2..] == b[i + 2..];
      var w := Un16(b[i..i + 2]);
      WrapAdd(sum, w, WordSum(b[i + 2..]));
      sum := (sum + w) % 0x1_0000_0000;
      i := i + 2;
    }
    if |b| % 2 == 1 {
      sum := (sum + (b[|b| - 1] as int) * 256) % 0x1_0000_0000;
    }
  }

  method FoldDown(x: uint32) returns (r: uint16)
    ensures r == Fold(x)
  {
    var sum: uint32 := x;
    while sum / WORDS != 0
      invariant Fold(sum) == Fold(x)
      decreases sum
    {
      sum := sum / WORDS + sum % WORDS;
    }
    r := sum;
  }

  lemma WrapAdd(a: nat, w: nat, rest: nat)
    ensures ((a + w) % 0x1_0000_0000 + rest) % 0x1_0000_0000 == (a + (w + rest)) % 0x1_0000_0000
  {
  }
}
