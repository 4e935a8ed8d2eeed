/** The CRC-32 of section 8 of RFC 1952 and the errors it is guaranteed to detect.

    A 32-bit word is kept as its bits, lowest first, so that the register is the list of
    coefficients of a polynomial over GF(2).  `Hasher` is the incremental interface that the
    record format uses. */
module Crc32 {
  import opened Sequences
  import opened Words

  /** n copies of one bit. */
  function Fill(n: nat, bit: bool): (bits: seq<bool>)
    ensures |bits| == n && forall i | 0 <= i < n :: bits[i] == bit
  {
    seq(n, _ => bit)
  }

  type Word = w: seq<bool> | |w| == 32 witness Fill(32, false)

  const ZERO: Word := Fill(WORD_BITS, false)
  const ONES: Word := Fill(WORD_BITS, true)

  /** The powers of x, below x^32, in the generator polynomial. */
  const EXPONENTS := {0, 1, 2, 4, 5, 7, 8, 10, 11, 12, 16, 22, 23, 26}

  /** The generator as the standard writes it, 0xedb88320: the highest power is the lowest bit. */
  function Polynomial(): Word { seq(32, i => 31 - i in EXPONENTS) }

  lemma PolynomialIsStandard()
    ensures FromBits(Polynomial()) == 0xedb88320
  {
    hide FromBits;
    var e := [false, true, true, true] + [];
    var ed := [true, false, true, true] + e;
    var edb := [true, true, false, true] + ed;
    var edb8 := [false, false, false, true] + edb;
    var edb88 := [false, false, false, true] + edb8;
    var edb883 := [true, true, false, false] + edb88;
    var edb8832 := [false, true, false, false] + edb883;
    assert Polynomial() == [false, false, false, false] + edb8832;
    NoBits();
    FromBitsDigit(false, true, true, true, []);
    FromBitsDigit(true, false, true, true, e);
    FromBitsDigit(true, true, false, true, ed);
    FromBitsDigit(false, false, false, true, edb);
    FromBitsDigit(false, false, false, true, edb8);
    FromBitsDigit(true, true, false, false, edb88);
    FromBitsDigit(false, true, false, false, edb883);
    FromBitsDigit(false, false, false, false, edb8832);
  }

  lemma NoBits()
    ensures FromBits([]) == 0
  {}

  function Xor(a: Word, b: Word): (w: Word) {
    seq(32, i requires 0 <= i < 32 => a[i] != b[i])
  }

  /** Logical shift right by one. */
  function Shift(w: Word): Word { w[1..] + [false] }

  /** One step of the register. */
  function Step(r: Word): Word {
    if r[0] then Xor(Shift(r), Polynomial()) else Shift(r)
  }

  function Steps(r: Word, n: nat): Word
    decreases n
  {
    if n == 0 then r else Steps(Step(r), n - 1)
  }

  function BitsOf(b: u8): (bits: seq<bool>)
    ensures |bits| == 8
  {
    ToBits(b, BYTE_BITS)
  }

  /** The byte as a word. */
  function Widen(b: u8): Word { BitsOf(b) + Fill(24, false) }

  function OneBit(b: bool): Word { [b] + Fill(31, false) }

  function FeedBit(r: Word, b: bool): Word { Step(Xor(r, OneBit(b))) }

  /** The update for one message byte, one bit at a time, lowest first. */
  function UpdateByte(r: Word, b: u8): Word { Fold(FeedBit, r, BitsOf(b)) }

  /** The register after a run of bytes. */
  function After(r: Word, data: seq<u8>): Word { Fold(UpdateByte, r, data) }

  function Finish(r: Word): u32 {
    WordSizes();
    FromBits(Xor(r, ONES))
  }

  function Checksum(data: seq<u8>): u32 { Finish(After(ONES, data)) }

  lemma AfterNext(r: Word, data: seq<u8>, i: nat)
    requires i < |data|
    ensures After(r, data[..i + 1]) == UpdateByte(After(r, data[..i]), data[i])
  {
    hide UpdateByte, Fold;
    FoldAppend(UpdateByte, r, data[..i], data[i]);
    assert data[..i] + [data[i]] == data[..i + 1];
  }

  class Hasher {
    var state: Word

    constructor ()
      ensures state == ONES
    {
      state := ONES;
    }

    method Update(data: seq<u8>)
      modifies this
      ensures state == After(old(state), data)
    {
      ghost var before := state;
      for i := 0 to |data|
        invariant state == After(before, data[..i])
      {
        AfterNext(before, data, i);
        state := UpdateByte(state, data[i]);
      }
      assert data[..|data|] == data;
    }

    method Finalize() returns (sum: u32)
      ensures sum == Finish(state)
    {
      sum := Finish(state);
    }
  }

  /** Hashing in two pieces is hashing the concatenation. */
  lemma AfterConcat(r: Word, a: seq<u8>, b: seq<u8>)
    ensures After(After(r, a), b) == After(r, a + b)
  {
    FoldConcat(UpdateByte, r, a, b);
  }

  // ---- The same register, fed one message bit at a time ----

  function Feed(r: Word, bits: seq<bool>): Word { Fold(FeedBit, r, bits) }

  lemma {:induction false} BitsLength(data: seq<u8>)
    ensures |FlatMap(BitsOf, data)| == 8 * |data|
    decreases |data|
  {
    if data != [] { BitsLength(data[1..]); }
  }

  /** The message bits in the order the register meets them. */
  function Bits(data: seq<u8>): (bits: seq<bool>)
    ensures |bits| == 8 * |data|
  {
    BitsLength(data);
    FlatMap(BitsOf, data)
  }

  lemma StepLinear(a: Word, b: Word)
    ensures Step(Xor(a, b)) == Xor(Step(a), Step(b))
  {
    forall i | 0 <= i < 32 ensures Step(Xor(a, b))[i] == Xor(Step(a), Step(b))[i] {}
  }

  /** Shifting the register past the low bit of a pending word moves the rest down unchanged. */
  lemma StepPending(r: Word, w: Word)
    ensures Step(Xor(r, w)) == Xor(FeedBit(r, w[0]), Shift(w))
  {
    forall i | 0 <= i < 32 ensures Step(Xor(r, w))[i] == Xor(FeedBit(r, w[0]), Shift(w))[i] {
      assert Shift(Xor(r, OneBit(w[0])))[i] == Shift(r)[i];
    }
  }

  /** A word with no more than n bits set at the bottom is used up by n steps. */
  lemma {:induction false} StepsPending(r: Word, w: Word, bits: seq<bool>)
    requires |bits| <= 32 && w == bits + Fill(32 - |bits|, false)
    ensures Steps(Xor(r, w), |bits|) == Feed(r, bits)
    decreases |bits|
  {
    if bits == [] {
      assert Xor(r, w) == r;
    } else {
      StepPending(r, w);
      assert w[0] == bits[0];
      assert Shift(w) == bits[1..] + Fill(32 - |bits[1..]|, false);
      StepsPending(FeedBit(r, bits[0]), Shift(w), bits[1..]);
    }
  }

  /** The standard's byte-wise update: the byte into the low end of the register, then eight
      steps. */
  lemma UpdateByteIsStandard(r: Word, b: u8)
    ensures UpdateByte(r, b) == Steps(Xor(r, Widen(b)), 8)
  {
    StepsPending(r, Widen(b), BitsOf(b));
  }

  lemma {:induction false} AfterIsFeed(r: Word, data: seq<u8>)
    ensures After(r, data) == Feed(r, Bits(data))
    decreases |data|
  {
    if data != [] {
      AfterIsFeed(UpdateByte(r, data[0]), data[1..]);
      FoldConcat(FeedBit, r, BitsOf(data[0]), Bits(data[1..]));
    }
  }

  // ---- Error detection ----

  function XorBits(a: seq<bool>, b: seq<bool>): (d: seq<bool>)
    requires |a| == |b|
    ensures |d| == |a|
  {
    seq(|a|, i requires 0 <= i < |a| => a[i] != b[i])
  }

  /** The difference of two registers depends only on the difference of what they were fed. */
  lemma {:induction false} FeedDifference(r: Word, q: Word, a: seq<bool>, b: seq<bool>)
    requires |a| == |b|
    ensures Xor(Feed(r, a), Feed(q, b)) == Feed(Xor(r, q), XorBits(a, b))
    decreases |a|
  {
    if a == [] {
    } else {
      FeedDifference(FeedBit(r, a[0]), FeedBit(q, b[0]), a[1..], b[1..]);
      StepLinear(Xor(r, OneBit(a[0])), Xor(q, OneBit(b[0])));
      assert Xor(Xor(r, OneBit(a[0])), Xor(q, OneBit(b[0]))) == Xor(Xor(r, q), OneBit(a[0] != b[0]));
      assert XorBits(a, b)[1..] == XorBits(a[1..], b[1..]);
    }
  }

  ghost predicate Below(w: Word, n: nat) { forall i | n <= i < 32 :: !w[i] }

  /** A register that m fed bits clear had nothing set at or above bit m. */
  lemma {:induction false} FeedToZero(r: Word, bits: seq<bool>)
    requires Feed(r, bits) == ZERO
    ensures Below(r, |bits|)
    decreases |bits|
  {
    if 0 < |bits| <= 32 {
      var x := Xor(r, OneBit(bits[0]));
      FeedToZero(Step(x), bits[1..]);
      assert !Step(x)[31];
      assert !x[0];
      forall i | |bits| <= i < 32 ensures !r[i] {
        assert !Shift(x)[i - 1];
      }
    }
  }

  /** So at most 32 bits fed into a clear register leave it clear only if all are clear. */
  lemma {:induction false} BurstDetected(bits: seq<bool>)
    requires |bits| <= 32 && Feed(ZERO, bits) == ZERO
    ensures forall i | 0 <= i < |bits| :: !bits[i]
    decreases |bits|
  {
    if bits != [] {
      var x := Xor(ZERO, OneBit(bits[0]));
      FeedToZero(Step(x), bits[1..]);
      assert !Step(x)[31];
      assert !x[0];
      assert Step(x) == ZERO;
      BurstDetected(bits[1..]);
      forall i | 0 <= i < |bits| ensures !bits[i] {
        if i > 0 { assert bits[i] == bits[1..][i - 1]; }
      }
    }
  }

  lemma StepOfZero(x: Word)
    ensures Step(x) == ZERO <==> x == ZERO
  {
    if Step(x) == ZERO {
      assert !Step(x)[31];
      forall i | 0 < i < 32 ensures !x[i] {
        assert !Shift(x)[i - 1];
      }
    }
  }

  /** Clear bits neither set a clear register nor clear a set one. */
  lemma {:induction false} FeedClear(r: Word, bits: seq<bool>)
    requires forall i | 0 <= i < |bits| :: !bits[i]
    ensures Feed(r, bits) == ZERO <==> r == ZERO
    decreases |bits|
  {
    if bits != [] {
      assert Xor(r, OneBit(bits[0])) == r;
      StepOfZero(r);
      FeedClear(Step(r), bits[1..]);
    }
  }

  lemma XorIsZero(a: Word, b: Word)
    ensures Xor(a, b) == ZERO <==> a == b
  {
    if Xor(a, b) == ZERO {
      forall i | 0 <= i < 32 ensures a[i] == b[i] { assert !Xor(a, b)[i]; }
    }
  }

  lemma FinishInjective(a: Word, b: Word)
    requires Finish(a) == Finish(b)
    ensures a == b
  {
    ToBitsFromBits(Xor(a, ONES));
    ToBitsFromBits(Xor(b, ONES));
    assert Xor(a, ONES) == Xor(b, ONES);
    forall i | 0 <= i < 32 ensures a[i] == b[i] {
      assert Xor(a, ONES)[i] == Xor(b, ONES)[i];
    }
  }

  lemma BitsOfInjective(a: u8, b: u8)
    requires BitsOf(a) == BitsOf(b)
    ensures a == b
  {
    WordSizes();
    FromBitsToBits(a, BYTE_BITS);
    FromBitsToBits(b, BYTE_BITS);
  }

  lemma {:induction false} BitsInjective(a: seq<u8>, b: seq<u8>)
    requires |a| == |b| && Bits(a) == Bits(b)
    ensures a == b
  {
    if a != [] {
      assert BitsOf(a[0]) == Bits(a)[..8] == Bits(b)[..8] == BitsOf(b[0]);
      assert Bits(a[1..]) == Bits(a)[8..] == Bits(b)[8..] == Bits(b[1..]);
      BitsInjective(a[1..], b[1..]);
      BitsOfInjective(a[0], b[0]);
      assert a == [a[0]] + a[1..] && b == [b[0]] + b[1..];
    }
  }

  /** The messages agree outside `width` consecutive bits starting at bit i. */
  ghost predicate DifferWithin(a: seq<u8>, b: seq<u8>, i: nat, width: nat) {
    && |a| == |b|
    && forall k | 0 <= k < 8 * |a| && !(i <= k < i + width) :: Bits(a)[k] == Bits(b)[k]
  }

  lemma MiddleBits(before: seq<u8>, x: seq<u8>, after: seq<u8>)
    ensures Bits(before + (x + after)) == Bits(before) + (Bits(x) + Bits(after))
  {
    FlatMapConcat(BitsOf, before, x + after);
    FlatMapConcat(BitsOf, x, after);
  }

  /** A change confined to four consecutive bytes lies inside a window of 32 bits. */
  lemma FourBytesAreAWindow(before: seq<u8>, x: seq<u8>, y: seq<u8>, after: seq<u8>)
    requires |x| == |y| <= 4
    ensures DifferWithin(before + (x + after), before + (y + after), 8 * |before|, 32)
  {
    MiddleBits(before, x, after);
    MiddleBits(before, y, after);
  }

  /** Every change confined to 32 consecutive bits, wherever they start, alters the register,
      whatever came before the message. */
  lemma WindowDetected(r: Word, a: seq<u8>, b: seq<u8>, i: nat)
    requires DifferWithin(a, b, i, 32)
    ensures After(r, a) == After(r, b) <==> a == b
    ensures Checksum(a) == Checksum(b) <==> a == b
  {
    if After(r, a) == After(r, b) {
      WindowUndetected(r, a, b, i);
    }
    if Checksum(a) == Checksum(b) {
      FinishInjective(After(ONES, a), After(ONES, b));
      WindowUndetected(ONES, a, b, i);
    }
  }

  /** Two messages of one length leave the same register exactly if their difference clears it. */
  lemma SameRegister(r: Word, a: seq<u8>, b: seq<u8>)
    requires |a| == |b|
    ensures After(r, a) == After(r, b) <==> Feed(ZERO, XorBits(Bits(a), Bits(b))) == ZERO
  {
    AfterIsFeed(r, a);
    AfterIsFeed(r, b);
    FeedDifference(r, r, Bits(a), Bits(b));
    XorIsZero(r, r);
    XorIsZero(After(r, a), After(r, b));
  }

  lemma ClearMargins(before: seq<bool>, window: seq<bool>, after: seq<bool>)
    requires forall k | 0 <= k < |before| :: !before[k]
    requires forall k | 0 <= k < |after| :: !after[k]
    ensures Feed(ZERO, before + (window + after)) == ZERO <==> Feed(ZERO, window) == ZERO
  {
    FoldConcat(FeedBit, ZERO, before, window + after);
    FeedClear(ZERO, before);
    FoldConcat(FeedBit, ZERO, window, after);
    FeedClear(Feed(ZERO, window), after);
  }

  lemma ClearOutsideWindow(d: seq<bool>, lo: nat, hi: nat)
    requires lo <= hi <= |d| && hi - lo <= 32
    requires forall k | 0 <= k < |d| && !(lo <= k < hi) :: !d[k]
    requires Feed(ZERO, d) == ZERO
    ensures forall k | 0 <= k < |d| :: !d[k]
  {
    var before, window, after := d[..lo], d[lo..hi], d[hi..];
    SplitThree(d, lo, hi);
    ClearMargins(before, window, after);
    BurstDetected(window);
    forall k | lo <= k < hi ensures !d[k] {
      assert !window[k - lo];
    }
  }

  lemma SplitThree(d: seq<bool>, lo: nat, hi: nat)
    requires lo <= hi <= |d|
    ensures d == d[..lo] + (d[lo..hi] + d[hi..])
  {}

  lemma WindowUndetected(r: Word, a: seq<u8>, b: seq<u8>, i: nat)
    requires DifferWithin(a, b, i, 32) && After(r, a) == After(r, b)
    ensures a == b
  {
    var n := 8 * |a|;
    var lo, hi := if i < n then i else n, if i + 32 < n then i + 32 else n;
    var d := XorBits(Bits(a), Bits(b));
    SameRegister(r, a, b);
    ClearOutsideWindow(d, lo, hi);
    forall k | 0 <= k < n ensures Bits(a)[k] == Bits(b)[k] {
      assert !d[k];
    }
    BitsInjective(a, b);
  }

  // ---- 32 is the best possible width ----

  lemma {:induction false} StepsOfZero(n: nat)
    ensures Steps(ZERO, n) == ZERO
  {
    if n > 0 {
      StepOfZero(ZERO);
      StepsOfZero(n - 1);
    }
  }

  lemma ClearsItself(p: Word)
    ensures Feed(p, p) == ZERO
  {
    StepsPending(p, p, p);
    XorIsZero(p, p);
    StepsOfZero(|p|);
  }

  /** The generator itself, 33 bits long, is a difference that clears the register. */
  lemma GeneratorClears(p: Word, tail: seq<bool>)
    requires p == Polynomial()
    requires forall i | 0 <= i < |tail| :: !tail[i]
    ensures Feed(ZERO, [true] + (p + tail)) == ZERO
  {
    var d := [true] + (p + tail);
    assert d[1..] == p + tail;
    assert FeedBit(ZERO, true) == p;
    ClearsItself(p);
    FoldConcat(FeedBit, p, p, tail);
    FeedClear(ZERO, tail);
  }

  /** A message with the given bits. */
  function Pack(bits: seq<bool>): (data: seq<u8>)
    requires |bits| % 8 == 0
    ensures 8 * |data| == |bits|
  {
    WordSizes();
    if bits == [] then [] else [FromBits(bits[..8])] + Pack(bits[8..])
  }

  lemma {:induction false} BitsOfPack(bits: seq<bool>)
    requires |bits| % 8 == 0
    ensures Bits(Pack(bits)) == bits
    decreases |bits|
  {
    if bits != [] {
      ToBitsFromBits(bits[..8]);
      BitsOfPack(bits[8..]);
      assert Pack(bits)[1..] == Pack(bits[8..]);
      assert bits == bits[..8] + bits[8..];
    }
  }

  /** There are two messages that differ within 33 bits and have the same checksum. */
  lemma WindowOf33CanBeMissed()
    ensures exists a, b :: DifferWithin(a, b, 0, 33) && a != b && Checksum(a) == Checksum(b)
  {
    var tail := Fill(7, false);
    var d := [true] + (Polynomial() + tail);
    var zeros := Fill(|d|, false);
    var a, b := Pack(d), Pack(zeros);
    BitsOfPack(d);
    BitsOfPack(zeros);
    assert Bits(a)[0] != Bits(b)[0];
    assert XorBits(Bits(a), Bits(b)) == d;
    GeneratorClears(Polynomial(), tail);
    SameRegister(ONES, a, b);
    assert DifferWithin(a, b, 0, 33);
  }
}
