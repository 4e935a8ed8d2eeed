/** The check value of the CRC, which fixes its initial register, its bit order and its final complement:
    the checksum of the nine bytes "123456789" is 0xcbf43926. */
module KnownChecksum {
  import opened Sequences
  import opened Words
  import opened Crc32

  // ---- Machine words ----

  function Join(low: bool, rest: bv32): bv32 { (if low then 1 else 0) | (rest << 1) }

  function Half(r: bv32): bv32 { r >> 1 }

  predicate Odd(r: bv32) { r & 1 != 0 }

  function XorOf(r: bv32, s: bv32): bv32 { r ^ s }

  /** None of the bits of the mask are set. */
  predicate Without(r: bv32, mask: bv32) { r & mask == 0 }

  function Double(r: bv32): bv32 { r << 1 }

  const TOP: bv32 := 0x80000000

  lemma JoinWithout(b: bool, rest: bv32, mask: bv32)
    requires Without(rest, mask)
    ensures Without(Join(b, rest), Double(mask))
  {}

  lemma JoinXor(b: bool, c: bool, r: bv32, s: bv32)
    ensures Join(b != c, XorOf(r, s)) == XorOf(Join(b, r), Join(c, s))
  {}

  lemma JoinHalf(b: bool, rest: bv32)
    requires Without(rest, TOP)
    ensures Half(Join(b, rest)) == rest && Odd(Join(b, rest)) == b
  {}

  lemma JoinNothing()
    ensures Join(false, 0) == 0 == XorOf(0, 0) && Without(0, 0xffffffff)
  {}

  // ---- The register as a machine word ----

  /** The machine word with the given bits, lowest first. */
  function Packed(bits: seq<bool>): bv32 { if bits == [] then 0 else Join(bits[0], Packed(bits[1..])) }

  /** The bits that k bits leave free. */
  function Free(k: nat): bv32 { if k == 0 then 0xffffffff else Double(Free(k - 1)) }

  lemma FourDoubles(r: bv32)
    ensures Double(Double(Double(Double(r)))) == r << 4
  {}

  lemma FreeMore(k: nat)
    ensures Free(k + 4) == Free(k) << 4
  {
    hide Double;
    FourDoubles(Free(k));
    assert Free(k + 1) == Double(Free(k)) && Free(k + 2) == Double(Free(k + 1));
    assert Free(k + 3) == Double(Free(k + 2)) && Free(k + 4) == Double(Free(k + 3));
  }

  lemma FreeTop()
    ensures Free(31) == TOP
  {
    hide Double;
    assert Free(3) == 0xffff_fff8 by { FreeThree(); }
    FreeMore(3);
    FreeMore(7);
    FreeMore(11);
    FreeMore(15);
    FreeMore(19);
    FreeMore(23);
    FreeMore(27);
  }

  lemma FreeThree()
    ensures Free(3) == 0xffff_fff8
  {
    assert Free(1) == 0xffff_fffe;
    assert Free(2) == 0xffff_fffc;
  }

  lemma {:induction false} PackedFree(bits: seq<bool>)
    ensures Without(Packed(bits), Free(|bits|))
  {
    hide Join, Without, Double;
    if bits == [] {
      JoinNothing();
    } else {
      PackedFree(bits[1..]);
      JoinWithout(bits[0], Packed(bits[1..]), Free(|bits| - 1));
    }
  }

  lemma {:induction false} PackedXor(a: seq<bool>, b: seq<bool>)
    requires |a| == |b|
    ensures Packed(XorBits(a, b)) == XorOf(Packed(a), Packed(b))
  {
    hide Join, XorOf;
    if a == [] {
      JoinNothing();
    } else {
      PackedXor(a[1..], b[1..]);
      assert XorBits(a, b)[1..] == XorBits(a[1..], b[1..]);
      JoinXor(a[0], b[0], Packed(a[1..]), Packed(b[1..]));
    }
  }

  lemma {:induction false} PackedClearTop(bits: seq<bool>)
    ensures Packed(bits + [false]) == Packed(bits)
  {
    hide Join;
    if bits == [] {
      JoinNothing();
      assert ([] + [false])[1..] == [];
    } else {
      PackedClearTop(bits[1..]);
      assert (bits + [false])[1..] == bits[1..] + [false];
    }
  }

  lemma {:induction false} TopIsFree(bits: seq<bool>)
    requires |bits| <= 31
    ensures Without(Packed(bits), TOP)
    decreases 31 - |bits|
  {
    hide Packed, Without, Free;
    if |bits| < 31 {
      TopIsFree(bits + [false]);
      PackedClearTop(bits);
    } else {
      PackedFree(bits);
      FreeTop();
    }
  }

  lemma {:induction false} PackedInjective(a: seq<bool>, b: seq<bool>)
    requires |a| == |b| <= 32 && Packed(a) == Packed(b)
    ensures a == b
  {
    hide Join, Half, Odd, Without;
    if a != [] {
      TopIsFree(a[1..]);
      TopIsFree(b[1..]);
      JoinHalf(a[0], Packed(a[1..]));
      JoinHalf(b[0], Packed(b[1..]));
      PackedInjective(a[1..], b[1..]);
      assert a == [a[0]] + a[1..] && b == [b[0]] + b[1..];
    }
  }

  /** A hexadecimal digit in front. */
  function Digit(a: bool, b: bool, c: bool, d: bool, rest: bv32): bv32 { Join(a, Join(b, Join(c, Join(d, rest)))) }

  lemma PackedDigit(a: bool, b: bool, c: bool, d: bool, rest: seq<bool>)
    ensures Packed([a, b, c, d] + rest) == Digit(a, b, c, d, Packed(rest))
  {
    hide Join, Packed;
    PackedFront(d, rest);
    PackedFront(c, [d] + rest);
    PackedFront(b, [c] + ([d] + rest));
    PackedFront(a, [b] + ([c] + ([d] + rest)));
    assert [a, b, c, d] + rest == [a] + ([b] + ([c] + ([d] + rest)));
  }

  lemma PackedFront(b: bool, rest: seq<bool>)
    ensures Packed([b] + rest) == Join(b, Packed(rest))
  {
    assert ([b] + rest)[1..] == rest;
  }

  lemma PackedPolynomial()
    ensures Packed(Polynomial()) == 0xedb88320
  {
    hide Packed;
    var d7 := [false, true, true, true] + [];
    var d6 := [true, false, true, true] + d7;
    var d5 := [true, true, false, true] + d6;
    var d4 := [false, false, false, true] + d5;
    var d3 := [false, false, false, true] + d4;
    var d2 := [true, true, false, false] + d3;
    var d1 := [false, true, false, false] + d2;
    var d0 := [false, false, false, false] + d1;
    assert Polynomial() == d0;
    PackedDigit(false, true, true, true, []);
    PackedDigit(true, false, true, true, d7);
    PackedDigit(true, true, false, true, d6);
    PackedDigit(false, false, false, true, d5);
    PackedDigit(false, false, false, true, d4);
    PackedDigit(true, true, false, false, d3);
    PackedDigit(false, true, false, false, d2);
    PackedDigit(false, false, false, false, d1);
    PackedNothing();
  }

  lemma PackedNothing()
    ensures Packed([]) == 0
  {}

  // ---- The update, computed ----

  function StepOf(r: bv32): bv32 { if Odd(r) then XorOf(Half(r), 0xedb88320) else Half(r) }

  function EightSteps(r: bv32): bv32 { StepOf(StepOf(StepOf(StepOf(StepOf(StepOf(StepOf(StepOf(r)))))))) }

  lemma PackedStep(w: Word)
    ensures Packed(Step(w)) == StepOf(Packed(w))
  {
    hide Packed, Join, Half, Odd, XorOf, Without;
    PackedFront(w[0], w[1..]);
    assert [w[0]] + w[1..] == w;
    TopIsFree(w[1..]);
    JoinHalf(w[0], Packed(w[1..]));
    PackedClearTop(w[1..]);
    PackedXor(Shift(w), Polynomial());
    assert XorBits(Shift(w), Polynomial()) == Xor(Shift(w), Polynomial());
    PackedPolynomial();
  }

  lemma PackedEightSteps(w: Word)
    ensures Packed(Steps(w, 8)) == EightSteps(Packed(w))
  {
    hide Packed, StepOf, Step;
    var w1 := Step(w);
    var w2 := Step(w1);
    var w3 := Step(w2);
    var w4 := Step(w3);
    var w5 := Step(w4);
    var w6 := Step(w5);
    var w7 := Step(w6);
    PackedStep(w);
    PackedStep(w1);
    PackedStep(w2);
    PackedStep(w3);
    PackedStep(w4);
    PackedStep(w5);
    PackedStep(w6);
    PackedStep(w7);
    assert Steps(w, 8) == Steps(w4, 4) == Step(w7);
  }

  /** A byte whose high digit is three, which a decimal digit has. */
  lemma PackedByte(x: u8, a: bool, b: bool, c: bool, d: bool)
    requires x == 48 + (if a then 1 else 0) + (if b then 2 else 0) + (if c then 4 else 0) + (if d then 8 else 0)
    ensures Packed(Widen(x)) == Digit(a, b, c, d, 3)
  {
    hide Packed, Join;
    var high := [true, true, false, false] + Fill(24, false);
    DigitBits(x, a, b, c, d);
    assert Widen(x) == [a, b, c, d] + high;
    PackedDigit(a, b, c, d, high);
    PackedDigit(true, true, false, false, Fill(24, false));
    PackedClear(24);
    ThreeHigh();
  }

  lemma DigitBits(x: u8, a: bool, b: bool, c: bool, d: bool)
    requires x == 48 + (if a then 1 else 0) + (if b then 2 else 0) + (if c then 4 else 0) + (if d then 8 else 0)
    ensures BitsOf(x) == [a, b, c, d, true, true, false, false]
  {
    hide FromBits, ToBits;
    var bits := [a, b, c, d] + [true, true, false, false];
    FromBitsDigit(a, b, c, d, [true, true, false, false]);
    FromBitsDigit(true, true, false, false, []);
    assert [true, true, false, false] + [] == [true, true, false, false];
    NoBits();
    ToBitsFromBits(bits);
  }

  lemma ThreeHigh()
    ensures Digit(true, true, false, false, 0) == 3
  {}

  lemma {:induction false} PackedClear(n: nat)
    ensures Packed(Fill(n, false)) == 0
  {
    hide Join;
    if n > 0 {
      PackedClear(n - 1);
      assert Fill(n, false)[1..] == Fill(n - 1, false);
      JoinNothing();
    }
  }

  /** One decimal digit more, as the register takes it. */
  lemma NextDigit(r: Word, x: u8, a: bool, b: bool, c: bool, d: bool)
    requires x == 48 + (if a then 1 else 0) + (if b then 2 else 0) + (if c then 4 else 0) + (if d then 8 else 0)
    ensures Packed(UpdateByte(r, x)) == EightSteps(XorOf(Packed(r), Digit(a, b, c, d, 3)))
  {
    hide Packed, EightSteps, XorOf, Digit, UpdateByte;
    UpdateByteIsStandard(r, x);
    PackedEightSteps(Xor(r, Widen(x)));
    assert XorBits(r, Widen(x)) == Xor(r, Widen(x));
    PackedXor(r, Widen(x));
    PackedByte(x, a, b, c, d);
  }

  // ---- The check value ----

  /** The decimal digits from one to nine, as characters. */
  const NINE: seq<u8> := [0x31, 0x32, 0x33, 0x34, 0x35, 0x36, 0x37, 0x38, 0x39]

  lemma NextRegister(i: nat, a: bool, b: bool, c: bool, d: bool, before: bv32, after: bv32)
    requires i < 9
    requires NINE[i] == 48 + (if a then 1 else 0) + (if b then 2 else 0) + (if c then 4 else 0) + (if d then 8 else 0)
    requires Packed(After(ONES, NINE[..i])) == before && EightSteps(XorOf(before, Digit(a, b, c, d, 3))) == after
    ensures Packed(After(ONES, NINE[..i + 1])) == after
  {
    hide Packed, EightSteps, XorOf, Digit, UpdateByte, After;
    AfterNext(ONES, NINE, i);
    NextDigit(After(ONES, NINE[..i]), NINE[i], a, b, c, d);
  }

  lemma PackedOnes()
    ensures Packed(ONES) == 0xffffffff
  {
    hide Packed;
    var d7 := [true, true, true, true] + [];
    var d6 := [true, true, true, true] + d7;
    var d5 := [true, true, true, true] + d6;
    var d4 := [true, true, true, true] + d5;
    var d3 := [true, true, true, true] + d4;
    var d2 := [true, true, true, true] + d3;
    var d1 := [true, true, true, true] + d2;
    var d0 := [true, true, true, true] + d1;
    assert ONES == d0;
    PackedDigit(true, true, true, true, []);
    PackedDigit(true, true, true, true, d7);
    PackedDigit(true, true, true, true, d6);
    PackedDigit(true, true, true, true, d5);
    PackedDigit(true, true, true, true, d4);
    PackedDigit(true, true, true, true, d3);
    PackedDigit(true, true, true, true, d2);
    PackedDigit(true, true, true, true, d1);
    PackedNothing();
  }

  lemma LastRegister()
    ensures Packed(After(ONES, NINE)) == 0x340bc6d9
  {
    hide Packed, After;
    assert NINE[..0] == [] && NINE[..9] == NINE;
    NoBytes();
    PackedOnes();
    NextRegister(0, true, false, false, false, 0xffffffff, 0x7c231048);
    NextRegister(1, false, true, false, false, 0x7c231048, 0xb0acbb32);
    NextRegister(2, true, true, false, false, 0xb0acbb32, 0x77b79c2d);
    NextRegister(3, false, false, true, false, 0x77b79c2d, 0x641c1f5c);
    NextRegister(4, true, false, true, false, 0x641c1f5c, 0x340ac5e3);
    NextRegister(5, false, true, true, false, 0x340ac5e3, 0xf68d2c9e);
    NextRegister(6, true, true, true, false, 0xf68d2c9e, 0xaffc9660);
    NextRegister(7, false, false, false, true, 0xaffc9660, 0x651f2550);
    NextRegister(8, true, false, false, true, 0x651f2550, 0x340bc6d9);
  }

  lemma NoBytes()
    ensures After(ONES, []) == ONES
  {}

  lemma CheckValue()
    ensures Checksum(NINE) == 0xcbf43926
  {
    hide Packed, After, FromBits;
    LastRegister();
    var d7 := [true, true, false, false] + [];
    var d6 := [false, false, true, false] + d7;
    var d5 := [false, false, false, false] + d6;
    var d4 := [true, true, false, true] + d5;
    var d3 := [false, false, true, true] + d4;
    var d2 := [false, true, true, false] + d3;
    var d1 := [true, false, true, true] + d2;
    var d0 := [true, false, false, true] + d1;
    PackedDigit(true, true, false, false, []);
    PackedDigit(false, false, true, false, d7);
    PackedDigit(false, false, false, false, d6);
    PackedDigit(true, true, false, true, d5);
    PackedDigit(false, false, true, true, d4);
    PackedDigit(false, true, true, false, d3);
    PackedDigit(true, false, true, true, d2);
    PackedDigit(true, false, false, true, d1);
    PackedNothing();
    PackedInjective(After(ONES, NINE), d0);
    var e7 := [false, false, true, true] + [];
    var e6 := [true, true, false, true] + e7;
    var e5 := [true, true, true, true] + e6;
    var e4 := [false, false, true, false] + e5;
    var e3 := [true, true, false, false] + e4;
    var e2 := [true, false, false, true] + e3;
    var e1 := [false, true, false, false] + e2;
    var e0 := [false, true, true, false] + e1;
    assert Xor(d0, ONES) == e0;
    FromBitsDigit(false, false, true, true, []);
    FromBitsDigit(true, true, false, true, e7);
    FromBitsDigit(true, true, true, true, e6);
    FromBitsDigit(false, false, true, false, e5);
    FromBitsDigit(true, true, false, false, e4);
    FromBitsDigit(true, false, false, true, e3);
    FromBitsDigit(false, true, false, false, e2);
    FromBitsDigit(false, true, true, false, e1);
    NoBits();
  }
}
