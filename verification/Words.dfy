/** Machine integers as bounded naturals, with their bits and their little-endian bytes. */
module Words {
  type u8 = n: nat | n < 0x100
  type u32 = n: nat | n < 0x1_0000_0000
  type u64 = n: nat | n < 0x1_0000_0000_0000_0000

  const BYTE_BITS: nat := 8
  const WORD_BITS: nat := 32

  function Pow2(k: nat): (p: nat)
    ensures p > 0
  {
    if k == 0 then 1 else 2 * Pow2(k - 1)
  }

  /** The low k bits of n, lowest first. */
  function ToBits(n: nat, k: nat): (bits: seq<bool>)
    ensures |bits| == k
    decreases k
  {
    if k == 0 then [] else [n % 2 == 1] + ToBits(n / 2, k - 1)
  }

  function FromBits(bits: seq<bool>): (n: nat)
    ensures n < Pow2(|bits|)
  {
    if bits == [] then 0 else (if bits[0] then 1 else 0) + 2 * FromBits(bits[1..])
  }

  lemma {:induction false} ToBitsFromBits(bits: seq<bool>)
    ensures ToBits(FromBits(bits), |bits|) == bits
  {
    if bits != [] {
      ToBitsFromBits(bits[1..]);
      assert bits == [bits[0]] + bits[1..];
    }
  }

  lemma FromBitsFront(b: bool, rest: seq<bool>)
    ensures FromBits([b] + rest) == (if b then 1 else 0) + 2 * FromBits(rest)
  {
    assert ([b] + rest)[1..] == rest;
  }

  /** A hexadecimal digit in front. */
  lemma FromBitsDigit(a: bool, b: bool, c: bool, d: bool, rest: seq<bool>)
    ensures FromBits([a, b, c, d] + rest)
         == (if a then 1 else 0) + (if b then 2 else 0) + (if c then 4 else 0) + (if d then 8 else 0)
            + 16 * FromBits(rest)
  {
    hide FromBits;
    FromBitsFront(d, rest);
    FromBitsFront(c, [d] + rest);
    FromBitsFront(b, [c] + ([d] + rest));
    FromBitsFront(a, [b] + ([c] + ([d] + rest)));
    assert [a, b, c, d] + rest == [a] + ([b] + ([c] + ([d] + rest)));
  }

  lemma {:induction false} FromBitsToBits(n: nat, k: nat)
    requires n < Pow2(k)
    ensures FromBits(ToBits(n, k)) == n
    decreases k
  {
    if k > 0 {
      FromBitsToBits(n / 2, k - 1);
      assert ToBits(n, k)[1..] == ToBits(n / 2, k - 1);
    }
  }

  /** The low k bytes of n, lowest first. */
  function ToLe(n: nat, k: nat): (bytes: seq<u8>)
    ensures |bytes| == k
    decreases k
  {
    if k == 0 then [] else [n % 256] + ToLe(n / 256, k - 1)
  }

  /** The four bytes of a number, each by its place value. */
  lemma ToLeFour(n: nat)
    ensures ToLe(n, 4) == [n % 0x100, n / 0x100 % 0x100, n / 0x1_0000 % 0x100, n / 0x100_0000 % 0x100]
  {
    assert n / 256 / 256 == n / 0x1_0000;
    assert n / 0x1_0000 / 256 == n / 0x100_0000;
    assert ToLe(n / 0x100_0000, 1) == [n / 0x100_0000 % 0x100];
    assert ToLe(n / 0x1_0000, 2) == [n / 0x1_0000 % 0x100] + ToLe(n / 0x100_0000, 1);
    assert ToLe(n / 0x100, 3) == [n / 0x100 % 0x100] + ToLe(n / 0x1_0000, 2);
  }

  /** Of eight, the last four are those of what is left above the first four. */
  lemma ToLeEight(n: nat)
    ensures ToLe(n, 8) == ToLe(n, 4) + ToLe(n / 0x1_0000_0000, 4)
  {
    var a, b, c, d := n / 0x100, n / 0x1_0000, n / 0x100_0000, n / 0x1_0000_0000;
    assert a / 256 == b && b / 256 == c && c / 256 == d;
    assert ToLe(c, 1) == [c % 256] && ToLe(c, 5) == [c % 256] + ToLe(d, 4);
    assert ToLe(b, 2) == [b % 256] + ToLe(c, 1) && ToLe(b, 6) == [b % 256] + ToLe(c, 5);
    assert ToLe(a, 3) == [a % 256] + ToLe(b, 2) && ToLe(a, 7) == [a % 256] + ToLe(b, 6);
  }

  lemma QuotientOf(n: nat, d: nat, q: nat, r: nat)
    requires d > 0 && n == d * q + r && r < d
    ensures n / d == q && n % d == r
  {
    var e := n / d - q;
    assert d * e == r - n % d;
    MultipleOf(e, d);
  }

  /** A multiple of d that is not zero is at least d away from it. */
  lemma MultipleOf(e: int, d: nat)
    requires d > 0
    ensures e >= 1 ==> d * e >= d
    ensures e <= -1 ==> d * e <= -1 * d
  {}

  function FromLe(bytes: seq<u8>): nat {
    if bytes == [] then 0 else bytes[0] + 256 * FromLe(bytes[1..])
  }

  lemma {:induction false} ToLeFromLe(bytes: seq<u8>)
    ensures ToLe(FromLe(bytes), |bytes|) == bytes
  {
    if bytes != [] {
      ToLeFromLe(bytes[1..]);
      LowByte(bytes[0], FromLe(bytes[1..]));
      assert bytes == [bytes[0]] + bytes[1..];
    }
  }

  lemma LowByte(b: u8, n: nat)
    ensures (b + 256 * n) % 256 == b && (b + 256 * n) / 256 == n
  {}

  lemma {:induction false} FromLeToLe(n: nat, k: nat)
    requires n < Pow2(8 * k)
    ensures FromLe(ToLe(n, k)) == n
    decreases k
  {
    if k > 0 {
      Pow2Byte(8 * (k - 1));
      FromLeToLe(n / 256, k - 1);
      assert ToLe(n, k)[1..] == ToLe(n / 256, k - 1);
    }
  }

  lemma {:induction false} FromLeBound(bytes: seq<u8>)
    ensures FromLe(bytes) < Pow2(8 * |bytes|)
  {
    if bytes != [] {
      FromLeBound(bytes[1..]);
      Pow2Byte(8 * |bytes[1..]|);
    }
  }

  lemma Pow2Byte(k: nat)
    ensures Pow2(k + 8) == 256 * Pow2(k)
  {
    assert Pow2(k + 2) == 4 * Pow2(k);
    assert Pow2(k + 4) == 4 * Pow2(k + 2);
    assert Pow2(k + 6) == 4 * Pow2(k + 4);
  }

  lemma WordSizes()
    ensures Pow2(8) == 0x100
    ensures Pow2(32) == 0x1_0000_0000
    ensures Pow2(64) == 0x1_0000_0000_0000_0000
  {
    Pow2Byte(0);
    Pow2Byte(8);
    Pow2Byte(16);
    Pow2Byte(24);
    Pow2Byte(32);
    Pow2Byte(40);
    Pow2Byte(48);
    Pow2Byte(56);
  }
}
