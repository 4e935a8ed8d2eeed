/** Which partitions of a queue the records reach. */
module Routes {
  import opened Words
  import opened Crc32
  import opened KnownChecksum
  import opened PersistQs

  const WORDS: nat := 0x1_0000_0000

  // ---- The checksum is a bijection on four bytes ----

  function Numbered(m: nat): (data: Bytes)
    ensures |data| == 4
  {
    ToLe(m, 4)
  }

  lemma ChecksumsDiffer(a: nat, b: nat)
    requires a < b < WORDS
    ensures Checksum(Numbered(a)) != Checksum(Numbered(b))
  {
    hide Checksum, After;
    WordSizes();
    FromLeToLe(a, 4);
    FromLeToLe(b, 4);
    assert DifferWithin(Numbered(a), Numbered(b), 0, 32);
    WindowDetected(ONES, Numbered(a), Numbered(b), 0);
  }

  function Below(n: nat): set<nat> { if n == 0 then {} else Below(n - 1) + {n - 1} }

  ghost function Images(n: nat): set<nat> { set m: nat | m < n :: Checksum(Numbered(m)) }

  lemma {:induction false} SizeBelow(n: nat)
    ensures |Below(n)| == n && forall x: nat :: x in Below(n) <==> x < n
  {
    if n > 0 {
      SizeBelow(n - 1);
    }
  }

  lemma {:induction false} SizeOfImages(n: nat)
    requires n <= WORDS
    ensures |Images(n)| == n
  {
    hide Checksum, Numbered;
    if n == 0 {
      assert Images(n) == {};
    } else {
      SizeOfImages(n - 1);
      var last := Checksum(Numbered(n - 1));
      forall m: nat | m < n - 1 ensures Checksum(Numbered(m)) != last { ChecksumsDiffer(m, n - 1); }
      assert Images(n) == Images(n - 1) + {last};
    }
  }

  lemma SameIfSameSize(a: set<nat>, b: set<nat>)
    requires a <= b && |a| == |b|
    ensures a == b
  {
    assert b == a + (b - a);
  }

  /** Every 32-bit number is the checksum of some four bytes. */
  lemma EveryChecksum(x: nat) returns (data: Bytes)
    requires x < WORDS
    ensures |data| == 4 && Checksum(data) == x
  {
    hide Checksum, Numbered, Below;
    SizeBelow(WORDS);
    SizeOfImages(WORDS);
    forall y | y in Images(WORDS) ensures y in Below(WORDS) {}
    SameIfSameSize(Images(WORDS), Below(WORDS));
    assert x in Below(WORDS);
    var m: nat :| m < WORDS && Checksum(Numbered(m)) == x;
    data := Numbered(m);
  }

  // ---- The routes ----

  /** No partition is out of reach: each is the route of some record of four bytes. */
  lemma EveryRoute(partitions: nat, p: nat) returns (data: Bytes)
    requires p < partitions <= WORDS
    ensures |data| == 4 && Route(data, partitions) == p
  {
    hide Checksum;
    data := EveryChecksum(p);
    QuotientOf(p, partitions, 0, p);
  }

  /** Two records go to one partition exactly if their checksums differ by a multiple of the number of
      partitions. */
  lemma SameRouteIff(a: Bytes, b: Bytes, partitions: nat)
    requires partitions > 0
    ensures Route(a, partitions) == Route(b, partitions)
            <==> exists k: int :: Checksum(a) - Checksum(b) == k * partitions
  {
    hide Checksum;
    var x, y := Checksum(a), Checksum(b);
    if Route(a, partitions) == Route(b, partitions) {
      assert x - y == (x / partitions - y / partitions) * partitions;
    }
    if k: int :| x - y == k * partitions {
      Congruent(x, y, k, partitions);
    }
  }

  lemma Congruent(x: nat, y: nat, k: int, n: nat)
    requires n > 0 && x - y == k * n
    ensures x % n == y % n
  {
    var e := x / n - y / n - k;
    assert n * e == y % n - x % n;
    MultipleOf(e, n);
  }

  /** A known route, for every number of partitions. */
  lemma KnownRoute(partitions: nat)
    requires partitions > 0
    ensures Route(NINE, partitions) == 0xcbf43926 % partitions
    ensures Route(NINE, 3) == 2
  {
    hide Checksum;
    CheckValue();
  }
}
