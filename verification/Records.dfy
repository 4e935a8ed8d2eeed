/** The framed record: magic, length, checksum, timestamp, data. */
module Records {
  import opened Wrappers
  import opened Words
  import opened Sequences
  import opened Crc32

  const RECORD_MAGIC: u32 := 0xD01D_AC0D
  const HEADER_SIZE: nat := 20
  const MAX_RECORD_SIZE: nat := 100 * 1024 * 1024

  datatype Record = Record(timestamp: u64, data: seq<u8>) {
    /** What both constructors of the source check. */
    predicate Accepted() { |data| <= MAX_RECORD_SIZE }

    function SerializedSize(): nat { HEADER_SIZE + |data| }
  }

  datatype RecordError =
    | InvalidMagic(magic: u32)
    | RecordTooLarge(size: nat)
    | ChecksumMismatch(expected: u32, actual: u32)
    | IncompleteRecord(needed: nat, available: nat)

  function WithTimestamp(data: seq<u8>, timestamp: u64): (r: Result<Record, RecordError>)
    ensures r.Ok? <==> |data| <= MAX_RECORD_SIZE
    ensures r.Ok? ==> r.value.timestamp == timestamp && r.value.data == data && r.value.Accepted()
    ensures r.Err? ==> r.error == RecordTooLarge(|data|)
  {
    if |data| > MAX_RECORD_SIZE then Err(RecordTooLarge(|data|)) else Ok(Record(timestamp, data))
  }

  const U32_BYTES: nat := 4
  const U64_BYTES: nat := 8

  function Le32(w: u32): (bytes: seq<u8>)
    ensures |bytes| == 4
  {
    ToLe(w, U32_BYTES)
  }

  function Le64(w: u64): (bytes: seq<u8>)
    ensures |bytes| == 8
  {
    ToLe(w, U64_BYTES)
  }

  function FromLe32(bytes: seq<u8>): u32
    requires |bytes| == 4
  {
    FromLeBound(bytes);
    WordSizes();
    FromLe(bytes)
  }

  function FromLe64(bytes: seq<u8>): u64
    requires |bytes| == 8
  {
    FromLeBound(bytes);
    WordSizes();
    FromLe(bytes)
  }

  lemma Le32RoundTrip(w: u32, bytes: seq<u8>)
    requires |bytes| == 4
    ensures FromLe32(bytes) == w <==> bytes == Le32(w)
  {
    WordSizes();
    FromLeToLe(w, U32_BYTES);
    ToLeFromLe(bytes);
  }

  lemma Le64RoundTrip(w: u64, bytes: seq<u8>)
    requires |bytes| == 8
    ensures FromLe64(bytes) == w <==> bytes == Le64(w)
  {
    WordSizes();
    FromLeToLe(w, U64_BYTES);
    ToLeFromLe(bytes);
  }

  /** The length as the source's cast stores it. */
  function Low32(n: nat): u32 { n % 0x1_0000_0000 }

  /** The part the checksum covers. */
  function Payload(r: Record): (p: seq<u8>)
    ensures |p| == 8 + |r.data|
  {
    Le64(r.timestamp) + r.data
  }

  function Prefix(length: u32, checksum: u32): (p: seq<u8>)
    ensures |p| == 12
  {
    Le32(RECORD_MAGIC) + Le32(length) + Le32(checksum)
  }

  function Encode(r: Record): (bytes: seq<u8>)
    ensures |bytes| == r.SerializedSize()
  {
    Prefix(Low32(|r.data|), Checksum(Payload(r))) + Payload(r)
  }

  method CalculateChecksum(timestamp: u64, data: seq<u8>) returns (sum: u32)
    ensures sum == Checksum(Payload(Record(timestamp, data)))
  {
    var hasher := new Hasher();
    hasher.Update(Le64(timestamp));
    hasher.Update(data);
    AfterConcat(ONES, Le64(timestamp), data);
    sum := hasher.Finalize();
  }

  method Serialize(r: Record) returns (bytes: seq<u8>)
    ensures bytes == Encode(r)
  {
    bytes := Le32(RECORD_MAGIC);
    bytes := bytes + Le32(Low32(|r.data|));
    var checksum := CalculateChecksum(r.timestamp, r.data);
    bytes := bytes + Le32(checksum);
    bytes := bytes + Le64(r.timestamp);
    bytes := bytes + r.data;
    assert bytes == Encode(r);
  }

  /** What is on the disk: the magic, the length cut to 32 bits, the checksum of everything behind it, the
      timestamp and the data. */
  lemma WireFields(r: Record)
    ensures var bytes := Encode(r);
            && |bytes| == 20 + |r.data| && bytes[0..4] == Le32(0xD01D_AC0D)
            && bytes[4..8] == Le32(|r.data| % 0x1_0000_0000) && bytes[8..12] == Le32(Checksum(bytes[12..]))
            && bytes[12..20] == Le64(r.timestamp) && bytes[20..] == r.data
    ensures r.Accepted() <==> |r.data| <= 104_857_600
  {
    hide Checksum, Le32, Le64;
    assert Encode(r)[12..] == Payload(r);
  }

  /** And numbers have their lowest byte first. */
  lemma WireNumbers(w: u32, x: u64)
    ensures Le32(w) == [w % 0x100, w / 0x100 % 0x100, w / 0x1_0000 % 0x100, w / 0x100_0000 % 0x100]
    ensures Le64(x)[..4] == [x % 0x100, x / 0x100 % 0x100, x / 0x1_0000 % 0x100, x / 0x100_0000 % 0x100]
    ensures Le64(x)[4..] == Le32(x / 0x1_0000_0000)
    ensures Le32(0xD01D_AC0D) == [0x0D, 0xAC, 0x1D, 0xD0]
  {
    hide ToLe, FromLe, Checksum;
    ToLeFour(w);
    ToLeFour(x);
    MagicBytes();
    ToLeEight(x);
    Halves(ToLe(x, 4), ToLe(x / 0x1_0000_0000, 4));
  }

  lemma Halves(a: seq<u8>, b: seq<u8>)
    ensures (a + b)[..|a|] == a && (a + b)[|a|..] == b
  {}

  lemma MagicBytes()
    ensures Le32(0xD01D_AC0D) == [0x0D, 0xAC, 0x1D, 0xD0]
  {
    hide ToLe;
    ToLeFour(0xD01D_AC0D);
  }

  function Decode(bytes: seq<u8>): Result<(Record, nat), RecordError> {
    if |bytes| < HEADER_SIZE then
      Err(IncompleteRecord(HEADER_SIZE, |bytes|))
    else
      var magic := FromLe32(bytes[0..4]);
      if magic != RECORD_MAGIC then
        Err(InvalidMagic(magic))
      else
        var length := FromLe32(bytes[4..8]);
        if length > MAX_RECORD_SIZE then
          Err(RecordTooLarge(length))
        else
          var total := HEADER_SIZE + length;
          if |bytes| < total then
            Err(IncompleteRecord(total, |bytes|))
          else
            var stored := FromLe32(bytes[8..12]);
            var record := Record(FromLe64(bytes[12..20]), bytes[20..total]);
            var calculated := Checksum(Payload(record));
            if stored != calculated then
              Err(ChecksumMismatch(stored, calculated))
            else
              Ok((record, total))
  }

  // ---- Parsing is the inverse of printing ----

  /** Bytes start with five fields in a row exactly if the fields can be cut out of them. */
  lemma Layout(a: seq<u8>, b: seq<u8>, c: seq<u8>, d: seq<u8>, e: seq<u8>, bytes: seq<u8>, n: nat)
    requires |a| == |b| == |c| == 4 && |d| == 8 && n == 20 + |e| <= |bytes|
    ensures bytes[..n] == (a + b + c) + (d + e) <==>
            && bytes[0..4] == a && bytes[4..8] == b && bytes[8..12] == c
            && bytes[12..20] == d && bytes[20..n] == e
  {
    var whole := (a + b + c) + (d + e);
    if bytes[..n] == whole {
      forall i | 0 <= i < n ensures bytes[i] == whole[i] { assert bytes[..n][i] == whole[i]; }
    }
  }

  /** Bytes start with a frame exactly if the five field values they hold are the frame's. */
  lemma Fields(length: u32, checksum: u32, r: Record, bytes: seq<u8>, n: nat)
    requires n == r.SerializedSize() <= |bytes|
    ensures bytes[..n] == Prefix(length, checksum) + Payload(r) <==>
            && FromLe32(bytes[0..4]) == RECORD_MAGIC
            && FromLe32(bytes[4..8]) == length
            && FromLe32(bytes[8..12]) == checksum
            && FromLe64(bytes[12..20]) == r.timestamp
            && bytes[20..n] == r.data
  {
    hide Checksum, Le32, Le64, FromLe32, FromLe64;
    Layout(Le32(RECORD_MAGIC), Le32(length), Le32(checksum), Le64(r.timestamp), r.data, bytes, n);
    Le32RoundTrip(RECORD_MAGIC, bytes[0..4]);
    Le32RoundTrip(length, bytes[4..8]);
    Le32RoundTrip(checksum, bytes[8..12]);
    Le64RoundTrip(r.timestamp, bytes[12..20]);
  }

  /** What parsing makes of a frame whose length field is right, whatever its checksum field says. */
  lemma DecodeFrame(checksum: u32, r: Record, bytes: seq<u8>)
    requires |r.data| < 0x1_0000_0000 && r.SerializedSize() <= |bytes|
    requires bytes[..r.SerializedSize()] == Prefix(|r.data|, checksum) + Payload(r)
    ensures Decode(bytes)
         == if !r.Accepted() then Err(RecordTooLarge(|r.data|))
            else if checksum == Checksum(Payload(r)) then Ok((r, r.SerializedSize()))
            else Err(ChecksumMismatch(checksum, Checksum(Payload(r))))
  {
    hide Checksum, Le32, Le64, FromLe32, FromLe64;
    Fields(|r.data|, checksum, r, bytes, r.SerializedSize());
  }

  lemma LengthFits(n: nat)
    requires n <= MAX_RECORD_SIZE
    ensures Low32(n) == n
  {}

  lemma DecodedFields(bytes: seq<u8>)
    requires Decode(bytes).Ok?
    ensures var (r, n) := Decode(bytes).value;
            && r.Accepted() && n == r.SerializedSize() && n <= |bytes|
            && bytes[..n] == Prefix(|r.data|, Checksum(Payload(r))) + Payload(r)
  {
    hide Checksum, Le32, Le64, FromLe32, FromLe64;
    var (r, n) := Decode(bytes).value;
    Fields(|r.data|, Checksum(Payload(r)), r, bytes, n);
  }

  /** Parsing succeeds exactly on the bytes that printing an acceptable record produces, and
      consumes exactly those. */
  lemma DecodeExactly(bytes: seq<u8>, r: Record, n: nat)
    ensures Decode(bytes) == Ok((r, n)) <==>
            r.Accepted() && n == r.SerializedSize() && n <= |bytes| && bytes[..n] == Encode(r)
  {
    hide Decode, Checksum, Le32, Le64, FromLe32, FromLe64;
    if r.Accepted() { LengthFits(|r.data|); }
    if Decode(bytes) == Ok((r, n)) {
      DecodedFields(bytes);
    } else if r.Accepted() && n == r.SerializedSize() && n <= |bytes| && bytes[..n] == Encode(r) {
      DecodeFrame(Checksum(Payload(r)), r, bytes);
    }
  }

  /** The size limit is exactly what the round trip needs: beyond it the frame is unreadable or
      reads back as something else. */
  lemma RoundTrip(r: Record, suffix: seq<u8>)
    ensures Decode(Encode(r) + suffix) == Ok((r, |Encode(r)|)) <==> r.Accepted()
  {
    hide Encode, Decode, Checksum;
    assert (Encode(r) + suffix)[..r.SerializedSize()] == Encode(r);
    DecodeExactly(Encode(r) + suffix, r, |Encode(r)|);
  }

  /** Later bytes never change what was parsed. */
  lemma DecodeExtends(bytes: seq<u8>, suffix: seq<u8>)
    requires Decode(bytes).Ok?
    ensures Decode(bytes + suffix) == Decode(bytes)
  {
    hide Encode, Decode, Checksum;
    var (r, n) := Decode(bytes).value;
    DecodeExactly(bytes, r, n);
    assert (bytes + suffix)[..n] == bytes[..n];
    DecodeExactly(bytes + suffix, r, n);
  }

  /** Any strict prefix of a frame asks for the header, or, once it has that, for the frame. */
  lemma StrictPrefix(r: Record, k: nat)
    requires r.Accepted() && k < |Encode(r)|
    ensures Decode(Encode(r)[..k])
         == Err(IncompleteRecord(if k < HEADER_SIZE then HEADER_SIZE else |Encode(r)|, k))
  {
    hide Checksum, Le32, Le64, FromLe32, FromLe64;
    if k >= HEADER_SIZE {
      var frame := Encode(r);
      LengthFits(|r.data|);
      Fields(|r.data|, Checksum(Payload(r)), r, frame, |frame|);
      PrefixFields(frame, k);
    }
  }

  lemma PrefixFields(frame: seq<u8>, k: nat)
    requires 20 <= k <= |frame|
    ensures frame[..k][0..4] == frame[0..4] && frame[..k][4..8] == frame[4..8]
  {}

  // ---- Damage ----

  /** The record whose payload is the given bytes. */
  lemma PayloadOf(p: seq<u8>) returns (r: Record)
    requires |p| >= 8
    ensures Payload(r) == p && |r.data| == |p| - 8
  {
    r := Record(FromLe64(p[..8]), p[8..]);
    Le64RoundTrip(r.timestamp, p[..8]);
    assert p == p[..8] + p[8..];
  }

  /** Any change of the timestamp or data that stays within 32 consecutive bits is reported, at
      every length and whatever follows the frame. */
  lemma PayloadDamage(r: Record, p: seq<u8>, suffix: seq<u8>, i: nat)
    requires r.Accepted() && DifferWithin(p, Payload(r), i, 32) && p != Payload(r)
    ensures Decode(Prefix(|r.data|, Checksum(Payload(r))) + p + suffix)
         == Err(ChecksumMismatch(Checksum(Payload(r)), Checksum(p)))
  {
    hide Decode, Le32, Le64;
    var damaged := PayloadOf(p);
    WindowDetected(ONES, p, Payload(r), i);
    var frame := Prefix(|r.data|, Checksum(Payload(r))) + p;
    assert (frame + suffix)[..|frame|] == frame;
    DecodeFrame(Checksum(Payload(r)), damaged, frame + suffix);
  }

  /** In particular any change of up to four consecutive bytes. */
  lemma FourByteDamage(r: Record, before: seq<u8>, x: seq<u8>, y: seq<u8>, after: seq<u8>, suffix: seq<u8>)
    requires r.Accepted() && Payload(r) == before + (x + after)
    requires |x| == |y| <= 4 && x != y
    ensures Decode(Prefix(|r.data|, Checksum(Payload(r))) + (before + (y + after)) + suffix)
         == Err(ChecksumMismatch(Checksum(Payload(r)), Checksum(before + (y + after))))
  {
    hide Decode, Le32, Le64;
    FourBytesAreAWindow(before, y, x, after);
    var i :| 0 <= i < |x| && x[i] != y[i];
    assert (before + (x + after))[|before| + i] != (before + (y + after))[|before| + i];
    PayloadDamage(r, before + (y + after), suffix, 8 * |before|);
  }

  /** Any change of the magic is reported. */
  lemma MagicDamage(r: Record, magic: seq<u8>, suffix: seq<u8>)
    requires |magic| == 4 && magic != Encode(r)[0..4]
    ensures Decode(magic + Encode(r)[4..] + suffix) == Err(InvalidMagic(FromLe32(magic)))
  {
    hide Checksum, Le32, Le64, FromLe32, FromLe64;
    Le32RoundTrip(RECORD_MAGIC, magic);
    assert Encode(r)[0..4] == Le32(RECORD_MAGIC);
    assert (magic + Encode(r)[4..] + suffix)[0..4] == magic;
  }

  // ---- Logs of records ----

  function EncodeAll(log: seq<Record>): seq<u8> { FlatMap(Encode, log) }

  ghost predicate AllAccepted(log: seq<Record>) { forall r | r in log :: r.Accepted() }

  /** Parsing a log yields its first record and leaves the rest. */
  lemma DecodeFirst(log: seq<Record>)
    requires log != [] && log[0].Accepted()
    ensures var n := log[0].SerializedSize();
            && n <= |EncodeAll(log)|
            && Decode(EncodeAll(log)) == Ok((log[0], n))
            && EncodeAll(log)[n..] == EncodeAll(log[1..])
  {
    hide Encode, Decode, Checksum;
    RoundTrip(log[0], EncodeAll(log[1..]));
  }

  /** A byte stream has at most one parse into records. */
  lemma {:induction false} UniqueParse(a: seq<Record>, b: seq<Record>)
    requires AllAccepted(a) && AllAccepted(b) && EncodeAll(a) == EncodeAll(b)
    ensures a == b
    decreases |a|
  {
    hide Encode, Decode, Checksum;
    if a != [] { DecodeFirst(a); }
    if b != [] { DecodeFirst(b); }
    if a != [] && b != [] {
      UniqueParse(a[1..], b[1..]);
      assert a == [a[0]] + a[1..] && b == [b[0]] + b[1..];
    }
  }

  /** Where record k of a log starts. */
  function Offset(log: seq<Record>, k: nat): nat
    requires k <= |log|
  {
    |EncodeAll(log[..k])|
  }

  lemma EncodeAllConcat(a: seq<Record>, b: seq<Record>)
    ensures EncodeAll(a + b) == EncodeAll(a) + EncodeAll(b)
  {
    hide Encode;
    FlatMapConcat(Encode, a, b);
  }

  lemma EncodeAllAppend(log: seq<Record>, r: Record)
    ensures EncodeAll(log + [r]) == EncodeAll(log) + Encode(r)
  {
    hide Encode;
    FlatMapAppend(Encode, log, r);
  }

  lemma OffsetStep(log: seq<Record>, k: nat)
    requires k < |log|
    ensures Offset(log, k + 1) == Offset(log, k) + log[k].SerializedSize()
  {
    hide Encode;
    assert log[..k + 1] == log[..k] + [log[k]];
    EncodeAllAppend(log[..k], log[k]);
  }

  lemma {:induction false} OffsetsIncrease(log: seq<Record>, j: nat, k: nat)
    requires j < k <= |log|
    ensures Offset(log, j) < Offset(log, k) <= |EncodeAll(log)|
    decreases k - j
  {
    hide Encode;
    OffsetStep(log, j);
    if j + 1 < k {
      OffsetsIncrease(log, j + 1, k);
    } else {
      assert log[..k] + log[k..] == log;
      EncodeAllConcat(log[..k], log[k..]);
    }
  }

  /** Record k of a log parses back from its offset, and stays put when the log grows. */
  lemma DecodeAt(log: seq<Record>, k: nat, more: seq<Record>)
    requires k < |log| && log[k].Accepted()
    ensures Offset(log, k) < |EncodeAll(log + more)|
    ensures Offset(log + more, k) == Offset(log, k)
    ensures Decode(EncodeAll(log + more)[Offset(log, k)..]) == Ok((log[k], log[k].SerializedSize()))
  {
    hide Encode, Decode;
    var before, rest := log[..k], log[k..] + more;
    assert log + more == before + rest;
    assert (log + more)[..k] == before;
    EncodeAllConcat(before, rest);
    DecodeFirst(rest);
  }
}
