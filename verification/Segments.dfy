/** One append-only segment: a byte buffer, its write position, its optional index, the reads and
    the scanning iterator. */
module Segments {
  import opened Wrappers
  import opened Words
  import opened Records

  datatype StorageError =
    | SegmentFull(needed: nat, available: nat)
    | RecordFailed(cause: RecordError)
    | OffsetOutOfBounds(offset: nat)
    | InvalidState

  datatype RecordOffset = RecordOffset(offset: nat, size: nat)

  datatype IndexEntry = IndexEntry(recordNum: nat, offset: nat, size: nat, timestamp: u64)

  type Item = Result<(RecordOffset, Record), StorageError>

  // ---- What reads and scans make of the used bytes ----

  /** A read at any offset parses whatever follows it, up to the write position. */
  function ReadAt(used: seq<u8>, offset: nat): Result<Record, StorageError> {
    if offset >= |used| then
      Err(OffsetOutOfBounds(offset))
    else
      match Decode(used[offset..])
      case Ok(parsed) => Ok(parsed.0)
      case Err(e) => Err(RecordFailed(e))
  }

  /** One call of the iterator: what it yields and where it stands afterwards. */
  function Advance(used: seq<u8>, cursor: nat, end: nat): (Option<Item>, nat) {
    if cursor >= end then
      (None, cursor)
    else
      match ReadAt(used, cursor)
      case Ok(r) => (Some(Ok((RecordOffset(cursor, r.SerializedSize()), r))), cursor + r.SerializedSize())
      case Err(e) => (Some(Err(e)), cursor)
  }

  /** Record k of a log, together with where it lies. */
  function ItemAt(log: seq<Record>, k: nat): (RecordOffset, Record)
    requires k < |log|
  {
    (RecordOffset(Offset(log, k), log[k].SerializedSize()), log[k])
  }

  /** A record keeps being read from the offset its append returned, whatever is appended later. */
  lemma ReadBack(log: seq<Record>, k: nat, more: seq<Record>)
    requires k < |log| && log[k].Accepted()
    ensures ReadAt(EncodeAll(log + more), Offset(log, k)) == Ok(log[k])
  {
    hide Encode, Decode;
    DecodeAt(log, k, more);
  }

  /** Whatever is read, at whatever offset, is acceptable and lies there in full. */
  lemma ReadIsCanonical(used: seq<u8>, offset: nat)
    requires ReadAt(used, offset).Ok?
    ensures var r := ReadAt(used, offset).value;
            var end := offset + r.SerializedSize();
            r.Accepted() && end <= |used| && used[offset..end] == Encode(r)
  {
    hide Encode, Decode;
    var (r, n) := Decode(used[offset..]).value;
    DecodedFields(used[offset..]);
    DecodeExactly(used[offset..], r, n);
  }

  /** A read fails behind the used bytes, with the offset that was asked for, and otherwise exactly where
      no record can be parsed, with the reason. */
  lemma ReadFails(used: seq<u8>, offset: nat)
    ensures ReadAt(used, offset) == Err(OffsetOutOfBounds(offset)) <==> offset >= |used|
    ensures forall e :: offset < |used| ==>
                          (ReadAt(used, offset) == Err(RecordFailed(e)) <==> Decode(used[offset..]) == Err(e))
  {
    hide Decode;
  }

  lemma AdvanceAt(log: seq<Record>, k: nat)
    requires k < |log| && log[k].Accepted()
    ensures var used := EncodeAll(log);
            Advance(used, Offset(log, k), |used|) == (Some(Ok(ItemAt(log, k))), Offset(log, k + 1))
  {
    hide Encode, Decode;
    assert log + [] == log;
    DecodeAt(log, k, []);
    OffsetStep(log, k);
  }

  lemma OffsetEnds(log: seq<Record>)
    ensures Offset(log, 0) == 0 && Offset(log, |log|) == |EncodeAll(log)|
  {
    assert log[..|log|] == log;
  }

  // ---- When a scan comes to an end ----

  /** The cursor after n calls of the iterator. */
  function CursorAfter(used: seq<u8>, n: nat): nat {
    if n == 0 then 0 else Advance(used, CursorAfter(used, n - 1), |used|).1
  }

  /** After an unreadable position the iterator yields the same error forever. */
  lemma {:induction false} StuckOnError(used: seq<u8>, n: nat, m: nat)
    requires CursorAfter(used, n) < |used| && ReadAt(used, CursorAfter(used, n)).Err?
    ensures CursorAfter(used, n + m) == CursorAfter(used, n)
    ensures Advance(used, CursorAfter(used, n + m), |used|).0 == Some(Err(ReadAt(used, CursorAfter(used, n)).error))
  {
    hide Decode;
    if m > 0 {
      StuckOnError(used, n, m - 1);
    }
  }

  /** The bytes are those of some sequence of acceptable records. */
  ghost predicate WellFormed(used: seq<u8>) {
    exists log :: AllAccepted(log) && EncodeAll(log) == used
  }

  lemma {:induction false} ScanOfLog(log: seq<Record>, n: nat)
    requires AllAccepted(log) && n <= |log|
    ensures CursorAfter(EncodeAll(log), n) == Offset(log, n)
  {
    hide Encode, Decode;
    if n > 0 {
      ScanOfLog(log, n - 1);
      AdvanceAt(log, n - 1);
    }
  }

  /** What the iterator has passed without error is a log. */
  lemma {:induction false} PassedIsLog(used: seq<u8>, n: nat) returns (log: seq<Record>)
    ensures CursorAfter(used, n) <= |used|
    ensures AllAccepted(log) && EncodeAll(log) == used[..CursorAfter(used, n)]
  {
    hide Encode, Decode;
    if n == 0 {
      log := [];
    } else {
      log := PassedIsLog(used, n - 1);
      var at, next := CursorAfter(used, n - 1), CursorAfter(used, n);
      if next != at {
        var r := ReadAt(used, at).value;
        ReadIsCanonical(used, at);
        assert used[..next] == used[..at] + used[at..next];
        EncodeAllAppend(log, r);
        log := log + [r];
      }
    }
  }

  /** A scan of a segment comes to an end exactly if its used bytes are well formed. */
  lemma ScanEndsIffWellFormed(used: seq<u8>)
    ensures (exists n :: CursorAfter(used, n) >= |used|) <==> WellFormed(used)
  {
    hide Encode, Decode;
    if WellFormed(used) {
      var log :| AllAccepted(log) && EncodeAll(log) == used;
      ScanOfLog(log, |log|);
      OffsetEnds(log);
      assert CursorAfter(used, |log|) >= |used|;
    }
    if n :| CursorAfter(used, n) >= |used| {
      var log := PassedIsLog(used, n);
      assert used[..|used|] == used;
    }
  }

  // ---- The segment ----

  /** The index has one entry per record, numbered in order, under the record's offset. */
  ghost predicate Indexes(index: map<nat, IndexEntry>, log: seq<Record>) {
    && (forall k | 0 <= k < |log| :: Offset(log, k) in index && index[Offset(log, k)] == EntryAt(log, k))
    && (forall o | o in index :: index[o].offset == o && index[o].recordNum < |log|
                                 && Offset(log, index[o].recordNum) == o)
  }

  function EntryAt(log: seq<Record>, k: nat): IndexEntry
    requires k < |log|
  {
    IndexEntry(k, Offset(log, k), log[k].SerializedSize(), log[k].timestamp)
  }

  lemma IndexGrows(index: map<nat, IndexEntry>, log: seq<Record>, r: Record)
    requires Indexes(index, log)
    ensures Offset(log + [r], |log|) == |EncodeAll(log)|
    ensures Indexes(index[|EncodeAll(log)| := EntryAt(log + [r], |log|)], log + [r])
  {
    hide Encode;
    var longer, at := log + [r], |EncodeAll(log)|;
    assert longer[..|log|] == log;
    forall k | 0 <= k < |log|
      ensures Offset(longer, k) == Offset(log, k) && Offset(log, k) < at && EntryAt(longer, k) == EntryAt(log, k)
    {
      assert longer[..k] == log[..k];
      OffsetsIncrease(log, k, |log|);
      OffsetEnds(log);
    }
  }

  /** Every entry of the index describes the record that a read at its offset gives. */
  lemma IndexDescribes(index: map<nat, IndexEntry>, log: seq<Record>, o: nat)
    requires Indexes(index, log) && AllAccepted(log) && o in index
    ensures var read := ReadAt(EncodeAll(log), o);
            && read.Ok? && index[o].offset == o && index[o].size == read.value.SerializedSize()
            && index[o].timestamp == read.value.timestamp
            && CursorAfter(EncodeAll(log), index[o].recordNum) == o
  {
    hide Encode, Decode, EncodeAll, ReadAt, CursorAfter;
    var k := index[o].recordNum;
    assert log + [] == log;
    ReadBack(log, k, []);
    ScanOfLog(log, k);
  }

  class RecordSegment {
    const maxSize: nat
    const indexEnabled: bool
    const mmap: array<u8>
    var writePos: nat
    var recordCount: nat
    var index: map<nat, IndexEntry>

    /** The records appended so far. */
    ghost var log: seq<Record>

    ghost predicate Valid()
      reads this, mmap
    {
      && mmap.Length == maxSize
      && writePos <= maxSize
      && mmap[..writePos] == EncodeAll(log)
      && recordCount == |log|
      && (if indexEnabled then Indexes(index, log) else index == map[])
    }

    constructor (maxSize: nat, indexEnabled: bool)
      ensures Valid() && log == [] && fresh(mmap)
      ensures this.maxSize == maxSize && this.indexEnabled == indexEnabled
    {
      this.maxSize, this.indexEnabled := maxSize, indexEnabled;
      mmap := new u8[maxSize];
      writePos, recordCount, index, log := 0, 0, map[], [];
    }

    predicate HasSpace(size: nat)
      reads this
    {
      writePos + size <= maxSize
    }

    /** Reserve, test, roll back or write, count, index. */
    method AppendRecord(r: Record) returns (res: Result<RecordOffset, StorageError>)
      requires Valid()
      modifies this, mmap
      ensures Valid()
      ensures res.Ok? <==> |EncodeAll(old(log))| + r.SerializedSize() <= maxSize
      ensures res.Ok? ==> log == old(log) + [r] && res.value == ItemAt(log, |old(log)|).0
      ensures res.Err? ==> log == old(log) && writePos == old(writePos) && mmap[..] == old(mmap[..])
      ensures res.Err? ==> res.error == SegmentFull(r.SerializedSize(), maxSize - |EncodeAll(log)|)
    {
      hide Encode, Decode;
      var framed := Serialize(r);
      var size := |framed|;
      var offset := writePos;
      writePos := writePos + size;
      if offset + size > maxSize {
        writePos := writePos - size;
        return Err(SegmentFull(size, maxSize - offset));
      }
      ghost var before := mmap[..offset];
      forall i | 0 <= i < size {
        mmap[offset + i] := framed[i];
      }
      assert mmap[..writePos] == before + framed;
      EncodeAllAppend(log, r);
      var recordNum := recordCount;
      recordCount := recordCount + 1;
      assert (log + [r])[..|log|] == log;
      if indexEnabled {
        IndexGrows(index, log, r);
        index := index[offset := IndexEntry(recordNum, offset, size, r.timestamp)];
      }
      log := log + [r];
      res := Ok(RecordOffset(offset, size));
    }

    method ReadRecord(offset: nat) returns (res: Result<Record, StorageError>)
      requires Valid()
      ensures res == ReadAt(EncodeAll(log), offset)
    {
      res := ReadAt(mmap[..writePos], offset);
    }

    method ReadRecordByNum(recordNum: nat) returns (res: Result<Record, StorageError>)
      requires Valid()
      ensures !indexEnabled ==> res == Err(InvalidState)
      ensures indexEnabled && recordNum < |log| ==> res == ReadAt(EncodeAll(log), Offset(log, recordNum))
      ensures indexEnabled && recordNum < |log| && log[recordNum].Accepted() ==> res == Ok(log[recordNum])
      ensures indexEnabled && recordNum >= |log| ==> res == Err(OffsetOutOfBounds(recordNum))
    {
      hide Encode, Decode;
      if !indexEnabled {
        return Err(InvalidState);
      }
      var keys := index.Keys;
      while keys != {}
        invariant keys <= index.Keys
        invariant recordNum < |log| ==> Offset(log, recordNum) in keys
        decreases |keys|
      {
        var key :| key in keys;
        if index[key].recordNum == recordNum {
          res := ReadRecord(index[key].offset);
          if recordNum < |log| && log[recordNum].Accepted() {
            ReadBack(log, recordNum, []);
            assert log + [] == log;
          }
          return;
        }
        keys := keys - {key};
      }
      res := Err(OffsetOutOfBounds(recordNum));
    }

    method IterRecords() returns (it: RecordIterator)
      requires Valid()
      ensures fresh(it) && it.segment == this && it.currentOffset == 0 && it.endOffset == writePos
    {
      it := new RecordIterator(this, writePos);
    }
  }

  class RecordIterator {
    const segment: RecordSegment
    var currentOffset: nat
    const endOffset: nat

    constructor (segment: RecordSegment, end: nat)
      ensures this.segment == segment && currentOffset == 0 && endOffset == end
    {
      this.segment, currentOffset, endOffset := segment, 0, end;
    }

    method Next() returns (item: Option<Item>)
      requires segment.Valid()
      modifies this
      ensures (item, currentOffset) == Advance(EncodeAll(segment.log), old(currentOffset), endOffset)
    {
      hide Encode, Decode;
      if currentOffset >= endOffset {
        return None;
      }
      var offset := currentOffset;
      var read := segment.ReadRecord(offset);
      match read {
        case Ok(record) =>
          var size := record.SerializedSize();
          currentOffset := currentOffset + size;
          item := Some(Ok((RecordOffset(offset, size), record)));
        case Err(e) =>
          item := Some(Err(e));
      }
    }
  }

  function Items(log: seq<Record>): (items: seq<(RecordOffset, Record)>) {
    seq(|log|, k requires 0 <= k < |log| => ItemAt(log, k))
  }

  /** The `for` loop over a segment: it ends, meets no error, and yields every record in order
      with the offset its append returned. */
  method CollectAll(segment: RecordSegment) returns (items: seq<(RecordOffset, Record)>)
    requires segment.Valid() && AllAccepted(segment.log)
    ensures items == Items(segment.log)
  {
    hide Encode, Decode;
    var it := segment.IterRecords();
    ghost var log := segment.log;
    OffsetEnds(log);
    items := [];
    while true
      invariant segment.Valid() && segment.log == log && it.segment == segment
      invariant it.endOffset == |EncodeAll(log)|
      invariant |items| <= |log| && items == Items(log)[..|items|]
      invariant it.currentOffset == Offset(log, |items|)
      decreases |log| - |items|
    {
      if |items| < |log| {
        AdvanceAt(log, |items|);
        OffsetsIncrease(log, |items|, |log|);
      }
      var item := it.Next();
      match item {
        case None => break;
        case Some(Ok(found)) => items := items + [found];
        case Some(Err(_)) => assert false;
      }
    }
  }
}
