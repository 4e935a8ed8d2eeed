/** A growing list of segments with rollover to a new one when a record no longer fits. */
module SegmentManagers {
  import opened Wrappers
  import opened Sequences
  import opened Records
  import opened Segments

  // ---- The logs of all segments, as values ----

  type Logs = seq<seq<Record>>

  function Fits(log: seq<Record>, size: nat, r: Record): bool {
    |EncodeAll(log)| + r.SerializedSize() <= size
  }

  /** One round of the append loop: the record goes to the last segment if it fits there, and
      otherwise a new segment is opened and the loop goes round again. */
  function Round(logs: Logs, size: nat, r: Record): (next: (Logs, bool))
    requires logs != []
    ensures next.0 != []
  {
    var last := |logs| - 1;
    if Fits(logs[last], size, r) then (logs[last := logs[last] + [r]], true) else (logs + [[]], false)
  }

  /** At most n rounds of the loop; the flag tells whether it has returned. */
  function Rounds(logs: Logs, size: nat, r: Record, n: nat): (end: (Logs, bool))
    requires logs != []
    ensures end.0 != []
    decreases n
  {
    if n == 0 then (logs, false)
    else
      var (next, done) := Round(logs, size, r);
      if done then (next, true) else Rounds(next, size, r, n - 1)
  }

  /** The loop returns exactly if the record fits an empty segment, and then within two rounds;
      otherwise every round opens one more segment. */
  lemma AppendReturnsIff(logs: Logs, size: nat, r: Record)
    requires logs != []
    ensures (exists n :: Rounds(logs, size, r, n).1) <==> r.SerializedSize() <= size
    ensures r.SerializedSize() <= size ==> Rounds(logs, size, r, 2) == (Appended(logs, size, r), true)
  {
    hide Encode;
    if r.SerializedSize() <= size {
      var next := Round(logs, size, r).0;
      OpenThenAppend(logs, r);
      assert Rounds(logs, size, r, 2) == (Appended(logs, size, r), true);
    } else {
      forall n ensures !Rounds(logs, size, r, n).1 {
        OversizedNeverReturns(logs, size, r, n);
      }
    }
  }

  lemma FitsEmpty(size: nat, r: Record)
    requires r.SerializedSize() <= size
    ensures Fits([], size, r)
  {}

  lemma OpenThenAppend(logs: Logs, r: Record)
    ensures var wider := logs + [[]];
            wider[|logs| := wider[|logs|] + [r]] == logs + [[r]]
  {
    assert (logs + [[]])[|logs|] + [r] == [r];
  }

  lemma {:induction false} OversizedNeverReturns(logs: Logs, size: nat, r: Record, n: nat)
    requires logs != [] && r.SerializedSize() > size
    ensures !Rounds(logs, size, r, n).1 && |Rounds(logs, size, r, n).0| == |logs| + n
    decreases n
  {
    hide Encode;
    if n > 0 {
      OversizedNeverReturns(logs + [[]], size, r, n - 1);
    }
  }

  /** What an append of a record that fits an empty segment leaves behind. */
  function Appended(logs: Logs, size: nat, r: Record): (next: Logs)
    requires logs != []
    ensures next != []
  {
    var last := |logs| - 1;
    if Fits(logs[last], size, r) then logs[last := logs[last] + [r]] else logs + [[r]]
  }

  function Flatten(logs: Logs): seq<Record> { FlatMap((log: seq<Record>) => log, logs) }

  /** No segment overflows, and none was left while the record that opened the next still fitted. */
  ghost predicate Tight(logs: Logs, size: nat) {
    && (forall i | 0 <= i < |logs| :: |EncodeAll(logs[i])| <= size)
    && (forall i | 0 < i < |logs| :: logs[i] != [] && !Fits(logs[i - 1], size, logs[i][0]))
  }

  lemma AppendedIsTight(logs: Logs, size: nat, r: Record)
    requires logs != [] && Tight(logs, size) && r.SerializedSize() <= size
    ensures Tight(Appended(logs, size, r), size)
  {
    hide Encode;
    EncodeAllAppend(logs[|logs| - 1], r);
    EncodeAllAppend([], r);
    assert [] + [r] == [r];
  }

  lemma AppendedHistory(logs: Logs, size: nat, r: Record)
    requires logs != []
    ensures Flatten(Appended(logs, size, r)) == Flatten(logs) + [r]
  {
    hide Encode, Fits;
    var id := (log: seq<Record>) => log;
    var last := |logs| - 1;
    var front, tail := logs[..last], logs[last];
    assert logs == front + [tail];
    FlatMapAppend(id, front, tail);
    FlatMapAppend(id, front, tail + [r]);
    FlatMapAppend(id, logs, [r]);
    assert logs[last := tail + [r]] == front + [tail + [r]];
  }

  /** The state after a whole run of appends to a new manager. */
  function RunOf(rs: seq<Record>, size: nat): (logs: Logs)
    ensures logs != []
  {
    if rs == [] then [[]] else Appended(RunOf(rs[..|rs| - 1], size), size, rs[|rs| - 1])
  }

  /** Reading all segments in order gives exactly the append history, and rollover wastes no
      room that the record at hand could have used. */
  lemma {:induction false} RunKeepsHistory(rs: seq<Record>, size: nat)
    requires forall r | r in rs :: r.SerializedSize() <= size
    ensures Flatten(RunOf(rs, size)) == rs && Tight(RunOf(rs, size), size)
  {
    hide Encode, Fits;
    if rs == [] {
      StartIsEmpty(size);
    } else {
      var front, r := rs[..|rs| - 1], rs[|rs| - 1];
      RunKeepsHistory(front, size);
      AppendedHistory(RunOf(front, size), size, r);
      AppendedIsTight(RunOf(front, size), size, r);
    }
  }

  lemma StartIsEmpty(size: nat)
    ensures Tight([[]], size) && Flatten([[]]) == []
  {
    var start: Logs := [[]];
    assert start[1..] == [];
  }

  // ---- Totals ----

  function TotalRecords(logs: Logs): nat {
    if logs == [] then 0 else TotalRecords(logs[..|logs| - 1]) + |logs[|logs| - 1]|
  }

  function TotalBytes(logs: Logs): nat {
    if logs == [] then 0 else TotalBytes(logs[..|logs| - 1]) + |EncodeAll(logs[|logs| - 1])|
  }

  lemma TotalsStep(logs: Logs, i: nat)
    requires i < |logs|
    ensures TotalRecords(logs[..i + 1]) == TotalRecords(logs[..i]) + |logs[i]|
    ensures TotalBytes(logs[..i + 1]) == TotalBytes(logs[..i]) + |EncodeAll(logs[i])|
  {
    hide Encode;
    assert logs[..i + 1][..i] == logs[..i];
  }

  /** The totals are those of the whole history. */
  lemma {:induction false} TotalsOfHistory(logs: Logs)
    ensures TotalRecords(logs) == |Flatten(logs)|
    ensures TotalBytes(logs) == |EncodeAll(Flatten(logs))|
  {
    hide Encode;
    if logs != [] {
      var front, last := logs[..|logs| - 1], logs[|logs| - 1];
      TotalsOfHistory(front);
      FlatMapAppend((log: seq<Record>) => log, front, last);
      assert logs == front + [last];
      EncodeAllConcat(Flatten(front), last);
    }
  }

  // ---- The manager ----

  class SegmentManager {
    const segmentSize: nat
    const indexEnabled: bool
    var segments: seq<RecordSegment>
    var current: RecordSegment

    ghost predicate Valid()
      reads this, segments, set s | s in segments :: s.mmap
    {
      && segments != []
      && current == segments[|segments| - 1]
      && (forall s | s in segments :: s.Valid() && s.maxSize == segmentSize && s.indexEnabled == indexEnabled)
      && (forall i, j | 0 <= i < j < |segments| :: segments[i] != segments[j] && segments[i].mmap != segments[j].mmap)
    }

    ghost function LogsOf(): Logs
      reads this, segments
    {
      seq(|segments|, i requires 0 <= i < |segments| reads this, segments => segments[i].log)
    }

    constructor (segmentSize: nat, indexEnabled: bool)
      ensures Valid() && LogsOf() == [[]]
      ensures this.segmentSize == segmentSize && this.indexEnabled == indexEnabled
      ensures fresh(segments) && fresh(current.mmap)
    {
      this.segmentSize, this.indexEnabled := segmentSize, indexEnabled;
      var first := new RecordSegment(segmentSize, indexEnabled);
      segments, current := [first], first;
    }

    /** Fast path, then slow path with its second look at the free space, until the record is in. */
    method AppendRecord(r: Record) returns (res: Result<RecordOffset, StorageError>)
      requires Valid() && r.SerializedSize() <= segmentSize
      modifies this, current, current.mmap
      ensures Valid()
      ensures LogsOf() == Appended(old(LogsOf()), segmentSize, r)
      ensures current.log != [] && res == Ok(ItemAt(current.log, |current.log| - 1).0)
    {
      hide Encode, Decode, EncodeAll, Flatten, Offset, Fits;
      ghost var logs := LogsOf();
      ghost var round := 0;
      FitsEmpty(segmentSize, r);
      while true
        invariant Valid() && round <= 1
        invariant LogsOf() == if round == 0 then logs else logs + [[]]
        invariant round == 1 ==> !Fits(logs[|logs| - 1], segmentSize, r)
        invariant if round == 0 then current == old(current) else fresh(current) && fresh(current.mmap)
        decreases 1 - round
      {
        RoomInCurrent(r);
        if current.HasSpace(r.SerializedSize()) {
          res := AppendToCurrent(r);
          OpenThenAppend(logs, r);
          return;
        }
        if !current.HasSpace(r.SerializedSize()) {
          CreateNewSegment();
          round := round + 1;
        }
      }
    }

    lemma RoomInCurrent(r: Record)
      requires Valid()
      ensures current.HasSpace(r.SerializedSize()) <==> Fits(LogsOf()[|segments| - 1], segmentSize, r)
    {
      hide Encode, Decode, EncodeAll;
      assert current.Valid() && |current.mmap[..current.writePos]| == |EncodeAll(current.log)|;
    }

    method AppendToCurrent(r: Record) returns (res: Result<RecordOffset, StorageError>)
      requires Valid() && current.HasSpace(r.SerializedSize())
      modifies current, current.mmap
      ensures Valid() && segments == old(segments) && current == old(current)
      ensures var logs := old(LogsOf());
              var last := |logs| - 1;
              LogsOf() == logs[last := logs[last] + [r]]
      ensures current.log != [] && res == Ok(ItemAt(current.log, |current.log| - 1).0)
    {
      hide Encode, Decode;
      ghost var last := |segments| - 1;
      res := current.AppendRecord(r);
      assert forall i | 0 <= i < last :: segments[i].log == old(segments[i].log);
    }

    method CreateNewSegment()
      requires Valid()
      modifies this
      ensures Valid()
      ensures fresh(current) && fresh(current.mmap)
      ensures segments == old(segments) + [current]
      ensures LogsOf() == old(LogsOf()) + [[]]
    {
      hide Encode, Decode;
      var segment := new RecordSegment(segmentSize, indexEnabled);
      segments := segments + [segment];
      current := segment;
    }

    method Stats() returns (segmentCount: nat, totalRecords: nat, totalBytes: nat)
      requires Valid()
      ensures segmentCount == |LogsOf()|
      ensures totalRecords == |Flatten(LogsOf())|
      ensures totalBytes == |EncodeAll(Flatten(LogsOf()))|
    {
      hide Encode, Decode;
      totalRecords, totalBytes := 0, 0;
      ghost var logs := LogsOf();
      for i := 0 to |segments|
        invariant totalRecords == TotalRecords(logs[..i]) && totalBytes == TotalBytes(logs[..i])
      {
        TotalsStep(logs, i);
        assert segments[i].Valid() && |segments[i].mmap[..segments[i].writePos]| == |EncodeAll(logs[i])|;
        totalRecords := totalRecords + segments[i].recordCount;
        totalBytes := totalBytes + segments[i].writePos;
      }
      assert logs[..|segments|] == logs;
      segmentCount := |segments|;
      TotalsOfHistory(logs);
    }
  }
}
