/** Copying the live records of one segment, or all records of several, into a new segment. */
module Compaction {
  import opened Wrappers
  import opened Sequences
  import opened Records
  import opened Segments
  import opened SegmentManagers

  datatype CompactionError = StorageFailed(cause: StorageError) | InProgress

  /** The records that the policy keeps, in order. */
  function Kept(log: seq<Record>, keep: Record -> bool): seq<Record> {
    FlatMap((r: Record) => if keep(r) then [r] else [], log)
  }

  lemma KeptAppend(log: seq<Record>, k: nat, keep: Record -> bool)
    requires k < |log|
    ensures Kept(log[..k + 1], keep) == Kept(log[..k], keep) + (if keep(log[k]) then [log[k]] else [])
  {
    FlatMapAppend((r: Record) => if keep(r) then [r] else [], log[..k], log[k]);
    assert log[..k] + [log[k]] == log[..k + 1];
  }

  /** The kept records are those that the policy wants, as often as they are there. */
  lemma {:induction false} KeptMembers(log: seq<Record>, keep: Record -> bool, r: Record)
    ensures multiset(Kept(log, keep))[r] == if keep(r) then multiset(log)[r] else 0
    decreases |log|
  {
    hide Kept;
    if log == [] {
      NothingKept(log, [], keep);
      assert log[..0] == log;
    } else {
      var front, last := log[..|log| - 1], log[|log| - 1];
      KeptMembers(front, keep, r);
      KeptAppend(log, |log| - 1, keep);
      assert log[..|log|] == log == front + [last];
      OneMoreMember(front, last, r);
      OneMoreMember(Kept(front, keep), last, r);
      assert Kept(front, keep) + [] == Kept(front, keep);
    }
  }

  lemma OneMoreMember(log: seq<Record>, last: Record, r: Record)
    ensures multiset(log + [last])[r] == multiset(log)[r] + (if last == r then 1 else 0)
  {}

  /** A policy that keeps all records of a log, such as the shipped one, keeps the log. */
  lemma {:induction false} KeepAll(log: seq<Record>, keep: Record -> bool)
    requires forall r | r in log :: keep(r)
    ensures Kept(log, keep) == log
    ensures EncodeAll(Kept(log, keep)) == EncodeAll(log)
    decreases |log|
  {
    hide Encode;
    if log != [] {
      KeepAll(log[..|log| - 1], keep);
      KeptAppend(log, |log| - 1, keep);
      assert log[..|log|] == log == log[..|log| - 1] + [log[|log| - 1]];
    }
  }

  lemma KeptStep(log: seq<Record>, k: nat, keep: Record -> bool)
    requires k < |log|
    ensures |EncodeAll(Kept(log[..k + 1], keep))|
         == |EncodeAll(Kept(log[..k], keep))| + (if keep(log[k]) then log[k].SerializedSize() else 0)
  {
    hide Encode;
    KeptAppend(log, k, keep);
    if keep(log[k]) {
      EncodeAllAppend(Kept(log[..k], keep), log[k]);
    } else {
      assert Kept(log[..k], keep) + [] == Kept(log[..k], keep);
    }
  }

  lemma {:induction false} KeptGrows(log: seq<Record>, keep: Record -> bool, j: nat, k: nat)
    requires j <= k <= |log|
    ensures |EncodeAll(Kept(log[..j], keep))| <= |EncodeAll(Kept(log[..k], keep))|
    decreases k - j
  {
    hide Encode, Kept;
    if j < k {
      KeptStep(log, j, keep);
      KeptGrows(log, keep, j + 1, k);
    }
  }

  // ---- The in-progress flag over many compactions ----

  /** One compaction: whether it succeeds, and the flag it leaves.  A failed copy leaves the flag
      set, because the error return skips the line that clears it. */
  function Attempt(inProgress: bool, fits: bool): (outcome: (bool, bool)) {
    if inProgress then (false, true) else if fits then (true, false) else (false, true)
  }

  function FlagAfter(inProgress: bool, fits: seq<bool>): bool {
    if fits == [] then inProgress
    else Attempt(FlagAfter(inProgress, fits[..|fits| - 1]), fits[|fits| - 1]).1
  }

  /** So the i-th compaction of a manager succeeds exactly if it and all before it fit: after the
      first failure the manager refuses every later one. */
  lemma {:induction false} SucceedsIffNoneFailedYet(fits: seq<bool>, i: nat)
    requires i < |fits|
    ensures Attempt(FlagAfter(false, fits[..i]), fits[i]).0 <==> forall j | 0 <= j <= i :: fits[j]
    ensures FlagAfter(false, fits[..i]) <==> exists j :: 0 <= j < i && !fits[j]
  {
    if i > 0 {
      SucceedsIffNoneFailedYet(fits, i - 1);
      assert fits[..i][..i - 1] == fits[..i - 1];
    }
  }

  // ---- The copying loop ----

  /** Appends the kept records of a segment to another, up to the first that does not fit. */
  method CopyKept(segment: RecordSegment, target: RecordSegment, keep: Record -> bool)
    returns (failure: Option<StorageError>, skipped: nat, saved: nat)
    requires segment.Valid() && target.Valid() && segment != target && segment.mmap != target.mmap
    requires AllAccepted(segment.log)
    modifies target, target.mmap
    ensures target.Valid()
    ensures failure.None? <==>
            |EncodeAll(old(target.log))| + |EncodeAll(Kept(segment.log, keep))| <= target.maxSize
    ensures failure.None? ==> target.log == old(target.log) + Kept(segment.log, keep)
    ensures failure.None? ==> skipped + |Kept(segment.log, keep)| == |segment.log|
    ensures failure.None? ==> saved + |EncodeAll(Kept(segment.log, keep))| == |EncodeAll(segment.log)|
    ensures failure.Some? ==> failure.value.SegmentFull?
  {
    hide Encode, Decode, Kept, EncodeAll, Offset;
    ghost var log, start := segment.log, target.log;
    var it := segment.IterRecords();
    ghost var k := 0;
    skipped, saved := 0, 0;
    OffsetEnds(log);
    NothingKept(log, start, keep);
    while true
      invariant segment.Valid() && segment.log == log && it.segment == segment && fresh(it)
      invariant target.Valid() && k <= |log|
      invariant it.endOffset == |EncodeAll(log)| && it.currentOffset == Offset(log, k)
      invariant target.log == start + Kept(log[..k], keep)
      invariant |EncodeAll(target.log)| == |EncodeAll(start)| + |EncodeAll(Kept(log[..k], keep))|
      invariant |EncodeAll(target.log)| <= target.maxSize
      invariant skipped + |Kept(log[..k], keep)| == k
      invariant saved + |EncodeAll(Kept(log[..k], keep))| == Offset(log, k)
      decreases |log| - k
    {
      if k < |log| {
        AdvanceAt(log, k);
        OffsetsIncrease(log, k, |log|);
        OffsetStep(log, k);
        KeptAppend(log, k, keep);
        KeptStep(log, k, keep);
      }
      var item := it.Next();
      match item {
        case None => break;
        case Some(Ok(found)) =>
          if keep(found.1) {
            EncodeAllAppend(target.log, found.1);
            var appended := target.AppendRecord(found.1);
            if appended.Err? {
              KeptGrows(log, keep, k + 1, |log|);
              assert log[..|log|] == log;
              return Some(appended.error), 0, 0;
            }
          } else {
            skipped := skipped + 1;
            saved := saved + found.0.size;
          }
          k := k + 1;
        case Some(Err(_)) => assert false;
      }
    }
    assert log[..|log|] == log;
    failure := None;
  }

  lemma NothingKept(log: seq<Record>, start: seq<Record>, keep: Record -> bool)
    ensures Kept(log[..0], keep) == [] && start + Kept(log[..0], keep) == start && EncodeAll([]) == []
  {}

  /** If the policy keeps all records of a segment, its copy has the same used bytes. */
  lemma SameIfAllKept(a: RecordSegment, b: RecordSegment, keep: Record -> bool)
    requires a.Valid() && b.Valid() && b.log == Kept(a.log, keep)
    ensures (forall r | r in a.log :: keep(r)) ==>
              a.writePos == b.writePos && a.mmap[..a.writePos] == b.mmap[..b.writePos] && b.log == a.log
  {
    hide Encode, EncodeAll, Kept;
    if forall r | r in a.log :: keep(r) {
      KeepAll(a.log, keep);
      assert |a.mmap[..a.writePos]| == |b.mmap[..b.writePos]|;
    }
  }

  class CompactionManager {
    const targetSize: nat
    const keep: Record -> bool
    var inProgress: bool
    var totalCompactions: nat
    var bytesReclaimed: nat
    var recordsRemoved: nat

    constructor (targetSize: nat, keep: Record -> bool)
      ensures this.targetSize == targetSize && this.keep == keep
      ensures !inProgress && totalCompactions == bytesReclaimed == recordsRemoved == 0
    {
      this.targetSize, this.keep := targetSize, keep;
      inProgress, totalCompactions, bytesReclaimed, recordsRemoved := false, 0, 0, 0;
    }

    method CompactSegment(segment: RecordSegment) returns (res: Result<RecordSegment, CompactionError>)
      requires segment.Valid() && AllAccepted(segment.log)
      modifies this
      ensures (res.Ok?, inProgress)
           == Attempt(old(inProgress), |EncodeAll(Kept(segment.log, keep))| <= targetSize)
      ensures old(inProgress) ==> res == Err(InProgress)
      ensures res.Ok? ==>
                && res.value.Valid() && fresh(res.value) && fresh(res.value.mmap)
                && res.value.log == Kept(segment.log, keep)
                && res.value.maxSize == targetSize && res.value.indexEnabled == segment.indexEnabled
      ensures res.Ok? && (forall r | r in segment.log :: keep(r)) ==>
                && res.value.writePos == segment.writePos
                && res.value.mmap[..res.value.writePos] == segment.mmap[..segment.writePos]
                && recordsRemoved == old(recordsRemoved) && bytesReclaimed == old(bytesReclaimed)
      ensures res.Ok? ==>
                && totalCompactions == old(totalCompactions) + 1
                && recordsRemoved + |Kept(segment.log, keep)| == old(recordsRemoved) + |segment.log|
                && bytesReclaimed + |EncodeAll(Kept(segment.log, keep))|
                   == old(bytesReclaimed) + |EncodeAll(segment.log)|
      ensures res.Err? ==>
                && totalCompactions == old(totalCompactions)
                && recordsRemoved == old(recordsRemoved) && bytesReclaimed == old(bytesReclaimed)
      ensures res.Err? && !old(inProgress) ==> res.error.StorageFailed? && res.error.cause.SegmentFull?
    {
      hide Encode, Decode, Kept, EncodeAll;
      if inProgress {
        return Err(InProgress);
      }
      inProgress := true;
      var target := new RecordSegment(targetSize, segment.indexEnabled);
      NothingKept(segment.log, [], keep);
      assert [] + Kept(segment.log, keep) == Kept(segment.log, keep);
      var failure, skipped, saved := CopyKept(segment, target, keep);
      if failure.Some? {
        return Err(StorageFailed(failure.value));
      }
      totalCompactions := totalCompactions + 1;
      bytesReclaimed := bytesReclaimed + saved;
      recordsRemoved := recordsRemoved + skipped;
      inProgress := false;
      SameIfAllKept(segment, target, keep);
      res := Ok(target);
    }
  }

  // ---- Merging ----

  ghost function LogsOfAll(segments: seq<RecordSegment>): Logs
    reads segments
  {
    seq(|segments|, i requires 0 <= i < |segments| reads segments => segments[i].log)
  }

  /** The merged segment holds all records of the inputs, in argument order, and merging succeeds
      exactly if they fit together. */
  method MergeSegments(segments: seq<RecordSegment>, targetSize: nat, indexEnabled: bool)
    returns (res: Result<RecordSegment, CompactionError>)
    requires forall s | s in segments :: s.Valid() && AllAccepted(s.log)
    ensures res.Ok? <==> |EncodeAll(Flatten(LogsOfAll(segments)))| <= targetSize
    ensures res.Ok? ==>
              && res.value.Valid() && fresh(res.value) && fresh(res.value.mmap)
              && res.value.log == Flatten(LogsOfAll(segments))
              && res.value.maxSize == targetSize && res.value.indexEnabled == indexEnabled
    ensures res.Err? ==> res.error.StorageFailed? && res.error.cause.SegmentFull?
  {
    hide Encode, Decode, Kept, Flatten, EncodeAll;
    ghost var logs := LogsOfAll(segments);
    var merged := new RecordSegment(targetSize, indexEnabled);
    FlattenSteps(logs, 0);
    for i := 0 to |segments|
      invariant merged.Valid() && fresh(merged) && fresh(merged.mmap)
      invariant merged.maxSize == targetSize && merged.indexEnabled == indexEnabled
      invariant forall s | s in segments :: s.Valid() && AllAccepted(s.log)
      invariant LogsOfAll(segments) == logs
      invariant merged.log == Flatten(logs[..i])
    {
      assert segments[i].log == logs[i];
      FlattenSteps(logs, i);
      KeepAll(logs[i], _ => true);
      var failure, _, _ := CopyKept(segments[i], merged, _ => true);
      if failure.Some? {
        return Err(StorageFailed(failure.value));
      }
    }
    assert logs[..|segments|] == logs;
    assert merged.Valid() && |merged.mmap[..merged.writePos]| == |EncodeAll(merged.log)|;
    res := Ok(merged);
  }

  lemma FlattenSteps(logs: Logs, i: nat)
    requires i <= |logs|
    ensures Flatten(logs[..0]) == []
    ensures i < |logs| ==> Flatten(logs[..i + 1]) == Flatten(logs[..i]) + logs[i]
    ensures i < |logs| ==> |EncodeAll(Flatten(logs))| >= |EncodeAll(Flatten(logs[..i]))| + |EncodeAll(logs[i])|
  {
    hide Encode;
    var id := (log: seq<Record>) => log;
    if i < |logs| {
      assert logs[..i] + [logs[i]] == logs[..i + 1];
      FlatMapAppend(id, logs[..i], logs[i]);
      assert logs[..i + 1] + logs[i + 1..] == logs;
      FlatMapConcat(id, logs[..i + 1], logs[i + 1..]);
      EncodeAllConcat(Flatten(logs[..i + 1]), Flatten(logs[i + 1..]));
      EncodeAllConcat(Flatten(logs[..i]), logs[i]);
    }
  }
}
