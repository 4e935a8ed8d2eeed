/** Concurrent appends of serialized records leave a segment that scans. */
module ConcurrentAppend {
  import opened Wrappers
  import opened Words
  import opened Records
  import opened Segments
  import Crc32
  import Reservation

  ghost predicate IsFrame(bytes: seq<u8>) { exists r: Record :: r.Accepted() && bytes == Encode(r) }

  ghost predicate OnlyFrames(granted: seq<Reservation.Grant>) { forall g | g in granted :: IsFrame(g.bytes) }

  lemma {:induction false} GrantsAreFrames(s: Reservation.State, actions: seq<Reservation.Action>)
    requires Reservation.IsRun(s, actions) && Reservation.Accounted(s) && OnlyFrames(s.granted)
    requires forall a | a in actions && a.Reserve? :: IsFrame(a.bytes)
    ensures OnlyFrames(Reservation.After(s, actions).granted)
    decreases |actions|
  {
    hide IsFrame;
    if actions != [] {
      var a := actions[0];
      assert Reservation.ThreadLinked(s, a.thread);
      Reservation.AccountedStep(s, a);
      GrantsAreFrames(Reservation.Apply(s, a), actions[1..]);
    }
  }

  /** The records of the log are those that the ranges hold, in order. */
  ghost predicate Holds(granted: seq<Reservation.Grant>, log: seq<Record>) {
    && |granted| == |log|
    && forall i | 0 <= i < |log| :: granted[i].bytes == Encode(log[i])
  }

  lemma {:induction false} HeldBytes(granted: seq<Reservation.Grant>, log: seq<Record>)
    requires Holds(granted, log)
    ensures Reservation.Contents(granted) == EncodeAll(log)
    decreases |log|
  {
    hide Encode;
    if log != [] {
      HeldBytes(granted[1..], log[1..]);
    }
  }

  lemma {:induction false} FramesAreALog(granted: seq<Reservation.Grant>) returns (log: seq<Record>)
    requires OnlyFrames(granted)
    ensures Holds(granted, log) && AllAccepted(log) && Reservation.Contents(granted) == EncodeAll(log)
    decreases |granted|
  {
    hide Encode;
    if granted == [] {
      log := [];
    } else {
      var r: Record :| r.Accepted() && granted[0].bytes == Encode(r);
      var rest := FramesAreALog(granted[1..]);
      log := [r] + rest;
      HeldBytes(granted, log);
    }
  }

  /** Any number of threads appending records whose largest serialized size is at most twice the
      smallest, in any interleaving: once none of them has a reservation, the used bytes are the log
      of the granted records in the order of their ranges, and a scan yields just these and ends. */
  lemma QuiescentSegmentScans(
    max: nat, n: nat, mem: seq<u8>, actions: seq<Reservation.Action>, sizes: set<nat>, lo: nat, hi: nat)
    returns (log: seq<Record>)
    requires Reservation.RunOfSizes(max, n, mem, actions, sizes)
    requires Reservation.Spans(sizes, lo, hi) && hi <= 2 * lo
    requires forall a | a in actions && a.Reserve? :: IsFrame(a.bytes)
    requires Reservation.Quiescent(Reservation.After(Reservation.Start(max, n, mem), actions))
    ensures var s := Reservation.After(Reservation.Start(max, n, mem), actions);
            && Holds(s.granted, log) && AllAccepted(log)
            && 0 <= s.writePos <= |s.mem| && s.mem[..s.writePos] == EncodeAll(log)
            && CursorAfter(EncodeAll(log), |log|) == s.writePos
            && forall k | 0 <= k < |log| ::
                 Advance(EncodeAll(log), Offset(log, k), s.writePos) == (Some(Ok(ItemAt(log, k))), Offset(log, k + 1))
  {
    hide Encode, Decode, CursorAfter, Advance, Offset, IsFrame;
    var start := Reservation.Start(max, n, mem);
    Reservation.RunWithinTwice(max, n, mem, actions, sizes, lo, hi);
    Reservation.StartAccounted(max, n, mem);
    GrantsAreFrames(start, actions);
    var s := Reservation.After(start, actions);
    log := FramesAreALog(s.granted);
    ScanOfLog(log, |log|);
    OffsetEnds(log);
    forall k | 0 <= k < |log|
      ensures Advance(EncodeAll(log), Offset(log, k), s.writePos) == (Some(Ok(ItemAt(log, k))), Offset(log, k + 1))
    {
      AdvanceAt(log, k);
    }
  }

  // ---- For which sizes every scan comes to an end ----

  /** A scan of the used bytes comes to an end. */
  ghost predicate Scannable(s: Reservation.State) {
    0 <= s.writePos <= |s.mem| && exists n :: CursorAfter(s.mem[..s.writePos], n) >= s.writePos
  }

  ghost predicate AppendsFrames(actions: seq<Reservation.Action>) {
    forall a | a in actions && a.Reserve? :: IsFrame(a.bytes)
  }

  /** A run on a new segment, which is all zeros, that ends with no reservation outstanding. */
  ghost predicate SettledRun(max: nat, n: nat, actions: seq<Reservation.Action>, sizes: set<nat>) {
    var zeros := Reservation.Zeros(max);
    && Reservation.RunOfSizes(max, n, zeros, actions, sizes) && AppendsFrames(actions)
    && Reservation.Quiescent(Reservation.After(Reservation.Start(max, n, zeros), actions))
  }

  ghost predicate AlwaysScannable(sizes: set<nat>) {
    forall max, n, actions | SettledRun(max, n, actions, sizes) ::
      Scannable(Reservation.After(Reservation.Start(max, n, Reservation.Zeros(max)), actions))
  }

  /** A record, zeros in place of a header, and anything behind them: the scan stops at the zeros. */
  lemma {:induction false} HoleStopsScan(large: Record, zeros: nat, rest: seq<u8>, n: nat)
    requires large.Accepted() && HEADER_SIZE <= zeros
    ensures CursorAfter(Encode(large) + Reservation.Zeros(zeros) + rest, n)
         == if n == 0 then 0 else |Encode(large)|
  {
    hide Encode, Decode;
    var used := Encode(large) + Reservation.Zeros(zeros) + rest;
    var behind := Reservation.Zeros(zeros) + rest;
    assert used == Encode(large) + behind;
    RoundTrip(large, behind);
    ZerosUnreadable(zeros, rest);
    assert used[|Encode(large)|..] == behind;
    assert used[0..] == used;
    if n > 0 {
      HoleStopsScan(large, zeros, rest, n - 1);
    }
  }

  lemma ZerosUnreadable(zeros: nat, rest: seq<u8>)
    requires HEADER_SIZE <= zeros
    ensures Decode(Reservation.Zeros(zeros) + rest).Err?
  {
    hide Crc32.Checksum;
    var bytes := Reservation.Zeros(zeros) + rest;
    Le32RoundTrip(RECORD_MAGIC, bytes[0..4]);
    assert bytes[0..4][0] == 0;
    assert Le32(RECORD_MAGIC)[0] == 0x0D;
  }

  /** For any set of serialized sizes: in every segment and after every interleaving that leaves no
      reservation outstanding a scan comes to an end, exactly if the largest size is at most twice the
      smallest.  Then it yields just the granted records (`QuiescentSegmentScans`). */
  lemma ScannableIff(sizes: set<nat>, lo: nat, hi: nat)
    requires Reservation.Spans(sizes, lo, hi) && HEADER_SIZE <= lo && hi <= HEADER_SIZE + MAX_RECORD_SIZE
    ensures AlwaysScannable(sizes) <==> hi <= 2 * lo
  {
    hide Encode, Reservation.IsRun, Reservation.After, CursorAfter, Reservation.Start, IsFrame;
    if hi <= 2 * lo {
      forall max, n, actions | SettledRun(max, n, actions, sizes)
        ensures Scannable(Reservation.After(Reservation.Start(max, n, Reservation.Zeros(max)), actions))
      {
        var log := QuiescentSegmentScans(max, n, Reservation.Zeros(max), actions, sizes, lo, hi);
      }
    } else {
      var small := Record(0, Reservation.Zeros(lo - HEADER_SIZE));
      var large := Record(0, Reservation.Zeros(hi - HEADER_SIZE));
      var actions := HoleRun(sizes, lo, hi, small, large);
    }
  }

  /** Otherwise the bytes behind a large record can stay unwritten. */
  lemma HoleRun(sizes: set<nat>, lo: nat, hi: nat, small: Record, large: Record)
    returns (actions: seq<Reservation.Action>)
    requires lo in sizes && hi in sizes && 2 * lo < hi
    requires small.Accepted() && large.Accepted() && small.SerializedSize() == lo && large.SerializedSize() == hi
    ensures SettledRun(hi + 2 * lo, 5, actions, sizes)
    ensures !Scannable(Reservation.After(Reservation.Start(hi + 2 * lo, 5, Reservation.Zeros(hi + 2 * lo)), actions))
  {
    hide Encode, Reservation.IsRun, Reservation.After, CursorAfter, Reservation.Start, Reservation.Overtaking,
      Reservation.Settling;
    var zeros := Reservation.Zeros(hi + 2 * lo);
    actions := Reservation.MixedSizesLeaveHole(lo, hi, zeros, Encode(small), Encode(large));
    forall a | a in actions && a.Reserve? ensures |a.bytes| in sizes && IsFrame(a.bytes) {
      Reservation.OverlapReserves(Encode(small), Encode(large), a);
    }
    var end := Reservation.After(Reservation.Start(hi + 2 * lo, 5, zeros), actions);
    HoleIsUnscannable(end, lo, hi, small, large);
  }

  lemma HoleIsUnscannable(s: Reservation.State, lo: nat, hi: nat, small: Record, large: Record)
    requires large.Accepted() && small.SerializedSize() == lo && large.SerializedSize() == hi
    requires s.writePos == hi + 2 * lo
    requires s.mem == Encode(large) + Reservation.Zeros(hi + 2 * lo)[hi..hi + lo] + Encode(small)
    ensures !Scannable(s)
  {
    hide Encode, CursorAfter;
    assert Reservation.Zeros(hi + 2 * lo)[hi..hi + lo] == Reservation.Zeros(lo);
    assert s.mem[..s.writePos] == s.mem;
    if Scannable(s) {
      var n :| CursorAfter(s.mem[..s.writePos], n) >= s.writePos;
      HoleStopsScan(large, lo, Encode(small), n);
    }
  }
}
