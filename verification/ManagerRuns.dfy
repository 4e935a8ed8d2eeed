/** What runs of the segment manager leave behind: what a scan of all segments finds, and when a
    segment is abandoned with room to spare. */
module ManagerRuns {
  import opened Wrappers
  import opened Sequences
  import opened Records
  import opened Segments
  import opened Rollover
  import ConcurrentAppend
  import R = Reservation

  // ---- Sizes in the segments ----

  ghost predicate AllWithin(s: State, lo: nat, hi: nat) {
    forall k | 0 <= k < |s.segments| :: R.Within(s.segments[k].state, lo, hi)
  }

  ghost predicate AllGood(s: State, lo: nat, hi: nat) {
    forall k | 0 <= k < |s.segments| :: R.Good(s.segments[k].state, lo, hi)
  }

  lemma FreshIsGood(id: nat, max: nat, threads: nat, lo: nat, hi: nat)
    ensures R.Good(FreshSegment(id, max, threads).state, lo, hi)
    ensures R.Within(FreshSegment(id, max, threads).state, lo, hi)
  {
    R.StartGood(max, threads, R.Zeros(max), lo, hi);
    R.GoodMeans(FreshSegment(id, max, threads).state, lo, hi);
  }

  lemma ActionSize(s: State, t: nat, step: Step, lo: nat, hi: nat)
    requires TouchesSegment(s, t, step) && R.Spans(s.sizes, lo, hi)
    requires s.threads[t].segment < |s.segments| && t < |s.segments[s.threads[t].segment].state.threads|
    requires s.threads[t].record.SerializedSize() in s.sizes
    ensures ActionOf(s, t, step).Reserve? ==> lo <= |ActionOf(s, t, step).bytes| <= hi
  {
    hide Encode;
  }

  lemma SteppedState(seg: Segment, a: R.Action, r: Record)
    requires R.Enabled(seg.state, a)
    ensures Stepped(seg, a, r).state == R.Apply(seg.state, a)
  {}

  lemma AllWithinNext(s: State, t: nat, step: Step, n: State, lo: nat, hi: nat)
    requires Consistent(s) && Next(s, t, step, n) && R.Spans(s.sizes, lo, hi) && AllWithin(s, lo, hi)
    ensures AllWithin(n, lo, hi)
    ensures hi <= 2 * lo && AllGood(s, lo, hi) ==> AllGood(n, lo, hi)
  {
    hide Encode, R.Enabled, R.Apply, SegmentOk, Stepped, R.Within, R.Good, R.Accounted, LookAt, Consistent, Next;
    if TouchesSegment(s, t, step) {
      TouchedSegments(s, t, step, n);
      var k, r := s.threads[t].segment, s.threads[t].record;
      SegmentMeans(s.segments[k], s.max, |s.threads|);
      var a := ActionOf(s, t, step);
      ActionSize(s, t, step, lo, hi);
      SteppedState(s.segments[k], a, r);
      R.WithinStep(s.segments[k].state, a, lo, hi);
      if hi <= 2 * lo && AllGood(s, lo, hi) {
        R.GoodStep(s.segments[k].state, a, lo, hi);
      }
    } else {
      UntouchedSegments(s, t, step, n);
      if n.segments != s.segments {
        var id :| n.segments == s.segments + [FreshSegment(id, s.max, |s.threads|)];
        FreshIsGood(id, s.max, |s.threads|, lo, hi);
      }
    }
  }

  // ---- What a quiet manager holds ----

  /** No appender is inside the append of a segment. */
  ghost predicate Quiet(s: State) { forall t | 0 <= t < |s.threads| :: !s.threads[t].Appending? }

  function Everything(segments: seq<Segment>): seq<Record> {
    if segments == [] then [] else Everything(segments[..|segments| - 1]) + segments[|segments| - 1].records
  }

  lemma {:induction false} WrittenAll(seg: Segment, n: nat)
    requires n <= |seg.records| && forall i | 0 <= i < n :: IsWritten(seg, i)
    ensures Written(seg, n) == multiset(seg.records[..n])
  {
    if n > 0 {
      WrittenAll(seg, n - 1);
      assert seg.records[..n] == seg.records[..n - 1] + [seg.records[n - 1]];
    } else {
      assert seg.records[..0] == [];
    }
  }

  lemma QuietSegment(s: State, k: nat)
    requires Consistent(s) && Quiet(s) && k < |s.segments|
    ensures R.Quiescent(s.segments[k].state) && WrittenIn(s.segments[k]) == multiset(s.segments[k].records)
  {
    hide Encode, Written;
    var seg := s.segments[k];
    assert SegmentOk(seg, s.max, |s.threads|);
    forall t | 0 <= t < |s.threads| ensures seg.state.threads[t] == R.Idle {
      assert Linked(s, t, k);
    }
    forall i | 0 <= i < |seg.records| ensures IsWritten(seg, i) {
      assert R.GrantLinked(seg.state, i);
    }
    WrittenAll(seg, |seg.records|);
    assert seg.records[..|seg.records|] == seg.records;
  }

  lemma {:induction false} WrittenEverything(segments: seq<Segment>)
    requires forall k | 0 <= k < |segments| :: WrittenIn(segments[k]) == multiset(segments[k].records)
    ensures AllWritten(segments) == multiset(Everything(segments))
    decreases |segments|
  {
    hide WrittenIn;
    if segments != [] {
      WrittenEverything(segments[..|segments| - 1]);
    }
  }

  /** The used bytes of a segment are its records, which is what a scan of it yields. */
  ghost predicate Scans(seg: Segment) {
    && 0 <= seg.state.writePos <= |seg.state.mem| && AllAccepted(seg.records)
    && seg.state.mem[..seg.state.writePos] == EncodeAll(seg.records)
    && CursorAfter(EncodeAll(seg.records), |seg.records|) == seg.state.writePos
  }

  /** However appends interleave, with rollover and all: if the largest serialized size is at most
      twice the smallest, then once nobody is inside the append of a segment every segment scans, and the
      scan of all segments yields exactly the records whose append succeeded. */
  lemma ScanIsWhatSucceeded(run: seq<State>, i: nat, lo: nat, hi: nat)
    requires IsRun(run) && i < |run| && R.Spans(run[0].sizes, lo, hi) && hi <= 2 * lo && Quiet(run[i])
    ensures forall k | 0 <= k < |run[i].segments| :: Scans(run[i].segments[k])
    ensures multiset(Everything(run[i].segments)) == multiset(run[i].succeeded)
  {
    hide Next, Orderly, SegmentOk, Linked, Phased, WrittenIn, R.Quiescent, Scans;
    var s := run[i];
    InvariantRun(run, i);
    SizesRun(run, i, lo, hi);
    forall k | 0 <= k < |s.segments|
      ensures Scans(s.segments[k]) && WrittenIn(s.segments[k]) == multiset(s.segments[k].records)
    {
      QuietSegment(s, k);
      SegmentScans(s.segments[k], s.max, |s.threads|, lo, hi);
    }
    WrittenEverything(s.segments);
  }

  lemma SegmentScans(seg: Segment, max: nat, threads: nat, lo: nat, hi: nat)
    requires SegmentOk(seg, max, threads) && R.Good(seg.state, lo, hi) && R.Quiescent(seg.state)
    ensures Scans(seg)
  {
    hide Encode, Decode, CursorAfter, R.Good, R.Quiescent, R.Accounted, R.Intact;
    R.GoodIsSound(seg.state, lo, hi);
    ConcurrentAppend.HeldBytes(seg.state.granted, seg.records);
    ScanOfLog(seg.records, |seg.records|);
    OffsetEnds(seg.records);
  }

  // ---- When a segment is abandoned for nothing ----

  /** The granted bytes alone left no room for the record. */
  predicate Genuine(max: nat, look: Look) { look.granted + look.size > max }

  /** Looks are for the sizes of the run, and genuine if they are for the largest. */
  ghost predicate LookFits(s: State, look: Look, hi: nat) {
    look.size in s.sizes && (look.size == hi ==> Genuine(s.max, look))
  }

  ghost predicate LooksFit(s: State, hi: nat) {
    && (forall k | 0 <= k < |s.created| :: LookFits(s, s.created[k], hi))
    && forall t | 0 <= t < |s.threads| ::
         s.threads[t].Creating? || s.threads[t].Named? ==> LookFits(s, s.threads[t].look, hi)
  }

  lemma FoundGenuine(s: State, k: nat, lo: nat, hi: nat)
    requires Consistent(s) && AllWithin(s, lo, hi) && k < |s.segments| && !HasSpace(s, k, hi)
    ensures Genuine(s.max, LookAt(s, k, hi))
  {
    hide Sum, R.TotalOvershoot, Linked, Phased;
    assert SegmentOk(s.segments[k], s.max, |s.threads|) && R.Within(s.segments[k].state, lo, hi);
    R.AccountedNonNegative(s.segments[k].state);
  }

  lemma LooksFitNext(s: State, t: nat, step: Step, n: State, lo: nat, hi: nat)
    requires Consistent(s) && AllWithin(s, lo, hi) && LooksFit(s, hi) && Next(s, t, step, n)
    ensures LooksFit(n, hi)
  {
    hide AllWithin, Encode, R.Enabled, Stepped, Genuine, LookAt, SegmentOk, Linked;
    assert Phased(s, t);
    if step.SecondLook? && !HasSpace(s, s.current, s.threads[t].record.SerializedSize()) {
      LookedAt(s, s.current, s.threads[t].record.SerializedSize());
      if s.threads[t].record.SerializedSize() == hi { FoundGenuine(s, s.current, lo, hi); }
    }
  }

  // ---- All of it, over a run ----

  lemma {:induction false} SizesRun(run: seq<State>, i: nat, lo: nat, hi: nat)
    requires IsRun(run) && i < |run| && R.Spans(run[0].sizes, lo, hi)
    ensures AllWithin(run[i], lo, hi) && LooksFit(run[i], hi)
    ensures hi <= 2 * lo ==> AllGood(run[i], lo, hi)
  {
    hide Next, Orderly, Consistent, Succeeded, AllWithin, AllGood, LooksFit;
    if i == 0 {
      SizesInitial(run[0], lo, hi);
    } else {
      SizesRun(run, i - 1, lo, hi);
      InvariantRun(run, i - 1);
      assert SomeNext(run[i - 1], run[i]);
      var t, step :| Next(run[i - 1], t, step, run[i]);
      AllWithinNext(run[i - 1], t, step, run[i], lo, hi);
      LooksFitNext(run[i - 1], t, step, run[i], lo, hi);
    }
  }

  lemma SizesInitial(s: State, lo: nat, hi: nat)
    requires Initial(s)
    ensures AllWithin(s, lo, hi) && AllGood(s, lo, hi) && LooksFit(s, hi)
  {
    hide R.Within, R.Good;
    FreshIsGood(0, s.max, |s.threads|, lo, hi);
  }

  /** A segment is left for want of room that its granted bytes take up, if no failed reservation was
      outstanding at the second look, or if the record is of the largest size; and it is left with
      room for the record exactly if that room was hidden behind failed reservations. */
  lemma AbandonedFor(run: seq<State>, i: nat, k: nat, lo: nat, hi: nat)
    requires IsRun(run) && i < |run| && k < |run[i].created| && R.Spans(run[0].sizes, lo, hi)
    ensures var s, look := run[i], run[i].created[k];
            && (look.overshoot == 0 || look.size == hi ==> Genuine(s.max, look))
            && (!Genuine(s.max, look) <==>
                  look.granted + look.size <= s.max < look.granted + look.overshoot + look.size)
  {
    hide Next;
    RolloverSafe(run, i);
    SizesRun(run, i, lo, hi);
    assert LookFits(run[i], run[i].created[k], hi);
  }

  /** Whatever the run and the size of the segments. */
  ghost predicate AlwaysGenuine(sizes: set<nat>) {
    forall run: seq<State>, i: nat, k: nat | IsRun(run) && run[0].sizes == sizes && i < |run| && k < |run[i].created| ::
      Genuine(run[i].max, run[i].created[k])
  }

  /** No run ever abandons a segment with room for the record at hand, exactly if all records are of
      one size. */
  lemma AbandonmentsGenuineIff(sizes: set<nat>, lo: nat, hi: nat)
    requires R.Spans(sizes, lo, hi) && HEADER_SIZE <= lo && hi <= HEADER_SIZE + MAX_RECORD_SIZE
    ensures AlwaysGenuine(sizes) <==> lo == hi
  {
    hide Next, Initial;
    if lo == hi {
      forall run: seq<State>, i: nat, k: nat | IsRun(run) && run[0].sizes == sizes && i < |run| && k < |run[i].created|
        ensures Genuine(run[i].max, run[i].created[k])
      {
        SizesRun(run, i, lo, hi);
        InvariantRun(run, i);
        assert LookFits(run[i], run[i].created[k], hi);
        AbandonedFor(run, i, k, lo, hi);
      }
    } else {
      var run := AbandonedForNothing(sizes, lo, hi);
      assert !Genuine(run[|run| - 1].max, run[|run| - 1].created[0]);
    }
  }

  // ---- A segment abandoned for nothing ----

  lemma Extend(run: seq<State>, t: nat, step: Step, n: State)
    requires IsRun(run) && Next(run[|run| - 1], t, step, n)
    ensures IsRun(run + [n])
  {
    hide Next, Initial;
    var longer := run + [n];
    forall i | 0 < i < |longer| ensures SomeNext(longer[i - 1], longer[i]) {
      if i < |run| { assert SomeNext(run[i - 1], run[i]); }
    }
  }

  /** Two appenders of a large record both see room for one; the second reservation fails.  Before it
      is rolled back, a third appender finds no room for a small record, which would have fitted. */
  lemma AbandonedForNothing(sizes: set<nat>, lo: nat, hi: nat) returns (run: seq<State>)
    requires lo in sizes && hi in sizes && lo < hi && HEADER_SIZE <= lo && hi <= HEADER_SIZE + MAX_RECORD_SIZE
    ensures run != [] && IsRun(run) && run[0].sizes == sizes
    ensures var s := run[|run| - 1]; |s.created| == 1 && !Genuine(s.max, s.created[0])
  {
    hide Encode, IsRun, Crowded, Next;
    var small, large := Record(0, R.Zeros(lo - HEADER_SIZE)), Record(0, R.Zeros(hi - HEADER_SIZE));
    run := TwoTrying(sizes, lo, hi, large);
    run := TwoReserved(run, lo, hi, large);
    run := LookAndLock(run, lo, hi, small);
    run := OpenAnyway(run, lo, hi, small);
  }

  /** A large record granted, and another reserved behind it that will fail. */
  ghost predicate Crowded(s: State, lo: nat, hi: nat) {
    && s.max == lo + hi && |s.segments| == 1 && s.current == 0 && |s.threads| == 3 && s.created == []
    && s.segments[0].state.writePos == 2 * hi && Sum(s.segments[0].state.granted, R.Size) == hi
  }

  ghost predicate Aimed(s: State, lo: nat, hi: nat, large: Record) {
    && s.max == lo + hi && s.segments == [FreshSegment(0, lo + hi, 3)] && s.current == 0 && s.created == []
    && s.lock == None && s.threads == [Trying(large, 0), Trying(large, 0), Idle]
  }

  lemma TwoTrying(sizes: set<nat>, lo: nat, hi: nat, large: Record) returns (run: seq<State>)
    requires lo in sizes && hi in sizes && lo < hi && large.Accepted() && large.SerializedSize() == hi
    ensures run != [] && IsRun(run) && run[0].sizes == run[|run| - 1].sizes == sizes
    ensures Aimed(run[|run| - 1], lo, hi, large)
  {
    hide Encode, IsRun, Stepped, R.Enabled, R.Apply;
    var s := State(sizes, lo + hi, [FreshSegment(0, lo + hi, 3)], 0, None, [Idle, Idle, Idle], [], []);
    RunOfOne(s);
    var a := Move(s, 0, Looping(large));
    Extend([s], 0, Begin(large), a);
    var b := Move(a, 1, Looping(large));
    Extend([s] + [a], 1, Begin(large), b);
    var c := Move(b, 0, Trying(large, 0));
    Extend([s] + [a] + [b], 0, FirstLook, c);
    var d := Move(c, 1, Trying(large, 0));
    Extend([s] + [a] + [b] + [c], 1, FirstLook, d);
    run := [s] + [a] + [b] + [c] + [d];
  }

  /** What two reservations do to the empty segment. */
  lemma ReserveTwice(lo: nat, hi: nat, large: Record)
    requires 0 < lo < hi && large.SerializedSize() == hi
    ensures var seg, p, q := FreshSegment(0, lo + hi, 3), R.Reserve(0, Encode(large)), R.Reserve(1, Encode(large));
            && R.Enabled(seg.state, p) && R.Enabled(Stepped(seg, p, large).state, q)
            && var twice := Stepped(Stepped(seg, p, large), q, large).state;
               twice.writePos == 2 * hi && Sum(twice.granted, R.Size) == hi
  {
    hide Encode, R.TotalOvershoot, Sum;
    var g := R.Grant(0, Encode(large), R.Held(0));
    var once := Stepped(FreshSegment(0, lo + hi, 3), R.Reserve(0, Encode(large)), large).state;
    assert once.granted == [g];
    SumOne(g, R.Size);
  }

  lemma TwoReserved(before: seq<State>, lo: nat, hi: nat, large: Record) returns (run: seq<State>)
    requires before != [] && IsRun(before) && Aimed(before[|before| - 1], lo, hi, large)
    requires 0 < lo < hi && large.SerializedSize() == hi
    ensures run != [] && IsRun(run) && run[0].sizes == before[0].sizes
    ensures var s := run[|run| - 1];
            Crowded(s, lo, hi) && s.sizes == before[|before| - 1].sizes && s.threads[2] == Idle && s.lock == None
  {
    hide Encode, IsRun, Stepped, R.Enabled, FreshSegment;
    var s, p, q := before[|before| - 1], R.Reserve(0, Encode(large)), R.Reserve(1, Encode(large));
    ReserveTwice(lo, hi, large);
    var once := Stepped(s.segments[0], p, large);
    var e := Move(s, 0, Appending(large, 0)).(segments := s.segments[0 := once]);
    Extend(before, 0, Reserve, e);
    var f := Move(e, 1, Appending(large, 0)).(segments := e.segments[0 := Stepped(once, q, large)]);
    Extend(before + [e], 1, Reserve, f);
    run := before + [e] + [f];
  }

  lemma LookAndLock(before: seq<State>, lo: nat, hi: nat, small: Record) returns (run: seq<State>)
    requires before != [] && IsRun(before) && lo < hi && small.Accepted() && small.SerializedSize() == lo
    requires var s := before[|before| - 1];
             Crowded(s, lo, hi) && lo in s.sizes && s.threads[2] == Idle && s.lock == None
    ensures run != [] && IsRun(run) && run[0].sizes == before[0].sizes
    ensures Crowded(run[|run| - 1], lo, hi) && run[|run| - 1].threads[2] == Locked(small)
  {
    hide Encode, IsRun, Stepped, R.Enabled, Sum;
    var s := before[|before| - 1];
    var a := Move(s, 2, Looping(small));
    Extend(before, 2, Begin(small), a);
    var b := Move(a, 2, Waiting(small));
    Extend(before + [a], 2, FirstLook, b);
    var c := Move(b, 2, Locked(small)).(lock := Some(2));
    Extend(before + [a] + [b], 2, Acquire, c);
    run := before + [a] + [b] + [c];
  }

  lemma LookFinds(s: State, lo: nat, hi: nat)
    requires Crowded(s, lo, hi)
    ensures LookAt(s, 0, lo).size == lo && !Genuine(s.max, LookAt(s, 0, lo))
  {}

  lemma OpenAnyway(before: seq<State>, lo: nat, hi: nat, small: Record) returns (run: seq<State>)
    requires before != [] && IsRun(before) && lo < hi && small.SerializedSize() == lo
    requires Crowded(before[|before| - 1], lo, hi) && before[|before| - 1].threads[2] == Locked(small)
    ensures run != [] && IsRun(run) && run[0].sizes == before[0].sizes
    ensures var s := run[|run| - 1]; |s.created| == 1 && !Genuine(s.max, s.created[0])
  {
    hide Encode, IsRun, Stepped, R.Enabled, Sum, LookAt, FreshSegment, Genuine;
    var s := before[|before| - 1];
    LookFinds(s, lo, hi);
    var look := LookAt(s, 0, lo);
    var d := Move(s, 2, Creating(small, look));
    Extend(before, 2, SecondLook, d);
    var e := Move(d, 2, Named(small, look, 1));
    Extend(before + [d], 2, ReadCount, e);
    var f := Move(e, 2, Pushed(small, look)).(
      segments := e.segments + [FreshSegment(1, e.max, 3)], created := [] + [look]);
    Extend(before + [d] + [e], 2, Push, f);
    run := before + [d] + [e] + [f];
  }

  lemma RunOfOne(s: State)
    requires Initial(s)
    ensures IsRun([s])
  {}

  // ---- What becomes of an append ----

  /** A step takes nobody's record away: an appender goes on with the record it has, or its append ends
      with the record written, or with the failure to create a file. */
  lemma NeverDropped(s: State, t: nat, step: Step, n: State, u: nat)
    requires Consistent(s) && Next(s, t, step, n) && u < |s.threads| && s.threads[u] != Idle
    ensures u < |n.threads|
    ensures n.threads[u] != Idle ==> n.threads[u].record == s.threads[u].record
    ensures n.threads[u] == Idle ==>
              u == t && (n.succeeded == s.succeeded + [s.threads[u].record]
                         || (step.FailToCreate? && n.succeeded == s.succeeded))
  {
    hide Encode, R.Enabled, R.Apply, Stepped, LookAt, SegmentOk, Linked;
  }

  /** What the one appender of a manager has found still holds: its reservation is sure to lie inside. */
  ghost predicate Alone(s: State) {
    && |s.threads| == 1
    && (forall k | 0 <= k < |s.segments| :: s.segments[k].state.refused == [])
    && match s.threads[0]
       case Trying(r, k) => k < |s.segments| && HasSpace(s, k, r.SerializedSize())
       case Appending(r, k) =>
         && k < |s.segments| && |s.segments[k].state.threads| == 1
         && var p := s.segments[k].state.threads[0];
            p.Copying? || (p.Reserved? && R.Inside(s.max, p.offset, |p.bytes|))
       case _ => true
  }

  lemma AloneNext(s: State, t: nat, step: Step, n: State)
    requires Alone(s) && Consistent(s) && Next(s, t, step, n)
    ensures Alone(n)
  {
    hide Encode, LookAt, Linked, R.Accounted;
    if TouchesSegment(s, t, step) {
      assert Phased(s, t) && SegmentOk(s.segments[s.threads[t].segment], s.max, |s.threads|);
    }
  }

  /** With a single appender no reservation ever fails: it looks before it reserves. */
  lemma {:induction false} AloneNeverRefused(run: seq<State>, i: nat)
    requires IsRun(run) && i < |run| && |run[0].threads| == 1
    ensures Alone(run[i])
  {
    hide Next, Orderly, Consistent, Succeeded, Alone;
    if i == 0 {
      AloneAtFirst(run[0]);
    } else {
      AloneNeverRefused(run, i - 1);
      InvariantRun(run, i - 1);
      assert SomeNext(run[i - 1], run[i]);
      var t, step :| Next(run[i - 1], t, step, run[i]);
      AloneNext(run[i - 1], t, step, run[i]);
    }
  }

  lemma AloneAtFirst(s: State)
    requires Initial(s) && |s.threads| == 1
    ensures Alone(s)
  {}
}
