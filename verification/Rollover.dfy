/** The append loop of the segment manager, as any number of appenders interleave it: look at the
    current segment, go through the steps of its lock-free append, and open a new segment under a
    lock after a second look. */
module Rollover {
  import opened Wrappers
  import opened Sequences
  import opened Records
  import R = Reservation

  /** A segment is known by the number in its file name; appender t is thread t of its append.  The
      records of its grants are history, as are the created segments and the successful appends below. */
  datatype Segment = Segment(fileId: nat, state: R.State, records: seq<Record>)

  /** What the second look found: the current segment, its write position, and the size that the
      position leaves no room for; and what the position was made of: the bytes granted, and the
      reservations that must fail. */
  datatype Look = Look(segment: nat, pos: int, size: nat, granted: int, overshoot: int)

  datatype Phase =
    | Idle
    | Looping(record: Record)
    | Trying(record: Record, segment: nat)
    | Appending(record: Record, segment: nat)
    | Waiting(record: Record)
    | Locked(record: Record)
    | Creating(record: Record, look: Look)
    | Named(record: Record, look: Look, fileId: nat)
    | Pushed(record: Record, look: Look)

  /** The sizes are those of the records that are appended, whatever they are. */
  datatype State = State(
    sizes: set<nat>, max: nat, segments: seq<Segment>, current: nat, lock: Option<nat>, threads: seq<Phase>,
    created: seq<Look>, succeeded: seq<Record>)

  datatype Step =
    | Begin(record: Record)
    | FirstLook
    | Reserve
    | Inside
    | Acquire
    | SecondLook
    | ReadCount
    | FailToCreate
    | Push
    | SetCurrent

  predicate HasSpace(s: State, k: nat, size: nat)
    requires k < |s.segments|
  {
    s.segments[k].state.writePos + size <= s.max
  }

  function Move(s: State, t: nat, p: Phase): State
    requires t < |s.threads|
  {
    s.(threads := s.threads[t := p])
  }

  function LookAt(s: State, k: nat, size: nat): Look
    requires k < |s.segments|
  {
    var state := s.segments[k].state;
    Look(k, state.writePos, size, Sum(state.granted, R.Size), R.TotalOvershoot(state))
  }

  function FreshSegment(id: nat, max: nat, threads: nat): Segment {
    Segment(id, R.Start(max, threads, R.Zeros(max)), [])
  }

  /** The next step of a thread inside the append of a segment. */
  function NextAction(p: R.Phase, t: nat): R.Action {
    match p
    case Reserved(_, _, _, _) => R.Test(t)
    case Doomed(_, _, _) => R.Rollback(t)
    case RolledBack(_, _, _) => R.Report(t)
    case _ => R.Copy(t)
  }

  function Stepped(seg: Segment, a: R.Action, r: Record): Segment
    requires R.Enabled(seg.state, a)
  {
    var after := R.Apply(seg.state, a);
    seg.(state := after, records := if |after.granted| > |seg.state.granted| then seg.records + [r] else seg.records)
  }

  /** Where the step inside the segment leaves the appender: a copy ends the append, a report sends
      it to open another segment. */
  function PhaseAfter(p: R.Phase, q: Phase): Phase
    requires q.Appending?
  {
    if p.Copying? then Idle else if p.RolledBack? then Waiting(q.record) else q
  }

  ghost predicate InsideNext(s: State, t: nat, n: State)
    requires t < |s.threads| && s.threads[t].Appending?
  {
    var Appending(r, k) := s.threads[t];
    && k < |s.segments| && t < |s.segments[k].state.threads|
    && var p := s.segments[k].state.threads[t];
       var a := NextAction(p, t);
       && R.Enabled(s.segments[k].state, a)
       && n == Move(s, t, PhaseAfter(p, s.threads[t])).(
                 segments := s.segments[k := Stepped(s.segments[k], a, r)],
                 succeeded := if p.Copying? then s.succeeded + [r] else s.succeeded)
  }

  /** The step of one thread.  Releasing the lock and going round again is part of the step that
      ends an iteration. */
  ghost predicate Next(s: State, t: nat, step: Step, n: State) {
    && t < |s.threads| && s.current < |s.segments|
    && match step
       case Begin(r) =>
         && s.threads[t].Idle? && r.Accepted() && r.SerializedSize() in s.sizes
         && n == Move(s, t, Looping(r))
       case FirstLook =>
         && s.threads[t].Looping?
         && var r := s.threads[t].record;
            n == Move(s, t, if HasSpace(s, s.current, r.SerializedSize()) then Trying(r, s.current) else Waiting(r))
       case Reserve =>
         && s.threads[t].Trying? && s.threads[t].segment < |s.segments|
         && var Trying(r, k) := s.threads[t];
            var a := R.Reserve(t, Encode(r));
            && R.Enabled(s.segments[k].state, a)
            && n == Move(s, t, Appending(r, k)).(segments := s.segments[k := Stepped(s.segments[k], a, r)])
       case Inside => s.threads[t].Appending? && InsideNext(s, t, n)
       case Acquire =>
         && s.threads[t].Waiting? && s.lock == None
         && n == Move(s, t, Locked(s.threads[t].record)).(lock := Some(t))
       case SecondLook =>
         && s.threads[t].Locked?
         && var r := s.threads[t].record;
            if HasSpace(s, s.current, r.SerializedSize()) then n == Move(s, t, Looping(r)).(lock := None)
            else n == Move(s, t, Creating(r, LookAt(s, s.current, r.SerializedSize())))
       case ReadCount =>
         && s.threads[t].Creating?
         && n == Move(s, t, Named(s.threads[t].record, s.threads[t].look, |s.segments|))
       case FailToCreate => s.threads[t].Named? && n == Move(s, t, Idle).(lock := None)
       case Push =>
         && s.threads[t].Named?
         && var Named(r, look, id) := s.threads[t];
            n == Move(s, t, Pushed(r, look)).(
                   segments := s.segments + [FreshSegment(id, s.max, |s.threads|)], created := s.created + [look])
       case SetCurrent =>
         && s.threads[t].Pushed?
         && n == Move(s, t, Looping(s.threads[t].record)).(current := |s.segments| - 1, lock := None)
  }

  /** One segment, as the constructor leaves it, and any number of idle appenders. */
  ghost predicate Initial(s: State) {
    && s.segments == [FreshSegment(0, s.max, |s.threads|)] && s.current == 0
    && s.lock == None && s.created == [] && s.succeeded == []
    && forall t | 0 <= t < |s.threads| :: s.threads[t] == Idle
  }

  ghost predicate SomeNext(s: State, n: State) { exists t, step :: Next(s, t, step, n) }

  /** A finite interleaving of the appenders' steps. */
  ghost predicate IsRun(run: seq<State>) {
    && run != [] && Initial(run[0])
    && forall i | 0 < i < |run| :: SomeNext(run[i - 1], run[i])
  }

  // ---- Opening segments, one at a time ----

  ghost predicate InSlowPath(p: Phase) { p.Locked? || p.Creating? || p.Named? || p.Pushed? }

  /** The look found no room, and what it found adds up. */
  ghost predicate Full(max: nat, look: Look) {
    && look.pos + look.size > max && look.pos == look.granted + look.overshoot
    && 0 <= look.granted <= max && 0 <= look.overshoot
  }

  ghost predicate LockOk(s: State, t: nat)
    requires t < |s.threads|
  {
    && (InSlowPath(s.threads[t]) <==> s.lock == Some(t))
    && match s.threads[t]
       case Creating(_, look) => look.segment == |s.segments| - 1 && Full(s.max, look)
       case Named(_, look, id) => look.segment == |s.segments| - 1 && Full(s.max, look) && id == |s.segments|
       case _ => true
  }

  /** Somebody has pushed a segment and not yet made it current. */
  ghost predicate Publishing(s: State) {
    s.lock.Some? && s.lock.value < |s.threads| && s.threads[s.lock.value].Pushed?
  }

  ghost predicate Orderly(s: State) {
    && s.segments != []
    && (forall k | 0 <= k < |s.segments| :: s.segments[k].fileId == k)
    && (s.lock.Some? ==> s.lock.value < |s.threads|)
    && (forall t | 0 <= t < |s.threads| :: LockOk(s, t))
    && s.current == |s.segments| - (if Publishing(s) then 2 else 1)
    && |s.created| == |s.segments| - 1
    && (forall k | 0 <= k < |s.created| :: s.created[k].segment == k && Full(s.max, s.created[k]))
  }

  // ---- Appends inside the segments ----

  /** The grants of a segment and the records they hold. */
  ghost predicate SegmentOk(seg: Segment, max: nat, threads: nat) {
    && seg.state.max == max && |seg.state.threads| == threads && R.Accounted(seg.state)
    && |seg.records| == |seg.state.granted|
    && (forall i | 0 <= i < |seg.records| ::
          seg.records[i].Accepted() && seg.state.granted[i].bytes == Encode(seg.records[i]))
  }

  /** The thread of a segment is appending the record. */
  ghost predicate Carries(seg: Segment, p: R.Phase, r: Record) {
    match p
    case Reserved(offset, bytes, slot, _) =>
      && bytes == Encode(r)
      && (R.Inside(seg.state.max, offset, |bytes|) ==> slot < |seg.records| && seg.records[slot] == r)
    case Copying(_, bytes, slot) => bytes == Encode(r) && slot < |seg.records| && seg.records[slot] == r
    case Idle => false
    case _ => true
  }

  ghost predicate Linked(s: State, t: nat, k: nat)
    requires t < |s.threads| && k < |s.segments| && t < |s.segments[k].state.threads|
  {
    var p, q := s.segments[k].state.threads[t], s.threads[t];
    if q.Appending? && q.segment == k then Carries(s.segments[k], p, q.record) else p == R.Idle
  }

  ghost predicate Phased(s: State, t: nat)
    requires t < |s.threads|
  {
    match s.threads[t]
    case Idle => true
    case Trying(r, k) => k < |s.segments| && r.Accepted() && r.SerializedSize() in s.sizes
    case Appending(r, k) => k < |s.segments| && r.Accepted() && r.SerializedSize() in s.sizes
    case _ => s.threads[t].record.Accepted() && s.threads[t].record.SerializedSize() in s.sizes
  }

  ghost predicate Consistent(s: State) {
    && (forall k | 0 <= k < |s.segments| :: SegmentOk(s.segments[k], s.max, |s.threads|))
    && (forall t | 0 <= t < |s.threads| :: Phased(s, t))
    && (forall t, k | 0 <= t < |s.threads| && 0 <= k < |s.segments| :: Linked(s, t, k))
  }

  lemma OrderlyInitial(s: State)
    requires Initial(s)
    ensures Orderly(s)
  {
    forall t | 0 <= t < |s.threads| ensures LockOk(s, t) {}
  }

  lemma FreshOk(id: nat, max: nat, threads: nat)
    ensures SegmentOk(FreshSegment(id, max, threads), max, threads)
    ensures forall t | 0 <= t < threads :: FreshSegment(id, max, threads).state.threads[t] == R.Idle
  {
    R.StartAccounted(max, threads, R.Zeros(max));
  }

  lemma ConsistentInitial(s: State)
    requires Initial(s)
    ensures Consistent(s)
  {
    hide SegmentOk;
    FreshOk(0, s.max, |s.threads|);
  }

  /** One step in a segment keeps its grants and records in line, moves one thread, and leaves what
      the others carry. */
  lemma SteppedOk(seg: Segment, a: R.Action, r: Record, max: nat, threads: nat)
    requires SegmentOk(seg, max, threads) && R.Enabled(seg.state, a) && r.Accepted()
    requires a.Reserve? ==> a.bytes == Encode(r)
    ensures SegmentOk(Stepped(seg, a, r), max, threads)
    ensures seg.records <= Stepped(seg, a, r).records && Stepped(seg, a, r).fileId == seg.fileId
    ensures forall u | 0 <= u < threads && u != a.thread :: Stepped(seg, a, r).state.threads[u] == seg.state.threads[u]
  {
    hide Encode, R.Accounted;
    R.AccountedStep(seg.state, a);
    SlotInBounds(seg.state, a);
  }

  lemma SlotInBounds(s: R.State, a: R.Action)
    requires R.Accounted(s) && R.Enabled(s, a)
    ensures var n := R.Apply(s, a);
            && n.max == s.max && |n.threads| == |s.threads|
            && |n.granted| == |s.granted| + (if a.Reserve? && R.Inside(s.max, s.writePos, |a.bytes|) then 1 else 0)
            && (forall i | 0 <= i < |s.granted| :: n.granted[i].bytes == s.granted[i].bytes)
            && (|n.granted| > |s.granted| ==> n.granted[|s.granted|].bytes == a.bytes)
  {
    assert R.ThreadLinked(s, a.thread);
  }

  lemma CarriesOn(seg: Segment, next: Segment, p: R.Phase, r: Record)
    requires Carries(seg, p, r) && seg.records <= next.records && next.state.max == seg.state.max
    ensures Carries(next, p, r)
  {
    hide Encode;
  }

  /** The thread itself goes on carrying its record until it is done. */
  lemma CarriesStep(seg: Segment, t: nat, r: Record, max: nat, threads: nat)
    requires SegmentOk(seg, max, threads) && t < threads && Carries(seg, seg.state.threads[t], r)
    requires R.Enabled(seg.state, NextAction(seg.state.threads[t], t))
    ensures var p, next := seg.state.threads[t], Stepped(seg, NextAction(seg.state.threads[t], t), r);
            if p.Copying? || p.RolledBack? then next.state.threads[t] == R.Idle
            else Carries(next, next.state.threads[t], r)
  {
    hide Encode, R.Accounted;
  }

  lemma CarriesFirst(seg: Segment, t: nat, r: Record, max: nat, threads: nat)
    requires SegmentOk(seg, max, threads) && R.Enabled(seg.state, R.Reserve(t, Encode(r)))
    ensures var next := Stepped(seg, R.Reserve(t, Encode(r)), r); Carries(next, next.state.threads[t], r)
  {
    hide Encode, R.Accounted;
  }

  /** Every appender inside a segment can take its next step. */
  lemma InsideEnabled(s: State, t: nat)
    requires Consistent(s) && t < |s.threads|
    ensures s.threads[t].Appending? ==>
              var k := s.threads[t].segment;
              k < |s.segments| && t < |s.segments[k].state.threads|
              && R.Enabled(s.segments[k].state, NextAction(s.segments[k].state.threads[t], t))
    ensures s.threads[t].Trying? ==>
              s.threads[t].segment < |s.segments|
              && R.Enabled(s.segments[s.threads[t].segment].state, R.Reserve(t, Encode(s.threads[t].record)))
  {
    hide Encode, R.Accounted, R.Enabled;
    assert Phased(s, t);
    if s.threads[t].Appending? || s.threads[t].Trying? {
      var k := s.threads[t].segment;
      assert SegmentOk(s.segments[k], s.max, |s.threads|) && Linked(s, t, k);
      R.NextStepEnabled(s.segments[k].state, t);
    }
  }

  lemma FullLook(s: State, k: nat, size: nat)
    requires Consistent(s) && k < |s.segments| && !HasSpace(s, k, size)
    ensures Full(s.max, LookAt(s, k, size))
  {
    hide Sum, R.TotalOvershoot, Linked, Phased;
    assert SegmentOk(s.segments[k], s.max, |s.threads|);
    R.AccountedNonNegative(s.segments[k].state);
  }

  lemma LockOkNext(s: State, t: nat, step: Step, n: State, u: nat)
    requires Orderly(s) && Consistent(s) && Next(s, t, step, n) && u < |n.threads|
    ensures LockOk(n, u)
  {
    hide Consistent, Encode, Stepped, R.Enabled, LookAt, Full;
    assert LockOk(s, t) && LockOk(s, u);
    if step.SecondLook? {
      var size := s.threads[t].record.SerializedSize();
      if !HasSpace(s, s.current, size) {
        FullLook(s, s.current, size);
        LookedAt(s, s.current, size);
      }
    }
  }

  lemma LookedAt(s: State, k: nat, size: nat)
    requires k < |s.segments|
    ensures LookAt(s, k, size).segment == k && LookAt(s, k, size).size == size
  {}

  lemma NumbersNext(s: State, t: nat, step: Step, n: State)
    requires Orderly(s) && Next(s, t, step, n)
    ensures n.max == s.max && n.sizes == s.sizes && |n.threads| == |s.threads|
    ensures n.segments != [] && forall k | 0 <= k < |n.segments| :: n.segments[k].fileId == k
    ensures |n.created| == |n.segments| - 1
    ensures forall k | 0 <= k < |n.created| :: n.created[k].segment == k && Full(n.max, n.created[k])
  {
    hide Encode, R.Enabled, R.Apply, LookAt, Full;
    assert LockOk(s, t);
  }

  lemma CurrentNext(s: State, t: nat, step: Step, n: State)
    requires Orderly(s) && Next(s, t, step, n)
    ensures n.lock.Some? ==> n.lock.value < |n.threads|
    ensures n.current == |n.segments| - (if Publishing(n) then 2 else 1)
  {
    hide Encode, R.Enabled, R.Apply, LookAt, Full;
    assert LockOk(s, t);
    if s.lock.Some? { assert LockOk(s, s.lock.value); }
  }

  lemma OrderlyNext(s: State, t: nat, step: Step, n: State)
    requires Orderly(s) && Consistent(s) && Next(s, t, step, n)
    ensures Orderly(n)
  {
    NumbersNext(s, t, step, n);
    CurrentNext(s, t, step, n);
    hide Next, Publishing, LockOk, Full, Consistent;
    forall u | 0 <= u < |n.threads| ensures LockOk(n, u) {
      LockOkNext(s, t, step, n, u);
    }
  }

  // ---- Consistent after every step ----

  /** The step of a thread in a segment, if it takes one. */
  ghost predicate TouchesSegment(s: State, t: nat, step: Step) {
    t < |s.threads| && ((step.Reserve? && s.threads[t].Trying?) || (step.Inside? && s.threads[t].Appending?))
  }

  function ActionOf(s: State, t: nat, step: Step): R.Action
    requires TouchesSegment(s, t, step)
    requires step.Inside? ==>
               s.threads[t].segment < |s.segments| && t < |s.segments[s.threads[t].segment].state.threads|
  {
    if step.Reserve? then R.Reserve(t, Encode(s.threads[t].record))
    else NextAction(s.segments[s.threads[t].segment].state.threads[t], t)
  }

  lemma TouchedSegments(s: State, t: nat, step: Step, n: State)
    requires Consistent(s) && Next(s, t, step, n) && TouchesSegment(s, t, step)
    ensures var k, r := s.threads[t].segment, s.threads[t].record;
            && k < |s.segments| && SegmentOk(s.segments[k], s.max, |s.threads|) && r.Accepted()
            && r.SerializedSize() in s.sizes && ActionOf(s, t, step).thread == t
            && R.Enabled(s.segments[k].state, ActionOf(s, t, step))
            && n.segments == s.segments[k := Stepped(s.segments[k], ActionOf(s, t, step), r)]
  {
    hide Encode, R.Enabled, R.Apply, SegmentOk, Linked;
    assert Phased(s, t) && SegmentOk(s.segments[s.threads[t].segment], s.max, |s.threads|);
    InsideEnabled(s, t);
  }

  lemma UntouchedSegments(s: State, t: nat, step: Step, n: State)
    requires Next(s, t, step, n) && !TouchesSegment(s, t, step)
    ensures n.segments == s.segments
         || exists id :: n.segments == s.segments + [FreshSegment(id, s.max, |s.threads|)]
  {}

  lemma SegmentsOkNext(s: State, t: nat, step: Step, n: State, k: nat)
    requires Consistent(s) && Next(s, t, step, n) && k < |n.segments|
    ensures n.max == s.max && |n.threads| == |s.threads| && SegmentOk(n.segments[k], n.max, |n.threads|)
  {
    hide Encode, R.Enabled, SegmentOk, Stepped, Linked, Phased, LookAt;
    assert k < |s.segments| ==> SegmentOk(s.segments[k], s.max, |s.threads|);
    if TouchesSegment(s, t, step) {
      TouchedSegments(s, t, step, n);
      SteppedOk(s.segments[s.threads[t].segment], ActionOf(s, t, step), s.threads[t].record, s.max, |s.threads|);
    } else {
      UntouchedSegments(s, t, step, n);
      if k == |s.segments| {
        var id :| n.segments == s.segments + [FreshSegment(id, s.max, |s.threads|)];
        FreshOk(id, s.max, |s.threads|);
      }
    }
  }

  lemma PhasedNext(s: State, t: nat, step: Step, n: State, u: nat)
    requires Consistent(s) && Next(s, t, step, n) && u < |n.threads|
    ensures Phased(n, u)
  {
    hide Encode, R.Enabled, R.Apply, SegmentOk, Linked, LookAt;
    assert Phased(s, t) && Phased(s, u);
  }

  lemma LinkedNext(s: State, t: nat, step: Step, n: State, u: nat, k: nat)
    requires Consistent(s) && Next(s, t, step, n) && u < |n.threads| && k < |n.segments|
    requires SegmentOk(n.segments[k], n.max, |n.threads|)
    ensures Linked(n, u, k)
  {
    hide Encode, R.Enabled, R.Accounted, SegmentOk, Stepped, Carries, LookAt;
    if k < |s.segments| {
      assert SegmentOk(s.segments[k], s.max, |s.threads|);
      SegmentMeans(s.segments[k], s.max, |s.threads|);
      assert u < |s.threads| ==> Linked(s, u, k);
    }
    if TouchesSegment(s, t, step) {
      TouchedSegments(s, t, step, n);
      TouchedLinked(s, t, step, n, u, k);
    } else {
      UntouchedLinked(s, t, step, n, u, k);
    }
  }

  lemma TouchedLinked(s: State, t: nat, step: Step, n: State, u: nat, k: nat)
    requires Next(s, t, step, n) && u < |s.threads| && k < |n.segments| && TouchesSegment(s, t, step)
    requires var j, r := s.threads[t].segment, s.threads[t].record;
             && j < |s.segments| && SegmentOk(s.segments[j], s.max, |s.threads|) && r.Accepted()
             && ActionOf(s, t, step).thread == t && R.Enabled(s.segments[j].state, ActionOf(s, t, step))
             && n.segments == s.segments[j := Stepped(s.segments[j], ActionOf(s, t, step), r)]
    requires SegmentOk(s.segments[k], s.max, |s.threads|) && Linked(s, u, k)
    requires u < |n.threads| && |n.threads| == |s.threads| && SegmentOk(n.segments[k], n.max, |n.threads|)
    ensures Linked(n, u, k)
  {
    hide Encode, R.Enabled, R.Accounted, R.Apply, Carries, Stepped;
    var j, r, a := s.threads[t].segment, s.threads[t].record, ActionOf(s, t, step);
    SteppedOk(s.segments[j], a, r, s.max, |s.threads|);
    if k == j {
      if u == t {
        if step.Reserve? {
          CarriesFirst(s.segments[j], t, r, s.max, |s.threads|);
        } else {
          CarriesStep(s.segments[j], t, r, s.max, |s.threads|);
        }
      } else if s.threads[u].Appending? && s.threads[u].segment == k {
        CarriesOn(s.segments[k], n.segments[k], s.segments[k].state.threads[u], s.threads[u].record);
      }
    } else if u == t {
      NotElsewhere(s, t, k);
    }
  }

  lemma NotElsewhere(s: State, t: nat, k: nat)
    requires t < |s.threads| && k < |s.segments| && t < |s.segments[k].state.threads| && Linked(s, t, k)
    ensures (s.threads[t].Appending? && s.threads[t].segment == k) || s.segments[k].state.threads[t] == R.Idle
  {}

  lemma UntouchedLinked(s: State, t: nat, step: Step, n: State, u: nat, k: nat)
    requires Next(s, t, step, n) && !TouchesSegment(s, t, step) && u < |n.threads| && k < |n.segments|
    requires |n.threads| == |s.threads| && SegmentOk(n.segments[k], n.max, |n.threads|)
    requires k < |s.segments| ==> SegmentOk(s.segments[k], s.max, |s.threads|) && Linked(s, u, k)
    requires k == |s.segments| ==> Phased(s, u)
    ensures Linked(n, u, k)
  {
    hide Encode, R.Enabled, R.Accounted, R.Apply, Carries, LookAt;
    UntouchedSegments(s, t, step, n);
    if k == |s.segments| {
      var id :| n.segments == s.segments + [FreshSegment(id, s.max, |s.threads|)];
      FreshOk(id, s.max, |s.threads|);
    }
  }

  lemma ConsistentNext(s: State, t: nat, step: Step, n: State)
    requires Consistent(s) && Next(s, t, step, n)
    ensures Consistent(n)
  {
    hide Next, SegmentOk, Phased, Linked;
    forall k | 0 <= k < |n.segments| ensures SegmentOk(n.segments[k], n.max, |n.threads|) {
      SegmentsOkNext(s, t, step, n, k);
    }
    forall u | 0 <= u < |n.threads| ensures Phased(n, u) {
      PhasedNext(s, t, step, n, u);
    }
    forall u, k | 0 <= u < |n.threads| && 0 <= k < |n.segments|
      ensures ThreadThere(n, u, k) && Linked(n, u, k)
    {
      SegmentMeans(n.segments[k], n.max, |n.threads|);
      LinkedNext(s, t, step, n, u, k);
    }
  }

  ghost predicate ThreadThere(s: State, u: nat, k: nat) {
    u < |s.threads| && k < |s.segments| && u < |s.segments[k].state.threads|
  }

  lemma SegmentMeans(seg: Segment, max: nat, threads: nat)
    requires SegmentOk(seg, max, threads)
    ensures R.Accounted(seg.state) && |seg.state.threads| == threads && seg.state.max == max
  {}

  // ---- What has been written, and which appends have succeeded ----

  predicate IsWritten(seg: Segment, i: nat) {
    i < |seg.state.granted| && i < |seg.records| && seg.state.granted[i].stage.Written?
  }

  /** The records among the first n grants that have been copied in. */
  function Written(seg: Segment, n: nat): multiset<Record> {
    if n == 0 then multiset{}
    else Written(seg, n - 1) + (if IsWritten(seg, n - 1) then multiset{seg.records[n - 1]} else multiset{})
  }

  function WrittenIn(seg: Segment): multiset<Record> { Written(seg, |seg.records|) }

  function AllWritten(segments: seq<Segment>): multiset<Record> {
    if segments == [] then multiset{}
    else AllWritten(segments[..|segments| - 1]) + WrittenIn(segments[|segments| - 1])
  }

  lemma {:induction false} WrittenSame(a: Segment, b: Segment, n: nat)
    requires forall i | 0 <= i < n :: IsWritten(a, i) == IsWritten(b, i)
    requires a.records <= b.records
    ensures Written(a, n) == Written(b, n)
  {
    if n > 0 {
      WrittenSame(a, b, n - 1);
    }
  }

  lemma {:induction false} WrittenOne(a: Segment, b: Segment, n: nat, slot: nat)
    requires forall i | 0 <= i < n && i != slot :: IsWritten(a, i) == IsWritten(b, i)
    requires a.records <= b.records && slot < n && !IsWritten(a, slot) && IsWritten(b, slot)
    ensures Written(b, n) == Written(a, n) + multiset{b.records[slot]}
  {
    if slot < n - 1 {
      WrittenOne(a, b, n - 1, slot);
    } else {
      WrittenSame(a, b, n - 1);
    }
  }

  /** A step in a segment writes the thread's record if it is the copy, and nothing otherwise. */
  lemma SteppedWrites(seg: Segment, a: R.Action, r: Record, max: nat, threads: nat)
    requires SegmentOk(seg, max, threads) && R.Enabled(seg.state, a) && r.Accepted()
    requires a.Reserve? ==> a.bytes == Encode(r)
    requires a.Copy? ==> Carries(seg, seg.state.threads[a.thread], r)
    ensures WrittenIn(Stepped(seg, a, r)) == WrittenIn(seg) + (if a.Copy? then multiset{r} else multiset{})
  {
    hide Encode, R.Accounted, Written;
    var next, n := Stepped(seg, a, r), |seg.records|;
    StagesStep(seg.state, a);
    SlotInBounds(seg.state, a);
    if a.Copy? {
      WrittenOne(seg, next, n, seg.state.threads[a.thread].slot);
    } else {
      WrittenSame(seg, next, n);
      if |next.records| > n {
        WrittenNext(next, n);
      }
    }
  }

  lemma WrittenNext(seg: Segment, n: nat)
    requires !IsWritten(seg, n)
    ensures Written(seg, n + 1) == Written(seg, n)
  {}

  lemma StagesStep(s: R.State, a: R.Action)
    requires R.Accounted(s) && R.Enabled(s, a)
    ensures var n := R.Apply(s, a);
            && |n.granted| >= |s.granted|
            && (forall i | 0 <= i < |n.granted| && (a.Copy? ==> i != s.threads[a.thread].slot) ::
                  n.granted[i].stage.Written? <==> i < |s.granted| && s.granted[i].stage.Written?)
            && (a.Copy? ==> var slot := s.threads[a.thread].slot;
                            slot < |s.granted| && !s.granted[slot].stage.Written? && n.granted[slot].stage.Written?)
  {
    assert R.ThreadLinked(s, a.thread);
  }

  lemma {:induction false} AllWrittenUpdate(segments: seq<Segment>, k: nat, next: Segment)
    requires k < |segments|
    ensures AllWritten(segments[k := next]) + WrittenIn(segments[k]) == AllWritten(segments) + WrittenIn(next)
    decreases |segments|
  {
    hide WrittenIn;
    var last := |segments| - 1;
    var w := WrittenIn(segments[last]);
    if k < last {
      AllWrittenUpdate(segments[..last], k, next);
      assert segments[k := next][..last] == segments[..last][k := next];
      var a, b := AllWritten(segments[..last][k := next]), AllWritten(segments[..last]);
      assert AllWritten(segments[k := next]) == a + w && AllWritten(segments) == b + w;
      Regroup(a, b, WrittenIn(segments[k]), WrittenIn(next), w);
    } else {
      assert segments[k := next][..last] == segments[..last];
    }
  }

  lemma Regroup(a: multiset<Record>, b: multiset<Record>, x: multiset<Record>, y: multiset<Record>, w: multiset<Record>)
    requires a + x == b + y
    ensures (a + w) + x == (b + w) + y
  {
    assert (a + w) + x == (a + x) + w == (b + y) + w == (b + w) + y;
  }

  lemma Cancel(a: multiset<Record>, b: multiset<Record>, w: multiset<Record>, x: multiset<Record>)
    requires a + w == b + (w + x)
    ensures a == b + x
  {
    forall r ensures a[r] == (b + x)[r] {
      assert (a + w)[r] == (b + (w + x))[r];
    }
  }

  /** The appends that have returned successfully are those whose records have been written. */
  ghost predicate Succeeded(s: State) { multiset(s.succeeded) == AllWritten(s.segments) }

  lemma SucceededInitial(s: State)
    requires Initial(s)
    ensures Succeeded(s)
  {
    var first := FreshSegment(0, s.max, |s.threads|);
    NothingWritten([], first);
    assert [] + [first] == s.segments;
  }

  lemma SucceededNext(s: State, t: nat, step: Step, n: State)
    requires Consistent(s) && Succeeded(s) && Next(s, t, step, n)
    ensures Succeeded(n)
  {
    hide Encode, R.Enabled, SegmentOk, Stepped, AllWritten, WrittenIn, LookAt, Carries, Phased;
    if TouchesSegment(s, t, step) {
      TouchedSegments(s, t, step, n);
      var k, r, a := s.threads[t].segment, s.threads[t].record, ActionOf(s, t, step);
      SegmentMeans(s.segments[k], s.max, |s.threads|);
      assert Linked(s, t, k);
      CopyCarries(s.segments[k], s.segments[k].state.threads[t], r, t);
      SteppedWrites(s.segments[k], a, r, s.max, |s.threads|);
      AllWrittenUpdate(s.segments, k, n.segments[k]);
      SucceededWith(s, t, step, n);
      var x: multiset<Record> := if a.Copy? then multiset{r} else multiset{};
      Cancel(AllWritten(n.segments), AllWritten(s.segments), WrittenIn(s.segments[k]), x);
      assert multiset(n.succeeded) == multiset(s.succeeded) + x;
    } else {
      UntouchedSegments(s, t, step, n);
      if n.segments != s.segments {
        var id :| n.segments == s.segments + [FreshSegment(id, s.max, |s.threads|)];
        NothingWritten(s.segments, FreshSegment(id, s.max, |s.threads|));
      }
    }
  }

  lemma CopyCarries(seg: Segment, p: R.Phase, r: Record, t: nat)
    ensures NextAction(p, t).Copy? && Carries(seg, p, r) ==> p.Copying?
    ensures p.Copying? ==> NextAction(p, t).Copy?
  {}

  lemma SucceededWith(s: State, t: nat, step: Step, n: State)
    requires Next(s, t, step, n) && TouchesSegment(s, t, step) && s.threads[t].segment < |s.segments|
    requires t < |s.segments[s.threads[t].segment].state.threads|
    requires step.Inside? ==> s.segments[s.threads[t].segment].state.threads[t] != R.Idle
    ensures n.succeeded == if ActionOf(s, t, step).Copy? then s.succeeded + [s.threads[t].record] else s.succeeded
  {
    hide Encode, R.Enabled, R.Apply;
  }

  lemma NothingWritten(segments: seq<Segment>, last: Segment)
    requires last.records == []
    ensures AllWritten(segments + [last]) == AllWritten(segments)
  {
    assert (segments + [last])[..|segments|] == segments;
  }

  // ---- All invariants, over a run ----

  ghost predicate Invariant(s: State) { Orderly(s) && Consistent(s) && Succeeded(s) }

  lemma InvariantNext(s: State, t: nat, step: Step, n: State)
    requires Invariant(s) && Next(s, t, step, n)
    ensures Invariant(n) && n.sizes == s.sizes && n.max == s.max
  {
    hide Orderly, Consistent, Succeeded, Next;
    NumbersNext(s, t, step, n);
    OrderlyNext(s, t, step, n);
    ConsistentNext(s, t, step, n);
    SucceededNext(s, t, step, n);
  }

  lemma {:induction false} InvariantRun(run: seq<State>, i: nat)
    requires IsRun(run) && i < |run|
    ensures Invariant(run[i]) && run[i].sizes == run[0].sizes && run[i].max == run[0].max
  {
    hide Orderly, Consistent, Succeeded, Next, Initial;
    if i == 0 {
      OrderlyInitial(run[0]);
      ConsistentInitial(run[0]);
      SucceededInitial(run[0]);
    } else {
      InvariantRun(run, i - 1);
      assert SomeNext(run[i - 1], run[i]);
      var t, step :| Next(run[i - 1], t, step, run[i]);
      InvariantNext(run[i - 1], t, step, run[i]);
    }
  }

  /** In every interleaving the files are numbered 0, 1, 2, ... without a repeat, and appenders see
      the newest segment as current except while one that holds the lock is publishing a newer one.
      Segment k was left because its write position left no room for a record; that position was its
      granted bytes and the failed reservations outstanding at that moment. */
  lemma RolloverSafe(run: seq<State>, i: nat)
    requires IsRun(run) && i < |run|
    ensures var s := run[i];
            && (forall k | 0 <= k < |s.segments| :: s.segments[k].fileId == k)
            && s.current == |s.segments| - (if Publishing(s) then 2 else 1)
            && |s.created| == |s.segments| - 1
            && (forall k | 0 <= k < |s.created| ::
                  && s.created[k].segment == k && s.created[k].pos + s.created[k].size > s.max
                  && s.created[k].pos == s.created[k].granted + s.created[k].overshoot
                  && 0 <= s.created[k].granted <= s.max && 0 <= s.created[k].overshoot)
  {
    hide Next, Consistent, Succeeded;
    InvariantRun(run, i);
  }

  /** No two appenders are in the slow path at once. */
  lemma SlowPathExclusive(run: seq<State>, i: nat, t: nat, u: nat)
    requires IsRun(run) && i < |run| && t < |run[i].threads| && u < |run[i].threads|
    requires InSlowPath(run[i].threads[t]) && InSlowPath(run[i].threads[u])
    ensures t == u
  {
    hide Next, Consistent, Succeeded;
    InvariantRun(run, i);
    assert LockOk(run[i], t) && LockOk(run[i], u);
  }

  /** A creator's view of the current segment cannot go stale: from its second look until it pushes,
      the segment it looked at stays the newest and stays current. */
  lemma LookStaysCurrent(run: seq<State>, i: nat, t: nat)
    requires IsRun(run) && i < |run| && t < |run[i].threads|
    requires run[i].threads[t].Creating? || run[i].threads[t].Named?
    ensures run[i].threads[t].look.segment == run[i].current == |run[i].segments| - 1
  {
    hide Next, Consistent, Succeeded;
    InvariantRun(run, i);
    assert LockOk(run[i], t);
  }
}
