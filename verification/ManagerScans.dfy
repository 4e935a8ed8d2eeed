/** A run of the append of one segment as a run of the whole manager, and from it: for which record
    sizes every scan of a manager's segments comes to an end. */
module ManagerScans {
  import opened Wrappers
  import opened Sequences
  import opened Records
  import opened Segments
  import opened Rollover
  import ManagerRuns
  import ConcurrentAppend
  import R = Reservation

  // ---- Any run of one segment in which each thread appends one record ----

  ghost predicate WillReserve(actions: seq<R.Action>, t: nat) {
    exists i :: 0 <= i < |actions| && actions[i].Reserve? && actions[i].thread == t
  }

  /** No thread reserves twice, and each reserves its own record. */
  ghost predicate OneEach(actions: seq<R.Action>, records: seq<Record>) {
    && (forall i | 0 <= i < |actions| && actions[i].Reserve? ::
          actions[i].thread < |records| && actions[i].bytes == Encode(records[actions[i].thread]))
    && (forall i, j | 0 <= i < j < |actions| && actions[i].Reserve? && actions[j].Reserve? ::
          actions[i].thread != actions[j].thread)
  }

  /** An appender has looked and is about to reserve, is inside the append, or is done with it. */
  predicate ThreadFollows(q: Phase, p: R.Phase, r: Record, reserves: bool) {
    if p != R.Idle then q == Appending(r, 0) && !reserves
    else if reserves then q == Trying(r, 0)
    else q == Idle || q == Waiting(r)
  }

  /** The manager has one segment, which is in the given state and has the given run before it. */
  ghost predicate Follows(s: State, state: R.State, records: seq<Record>, actions: seq<R.Action>) {
    && |s.segments| == 1 && s.segments[0].state == state && s.current == 0 && s.lock == None
    && |s.threads| == |state.threads| == |records| && s.max == state.max
    && forall t | 0 <= t < |records| ::
         ThreadFollows(s.threads[t], state.threads[t], records[t], WillReserve(actions, t))
  }

  /** The manager's next state when the thread of the action takes it. */
  function Followed(s: State, a: R.Action, r: Record): State
    requires |s.segments| == 1 && R.Enabled(s.segments[0].state, a) && a.thread < |s.threads|
    requires s.threads[a.thread].Appending? || a.Reserve?
  {
    var p := s.segments[0].state.threads[a.thread];
    var q := if a.Reserve? then Appending(r, 0) else PhaseAfter(p, s.threads[a.thread]);
    Move(s, a.thread, q).(
      segments := s.segments[0 := Stepped(s.segments[0], a, r)],
      succeeded := if p.Copying? then s.succeeded + [r] else s.succeeded)
  }

  lemma FollowNext(s: State, a: R.Action, r: Record)
    requires |s.segments| == 1 && s.current == 0 && R.Enabled(s.segments[0].state, a) && a.thread < |s.threads|
    requires s.threads[a.thread] == if a.Reserve? then Trying(r, 0) else Appending(r, 0)
    requires a.Reserve? ==> a.bytes == Encode(r)
    ensures SomeNext(s, Followed(s, a, r))
  {
    hide Encode, R.Apply;
    var t := a.thread;
    if a.Reserve? {
      assert Next(s, t, Reserve, Followed(s, a, r));
    } else {
      assert a == NextAction(s.segments[0].state.threads[t], t);
      assert Next(s, t, Inside, Followed(s, a, r));
    }
  }

  lemma WillReserveNext(actions: seq<R.Action>, t: nat)
    requires actions != []
    ensures WillReserve(actions, t) <==> (actions[0].Reserve? && actions[0].thread == t) || WillReserve(actions[1..], t)
  {
    if WillReserve(actions[1..], t) {
      var i :| 0 <= i < |actions[1..]| && actions[1..][i].Reserve? && actions[1..][i].thread == t;
      assert actions[i + 1].Reserve? && actions[i + 1].thread == t;
    }
    if WillReserve(actions, t) && !(actions[0].Reserve? && actions[0].thread == t) {
      var i :| 0 <= i < |actions| && actions[i].Reserve? && actions[i].thread == t;
      assert actions[1..][i - 1].Reserve? && actions[1..][i - 1].thread == t;
    }
  }

  lemma ReservesNow(actions: seq<R.Action>, records: seq<Record>)
    requires actions != [] && OneEach(actions, records)
    ensures OneEach(actions[1..], records)
    ensures actions[0].Reserve? ==> !WillReserve(actions[1..], actions[0].thread)
  {
    hide Encode;
    forall i | 0 <= i < |actions[1..]| && actions[0].Reserve? && actions[1..][i].Reserve?
      ensures actions[1..][i].thread != actions[0].thread
    {
      assert actions[1..][i] == actions[i + 1];
    }
  }

  lemma FollowStep(s: State, records: seq<Record>, actions: seq<R.Action>)
    requires |s.segments| == 1
    requires actions != [] && OneEach(actions, records) && Follows(s, s.segments[0].state, records, actions)
    requires R.Enabled(s.segments[0].state, actions[0])
    ensures var a, state := actions[0], s.segments[0].state;
            && a.thread < |records| && (s.threads[a.thread].Appending? || a.Reserve?)
            && var n := Followed(s, a, records[a.thread]);
               SomeNext(s, n) && n.sizes == s.sizes && Follows(n, R.Apply(state, a), records, actions[1..])
  {
    hide Encode;
    var a, state := actions[0], s.segments[0].state;
    var t := a.thread;
    WillReserveNext(actions, t);
    ReservesNow(actions, records);
    assert ThreadFollows(s.threads[t], state.threads[t], records[t], WillReserve(actions, t));
    FollowNext(s, a, records[t]);
    var n := Followed(s, a, records[t]);
    forall u | 0 <= u < |records|
      ensures ThreadFollows(n.threads[u], R.Apply(state, a).threads[u], records[u], WillReserve(actions[1..], u))
    {
      WillReserveNext(actions, u);
    }
  }

  /** So the manager can take the whole run of its segment. */
  lemma {:induction false} Follow(before: seq<State>, records: seq<Record>, state: R.State, actions: seq<R.Action>)
    returns (run: seq<State>)
    requires before != [] && IsRun(before) && Follows(before[|before| - 1], state, records, actions)
    requires R.IsRun(state, actions) && OneEach(actions, records)
    ensures run != [] && IsRun(run) && run[0].sizes == before[0].sizes
    ensures Follows(run[|run| - 1], R.After(state, actions), records, [])
    decreases |actions|
  {
    hide Encode, IsRun, SomeNext, OneEach, R.Apply, R.Enabled, Followed, ThreadFollows;
    if actions == [] {
      run := before;
    } else {
      var s := before[|before| - 1];
      FollowStep(s, records, actions);
      var n := Followed(s, actions[0], records[actions[0].thread]);
      OneMore(before, n);
      OneEachRest(actions, records);
      run := Follow(before + [n], records, R.Apply(state, actions[0]), actions[1..]);
    }
  }

  lemma OneEachRest(actions: seq<R.Action>, records: seq<Record>)
    requires actions != [] && OneEach(actions, records)
    ensures OneEach(actions[1..], records)
  {
    hide Encode;
  }

  lemma OneMore(run: seq<State>, n: State)
    requires run != [] && IsRun(run) && SomeNext(run[|run| - 1], n)
    ensures IsRun(run + [n])
  {
    hide Next, Initial, IsRun;
    var t, step :| Next(run[|run| - 1], t, step, n);
    ManagerRuns.Extend(run, t, step, n);
  }

  // ---- Everybody has looked at the empty segment ----

  /** The first k appenders have found room for their records, and the others are idle. */
  ghost predicate Looked(s: State, max: nat, records: seq<Record>, k: nat) {
    && s.segments == [FreshSegment(0, max, |records|)] && s.current == 0 && s.lock == None && s.max == max
    && |s.threads| == |records|
    && forall t | 0 <= t < |records| :: s.threads[t] == if t < k then Trying(records[t], 0) else Idle
  }

  lemma {:induction false} EverybodyLooks(sizes: set<nat>, max: nat, records: seq<Record>, k: nat)
    returns (run: seq<State>)
    requires k <= |records|
    requires forall r | r in records :: r.Accepted() && r.SerializedSize() in sizes && r.SerializedSize() <= max
    ensures run != [] && IsRun(run) && run[0].sizes == run[|run| - 1].sizes == sizes
    ensures Looked(run[|run| - 1], max, records, k)
  {
    hide Encode, IsRun, R.Enabled, R.Apply;
    if k == 0 {
      var s := State(
        sizes, max, [FreshSegment(0, max, |records|)], 0, None, seq(|records|, _ => Idle), [], []);
      ManagerRuns.RunOfOne(s);
      run := [s];
    } else {
      run := EverybodyLooks(sizes, max, records, k - 1);
      var s, r := run[|run| - 1], records[k - 1];
      assert r in records;
      var a := Move(s, k - 1, Looping(r));
      ManagerRuns.Extend(run, k - 1, Begin(r), a);
      var b := Move(a, k - 1, Trying(r, 0));
      ManagerRuns.Extend(run + [a], k - 1, FirstLook, b);
      run := run + [a] + [b];
    }
  }

  // ---- Everybody gives up ----

  /** Nobody is inside an append or opening a segment, and the one segment is full. */
  ghost predicate Waiters(s: State) {
    && |s.segments| == 1 && s.current == 0 && s.lock == None && s.segments[0].state.writePos == s.max
    && forall t | 0 <= t < |s.threads| :: s.threads[t] == Idle || s.threads[t].Waiting?
  }

  /** An appender that waits to open another segment finds none to be had. */
  lemma GiveUp(before: seq<State>, t: nat) returns (run: seq<State>)
    requires before != [] && IsRun(before)
    requires var s := before[|before| - 1]; Waiters(s) && t < |s.threads| && s.threads[t].Waiting?
    ensures run != [] && IsRun(run) && run[0].sizes == before[0].sizes
    ensures run[|run| - 1] == Move(before[|before| - 1], t, Idle)
  {
    hide IsRun, LookAt, R.Enabled, Stepped;
    var s := before[|before| - 1];
    var r := s.threads[t].record;
    var look := LookAt(s, 0, r.SerializedSize());
    var a := Move(s, t, Locked(r)).(lock := Some(t));
    ManagerRuns.Extend(before, t, Acquire, a);
    var b := Move(a, t, Creating(r, look));
    SameLook(s, a, r.SerializedSize());
    ManagerRuns.Extend(before + [a], t, SecondLook, b);
    var c := Move(b, t, Named(r, look, 1));
    ManagerRuns.Extend(before + [a] + [b], t, ReadCount, c);
    var d := Move(c, t, Idle).(lock := None);
    ManagerRuns.Extend(before + [a] + [b] + [c], t, FailToCreate, d);
    run := before + [a] + [b] + [c] + [d];
    assert d.threads == s.threads[t := Idle];
  }

  lemma SameLook(s: State, a: State, size: nat)
    requires s.segments != [] && s.segments == a.segments
    ensures LookAt(s, 0, size) == LookAt(a, 0, size)
  {}

  lemma {:induction false} EverybodyGivesUp(before: seq<State>, k: nat) returns (run: seq<State>)
    requires before != [] && IsRun(before) && Waiters(before[|before| - 1]) && k <= |before[|before| - 1].threads|
    ensures run != [] && IsRun(run) && run[0].sizes == before[0].sizes
    ensures var s, n := before[|before| - 1], run[|run| - 1];
            && Waiters(n) && n.segments == s.segments && |n.threads| == |s.threads|
            && forall t | 0 <= t < k :: n.threads[t] == Idle
  {
    hide IsRun;
    if k == 0 {
      run := before;
    } else {
      run := EverybodyGivesUp(before, k - 1);
      if run[|run| - 1].threads[k - 1] != Idle {
        run := GiveUp(run, k - 1);
      }
    }
  }

  // ---- For which sizes every scan of a manager comes to an end ----

  ghost predicate AllIdle(s: State) { forall t | 0 <= t < |s.threads| :: s.threads[t] == Idle }

  ghost predicate Scannable(s: State) {
    forall k | 0 <= k < |s.segments| :: ConcurrentAppend.Scannable(s.segments[k].state)
  }

  /** Whatever the run, the number of appenders and the size of the segments. */
  ghost predicate AlwaysScannable(sizes: set<nat>) {
    forall run: seq<State>, i: nat | IsRun(run) && run[0].sizes == sizes && i < |run| && AllIdle(run[i]) ::
      Scannable(run[i])
  }

  /** For any set of serialized sizes: every scan of every segment of every quiet manager comes to an
      end, exactly if the largest size is at most twice the smallest. */
  lemma ScannableIff(sizes: set<nat>, lo: nat, hi: nat)
    requires R.Spans(sizes, lo, hi) && HEADER_SIZE <= lo && hi <= HEADER_SIZE + MAX_RECORD_SIZE
    ensures AlwaysScannable(sizes) <==> hi <= 2 * lo
  {
    hide SomeNext, Initial, Scannable;
    if hi <= 2 * lo {
      forall run: seq<State>, i: nat | IsRun(run) && run[0].sizes == sizes && i < |run| && AllIdle(run[i])
        ensures Scannable(run[i])
      {
        ManagerRuns.ScanIsWhatSucceeded(run, i, lo, hi);
        ScansEnd(run[i]);
      }
    } else {
      var small, large := Record(0, R.Zeros(lo - HEADER_SIZE)), Record(0, R.Zeros(hi - HEADER_SIZE));
      var run := HoleRun(sizes, lo, hi, small, large);
      assert !Scannable(run[|run| - 1]);
    }
  }

  lemma ScansEnd(s: State)
    requires forall k | 0 <= k < |s.segments| :: ManagerRuns.Scans(s.segments[k])
    ensures Scannable(s)
  {
    hide CursorAfter, EncodeAll;
    forall k | 0 <= k < |s.segments| ensures ConcurrentAppend.Scannable(s.segments[k].state) {
      assert ManagerRuns.Scans(s.segments[k]);
    }
  }

  /** The appends that leave a hole, as a list of five records. */
  function HoleRecords(small: Record, large: Record): seq<Record> { [large, large, small, small, small] }

  function HoleActions(small: Record, large: Record): seq<R.Action> {
    R.Overtaking(Encode(small), Encode(large)) + R.Settling()
  }

  lemma HoleReserves(small: Record, large: Record)
    ensures var actions := HoleActions(small, large);
            && |actions| == 17
            && (forall i | 0 <= i < 17 && actions[i].Reserve? :: i == 0 || i == 1 || i == 2 || i == 5 || i == 9)
            && actions[0] == R.Reserve(0, Encode(large)) && actions[1] == R.Reserve(1, Encode(large))
            && actions[2] == R.Reserve(2, Encode(small)) && actions[5] == R.Reserve(3, Encode(small))
            && actions[9] == R.Reserve(4, Encode(small))
  {
    hide Encode;
  }

  lemma HoleOneEach(small: Record, large: Record)
    ensures OneEach(HoleActions(small, large), HoleRecords(small, large))
    ensures forall t | 0 <= t < 5 :: WillReserve(HoleActions(small, large), t)
  {
    hide Encode, HoleActions;
    HoleReserves(small, large);
    var actions := HoleActions(small, large);
    forall t | 0 <= t < 5 ensures WillReserve(actions, t) {
      var i := if t < 3 then t else if t == 3 then 5 else 9;
      assert actions[i].Reserve? && actions[i].thread == t;
    }
  }

  lemma HoleRun(sizes: set<nat>, lo: nat, hi: nat, small: Record, large: Record) returns (run: seq<State>)
    requires lo in sizes && hi in sizes && 2 * lo < hi
    requires small.Accepted() && large.Accepted() && small.SerializedSize() == lo && large.SerializedSize() == hi
    ensures run != [] && IsRun(run) && run[0].sizes == sizes
    ensures AllIdle(run[|run| - 1]) && !Scannable(run[|run| - 1])
  {
    hide Encode, IsRun, R.IsRun, R.After, OneEach, WillReserve, HoleActions, ConcurrentAppend.Scannable;
    var max, records, actions := hi + 2 * lo, HoleRecords(small, large), HoleActions(small, large);
    HoleOneEach(small, large);
    run := EverybodyLooks(sizes, max, records, 5);
    var start := R.Start(max, 5, R.Zeros(max));
    var left := R.MixedSizesLeaveHole(lo, hi, R.Zeros(max), Encode(small), Encode(large));
    assert left == actions by { HoleIs(small, large); }
    run := Follow(run, records, start, actions);
    NobodyReserves();
    run := EverybodyGivesUp(run, 5);
    ConcurrentAppend.HoleIsUnscannable(R.After(start, actions), lo, hi, small, large);
  }

  lemma HoleIs(small: Record, large: Record)
    ensures HoleActions(small, large) == R.Overtaking(Encode(small), Encode(large)) + R.Settling()
  {}

  lemma NobodyReserves()
    ensures forall t: nat :: !WillReserve([], t)
  {}
}
