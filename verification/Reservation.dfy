/** The lock-free append of a segment, as any number of threads interleave it: reserve with
    fetch_add, test against the size, then copy the bytes in, or roll back with fetch_sub and
    report the room that was left. */
module Reservation {
  import opened Sequences
  import opened Words

  /** Where a thread stands between two appends or inside one.  `slot` only names the thread's
      entry in the history below, and `amid` remembers whether a reservation that must fail was
      outstanding when the thread made its own; the code has no such variables. */
  datatype Phase =
    | Idle
    | Reserved(offset: int, bytes: seq<u8>, slot: nat, amid: bool)
    | Doomed(offset: int, size: nat, amid: bool)
    | RolledBack(offset: int, size: nat, amid: bool)
    | Copying(offset: int, bytes: seq<u8>, slot: nat)

  datatype Stage = Held(thread: nat) | Accepted(thread: nat) | Written

  /** A reservation that lies inside the segment.  Whether it does is settled when it is made. */
  datatype Grant = Grant(offset: int, bytes: seq<u8>, stage: Stage)

  /** A failed append as it is reported: the size asked for, and the size of the segment minus the
      offset of the reservation.  The code subtracts unsigned numbers, so where `available` is
      negative that subtraction overflows. */
  datatype Refusal = Refusal(size: nat, available: int, amid: bool)

  datatype State = State(
    max: nat, writePos: int, threads: seq<Phase>, mem: seq<u8>, granted: seq<Grant>, refused: seq<Refusal>)

  datatype Action =
    | Reserve(thread: nat, bytes: seq<u8>)
    | Test(thread: nat)
    | Rollback(thread: nat)
    | Report(thread: nat)
    | Copy(thread: nat)

  function Inside(max: nat, offset: int, size: nat): bool { offset + size <= max }

  /** The test of a reservation against the size of the segment. */
  predicate Passes(s: State, t: nat)
    requires t < |s.threads| && s.threads[t].Reserved?
  {
    Inside(s.max, s.threads[t].offset, |s.threads[t].bytes|)
  }

  /** The thread is where the action starts from, and the action's memory accesses are in bounds. */
  predicate Enabled(s: State, a: Action) {
    && a.thread < |s.threads|
    && match a
       case Reserve(t, bytes) => s.threads[t].Idle? && |bytes| > 0
       case Test(t) => s.threads[t].Reserved? && (Passes(s, t) ==> s.threads[t].slot < |s.granted|)
       case Rollback(t) => s.threads[t].Doomed?
       case Report(t) => s.threads[t].RolledBack?
       case Copy(t) => s.threads[t].Copying? && s.threads[t].slot < |s.granted|
                       && 0 <= s.threads[t].offset && s.threads[t].offset + |s.threads[t].bytes| <= |s.mem|
  }

  function Overwrite(mem: seq<u8>, offset: nat, bytes: seq<u8>): (after: seq<u8>)
    requires offset + |bytes| <= |mem|
    ensures |after| == |mem|
  {
    mem[..offset] + bytes + mem[offset + |bytes|..]
  }

  function Apply(s: State, a: Action): State
    requires Enabled(s, a)
  {
    match a
    case Reserve(t, bytes) =>
      var offset := s.writePos;
      s.(writePos := s.writePos + |bytes|,
         threads := s.threads[t := Reserved(offset, bytes, |s.granted|, TotalOvershoot(s) > 0)],
         granted := if Inside(s.max, offset, |bytes|) then s.granted + [Grant(offset, bytes, Held(t))] else s.granted)
    case Test(t) =>
      var Reserved(offset, bytes, slot, amid) := s.threads[t];
      if Passes(s, t) then
        s.(threads := s.threads[t := Copying(offset, bytes, slot)],
           granted := s.granted[slot := Grant(offset, bytes, Accepted(t))])
      else
        s.(threads := s.threads[t := Doomed(offset, |bytes|, amid)])
    case Rollback(t) =>
      var Doomed(offset, size, amid) := s.threads[t];
      s.(writePos := s.writePos - size, threads := s.threads[t := RolledBack(offset, size, amid)])
    case Report(t) =>
      var RolledBack(offset, size, amid) := s.threads[t];
      s.(threads := s.threads[t := Idle], refused := s.refused + [Refusal(size, s.max - offset, amid)])
    case Copy(t) =>
      var Copying(offset, bytes, slot) := s.threads[t];
      s.(threads := s.threads[t := Idle],
         mem := Overwrite(s.mem, offset, bytes),
         granted := s.granted[slot := Grant(offset, bytes, Written)])
  }

  // ---- Runs ----

  ghost predicate IsRun(s: State, actions: seq<Action>)
    decreases |actions|
  {
    actions == [] || (Enabled(s, actions[0]) && IsRun(Apply(s, actions[0]), actions[1..]))
  }

  ghost function After(s: State, actions: seq<Action>): State
    requires IsRun(s, actions)
    decreases |actions|
  {
    if actions == [] then s else After(Apply(s, actions[0]), actions[1..])
  }

  /** An empty segment and n idle threads. */
  function Start(max: nat, n: nat, mem: seq<u8>): State
    requires |mem| == max
  {
    State(max, 0, seq(n, _ => Idle), mem, [], [])
  }

  // ---- Accounting, for any mix of record sizes ----

  /** Reserved and not yet decided or rolled back. */
  function Pending(p: Phase): int {
    match p
    case Reserved(_, bytes, _, _) => |bytes|
    case Doomed(_, size, _) => size
    case _ => 0
  }

  /** The part of it that will be rolled back. */
  function Overshoot(max: nat, p: Phase): int {
    match p
    case Reserved(offset, bytes, _, _) => if Inside(max, offset, |bytes|) then 0 else |bytes|
    case Doomed(_, size, _) => size
    case _ => 0
  }

  function Size(g: Grant): int { |g.bytes| }

  function AcceptedSize(g: Grant): int { if g.stage.Held? then 0 else |g.bytes| }

  function TotalOvershoot(s: State): int { Sum(s.threads, (p: Phase) => Overshoot(s.max, p)) }

  /** Threads and history agree about who holds what. */
  ghost predicate Linked(s: State) {
    && (forall t | 0 <= t < |s.threads| :: ThreadLinked(s, t))
    && (forall k | 0 <= k < |s.granted| :: GrantLinked(s, k))
  }

  ghost predicate ThreadLinked(s: State, t: nat)
    requires t < |s.threads|
  {
    match s.threads[t]
    case Reserved(offset, bytes, slot, _) =>
      |bytes| > 0 && (Inside(s.max, offset, |bytes|) ==>
                        slot < |s.granted| && s.granted[slot] == Grant(offset, bytes, Held(t)))
    case Copying(offset, bytes, slot) =>
      slot < |s.granted| && s.granted[slot] == Grant(offset, bytes, Accepted(t))
    case _ => true
  }

  ghost predicate GrantLinked(s: State, k: nat)
    requires k < |s.granted|
  {
    var g := s.granted[k];
    && |g.bytes| > 0 && 0 <= g.offset && Inside(s.max, g.offset, |g.bytes|)
    && match g.stage
       case Held(t) => t < |s.threads| && HoldsGrant(s.threads[t], g, k)
       case Accepted(t) => t < |s.threads| && s.threads[t] == Copying(g.offset, g.bytes, k)
       case Written => true
  }

  ghost predicate HoldsGrant(p: Phase, g: Grant, k: nat) {
    p.Reserved? && p.offset == g.offset && p.bytes == g.bytes && p.slot == k
  }

  ghost predicate Accounted(s: State) {
    && |s.mem| == s.max
    && Linked(s)
    && s.writePos == Sum(s.granted, AcceptedSize) + Sum(s.threads, Pending)
    && s.writePos == Sum(s.granted, Size) + TotalOvershoot(s)
    && Sum(s.granted, Size) <= s.max
  }

  lemma AccountedNonNegative(s: State)
    requires Linked(s) && s.writePos == Sum(s.granted, Size) + TotalOvershoot(s)
    ensures 0 <= TotalOvershoot(s) && 0 <= Sum(s.granted, Size) && 0 <= s.writePos
  {
    SumNonNegative(s.granted, Size);
    SumNonNegative(s.threads, (p: Phase) => Overshoot(s.max, p));
  }

  /** In an accounted state every thread has a next step, and its memory accesses are in bounds; the
      one step that can go wrong is the subtraction of a report (see `ReportsSafeIff`). */
  lemma NextStepEnabled(s: State, t: nat)
    requires Accounted(s) && t < |s.threads|
    ensures match s.threads[t]
            case Idle => forall bytes | |bytes| > 0 :: Enabled(s, Reserve(t, bytes))
            case Reserved(_, _, _, _) => Enabled(s, Test(t))
            case Doomed(_, _, _) => Enabled(s, Rollback(t))
            case RolledBack(_, _, _) => Enabled(s, Report(t))
            case Copying(_, _, _) => Enabled(s, Copy(t))
  {
    assert ThreadLinked(s, t);
    if s.threads[t].Copying? {
      assert GrantLinked(s, s.threads[t].slot);
    }
  }

  lemma LinkedStep(s: State, a: Action)
    requires Accounted(s) && Enabled(s, a)
    ensures Linked(Apply(s, a))
  {
    AccountedNonNegative(s);
    var n := Apply(s, a);
    assert ThreadLinked(s, a.thread);
    forall t | 0 <= t < |n.threads| ensures ThreadLinked(n, t) {
      assert ThreadLinked(s, t);
    }
    forall k | 0 <= k < |n.granted| ensures GrantLinked(n, k) {
      if k < |s.granted| {
        assert GrantLinked(s, k);
      }
    }
  }

  lemma SumsStep(s: State, a: Action)
    requires Accounted(s) && Enabled(s, a)
    ensures var n := Apply(s, a);
            var p, q := s.threads[a.thread], n.threads[a.thread];
            && Sum(n.threads, Pending) == Sum(s.threads, Pending) - Pending(p) + Pending(q)
            && TotalOvershoot(n) == TotalOvershoot(s) - Overshoot(s.max, p) + Overshoot(s.max, q)
  {
    var n := Apply(s, a);
    SumUpdate(s.threads, a.thread, n.threads[a.thread], Pending);
    SumUpdate(s.threads, a.thread, n.threads[a.thread], (p: Phase) => Overshoot(s.max, p));
    assert n.threads == s.threads[a.thread := n.threads[a.thread]];
    assert n.max == s.max;
  }

  lemma GrantSumsStep(s: State, a: Action)
    requires Accounted(s) && Enabled(s, a)
    ensures var n := Apply(s, a);
            && Sum(n.granted, Size) == Sum(s.granted, Size)
                 + (if a.Reserve? && Inside(s.max, s.writePos, |a.bytes|) then |a.bytes| else 0)
            && Sum(n.granted, AcceptedSize) == Sum(s.granted, AcceptedSize)
                 + (if a.Test? && Passes(s, a.thread) then |s.threads[a.thread].bytes| else 0)
  {
    assert ThreadLinked(s, a.thread);
    var n := Apply(s, a);
    match a
    case Reserve(t, bytes) =>
      SumAppend(s.granted, Grant(s.writePos, bytes, Held(t)), Size);
      SumAppend(s.granted, Grant(s.writePos, bytes, Held(t)), AcceptedSize);
    case Test(t) =>
      if Passes(s, t) {
        var k := s.threads[t].slot;
        SumUpdate(s.granted, k, n.granted[k], Size);
        SumUpdate(s.granted, k, n.granted[k], AcceptedSize);
      }
    case Rollback(_) =>
    case Report(_) =>
    case Copy(t) =>
      var k := s.threads[t].slot;
      SumUpdate(s.granted, k, n.granted[k], Size);
      SumUpdate(s.granted, k, n.granted[k], AcceptedSize);
  }

  /** Every step keeps the accounts. */
  lemma AccountedStep(s: State, a: Action)
    requires Accounted(s) && Enabled(s, a)
    ensures Accounted(Apply(s, a))
  {
    AccountedNonNegative(s);
    LinkedStep(s, a);
    SumsStep(s, a);
    GrantSumsStep(s, a);
    assert ThreadLinked(s, a.thread);
  }

  // ---- When the accepted ranges lie back to back ----

  /** Every grant starts where the one before it ends. */
  ghost predicate Tiled(s: State) {
    forall k | 0 <= k < |s.granted| :: s.granted[k].offset == Sum(s.granted[..k], Size)
  }

  /** The action is a reservation inside the segment made while one outside is outstanding. */
  ghost predicate GrantsAmidOvershoot(s: State, a: Action) {
    a.Reserve? && Inside(s.max, s.writePos, |a.bytes|) && TotalOvershoot(s) > 0
  }

  lemma TiledStep(s: State, a: Action)
    requires Accounted(s) && Enabled(s, a)
    ensures Tiled(Apply(s, a)) <==> Tiled(s) && !GrantsAmidOvershoot(s, a)
  {
    AccountedNonNegative(s);
    var n, last := Apply(s, a), |s.granted|;
    assert ThreadLinked(s, a.thread);
    forall k | 0 <= k < last
      ensures n.granted[k].offset == s.granted[k].offset
      ensures Sum(n.granted[..k], Size) == Sum(s.granted[..k], Size)
    {
      SamePrefixSum(s.granted, n.granted, k);
    }
    if |n.granted| > last {
      assert n.granted[..last] == s.granted;
      assert n.granted[last].offset == s.writePos;
    }
    if Tiled(n) {
      assert forall k | 0 <= k < last :: n.granted[k].offset == Sum(n.granted[..k], Size);
    }
  }

  lemma {:induction false} SamePrefixSum(a: seq<Grant>, b: seq<Grant>, k: nat)
    requires k <= |a| && k <= |b| && forall i | 0 <= i < k :: a[i].bytes == b[i].bytes
    ensures Sum(a[..k], Size) == Sum(b[..k], Size)
  {
    if k > 0 {
      SamePrefixSum(a, b, k - 1);
      assert a[..k] == a[..k - 1] + [a[k - 1]] && b[..k] == b[..k - 1] + [b[k - 1]];
      SumAppend(a[..k - 1], a[k - 1], Size);
      SumAppend(b[..k - 1], b[k - 1], Size);
    }
  }

  /** No step of the run makes a grant while a failed reservation is still to be rolled back. */
  ghost predicate Clean(s: State, actions: seq<Action>)
    requires IsRun(s, actions)
    decreases |actions|
  {
    actions == [] || (!GrantsAmidOvershoot(s, actions[0]) && Clean(Apply(s, actions[0]), actions[1..]))
  }

  /** For any interleaving and any mix of sizes: the bytes granted lie back to back exactly if no
      grant was made while a failed reservation was outstanding. */
  lemma {:induction false} TiledIffClean(s: State, actions: seq<Action>)
    requires IsRun(s, actions) && Accounted(s)
    ensures Accounted(After(s, actions))
    ensures Tiled(After(s, actions)) <==> Tiled(s) && Clean(s, actions)
    decreases |actions|
  {
    if actions != [] {
      AccountedStep(s, actions[0]);
      TiledStep(s, actions[0]);
      TiledIffClean(Apply(s, actions[0]), actions[1..]);
    }
  }

  lemma StartAccounted(max: nat, n: nat, mem: seq<u8>)
    requires |mem| == max
    ensures Accounted(Start(max, n, mem)) && Tiled(Start(max, n, mem)) && Intact(Start(max, n, mem))
  {
    var s := Start(max, n, mem);
    SumConstant(s.threads, Pending, 0);
    SumConstant(s.threads, (p: Phase) => Overshoot(s.max, p), 0);
  }

  // ---- What the accepted bytes are ----

  ghost predicate DisjointRanges(a: Grant, b: Grant) {
    a.offset + |a.bytes| <= b.offset || b.offset + |b.bytes| <= a.offset
  }

  lemma TiledDisjoint(s: State, j: nat, k: nat)
    requires Tiled(s) && j < k < |s.granted|
    ensures s.granted[j].offset + |s.granted[j].bytes| <= s.granted[k].offset
  {
    var upto := s.granted[..j + 1];
    assert s.granted[..k] == upto + s.granted[j + 1..k];
    SumConcat(upto, s.granted[j + 1..k], Size);
    SumNonNegative(s.granted[j + 1..k], Size);
    assert upto == s.granted[..j] + [s.granted[j]];
    SumAppend(s.granted[..j], s.granted[j], Size);
  }

  /** Bytes that a finished append wrote are in the buffer. */
  ghost predicate Intact(s: State) {
    |s.mem| == s.max && forall k | 0 <= k < |s.granted| :: IntactAt(s, k)
  }

  ghost predicate IntactAt(s: State, k: nat)
    requires k < |s.granted|
  {
    var g := s.granted[k];
    g.stage.Written? ==> 0 <= g.offset && g.offset + |g.bytes| <= |s.mem|
                         && s.mem[g.offset..g.offset + |g.bytes|] == g.bytes
  }

  lemma OverwriteOutside(mem: seq<u8>, offset: nat, bytes: seq<u8>, lo: nat, hi: nat)
    requires offset + |bytes| <= |mem| && lo <= hi <= |mem|
    requires hi <= offset || offset + |bytes| <= lo
    ensures Overwrite(mem, offset, bytes)[lo..hi] == mem[lo..hi]
  {}

  lemma OverwriteInside(mem: seq<u8>, offset: nat, bytes: seq<u8>)
    requires offset + |bytes| <= |mem|
    ensures Overwrite(mem, offset, bytes)[offset..offset + |bytes|] == bytes
  {}

  /** A copy writes its own range, which no other grant shares. */
  lemma CopyKeeps(s: State, t: nat, k: nat)
    requires Accounted(s) && Tiled(s) && IntactHere(s, k) && Enabled(s, Copy(t))
    ensures IntactHere(Apply(s, Copy(t)), k)
  {
    hide Sum, Tiled;
    assert ThreadLinked(s, t) && GrantLinked(s, k);
    var p, g := s.threads[t], s.granted[k];
    assert GrantLinked(s, p.slot);
    if k == p.slot {
      OverwriteInside(s.mem, p.offset, p.bytes);
    } else {
      TiledDisjoint(s, if k < p.slot then k else p.slot, if k < p.slot then p.slot else k);
      if g.stage.Written? {
        OverwriteOutside(s.mem, p.offset, p.bytes, g.offset, g.offset + |g.bytes|);
      }
    }
  }

  ghost predicate IntactHere(s: State, k: nat) { |s.mem| == s.max && k < |s.granted| && IntactAt(s, k) }

  lemma OthersKeep(s: State, a: Action, k: nat)
    requires Accounted(s) && Enabled(s, a) && !a.Copy?
    requires k < |s.granted| ==> IntactHere(s, k)
    requires k < |Apply(s, a).granted|
    ensures IntactHere(Apply(s, a), k)
  {
    hide Sum;
    assert ThreadLinked(s, a.thread);
  }

  /** No later write touches them. */
  lemma IntactStep(s: State, a: Action)
    requires Accounted(s) && Tiled(s) && Intact(s) && Enabled(s, a)
    ensures Intact(Apply(s, a))
  {
    hide Accounted, Tiled, IntactAt;
    var n := Apply(s, a);
    forall k | 0 <= k < |n.granted| ensures IntactAt(n, k) {
      assert k < |s.granted| ==> IntactAt(s, k);
      if a.Copy? {
        CopyKeeps(s, a.thread, k);
      } else {
        OthersKeep(s, a, k);
      }
    }
    MemorySize(s, a);
  }

  lemma MemorySize(s: State, a: Action)
    requires Enabled(s, a)
    ensures |Apply(s, a).mem| == |s.mem| && Apply(s, a).max == s.max
  {}

  /** A grant keeps its place and its bytes for ever, and once written it stays written. */
  ghost predicate Extends(before: seq<Grant>, now: seq<Grant>) {
    && |before| <= |now|
    && forall k | 0 <= k < |before| ::
         && now[k].offset == before[k].offset && now[k].bytes == before[k].bytes
         && (before[k].stage.Written? ==> now[k].stage.Written?)
  }

  /** In a clean run every accepted append ends with its bytes in its own range, which nothing
      writes to again. */
  lemma {:induction false} CleanRun(s: State, actions: seq<Action>)
    requires IsRun(s, actions) && Accounted(s) && Tiled(s) && Intact(s) && Clean(s, actions)
    ensures Accounted(After(s, actions)) && Tiled(After(s, actions)) && Intact(After(s, actions))
    ensures Extends(s.granted, After(s, actions).granted)
    decreases |actions|
  {
    if actions != [] {
      var n := Apply(s, actions[0]);
      AccountedStep(s, actions[0]);
      TiledStep(s, actions[0]);
      IntactStep(s, actions[0]);
      assert ThreadLinked(s, actions[0].thread);
      CleanRun(n, actions[1..]);
    }
  }

  function Contents(granted: seq<Grant>): seq<u8> { FlatMap((g: Grant) => g.bytes, granted) }

  lemma {:induction false} TiledContents(s: State, k: nat)
    requires Accounted(s) && Tiled(s) && Intact(s) && k <= |s.granted|
    requires forall g | g in s.granted :: g.stage.Written?
    ensures 0 <= Sum(s.granted[..k], Size) <= s.max
    ensures s.mem[..Sum(s.granted[..k], Size)] == Contents(s.granted[..k])
  {
    hide Sum, FlatMap, Linked, Overshoot;
    if k == 0 {
      assert s.granted[..0] == [];
      NothingContained();
    } else {
      TiledContents(s, k - 1);
      var g := s.granted[k - 1];
      GrantFits(s, k - 1);
      assert s.granted[..k] == s.granted[..k - 1] + [g];
      SumAppend(s.granted[..k - 1], g, Size);
      FlatMapAppend((g: Grant) => g.bytes, s.granted[..k - 1], g);
      assert s.mem[..g.offset + |g.bytes|] == s.mem[..g.offset] + s.mem[g.offset..g.offset + |g.bytes|];
    }
  }

  lemma NothingContained()
    ensures Sum([], Size) == 0 && Contents([]) == []
  {}

  lemma GrantFits(s: State, k: nat)
    requires Accounted(s) && Intact(s) && k < |s.granted| && s.granted[k].stage.Written?
    ensures var g := s.granted[k];
            && 0 <= g.offset && g.offset + |g.bytes| <= s.max == |s.mem|
            && s.mem[g.offset..g.offset + |g.bytes|] == g.bytes
  {
    assert IntactAt(s, k) && GrantLinked(s, k);
  }

  /** No thread has a reservation; one that has rolled back may still have to report, or may have
      failed to. */
  ghost predicate Quiescent(s: State) {
    forall t | 0 <= t < |s.threads| :: s.threads[t].Idle? || s.threads[t].RolledBack?
  }

  /** When no append is under way after a clean run, the accepted ranges tile the used bytes. */
  lemma QuiescentContents(s: State)
    requires Accounted(s) && Tiled(s) && Intact(s)
    requires Quiescent(s)
    ensures 0 <= s.writePos <= s.max
    ensures s.mem[..s.writePos] == Contents(s.granted)
  {
    forall k | 0 <= k < |s.granted| ensures s.granted[k].stage.Written? {
      assert GrantLinked(s, k);
    }
    SumConstant(s.threads, (p: Phase) => Overshoot(s.max, p), 0);
    TiledContents(s, |s.granted|);
    assert s.granted[..|s.granted|] == s.granted;
  }

  // ---- Record sizes from lo to hi ----

  predicate SizeWithin(p: Phase, lo: nat, hi: nat) {
    match p
    case Reserved(_, bytes, _, _) => lo <= |bytes| <= hi
    case Doomed(_, size, _) => lo <= size <= hi
    case Copying(_, bytes, _) => lo <= |bytes| <= hi
    case _ => true
  }

  /** All sizes are from lo to hi, and while a failed reservation is outstanding the segment has no
      room for the largest. */
  ghost predicate Within(s: State, lo: nat, hi: nat) {
    && (forall t | 0 <= t < |s.threads| :: SizeWithin(s.threads[t], lo, hi))
    && (TotalOvershoot(s) > 0 ==> Sum(s.granted, Size) + hi > s.max)
  }

  lemma {:induction false} OvershootAtLeast(threads: seq<Phase>, max: nat, lo: nat, hi: nat)
    requires forall t | 0 <= t < |threads| :: SizeWithin(threads[t], lo, hi)
    ensures var total := Sum(threads, (p: Phase) => Overshoot(max, p)); total == 0 || total >= lo
    ensures Sum(threads, (p: Phase) => Overshoot(max, p)) >= 0
    decreases |threads|
  {
    if threads != [] {
      OvershootAtLeast(threads[1..], max, lo, hi);
    }
  }

  lemma WithinStep(s: State, a: Action, lo: nat, hi: nat)
    requires Accounted(s) && Enabled(s, a) && Within(s, lo, hi)
    requires a.Reserve? ==> lo <= |a.bytes| <= hi
    ensures Within(Apply(s, a), lo, hi)
  {
    hide Sum;
    AccountedNonNegative(s);
    SumsStep(s, a);
    GrantSumsStep(s, a);
    assert SizeWithin(s.threads[a.thread], lo, hi);
    if a.Rollback? {
      SumNonNegative(Apply(s, a).threads, (p: Phase) => Overshoot(s.max, p));
    }
  }

  /** If no size is more than twice another, a reservation made while a failed one is outstanding
      fails too. */
  lemma WithinIsClean(s: State, a: Action, lo: nat, hi: nat)
    requires Accounted(s) && Enabled(s, a) && Within(s, lo, hi) && hi <= 2 * lo
    requires a.Reserve? ==> lo <= |a.bytes| <= hi
    ensures !GrantsAmidOvershoot(s, a)
  {
    OvershootAtLeast(s.threads, s.max, lo, hi);
  }

  ghost predicate Good(s: State, lo: nat, hi: nat) {
    Accounted(s) && Within(s, lo, hi) && Tiled(s) && Intact(s)
  }

  lemma GoodStep(s: State, a: Action, lo: nat, hi: nat)
    requires Good(s, lo, hi) && Enabled(s, a) && hi <= 2 * lo
    requires a.Reserve? ==> lo <= |a.bytes| <= hi
    ensures Good(Apply(s, a), lo, hi)
  {
    hide Accounted, Within, Tiled, Intact, Apply, GrantsAmidOvershoot;
    AccountedStep(s, a);
    WithinStep(s, a, lo, hi);
    WithinIsClean(s, a, lo, hi);
    TiledStep(s, a);
    IntactStep(s, a);
  }

  ghost predicate Sized(actions: seq<Action>, lo: nat, hi: nat) {
    forall i | 0 <= i < |actions| :: actions[i].Reserve? ==> lo <= |actions[i].bytes| <= hi
  }

  lemma {:induction false} GoodRun(s: State, actions: seq<Action>, lo: nat, hi: nat)
    requires IsRun(s, actions) && Good(s, lo, hi) && hi <= 2 * lo && Sized(actions, lo, hi)
    ensures Good(After(s, actions), lo, hi) && Clean(s, actions)
    decreases |actions|
  {
    hide Good, Apply, GrantsAmidOvershoot;
    if actions != [] {
      assert Good(s, lo, hi) ==> Accounted(s) && Within(s, lo, hi) by { GoodMeans(s, lo, hi); }
      GoodStep(s, actions[0], lo, hi);
      WithinIsClean(s, actions[0], lo, hi);
      GoodRun(Apply(s, actions[0]), actions[1..], lo, hi);
    }
  }

  lemma GoodMeans(s: State, lo: nat, hi: nat)
    ensures Good(s, lo, hi) ==> Accounted(s) && Within(s, lo, hi) && Tiled(s) && Intact(s)
  {}

  lemma StartGood(max: nat, n: nat, mem: seq<u8>, lo: nat, hi: nat)
    requires |mem| == max
    ensures Good(Start(max, n, mem), lo, hi)
  {
    var s := Start(max, n, mem);
    StartAccounted(max, n, mem);
    SumConstant(s.threads, (p: Phase) => Overshoot(s.max, p), 0);
  }

  // ---- What a failed append reports ----

  /** A reservation that starts beyond the end was made while a failed one was outstanding; and, if
      that is exact, the other way round. */
  predicate Blames(room: int, amid: bool, exact: bool) {
    (room < 0 ==> amid) && (exact && amid ==> room < 0)
  }

  predicate PhaseExplained(max: nat, p: Phase, exact: bool) {
    match p
    case Reserved(offset, bytes, _, amid) => Inside(max, offset, |bytes|) || Blames(max - offset, amid, exact)
    case Doomed(offset, _, amid) => Blames(max - offset, amid, exact)
    case RolledBack(offset, _, amid) => Blames(max - offset, amid, exact)
    case _ => true
  }

  ghost predicate Explained(s: State, exact: bool) {
    && (forall t | 0 <= t < |s.threads| :: PhaseExplained(s.max, s.threads[t], exact))
    && (forall i | 0 <= i < |s.refused| :: Blames(s.refused[i].available, s.refused[i].amid, exact))
  }

  lemma ExplainedStep(s: State, a: Action, exact: bool)
    requires Accounted(s) && Explained(s, exact) && Enabled(s, a)
    requires exact && a.Reserve? && TotalOvershoot(s) > 0 ==> s.writePos > s.max
    ensures Explained(Apply(s, a), exact)
  {
    hide Sum, Linked;
    assert PhaseExplained(s.max, s.threads[a.thread], exact);
  }

  /** With one size, the outstanding reservation alone fills the rest of the segment. */
  lemma OvershootFills(s: State, size: nat)
    requires Accounted(s) && Within(s, size, size) && TotalOvershoot(s) > 0
    ensures s.writePos > s.max
  {
    OvershootAtLeast(s.threads, s.max, size, size);
  }

  lemma {:induction false} ExplainedRun(s: State, actions: seq<Action>, size: nat, exact: bool)
    requires IsRun(s, actions) && Accounted(s) && Explained(s, exact)
    requires exact ==> Within(s, size, size) && Sized(actions, size, size)
    ensures Explained(After(s, actions), exact)
    decreases |actions|
  {
    hide Accounted, Within, Explained, Apply;
    if actions != [] {
      AccountedStep(s, actions[0]);
      if exact {
        if TotalOvershoot(s) > 0 { OvershootFills(s, size); }
        WithinStep(s, actions[0], size, size);
      }
      ExplainedStep(s, actions[0], exact);
      ExplainedRun(Apply(s, actions[0]), actions[1..], size, exact);
    }
  }

  // ---- The protocol from an empty segment ----

  /** Any number of threads, any interleaving, any sizes: the write position is the accepted bytes
      plus the reservations not yet decided or rolled back, and neither overflows the segment; and
      the subtraction of a report overflows only if a failed reservation was outstanding. */
  lemma AnySizes(max: nat, n: nat, mem: seq<u8>, actions: seq<Action>)
    requires |mem| == max && IsRun(Start(max, n, mem), actions)
    ensures var s := After(Start(max, n, mem), actions);
            && s.writePos == Sum(s.granted, AcceptedSize) + Sum(s.threads, Pending)
            && 0 <= Sum(s.threads, Pending)
            && 0 <= Sum(s.granted, AcceptedSize) <= max
            && (forall g | g in s.granted :: 0 <= g.offset && g.offset + |g.bytes| <= max)
            && (forall e | e in s.refused :: e.available < 0 ==> e.amid)
    ensures Tiled(After(Start(max, n, mem), actions)) <==> Clean(Start(max, n, mem), actions)
  {
    StartAccounted(max, n, mem);
    TiledIffClean(Start(max, n, mem), actions);
    RunKeepsMax(Start(max, n, mem), actions);
    ExplainedRun(Start(max, n, mem), actions, 0, false);
    var s := After(Start(max, n, mem), actions);
    SumNonNegative(s.threads, Pending);
    SumNonNegative(s.granted, AcceptedSize);
    AcceptedIsGranted(s.granted);
    forall g | g in s.granted ensures 0 <= g.offset && g.offset + |g.bytes| <= max {
      var k :| 0 <= k < |s.granted| && s.granted[k] == g;
      assert GrantLinked(s, k);
    }
  }

  lemma {:induction false} AcceptedIsGranted(granted: seq<Grant>)
    ensures Sum(granted, AcceptedSize) <= Sum(granted, Size)
    decreases |granted|
  {
    if granted != [] {
      AcceptedIsGranted(granted[1..]);
    }
  }

  /** Granted ranges are pairwise disjoint, finished appends keep their bytes, and when nothing is
      under way the ranges are the used bytes, one after another. */
  ghost predicate Sound(s: State) {
    && (forall j, k | 0 <= j < k < |s.granted| :: DisjointRanges(s.granted[j], s.granted[k]))
    && Intact(s)
    && (Quiescent(s) ==> 0 <= s.writePos <= |s.mem| && s.mem[..s.writePos] == Contents(s.granted))
  }

  lemma GoodIsSound(s: State, lo: nat, hi: nat)
    requires Good(s, lo, hi)
    ensures Sound(s)
  {
    forall j, k | 0 <= j < k < |s.granted| ensures DisjointRanges(s.granted[j], s.granted[k]) {
      TiledDisjoint(s, j, k);
    }
    if Quiescent(s) {
      QuiescentContents(s);
    }
  }

  /** A run of n threads on an empty segment with records of the given sizes only. */
  ghost predicate RunOfSizes(max: nat, n: nat, mem: seq<u8>, actions: seq<Action>, sizes: set<nat>) {
    && |mem| == max && IsRun(Start(max, n, mem), actions)
    && forall a | a in actions && a.Reserve? :: |a.bytes| in sizes
  }

  /** Whatever the segment, the number of threads and the interleaving. */
  ghost predicate AlwaysSound(sizes: set<nat>) {
    forall max, n, mem, actions ::
      RunOfSizes(max, n, mem, actions, sizes) ==> Sound(After(Start(max, n, mem), actions))
  }

  /** Lo is the smallest of the sizes, and hi the largest. */
  ghost predicate Spans(sizes: set<nat>, lo: nat, hi: nat) {
    lo in sizes && hi in sizes && forall x | x in sizes :: lo <= x <= hi
  }

  lemma RunWithinTwice(max: nat, n: nat, mem: seq<u8>, actions: seq<Action>, sizes: set<nat>, lo: nat, hi: nat)
    requires RunOfSizes(max, n, mem, actions, sizes) && Spans(sizes, lo, hi) && hi <= 2 * lo
    ensures Good(After(Start(max, n, mem), actions), lo, hi) && Sound(After(Start(max, n, mem), actions))
  {
    hide Good, IsRun, After;
    forall i | 0 <= i < |actions| && actions[i].Reserve? ensures lo <= |actions[i].bytes| <= hi {
      assert actions[i] in actions;
    }
    StartGood(max, n, mem, lo, hi);
    GoodRun(Start(max, n, mem), actions, lo, hi);
    GoodIsSound(After(Start(max, n, mem), actions), lo, hi);
  }

  /** For any set of record sizes: the append keeps its ranges disjoint and its records intact in
      every segment under every interleaving exactly if the largest size is at most twice the
      smallest. */
  lemma SizesSafeIff(sizes: set<nat>, lo: nat, hi: nat)
    requires Spans(sizes, lo, hi) && lo > 0
    ensures AlwaysSound(sizes) <==> hi <= 2 * lo
  {
    hide Sound, IsRun, After, Overtaking;
    if hi <= 2 * lo {
      forall max, n, mem, actions | RunOfSizes(max, n, mem, actions, sizes)
        ensures Sound(After(Start(max, n, mem), actions))
      {
        RunWithinTwice(max, n, mem, actions, sizes, lo, hi);
      }
    } else {
      var mem, small, large := Zeros(hi + 2 * lo), Zeros(lo), Zeros(hi);
      var actions := MixedSizesCanOverlap(lo, hi, mem, small, large);
      OverlapIsUnsound(After(Start(hi + 2 * lo, 5, mem), actions), lo, hi);
      forall a | a in actions && a.Reserve? ensures |a.bytes| in sizes { OverlapReserves(small, large, a); }
      assert RunOfSizes(hi + 2 * lo, 5, mem, actions, sizes);
    }
  }

  function Zeros(n: nat): seq<u8> { seq(n, _ => 0) }

  /** With one common record size, and then a failed append reports a number below zero exactly if
      another failed reservation was outstanding when it reserved. */
  lemma OneSize(max: nat, n: nat, mem: seq<u8>, actions: seq<Action>, size: nat)
    requires |mem| == max && IsRun(Start(max, n, mem), actions)
    requires forall a | a in actions && a.Reserve? :: |a.bytes| == size
    ensures var s := After(Start(max, n, mem), actions);
            && Sound(s)
            && forall e | e in s.refused :: e.available < 0 <==> e.amid
  {
    hide Sound, Good, IsRun, After;
    var start := Start(max, n, mem);
    RunWithinTwice(max, n, mem, actions, {size}, size, size);
    StartAccounted(max, n, mem);
    StartGood(max, n, mem, size, size);
    GoodMeans(start, size, size);
    forall i | 0 <= i < |actions| && actions[i].Reserve? ensures size <= |actions[i].bytes| <= size {
      assert actions[i] in actions;
    }
    ExplainedRun(start, actions, size, true);
  }

  lemma {:induction false} RunKeepsMax(s: State, actions: seq<Action>)
    requires IsRun(s, actions)
    ensures After(s, actions).max == s.max
    decreases |actions|
  {
    if actions != [] {
      RunKeepsMax(Apply(s, actions[0]), actions[1..]);
    }
  }

  // ---- Runs step by step ----

  lemma {:induction false} RunAppend(s: State, actions: seq<Action>, a: Action)
    requires IsRun(s, actions) && Enabled(After(s, actions), a)
    ensures IsRun(s, actions + [a]) && After(s, actions + [a]) == Apply(After(s, actions), a)
    decreases |actions|
  {
    if actions == [] {
      assert [a][1..] == [];
    } else {
      RunAppend(Apply(s, actions[0]), actions[1..], a);
      assert (actions + [a])[1..] == actions[1..] + [a];
    }
  }

  ghost predicate Leads(s: State, actions: seq<Action>, t: State) { IsRun(s, actions) && After(s, actions) == t }

  lemma LeadsNowhere(s: State)
    ensures Leads(s, [], s)
  {}

  lemma LeadsOn(s: State, actions: seq<Action>, t: State, a: Action)
    requires Leads(s, actions, t) && Enabled(t, a)
    ensures Leads(s, actions + [a], Apply(t, a))
  {
    RunAppend(s, actions, a);
  }

  /** A failed large reservation and a small one behind it, rolled back in turn, take the position
      back over bytes granted in between. */
  function Overtaking(small: seq<u8>, large: seq<u8>): seq<Action> {
    [Reserve(0, large)] + [Reserve(1, large)] + [Reserve(2, small)] + [Test(1)] + [Rollback(1)]
    + [Reserve(3, small)] + [Test(3)] + [Test(2)] + [Rollback(2)] + [Reserve(4, small)] + [Test(4)]
  }

  ghost predicate Overlapping(s: State, at: int, size: nat) {
    && |s.granted| == 3 && s.granted[1].stage.Accepted? && s.granted[2].stage.Accepted?
    && s.granted[1].offset == s.granted[2].offset == at && |s.granted[1].bytes| == |s.granted[2].bytes| == size
  }

  /** With two sizes of which one is more than twice the other, two accepted small records can
      share one range. */
  lemma MixedSizesCanOverlap(lo: nat, hi: nat, mem: seq<u8>, small: seq<u8>, large: seq<u8>)
    returns (actions: seq<Action>)
    requires 0 < lo && 2 * lo < hi && |mem| == hi + 2 * lo && |small| == lo && |large| == hi
    ensures actions == Overtaking(small, large) && IsRun(Start(hi + 2 * lo, 5, mem), actions)
    ensures Overlapping(After(Start(hi + 2 * lo, 5, mem), actions), hi + lo, lo)
    ensures Overtaken(After(Start(hi + 2 * lo, 5, mem), actions), lo, hi, mem, small, large)
  {
    hide IsRun, After, TotalOvershoot;
    var s := Start(hi + 2 * lo, 5, mem);
    LeadsNowhere(s);
    var t0 := Apply(s, Reserve(0, large));
    LeadsOn(s, [], s, Reserve(0, large));
    assert [] + [Reserve(0, large)] == [Reserve(0, large)];
    actions := [Reserve(0, large)];
    var t1 := Apply(t0, Reserve(1, large));
    LeadsOn(s, actions, t0, Reserve(1, large));
    actions := actions + [Reserve(1, large)];
    var t2 := Apply(t1, Reserve(2, small));
    LeadsOn(s, actions, t1, Reserve(2, small));
    actions := actions + [Reserve(2, small)];
    assert Passed(t2, lo, hi, mem, small, large);
    actions := RollBackLarge(s, actions, t2, lo, hi, mem, small, large);
    actions := RollBackSmall(s, actions, lo, hi, mem, small, large);
  }

  /** Thread 0 has the first hi bytes, thread 1 and thread 2 will both fail. */
  ghost predicate Passed(t: State, lo: nat, hi: nat, mem: seq<u8>, small: seq<u8>, large: seq<u8>) {
    && t.max == hi + 2 * lo && t.writePos == 2 * hi + lo && |t.granted| == 1 && |t.threads| == 5 && t.mem == mem
    && t.threads[0].Reserved? && t.threads[0].offset == 0 && t.threads[0].bytes == large && t.threads[0].slot == 0
    && t.threads[1].Reserved? && t.threads[1].offset == hi && t.threads[1].bytes == large
    && t.threads[2].Reserved? && t.threads[2].offset == 2 * hi && t.threads[2].bytes == small
    && t.threads[3] == Idle && t.threads[4] == Idle
  }

  /** Threads 3 and 4 are about to copy to the same range; thread 0 is still to be tested. */
  ghost predicate Overtaken(t: State, lo: nat, hi: nat, mem: seq<u8>, small: seq<u8>, large: seq<u8>) {
    && t.max == t.writePos == hi + 2 * lo && |t.granted| == 3 && |t.threads| == 5 && t.mem == mem
    && t.threads[0].Reserved? && t.threads[0].offset == 0 && t.threads[0].bytes == large && t.threads[0].slot == 0
    && t.threads[1].RolledBack? && t.threads[2].RolledBack?
    && t.threads[3] == Copying(hi + lo, small, 1) && t.threads[4] == Copying(hi + lo, small, 2)
  }

  /** Thread 1 has rolled back, and thread 3 has the lo bytes behind the hi that it gave back and lo more. */
  ghost predicate Regranted(t: State, lo: nat, hi: nat, mem: seq<u8>, small: seq<u8>, large: seq<u8>) {
    && t.max == t.writePos == hi + 2 * lo && |t.granted| == 2 && |t.threads| == 5 && t.mem == mem
    && t.threads[0].Reserved? && t.threads[0].offset == 0 && t.threads[0].bytes == large && t.threads[0].slot == 0
    && t.threads[1].RolledBack? && t.threads[4] == Idle
    && t.threads[2].Reserved? && t.threads[2].offset == 2 * hi && t.threads[2].bytes == small
    && t.threads[3] == Copying(hi + lo, small, 1) && t.granted[1] == Grant(hi + lo, small, Accepted(3))
  }

  lemma RollBackLarge(
    s: State, before: seq<Action>, t: State, lo: nat, hi: nat, mem: seq<u8>, small: seq<u8>, large: seq<u8>)
    returns (actions: seq<Action>)
    requires 0 < lo && 2 * lo < hi && |small| == lo && |large| == hi
    requires Leads(s, before, t) && Passed(t, lo, hi, mem, small, large)
    ensures actions == before + [Test(1)] + [Rollback(1)] + [Reserve(3, small)] + [Test(3)]
    ensures IsRun(s, actions) && Regranted(After(s, actions), lo, hi, mem, small, large)
  {
    hide IsRun, After, TotalOvershoot;
    actions := before;
    var t1 := Apply(t, Test(1));
    LeadsOn(s, actions, t, Test(1));
    actions := actions + [Test(1)];
    var t2 := Apply(t1, Rollback(1));
    LeadsOn(s, actions, t1, Rollback(1));
    actions := actions + [Rollback(1)];
    var t3 := Apply(t2, Reserve(3, small));
    LeadsOn(s, actions, t2, Reserve(3, small));
    actions := actions + [Reserve(3, small)];
    var t4 := Apply(t3, Test(3));
    LeadsOn(s, actions, t3, Test(3));
    actions := actions + [Test(3)];
  }

  lemma RollBackSmall(
    s: State, before: seq<Action>, lo: nat, hi: nat, mem: seq<u8>, small: seq<u8>, large: seq<u8>)
    returns (actions: seq<Action>)
    requires 0 < lo && 2 * lo < hi && |small| == lo && |large| == hi
    requires IsRun(s, before) && Regranted(After(s, before), lo, hi, mem, small, large)
    ensures actions == before + [Test(2)] + [Rollback(2)] + [Reserve(4, small)] + [Test(4)]
    ensures IsRun(s, actions) && Overlapping(After(s, actions), hi + lo, lo)
    ensures Overtaken(After(s, actions), lo, hi, mem, small, large)
  {
    hide IsRun, After, TotalOvershoot;
    actions := before;
    var t4 := After(s, before);
    var t5 := Apply(t4, Test(2));
    LeadsOn(s, actions, t4, Test(2));
    actions := actions + [Test(2)];
    var t6 := Apply(t5, Rollback(2));
    LeadsOn(s, actions, t5, Rollback(2));
    actions := actions + [Rollback(2)];
    var t7 := Apply(t6, Reserve(4, small));
    LeadsOn(s, actions, t6, Reserve(4, small));
    actions := actions + [Reserve(4, small)];
    var t8 := Apply(t7, Test(4));
    LeadsOn(s, actions, t7, Test(4));
    actions := actions + [Test(4)];
  }

  /** All threads come to rest: the bytes between the first record and the shared range were never
      written, and lie below the write position. */
  function Settling(): seq<Action> { [Test(0)] + [Copy(0)] + [Copy(3)] + [Copy(4)] + [Report(1)] + [Report(2)] }

  lemma MixedSizesLeaveHole(lo: nat, hi: nat, mem: seq<u8>, small: seq<u8>, large: seq<u8>)
    returns (actions: seq<Action>)
    requires 0 < lo && 2 * lo < hi && |mem| == hi + 2 * lo && |small| == lo && |large| == hi
    ensures actions == Overtaking(small, large) + Settling() && IsRun(Start(hi + 2 * lo, 5, mem), actions)
    ensures var end := After(Start(hi + 2 * lo, 5, mem), actions);
            && end.threads == [Idle, Idle, Idle, Idle, Idle]
            && end.max == end.writePos == hi + 2 * lo && end.mem == large + mem[hi..hi + lo] + small
  {
    hide IsRun, After, TotalOvershoot, Overtaking, Overlapping, Start;
    var s := Start(hi + 2 * lo, 5, mem);
    var before := MixedSizesCanOverlap(lo, hi, mem, small, large);
    var t := After(s, before);
    var t1 := Apply(t, Test(0));
    LeadsOn(s, before, t, Test(0));
    actions := before + [Test(0)];
    var t2 := Apply(t1, Copy(0));
    LeadsOn(s, actions, t1, Copy(0));
    actions := actions + [Copy(0)];
    var t3 := Apply(t2, Copy(3));
    LeadsOn(s, actions, t2, Copy(3));
    actions := actions + [Copy(3)];
    var t4 := Apply(t3, Copy(4));
    LeadsOn(s, actions, t3, Copy(4));
    actions := actions + [Copy(4)];
    var t5 := Apply(t4, Report(1));
    LeadsOn(s, actions, t4, Report(1));
    actions := actions + [Report(1)];
    var t6 := Apply(t5, Report(2));
    LeadsOn(s, actions, t5, Report(2));
    actions := actions + [Report(2)];
    CopiesLeaveHole(mem, lo, hi, small, large);
    assert actions == before + Settling();
  }

  lemma CopiesLeaveHole(mem: seq<u8>, lo: nat, hi: nat, small: seq<u8>, large: seq<u8>)
    requires |mem| == hi + 2 * lo && |small| == lo && |large| == hi
    ensures Overwrite(Overwrite(Overwrite(mem, 0, large), hi + lo, small), hi + lo, small)
         == large + mem[hi..hi + lo] + small
  {}

  lemma OverlapIsUnsound(s: State, lo: nat, hi: nat)
    requires Overlapping(s, hi + lo, lo) && lo > 0
    ensures !Sound(s)
  {
    assert !DisjointRanges(s.granted[1], s.granted[2]);
  }

  lemma OverlapReserves(small: seq<u8>, large: seq<u8>, a: Action)
    requires a in Overtaking(small, large) + Settling() && a.Reserve?
    ensures a.bytes == small || a.bytes == large
  {}

  // ---- Which reports overflow ----

  /** The segment is full of one record and two threads are idle. */
  ghost predicate FullAndIdle(t: State, size: nat) {
    && t.max == t.writePos == size && |t.threads| >= 2 && t.threads[0] == t.threads[1] == Idle && t.refused == []
  }

  lemma FillSegment(n: nat, mem: seq<u8>, bytes: seq<u8>) returns (actions: seq<Action>)
    requires n >= 2 && |mem| == |bytes| > 0
    ensures IsRun(Start(|mem|, n, mem), actions) && forall a | a in actions && a.Reserve? :: a.bytes == bytes
    ensures FullAndIdle(After(Start(|mem|, n, mem), actions), |mem|)
  {
    hide IsRun, After, TotalOvershoot;
    var s := Start(|mem|, n, mem);
    LeadsNowhere(s);
    var t0 := Apply(s, Reserve(0, bytes));
    LeadsOn(s, [], s, Reserve(0, bytes));
    actions := [] + [Reserve(0, bytes)];
    var t1 := Apply(t0, Test(0));
    LeadsOn(s, actions, t0, Test(0));
    actions := actions + [Test(0)];
    var t2 := Apply(t1, Copy(0));
    LeadsOn(s, actions, t1, Copy(0));
    actions := actions + [Copy(0)];
  }

  /** Even with one size the subtraction of a report can overflow: in a segment with room for one
      record that is there already, two threads reserve at once, and the second starts beyond the end. */
  lemma ReportCanOverflow(n: nat, mem: seq<u8>, bytes: seq<u8>) returns (actions: seq<Action>)
    requires n >= 2 && |mem| == |bytes| > 0
    ensures IsRun(Start(|mem|, n, mem), actions) && forall a | a in actions && a.Reserve? :: a.bytes == bytes
    ensures After(Start(|mem|, n, mem), actions).refused == [Refusal(|bytes|, -|mem|, true)]
  {
    hide IsRun, After, TotalOvershoot, Start;
    var s := Start(|mem|, n, mem);
    actions := FillSegment(n, mem, bytes);
    var t2 := After(s, actions);
    var t3 := Apply(t2, Reserve(0, bytes));
    LeadsOn(s, actions, t2, Reserve(0, bytes));
    actions := actions + [Reserve(0, bytes)];
    OneOvershoots(t3, 0);
    var t4 := Apply(t3, Reserve(1, bytes));
    LeadsOn(s, actions, t3, Reserve(1, bytes));
    actions := actions + [Reserve(1, bytes)];
    var t5 := Apply(t4, Test(1));
    LeadsOn(s, actions, t4, Test(1));
    actions := actions + [Test(1)];
    var t6 := Apply(t5, Rollback(1));
    LeadsOn(s, actions, t5, Rollback(1));
    actions := actions + [Rollback(1)];
    var t7 := Apply(t6, Report(1));
    LeadsOn(s, actions, t6, Report(1));
    actions := actions + [Report(1)];
  }

  lemma OneOvershoots(s: State, t: nat)
    requires t < |s.threads| && Overshoot(s.max, s.threads[t]) > 0
    ensures TotalOvershoot(s) > 0
  {
    SumBound(s.threads, (p: Phase) => Overshoot(s.max, p), t);
  }

  predicate Amid(p: Phase) {
    match p
    case Reserved(_, _, _, amid) => amid
    case Doomed(_, _, amid) => amid
    case RolledBack(_, _, amid) => amid
    case _ => false
  }

  /** No reservation was ever made while a failed one was outstanding. */
  ghost predicate NeverAmid(s: State) {
    && (forall t | 0 <= t < |s.threads| :: !Amid(s.threads[t]))
    && (forall i | 0 <= i < |s.refused| :: !s.refused[i].amid)
  }

  /** A thread that is alone has no reservation outstanding when it makes one. */
  lemma {:induction false} AloneNeverAmid(s: State, actions: seq<Action>)
    requires IsRun(s, actions) && |s.threads| <= 1 && NeverAmid(s)
    ensures NeverAmid(After(s, actions))
    decreases |actions|
  {
    if actions != [] {
      if actions[0].Reserve? {
        assert s.threads == [Idle];
        SumOne(Idle, (p: Phase) => Overshoot(s.max, p));
      }
      AloneNeverAmid(Apply(s, actions[0]), actions[1..]);
    }
  }

  /** Whatever the segment and the interleaving, no report of n threads overflows. */
  ghost predicate ReportsSafe(n: nat, sizes: set<nat>) {
    forall max, mem, actions | RunOfSizes(max, n, mem, actions, sizes) ::
      NoneNegative(After(Start(max, n, mem), actions).refused)
  }

  ghost predicate NoneNegative(refused: seq<Refusal>) { forall e | e in refused :: e.available >= 0 }

  /** For any record sizes: the subtraction of a report never overflows, in any segment and any
      interleaving, exactly if there is no more than one thread. */
  lemma ReportsSafeIff(n: nat, sizes: set<nat>)
    requires sizes != {} && 0 !in sizes
    ensures ReportsSafe(n, sizes) <==> n <= 1
  {
    hide IsRun, After;
    if n <= 1 {
      forall max, mem, actions | RunOfSizes(max, n, mem, actions, sizes)
        ensures NoneNegative(After(Start(max, n, mem), actions).refused)
      {
        AloneNeverAmid(Start(max, n, mem), actions);
        AnySizes(max, n, mem, actions);
      }
    } else {
      var size :| size in sizes;
      var mem := Zeros(size);
      var actions := ReportCanOverflow(n, mem, mem);
      assert RunOfSizes(size, n, mem, actions, sizes);
      assert Refusal(size, -size, true) in After(Start(size, n, mem), actions).refused;
    }
  }
}
