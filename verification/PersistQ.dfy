/** The persistent queue: records routed to partitions, partitions made of segments, and global
    offsets that map to a partition and a local offset, as any number of appenders interleave. */
module PersistQs {
  import opened Wrappers
  import opened Words
  import opened Sequences
  import Crc32

  type Bytes = seq<u8>

  datatype Mapping = Mapping(partition: nat, localOffset: nat)

  datatype ReadError = UnknownOffset | OutOfBounds

  /** Partitions are counted from zero here, from one in the queue. */
  function Route(data: Bytes, partitions: nat): (p: nat)
    requires partitions > 0
    ensures p < partitions
  {
    Crc32.Checksum(data) % partitions
  }

  // ---- The interleaving ----

  /** Where a record went: the history of the segments. */
  datatype Placed = Placed(partition: nat, segment: nat, localOffset: nat, data: Bytes)

  datatype Phase =
    | Idle
    | Looking(data: Bytes)
    | Chosen(data: Bytes, segment: nat)
    | Full(data: Bytes)
    | Pushed(data: Bytes, segment: nat)
    | Stored(record: nat)
    | Numbered(offset: nat)

  /** A segment is its bytes up to the write position.  The history of placed records, and which of
      them got which global offset, are not part of the program. */
  datatype State = State(
    size: nat, segments: seq<seq<Bytes>>, current: seq<nat>, nextOffset: nat, offsets: map<nat, Mapping>,
    threads: seq<Phase>, placed: seq<Placed>, numbered: seq<nat>)

  datatype Step = Begin(data: Bytes) | Look | Store | Retry | Push | Fail | Publish | Number | Record

  function PartitionOf(s: State, data: Bytes): (p: nat)
    requires s.segments != []
    ensures p < |s.segments|
  {
    Route(data, |s.segments|)
  }

  predicate Shape(s: State) {
    && s.segments != [] && |s.current| == |s.segments|
    && forall p | 0 <= p < |s.segments| :: s.current[p] < |s.segments[p]|
  }

  predicate HasSpace(s: State, p: nat, k: nat, data: Bytes)
    requires p < |s.segments| && k < |s.segments[p]|
  {
    |s.segments[p][k]| + |data| <= s.size
  }

  function Move(s: State, t: nat, p: Phase): State
    requires t < |s.threads|
  {
    s.(threads := s.threads[t := p])
  }

  /** The bytes of a segment after one more record. */
  function Extended(segments: seq<seq<Bytes>>, p: nat, k: nat, data: Bytes): seq<seq<Bytes>>
    requires p < |segments| && k < |segments[p]|
  {
    segments[p := segments[p][k := segments[p][k] + data]]
  }

  /** One step of one thread.  Checking a segment and appending to it is one step, because the
      segment's lock is held; the lock around opening a segment is left out, so that every run of
      the program is among these runs, and more. */
  ghost predicate Next(s: State, t: nat, step: Step, n: State) {
    && Shape(s) && t < |s.threads|
    && match step
       case Begin(data) => s.threads[t].Idle? && n == Move(s, t, Looking(data))
       case Look =>
         && s.threads[t].Looking?
         && var data := s.threads[t].data;
            var p := PartitionOf(s, data);
            n == Move(s, t, if HasSpace(s, p, s.current[p], data) then Chosen(data, s.current[p]) else Full(data))
       case Store =>
         && s.threads[t].Chosen? && s.threads[t].segment < |s.segments[PartitionOf(s, s.threads[t].data)]|
         && var data, k := s.threads[t].data, s.threads[t].segment;
            var p := PartitionOf(s, data);
            if HasSpace(s, p, k, data) then
              n == Move(s, t, Stored(|s.placed|)).(
                     segments := Extended(s.segments, p, k, data),
                     placed := s.placed + [Placed(p, k, |s.segments[p][k]|, data)])
            else n == Move(s, t, Full(data))
       case Retry =>
         && s.threads[t].Full?
         && var data := s.threads[t].data;
            var p := PartitionOf(s, data);
            HasSpace(s, p, s.current[p], data) && n == Move(s, t, Looking(data))
       case Push =>
         && s.threads[t].Full?
         && var data := s.threads[t].data;
            var p := PartitionOf(s, data);
            && !HasSpace(s, p, s.current[p], data)
            && n == Move(s, t, Pushed(data, |s.segments[p]|)).(segments := s.segments[p := s.segments[p] + [[]]])
       case Fail => s.threads[t].Full? && n == Move(s, t, Idle)
       case Publish =>
         && s.threads[t].Pushed?
         && var data := s.threads[t].data;
            n == Move(s, t, Looking(data)).(current := s.current[PartitionOf(s, data) := s.threads[t].segment])
       case Number =>
         && s.threads[t].Stored?
         && n == Move(s, t, Numbered(s.nextOffset)).(
                   nextOffset := s.nextOffset + 1, numbered := s.numbered + [s.threads[t].record])
       case Record =>
         && s.threads[t].Numbered? && s.threads[t].offset < |s.numbered|
         && s.numbered[s.threads[t].offset] < |s.placed|
         && var g := s.threads[t].offset;
            var r := s.placed[s.numbered[g]];
            n == Move(s, t, Idle).(offsets := s.offsets[g := Mapping(r.partition, r.localOffset)])
  }

  ghost predicate Initial(s: State) {
    && s.segments != [] && |s.current| == |s.segments|
    && (forall p | 0 <= p < |s.segments| :: s.segments[p] == [[]] && s.current[p] == 0)
    && s.nextOffset == 0 && s.offsets == map[] && s.placed == [] && s.numbered == []
    && forall t | 0 <= t < |s.threads| :: s.threads[t] == Idle
  }

  ghost predicate SomeNext(s: State, n: State) { exists t, step :: Next(s, t, step, n) }

  ghost predicate IsRun(run: seq<State>) {
    && run != [] && Initial(run[0])
    && forall i | 0 < i < |run| :: SomeNext(run[i - 1], run[i])
  }

  // ---- What holds in every reachable state ----

  /** The records placed in a segment, one after another. */
  function Contents(placed: seq<Placed>, p: nat, k: nat): Bytes {
    FlatMap((r: Placed) => if r.partition == p && r.segment == k then r.data else [], placed)
  }

  /** Every segment is exactly the records that were placed in it. */
  ghost predicate Tiled(s: State) {
    forall p, k | 0 <= p < |s.segments| && 0 <= k < |s.segments[p]| ::
      s.segments[p][k] == Contents(s.placed, p, k) && |s.segments[p][k]| <= s.size
  }

  ghost predicate PlacedOk(s: State, i: nat)
    requires i < |s.placed|
  {
    var r := s.placed[i];
    && r.partition < |s.segments| && r.segment < |s.segments[r.partition]|
    && r.localOffset == |Contents(s.placed[..i], r.partition, r.segment)|
  }

  ghost predicate Located(s: State) { forall i | 0 <= i < |s.placed| :: PlacedOk(s, i) }

  ghost predicate ThreadOk(s: State, t: nat)
    requires t < |s.threads|
  {
    match s.threads[t]
    case Chosen(data, k) => s.segments != [] && k < |s.segments[PartitionOf(s, data)]|
    case Pushed(data, k) => s.segments != [] && k < |s.segments[PartitionOf(s, data)]|
    case Stored(i) => i < |s.placed| && i !in s.numbered
    case Numbered(g) => g < s.nextOffset
    case _ => true
  }

  ghost predicate StoredOnce(s: State) {
    forall t, u | 0 <= t < |s.threads| && 0 <= u < |s.threads| && t != u && s.threads[t].Stored? ::
      s.threads[t] != s.threads[u]
  }

  ghost predicate ThreadsOk(s: State) {
    && (forall t | 0 <= t < |s.threads| :: ThreadOk(s, t))
    && StoredOnce(s)
  }

  /** Global offsets are handed out one by one, each to another record. */
  ghost predicate Numbering(s: State) {
    && |s.numbered| == s.nextOffset
    && (forall g | 0 <= g < s.nextOffset :: s.numbered[g] < |s.placed|)
    && (forall g, h | 0 <= g < h < s.nextOffset :: s.numbered[g] != s.numbered[h])
    && (forall i | 0 <= i < |s.placed| :: i in s.numbered || Stored(i) in s.threads)
  }

  ghost predicate Mapped(s: State) {
    && (forall g | g in s.offsets :: g < |s.numbered| && s.numbered[g] < |s.placed|
          && s.offsets[g] == Mapping(s.placed[s.numbered[g]].partition, s.placed[s.numbered[g]].localOffset))
    && (forall g | 0 <= g < s.nextOffset :: g in s.offsets || Numbered(g) in s.threads)
  }

  ghost predicate Invariant(s: State) {
    Shape(s) && Tiled(s) && Located(s) && ThreadsOk(s) && Numbering(s) && Mapped(s)
  }

  lemma InvariantInitial(s: State)
    requires Initial(s)
    ensures Invariant(s)
  {}

  lemma ContentsAppend(placed: seq<Placed>, r: Placed, p: nat, k: nat)
    ensures Contents(placed + [r], p, k)
         == Contents(placed, p, k) + (if r.partition == p && r.segment == k then r.data else [])
  {
    FlatMapAppend((r: Placed) => if r.partition == p && r.segment == k then r.data else [], placed, r);
  }

  lemma MembersMoved(threads: seq<Phase>, t: nat, q: Phase, x: Phase)
    requires t < |threads| && x in threads && x != threads[t]
    ensures x in threads[t := q]
  {
    var u :| 0 <= u < |threads| && threads[u] == x;
    assert threads[t := q][u] == x;
  }

  lemma TiledNext(s: State, t: nat, step: Step, n: State)
    requires Shape(s) && Tiled(s) && Located(s) && Next(s, t, step, n)
    ensures Tiled(n)
  {
    hide Contents, Route, Located;
    forall p, k | 0 <= p < |n.segments| && 0 <= k < |n.segments[p]|
      ensures n.segments[p][k] == Contents(n.placed, p, k) && |n.segments[p][k]| <= n.size
    {
      if n.placed != s.placed {
        ContentsAppend(s.placed, n.placed[|s.placed|], p, k);
      } else if k == |s.segments[p]| {
        NothingPlaced(s, p, k);
      }
    }
  }

  lemma LocatedNext(s: State, t: nat, step: Step, n: State)
    requires Shape(s) && Tiled(s) && Located(s) && Next(s, t, step, n)
    ensures Located(n)
  {
    hide Contents, Route;
    forall i | 0 <= i < |n.placed| ensures PlacedOk(n, i) {
      if i < |s.placed| {
        assert PlacedOk(s, i);
        assert n.placed[..i] == s.placed[..i];
      } else {
        assert n.placed[..i] == s.placed;
      }
    }
  }

  lemma {:induction false} NothingIn(placed: seq<Placed>, p: nat, k: nat)
    requires forall i | 0 <= i < |placed| :: !(placed[i].partition == p && placed[i].segment == k)
    ensures Contents(placed, p, k) == []
    decreases |placed|
  {
    if placed != [] {
      NothingIn(placed[1..], p, k);
    }
  }

  lemma NothingPlaced(s: State, p: nat, k: nat)
    requires Located(s) && p < |s.segments| && k == |s.segments[p]|
    ensures Contents(s.placed, p, k) == []
  {
    forall i | 0 <= i < |s.placed| ensures !(s.placed[i].partition == p && s.placed[i].segment == k) {
      assert PlacedOk(s, i);
    }
    NothingIn(s.placed, p, k);
  }

  lemma ShapeNext(s: State, t: nat, step: Step, n: State)
    requires Shape(s) && ThreadsOk(s) && Next(s, t, step, n)
    ensures Shape(n) && |n.segments| == |s.segments|
    ensures forall p | 0 <= p < |s.segments| :: |s.segments[p]| <= |n.segments[p]|
  {
    hide Route, StoredOnce;
    assert ThreadOk(s, t);
  }

  lemma StoredOnceNext(s: State, t: nat, step: Step, n: State)
    requires Shape(s) && ThreadsOk(s) && Next(s, t, step, n)
    ensures StoredOnce(n)
  {
    hide Route, HasSpace, Extended;
    forall u | 0 <= u < |s.threads| && s.threads[u].Stored? ensures s.threads[u].record < |s.placed| {
      assert ThreadOk(s, u);
    }
  }

  lemma ThreadsNext(s: State, t: nat, step: Step, n: State)
    requires Shape(s) && ThreadsOk(s) && Numbering(s) && Next(s, t, step, n)
    ensures ThreadsOk(n)
  {
    hide Route, HasSpace;
    ShapeNext(s, t, step, n);
    StoredOnceNext(s, t, step, n);
    assert ThreadOk(s, t);
    forall u | 0 <= u < |n.threads| ensures ThreadOk(n, u) {
      assert ThreadOk(s, u);
    }
  }

  lemma NumberingNext(s: State, t: nat, step: Step, n: State)
    requires Shape(s) && ThreadsOk(s) && Numbering(s) && Next(s, t, step, n)
    ensures Numbering(n)
  {
    hide Route;
    assert ThreadOk(s, t);
    assert n.threads[t] in n.threads;
    forall i | 0 <= i < |n.placed| ensures i in n.numbered || Stored(i) in n.threads {
      if i < |s.placed| && Stored(i) in s.threads && s.threads[t] != Stored(i) {
        MembersMoved(s.threads, t, n.threads[t], Stored(i));
      }
    }
  }

  lemma MappedNext(s: State, t: nat, step: Step, n: State)
    requires Shape(s) && ThreadsOk(s) && Numbering(s) && Mapped(s) && Next(s, t, step, n)
    ensures Mapped(n)
  {
    hide Route;
    assert ThreadOk(s, t);
    assert n.threads[t] in n.threads;
    forall g | 0 <= g < n.nextOffset ensures g in n.offsets || Numbered(g) in n.threads {
      if g < s.nextOffset && Numbered(g) in s.threads && s.threads[t] != Numbered(g) {
        MembersMoved(s.threads, t, n.threads[t], Numbered(g));
      }
    }
  }

  lemma InvariantNext(s: State, t: nat, step: Step, n: State)
    requires Invariant(s) && Next(s, t, step, n)
    ensures Invariant(n)
  {
    hide Next, Tiled, Located, ThreadsOk, Numbering, Mapped, Shape;
    TiledNext(s, t, step, n);
    LocatedNext(s, t, step, n);
    ShapeNext(s, t, step, n);
    ThreadsNext(s, t, step, n);
    NumberingNext(s, t, step, n);
    MappedNext(s, t, step, n);
  }

  lemma {:induction false} InvariantRun(run: seq<State>, i: nat)
    requires IsRun(run) && i < |run|
    ensures Invariant(run[i])
  {
    hide Next, Invariant;
    if i == 0 {
      InvariantInitial(run[0]);
    } else {
      InvariantRun(run, i - 1);
      assert SomeNext(run[i - 1], run[i]);
      var t, step :| Next(run[i - 1], t, step, run[i]);
      InvariantNext(run[i - 1], t, step, run[i]);
    }
  }

  // ---- Ranges ----

  /** A placed record sits in its segment between the earlier records and the later ones. */
  lemma PlacedAt(s: State, i: nat)
    requires Tiled(s) && Located(s) && i < |s.placed|
    ensures var r := s.placed[i];
            && r.partition < |s.segments| && r.segment < |s.segments[r.partition]|
            && s.segments[r.partition][r.segment]
               == Contents(s.placed[..i], r.partition, r.segment)
                  + (r.data + Contents(s.placed[i + 1..], r.partition, r.segment))
            && r.localOffset == |Contents(s.placed[..i], r.partition, r.segment)|
            && |s.segments[r.partition][r.segment]| <= s.size
  {
    hide Contents;
    var r := s.placed[i];
    var p, k := r.partition, r.segment;
    assert PlacedOk(s, i);
    assert s.placed == (s.placed[..i] + [r]) + s.placed[i + 1..];
    ContentsConcat(s.placed[..i] + [r], s.placed[i + 1..], p, k);
    ContentsAppend(s.placed[..i], r, p, k);
  }

  lemma ContentsConcat(a: seq<Placed>, b: seq<Placed>, p: nat, k: nat)
    ensures Contents(a + b, p, k) == Contents(a, p, k) + Contents(b, p, k)
  {
    FlatMapConcat((r: Placed) => if r.partition == p && r.segment == k then r.data else [], a, b);
  }

  /** However appends of any sizes interleave, records of one segment never overlap, none is ever
      damaged, and none reaches past the end of its segment. */
  lemma RangesDisjoint(run: seq<State>, n: nat, i: nat, j: nat)
    requires IsRun(run) && n < |run| && i < j < |run[n].placed|
    requires run[n].placed[i].partition == run[n].placed[j].partition
    requires run[n].placed[i].segment == run[n].placed[j].segment
    ensures var s, a, b := run[n], run[n].placed[i], run[n].placed[j];
            && a.partition < |s.segments| && a.segment < |s.segments[a.partition]|
            && a.localOffset + |a.data| <= b.localOffset
            && b.localOffset + |b.data| <= |s.segments[b.partition][b.segment]| <= s.size
            && s.segments[a.partition][a.segment][a.localOffset..a.localOffset + |a.data|] == a.data
            && s.segments[b.partition][b.segment][b.localOffset..b.localOffset + |b.data|] == b.data
  {
    hide Next, Contents;
    InvariantRun(run, n);
    var s, a, b := run[n], run[n].placed[i], run[n].placed[j];
    PlacedAt(s, i);
    PlacedAt(s, j);
    assert s.placed[..j] == (s.placed[..i] + [a]) + s.placed[i + 1..j];
    ContentsConcat(s.placed[..i] + [a], s.placed[i + 1..j], a.partition, a.segment);
    ContentsAppend(s.placed[..i], a, a.partition, a.segment);
  }

  // ---- Global offsets ----

  /** Global offsets are 0, 1, 2, ... and no record gets two of them; once nobody is between storing
      a record and recording its offset, every stored record has exactly one, and every offset below
      the counter can be looked up. */
  lemma OffsetsCount(run: seq<State>, n: nat)
    requires IsRun(run) && n < |run|
    ensures var s := run[n];
            && |s.numbered| == s.nextOffset
            && (forall g, h | 0 <= g < h < s.nextOffset :: s.numbered[g] != s.numbered[h])
            && (forall g | g in s.offsets :: g < s.nextOffset && s.numbered[g] < |s.placed|
                  && s.offsets[g] == Mapping(s.placed[s.numbered[g]].partition, s.placed[s.numbered[g]].localOffset))
    ensures var s := run[n];
            (forall t | 0 <= t < |s.threads| :: !s.threads[t].Stored? && !s.threads[t].Numbered?) ==>
              && (forall i | 0 <= i < |s.placed| :: i in s.numbered)
              && (forall g: nat :: g in s.offsets <==> g < s.nextOffset)
              && s.nextOffset == |s.placed|
  {
    hide Next;
    InvariantRun(run, n);
    var s := run[n];
    if forall t | 0 <= t < |s.threads| :: !s.threads[t].Stored? && !s.threads[t].Numbered? {
      forall i | 0 <= i < |s.placed| ensures i in s.numbered {
        assert Stored(i) !in s.threads;
      }
      forall g | 0 <= g < s.nextOffset ensures g in s.offsets {
        assert Numbered(g) !in s.threads;
      }
      Bijection(s.numbered, |s.placed|);
    }
  }

  lemma {:induction false} Bijection(xs: seq<nat>, m: nat)
    requires forall g, h | 0 <= g < h < |xs| :: xs[g] != xs[h]
    requires forall g | 0 <= g < |xs| :: xs[g] < m
    requires forall x: nat | x < m :: x in xs
    ensures |xs| == m
    decreases |xs|
  {
    if m > 0 {
      assert m - 1 in xs;
      var i :| 0 <= i < |xs| && xs[i] == m - 1;
      var rest := xs[..i] + xs[i + 1..];
      forall x: nat | x < m - 1 ensures x in rest {
        assert x in xs;
        var j :| 0 <= j < |xs| && xs[j] == x;
        assert rest[if j < i then j else j - 1] == x;
      }
      Bijection(rest, m - 1);
    }
  }

  // ---- Nothing is ever taken back ----

  ghost predicate Grows(s: State, n: State) {
    && |n.segments| == |s.segments| && s.placed <= n.placed && s.numbered <= n.numbered
    && (forall p | 0 <= p < |s.segments| :: |s.segments[p]| <= |n.segments[p]|)
    && (forall p, k | 0 <= p < |s.segments| && 0 <= k < |s.segments[p]| :: s.segments[p][k] <= n.segments[p][k])
    && (forall g | g in s.offsets :: g in n.offsets && n.offsets[g] == s.offsets[g])
  }

  lemma GrowsNext(s: State, t: nat, step: Step, n: State)
    requires Invariant(s) && Next(s, t, step, n)
    ensures Grows(s, n)
  {
    hide Route, Tiled, Located, Contents, StoredOnce;
    ShapeNext(s, t, step, n);
    assert ThreadOk(s, t);
    forall g | g in s.offsets ensures g in n.offsets && n.offsets[g] == s.offsets[g] {}
  }

  lemma {:induction false} GrowsRun(run: seq<State>, i: nat, j: nat)
    requires IsRun(run) && i <= j < |run|
    ensures Grows(run[i], run[j])
    decreases j
  {
    hide Next, Invariant;
    if i < j {
      GrowsRun(run, i, j - 1);
      InvariantRun(run, j - 1);
      assert SomeNext(run[j - 1], run[j]);
      var t, step :| Next(run[j - 1], t, step, run[j]);
      GrowsNext(run[j - 1], t, step, run[j]);
    }
  }

  // ---- Reading ----

  /** A segment hands out everything from the offset on. */
  function SegmentRead(bytes: Bytes, offset: nat): Result<Bytes, ReadError> {
    if offset >= |bytes| then Err(OutOfBounds) else Ok(bytes[offset..])
  }

  /** Reads look into the first segment of the partition, wherever the record was stored. */
  function Lookup(segments: seq<seq<Bytes>>, offsets: map<nat, Mapping>, g: nat): Result<Bytes, ReadError>
    requires g in offsets ==> offsets[g].partition < |segments| && segments[offsets[g].partition] != []
  {
    if g !in offsets then Err(UnknownOffset)
    else SegmentRead(segments[offsets[g].partition][0], offsets[g].localOffset)
  }

  ghost predicate Recorded(s: State, g: nat) {
    && g in s.offsets && g < |s.numbered| && s.numbered[g] < |s.placed|
    && s.offsets[g].partition < |s.segments| && s.segments[s.offsets[g].partition] != []
  }

  function RecordOf(s: State, g: nat): Placed
    requires Recorded(s, g)
  {
    s.placed[s.numbered[g]]
  }

  /** What was stored in the first segment of its partition after it. */
  function Later(s: State, g: nat): Bytes
    requires Recorded(s, g)
  {
    Contents(s.placed[s.numbered[g] + 1..], RecordOf(s, g).partition, 0)
  }

  lemma RecordedOffsets(run: seq<State>, n: nat, g: nat)
    requires IsRun(run) && n < |run| && g in run[n].offsets
    ensures Recorded(run[n], g)
    ensures run[n].offsets[g] == Mapping(RecordOf(run[n], g).partition, RecordOf(run[n], g).localOffset)
  {
    hide Next, Tiled, Contents;
    InvariantRun(run, n);
    assert PlacedOk(run[n], run[n].numbered[g]);
  }

  /** A record of a first segment reads as itself with everything stored there after it; it is out of
      bounds only if all of that is empty. */
  lemma ReadFirstSegment(run: seq<State>, n: nat, g: nat)
    requires IsRun(run) && n < |run| && Recorded(run[n], g) && RecordOf(run[n], g).segment == 0
    ensures var s := run[n];
            Lookup(s.segments, s.offsets, g)
            == if RecordOf(s, g).data + Later(s, g) == [] then Err(OutOfBounds)
               else Ok(RecordOf(s, g).data + Later(s, g))
  {
    hide Next, Contents;
    InvariantRun(run, n);
    RecordedOffsets(run, n, g);
    PlacedAt(run[n], run[n].numbered[g]);
  }

  /** So it reads as exactly itself only while it is the last of its segment. */
  lemma ReadExactIff(run: seq<State>, n: nat, g: nat)
    requires IsRun(run) && n < |run| && Recorded(run[n], g) && RecordOf(run[n], g).segment == 0
    ensures Lookup(run[n].segments, run[n].offsets, g) == Ok(RecordOf(run[n], g).data)
            <==> RecordOf(run[n], g).data != [] && Later(run[n], g) == []
  {
    hide Next, Later, Lookup;
    ReadFirstSegment(run, n, g);
    var data, later := RecordOf(run[n], g).data, Later(run[n], g);
    assert |data + later| == |data| + |later| && (later == [] ==> data + later == data);
  }

  /** A non-empty record stored in its partition's first segment is forever a prefix of what its
      offset reads as, and what it reads as only ever gets longer. */
  lemma ReadForever(run: seq<State>, i: nat, j: nat, g: nat)
    requires IsRun(run) && i <= j < |run| && g in run[i].offsets
    requires Recorded(run[i], g) && RecordOf(run[i], g).segment == 0 && RecordOf(run[i], g).data != []
    ensures Recorded(run[j], g) && RecordOf(run[j], g) == RecordOf(run[i], g)
    ensures var before, after := Lookup(run[i].segments, run[i].offsets, g), Lookup(run[j].segments, run[j].offsets, g);
            before.Ok? && after.Ok? && RecordOf(run[i], g).data <= before.value <= after.value
  {
    hide Next, Contents;
    GrowsRun(run, i, j);
    RecordedOffsets(run, i, g);
    RecordedOffsets(run, j, g);
    ReadFirstSegment(run, i, g);
    ReadFirstSegment(run, j, g);
    var r := RecordOf(run[i], g);
    var a, b := run[i].segments[r.partition][0], run[j].segments[r.partition][0];
    assert |r.data + Later(run[i], g)| > 0 && |r.data + Later(run[j], g)| > 0;
    assert a <= b;
    DropPrefix(a, b, r.localOffset);
  }

  lemma DropPrefix(a: Bytes, b: Bytes, n: nat)
    requires a <= b && n <= |a|
    ensures a[n..] <= b[n..]
  {}

  /** What an offset reads as starts with its record exactly if the record is in the first segment,
      and it or something after it is not empty, or if the first segment happens to hold the same
      bytes where the record lies in its own. */
  lemma ReadStartsWithRecordIff(run: seq<State>, n: nat, g: nat)
    requires IsRun(run) && n < |run| && Recorded(run[n], g)
    ensures var s, r := run[n], RecordOf(run[n], g);
            var read, first := Lookup(s.segments, s.offsets, g), s.segments[s.offsets[g].partition][0];
            read.Ok? && r.data <= read.value <==>
              if r.segment == 0 then r.data != [] || Later(s, g) != []
              else r.localOffset < |first| && r.localOffset + |r.data| <= |first|
                   && first[r.localOffset..r.localOffset + |r.data|] == r.data
  {
    hide Next, Contents;
    RecordedOffsets(run, n, g);
    var r := RecordOf(run[n], g);
    if r.segment == 0 {
      ReadFirstSegment(run, n, g);
      assert |r.data + Later(run[n], g)| == |r.data| + |Later(run[n], g)|;
    }
  }

  /** No record larger than a segment is ever stored. */
  lemma OversizedNeverStored(run: seq<State>, n: nat, i: nat)
    requires IsRun(run) && n < |run| && i < |run[n].placed|
    ensures |run[n].placed[i].data| <= run[n].size
  {
    hide Next, Contents;
    InvariantRun(run, n);
    PlacedAt(run[n], i);
  }

  // ---- Sequential appends ----

  /** The queue between calls. */
  datatype Queue = Queue(size: nat, segments: seq<seq<Bytes>>, nextOffset: nat, offsets: map<nat, Mapping>)

  predicate Sane(q: Queue) {
    && q.segments != []
    && (forall p | 0 <= p < |q.segments| :: q.segments[p] != [])
    && (forall g | g in q.offsets :: q.offsets[g].partition < |q.segments|)
  }

  function Fresh(size: nat, partitions: nat): (q: Queue)
    requires partitions > 0
    ensures Sane(q)
  {
    Queue(size, seq(partitions, _ => [[]]), 0, map[])
  }

  predicate Fits(q: Queue, data: Bytes)
    requires Sane(q)
  {
    var segs := q.segments[Route(data, |q.segments|)];
    |segs[|segs| - 1]| + |data| <= q.size
  }

  /** The record goes to the last segment of its partition, or to a new one if it does not fit. */
  function Appended(q: Queue, data: Bytes): (r: Queue)
    requires Sane(q)
    ensures Sane(r)
  {
    var p := Route(data, |q.segments|);
    var segs := q.segments[p];
    var last := |segs| - 1;
    Queue(q.size,
          q.segments[p := if Fits(q, data) then segs[last := segs[last] + data] else segs + [data]],
          q.nextOffset + 1,
          q.offsets[q.nextOffset := Mapping(p, if Fits(q, data) then |segs[last]| else 0)])
  }

  datatype SegmentError = SegmentFull

  /** The memory-mapped segment, used under its lock. */
  class Segment {
    const mmap: array<u8>
    var writePos: nat

    ghost predicate Valid()
      reads this
    {
      writePos <= mmap.Length
    }

    ghost function Bytes(): seq<u8>
      requires Valid()
      reads this, mmap
    {
      mmap[..writePos]
    }

    constructor (maxSize: nat)
      ensures Valid() && fresh(mmap) && mmap.Length == maxSize && Bytes() == []
    {
      mmap, writePos := new u8[maxSize](_ => 0), 0;
    }

    method HasSpace(size: nat) returns (r: bool)
      requires Valid()
      ensures r <==> |Bytes()| + size <= mmap.Length
    {
      return writePos + size <= mmap.Length;
    }

    method Append(data: seq<u8>) returns (r: Result<nat, SegmentError>)
      requires Valid()
      modifies this`writePos, mmap
      ensures Valid()
      ensures r == if |old(Bytes())| + |data| <= mmap.Length then Ok(|old(Bytes())|) else Err(SegmentFull)
      ensures Bytes() == if r.Ok? then old(Bytes()) + data else old(Bytes())
    {
      var offset := writePos;
      writePos := writePos + |data|;
      if offset + |data| > mmap.Length {
        writePos := writePos - |data|;
        return Err(SegmentFull);
      }
      for i := 0 to |data|
        invariant writePos == offset + |data|
        invariant mmap[..offset] == old(mmap[..writePos])
        invariant mmap[offset..offset + i] == data[..i]
      {
        mmap[offset + i] := data[i];
      }
      assert mmap[..writePos] == mmap[..offset] + mmap[offset..offset + |data|];
      assert mmap[offset..offset + |data|] == data[..|data|] == data;
      return Ok(offset);
    }

    method Read(offset: nat) returns (r: Result<seq<u8>, ReadError>)
      requires Valid()
      ensures r == SegmentRead(Bytes(), offset)
    {
      if offset >= writePos {
        return Err(OutOfBounds);
      }
      return Ok(mmap[offset..writePos]);
    }
  }

  class PersistQ {
    const segmentSize: nat
    var segments: seq<seq<Bytes>>
    var current: seq<nat>
    var globalOffset: nat
    var offsetMap: map<nat, Mapping>

    function View(): Queue
      reads this
    {
      Queue(segmentSize, segments, globalOffset, offsetMap)
    }

    ghost predicate Valid()
      reads this
    {
      && Sane(View()) && |current| == |segments|
      && forall p | 0 <= p < |segments| :: current[p] == |segments[p]| - 1
    }

    constructor (segmentSize: nat, numPartitions: nat)
      requires numPartitions > 0
      ensures Valid() && View() == Fresh(segmentSize, numPartitions)
    {
      this.segmentSize := segmentSize;
      segments, current := seq(numPartitions, _ => [[]]), seq(numPartitions, _ => 0);
      globalOffset, offsetMap := 0, map[];
    }

    /** The append loop of one partition: it goes round again after opening a segment. */
    method AppendToPartition(p: nat, data: Bytes) returns (localOffset: nat)
      requires Valid() && p < |segments| && p == Route(data, |segments|) && |data| <= segmentSize
      modifies this`segments, this`current
      ensures Valid()
      ensures segments == Appended(old(View()), data).segments
      ensures localOffset == Appended(old(View()), data).offsets[globalOffset].localOffset
    {
      hide Route;
      ghost var before := segments[p];
      while true
        invariant Valid() && |segments| == |old(segments)|
        invariant segments[p] == before || (segments[p] == before + [[]] && !Fits(old(View()), data))
        invariant segments == old(segments)[p := segments[p]]
        decreases |before| + 1 - |segments[p]|
      {
        var k := current[p];
        if |segments[p][k]| + |data| <= segmentSize {
          localOffset := |segments[p][k]|;
          assert [] + data == data && (before + [[]])[|before| := data] == before + [data];
          segments := segments[p := segments[p][k := segments[p][k] + data]];
          return;
        }
        segments := segments[p := segments[p] + [[]]];
        current := current[p := |segments[p]| - 1];
      }
    }

    method Append(data: Bytes) returns (offset: nat)
      requires Valid() && |data| <= segmentSize
      modifies this
      ensures Valid() && View() == Appended(old(View()), data) && offset == old(globalOffset)
    {
      hide Route;
      var p := Route(data, |segments|);
      var localOffset := AppendToPartition(p, data);
      offset := globalOffset;
      globalOffset := globalOffset + 1;
      offsetMap := offsetMap[offset := Mapping(p, localOffset)];
    }

    method Read(offset: nat) returns (r: Result<Bytes, ReadError>)
      requires Valid()
      ensures r == Lookup(segments, offsetMap, offset)
    {
      if offset !in offsetMap {
        return Err(UnknownOffset);
      }
      var first := segments[offsetMap[offset].partition][0];
      var start := offsetMap[offset].localOffset;
      if start >= |first| {
        return Err(OutOfBounds);
      }
      return Ok(first[start..]);
    }
  }

  // ---- A call is a run of the machine ----

  function ViewOf(s: State): Queue { Queue(s.size, s.segments, s.nextOffset, s.offsets) }

  ghost predicate Quiet(s: State) {
    && Shape(s) && s.threads != [] && |s.numbered| == s.nextOffset
    && (forall t | 0 <= t < |s.threads| :: s.threads[t] == Idle)
    && (forall p | 0 <= p < |s.segments| :: s.current[p] == |s.segments[p]| - 1)
  }

  lemma Extend(run: seq<State>, t: nat, step: Step, n: State)
    requires IsRun(run) && Next(run[|run| - 1], t, step, n)
    ensures IsRun(run + [n])
  {
    hide Next;
    var longer := run + [n];
    forall i | 0 < i < |longer| ensures SomeNext(longer[i - 1], longer[i]) {
      if i < |run| { assert SomeNext(run[i - 1], run[i]); }
    }
  }

  /** Thread 0 has chosen the segment it can append to: four steps later its record has an offset. */
  lemma FinishAppend(run: seq<State>, data: Bytes, k: nat) returns (longer: seq<State>)
    requires run != [] && IsRun(run)
    requires var s := run[|run| - 1]; Shape(s) && s.threads != [] && |s.numbered| == s.nextOffset
    requires var s := run[|run| - 1];
             var p := PartitionOf(s, data);
             s.threads[0] == Chosen(data, k) && k < |s.segments[p]| && HasSpace(s, p, k, data)
    ensures IsRun(longer) && run < longer
    ensures var s, n := run[|run| - 1], longer[|longer| - 1];
            var p := PartitionOf(s, data);
            && n.size == s.size && n.segments == Extended(s.segments, p, k, data) && n.current == s.current
            && n.nextOffset == s.nextOffset + 1 && |n.numbered| == n.nextOffset
            && n.offsets == s.offsets[s.nextOffset := Mapping(p, |s.segments[p][k]|)]
            && n.threads == s.threads[0 := Idle]
  {
    hide IsRun, Route;
    var s := run[|run| - 1];
    var p := PartitionOf(s, data);
    var r := Placed(p, k, |s.segments[p][k]|, data);
    var a := Move(s, 0, Stored(|s.placed|)).(segments := Extended(s.segments, p, k, data), placed := s.placed + [r]);
    Extend(run, 0, Store, a);
    var b := Move(a, 0, Numbered(a.nextOffset)).(nextOffset := a.nextOffset + 1, numbered := a.numbered + [|s.placed|]);
    Extend(run + [a], 0, Number, b);
    var c := Move(b, 0, Idle).(offsets := b.offsets[s.nextOffset := Mapping(p, r.localOffset)]);
    assert b.placed[b.numbered[s.nextOffset]] == r;
    Extend(run + [a] + [b], 0, Record, c);
    longer := run + [a] + [b] + [c];
    assert c.threads == s.threads[0 := Idle];
  }

  /** Thread 0 found the current segment full: it opens a new one and chooses that. */
  lemma OpenSegment(run: seq<State>, data: Bytes) returns (longer: seq<State>)
    requires run != [] && IsRun(run)
    requires var s := run[|run| - 1]; Shape(s) && s.threads != []
    requires var s := run[|run| - 1];
             var p := PartitionOf(s, data);
             s.threads[0] == Full(data) && !HasSpace(s, p, s.current[p], data) && |data| <= s.size
    ensures IsRun(longer) && run < longer
    ensures var s, n := run[|run| - 1], longer[|longer| - 1];
            var p := PartitionOf(s, data);
            n == s.(threads := s.threads[0 := Chosen(data, |s.segments[p]|)],
                    segments := s.segments[p := s.segments[p] + [[]]], current := s.current[p := |s.segments[p]|])
  {
    hide IsRun, Route;
    var s := run[|run| - 1];
    var p := PartitionOf(s, data);
    var k := |s.segments[p]|;
    var c := Move(s, 0, Pushed(data, k)).(segments := s.segments[p := s.segments[p] + [[]]]);
    Extend(run, 0, Push, c);
    var d := Move(c, 0, Looking(data)).(current := c.current[p := k]);
    Extend(run + [c], 0, Publish, d);
    var e := Move(d, 0, Chosen(data, k));
    Extend(run + [c] + [d], 0, Look, e);
    longer := run + [c] + [d] + [e];
    assert e.threads == s.threads[0 := Chosen(data, k)];
  }

  /** With a record larger than a segment the same three steps lead back to where they began, with
      one more empty segment: append never returns. */
  lemma OversizedRound(run: seq<State>, data: Bytes) returns (longer: seq<State>)
    requires run != [] && IsRun(run)
    requires var s := run[|run| - 1]; Shape(s) && s.threads != [] && s.threads[0] == Full(data) && |data| > s.size
    ensures IsRun(longer) && |longer| == |run| + 3 && run < longer
    ensures var s, n := run[|run| - 1], longer[|longer| - 1];
            var p := PartitionOf(s, data);
            n == s.(segments := s.segments[p := s.segments[p] + [[]]], current := s.current[p := |s.segments[p]|])
            && n.threads[0] == Full(data)
  {
    hide IsRun, Route;
    var s := run[|run| - 1];
    var p := PartitionOf(s, data);
    var k := |s.segments[p]|;
    var c := Move(s, 0, Pushed(data, k)).(segments := s.segments[p := s.segments[p] + [[]]]);
    Extend(run, 0, Push, c);
    var d := Move(c, 0, Looking(data)).(current := c.current[p := k]);
    Extend(run + [c], 0, Publish, d);
    var e := Move(d, 0, Full(data));
    Extend(run + [c] + [d], 0, Look, e);
    longer := run + [c] + [d] + [e];
    assert e.threads == s.threads;
  }

  lemma BeginAppend(run: seq<State>, data: Bytes) returns (longer: seq<State>)
    requires run != [] && IsRun(run) && Quiet(run[|run| - 1])
    ensures IsRun(longer) && run < longer
    ensures var s, n := run[|run| - 1], longer[|longer| - 1];
            var p := PartitionOf(s, data);
            n == Move(s, 0, if HasSpace(s, p, s.current[p], data) then Chosen(data, s.current[p]) else Full(data))
  {
    hide IsRun, Route;
    var s := run[|run| - 1];
    var p := PartitionOf(s, data);
    var a := Move(s, 0, Looking(data));
    Extend(run, 0, Begin(data), a);
    var b := Move(a, 0, if HasSpace(s, p, s.current[p], data) then Chosen(data, s.current[p]) else Full(data));
    Extend(run + [a], 0, Look, b);
    longer := run + [a] + [b];
  }

  /** Whatever the machine has done so far, one call of append on the quiet queue is some of its
      runs, so that everything proved of runs is true of sequences of calls. */
  lemma AppendIsRun(run: seq<State>, data: Bytes) returns (longer: seq<State>)
    requires run != [] && IsRun(run) && Quiet(run[|run| - 1]) && Sane(ViewOf(run[|run| - 1]))
    requires |data| <= run[|run| - 1].size
    ensures IsRun(longer) && run < longer
    ensures var s, n := run[|run| - 1], longer[|longer| - 1];
            Quiet(n) && ViewOf(n) == Appended(ViewOf(s), data)
  {
    hide IsRun, Route, Next;
    var s := run[|run| - 1];
    var p := PartitionOf(s, data);
    var segs := s.segments[p];
    longer := BeginAppend(run, data);
    if Fits(ViewOf(s), data) {
      longer := FinishAppend(longer, data, |segs| - 1);
    } else {
      longer := OpenSegment(longer, data);
      longer := FinishAppend(longer, data, |segs|);
      assert [] + data == data && (segs + [[]])[|segs| := data] == segs + [data];
    }
  }

  // ---- Records of later segments ----

  /** A record that no longer fits the first segment reads as the records before it. */
  lemma LaterSegmentMisread(size: nat, partitions: nat, a: Bytes, b: Bytes)
    requires partitions > 0 && Route(a, partitions) == Route(b, partitions)
    requires 0 < |a| <= size && 0 < |b| <= size && |a| + |b| > size
    ensures var q := Appended(Appended(Fresh(size, partitions), a), b);
            && Lookup(q.segments, q.offsets, 0) == Ok(a) && Lookup(q.segments, q.offsets, 1) == Ok(a)
            && (b[0] != a[0] ==> !(b <= Lookup(q.segments, q.offsets, 1).value))
  {
    hide Route;
    var q0 := Fresh(size, partitions);
    var p := Route(a, partitions);
    assert [] + a == a;
    var q1 := Appended(q0, a);
    assert q1.segments[p] == [a];
    var q2 := Appended(q1, b);
    assert q2.segments[p] == [a] + [b];
  }

  // ---- Which records a sequence of appends leaves readable ----

  function AppendAll(size: nat, partitions: nat, rs: seq<Bytes>): (q: Queue)
    requires partitions > 0
    ensures Sane(q) && |q.segments| == partitions && q.size == size
  {
    if rs == [] then Fresh(size, partitions) else Appended(AppendAll(size, partitions, rs[..|rs| - 1]), rs[|rs| - 1])
  }

  /** How many bytes of the records go to a partition. */
  function Routed(rs: seq<Bytes>, p: nat, partitions: nat): nat
    requires partitions > 0
  {
    if rs == [] then 0
    else Routed(rs[..|rs| - 1], p, partitions)
         + (if Route(rs[|rs| - 1], partitions) == p then |rs[|rs| - 1]| else 0)
  }

  /** The first of them, up to the size of a segment. */
  function RoutedFirst(rs: seq<Bytes>, p: nat, partitions: nat, size: nat): Bytes
    requires partitions > 0
  {
    if rs == [] then []
    else
      var first := RoutedFirst(rs[..|rs| - 1], p, partitions, size);
      if Route(rs[|rs| - 1], partitions) == p && Routed(rs, p, partitions) <= size then first + rs[|rs| - 1] else first
  }

  /** The segment of its partition that a record goes to. */
  function Place(q: Queue, data: Bytes): nat
    requires Sane(q)
  {
    var segs := q.segments[Route(data, |q.segments|)];
    if Fits(q, data) then |segs| - 1 else |segs|
  }

  /** While all bytes routed to a partition fit one segment they are in its first, and from then on
      the first is no longer the last. */
  lemma {:induction false} FirstSegments(size: nat, partitions: nat, rs: seq<Bytes>, p: nat)
    requires partitions > 0 && p < partitions
    ensures var segs := AppendAll(size, partitions, rs).segments[p];
            && segs[0] == RoutedFirst(rs, p, partitions, size)
            && (Routed(rs, p, partitions) <= size ==> |segs| == 1 && |segs[0]| == Routed(rs, p, partitions))
            && (Routed(rs, p, partitions) > size ==> |segs| > 1)
    decreases |rs|
  {
    hide Route;
    if rs != [] {
      FirstSegments(size, partitions, rs[..|rs| - 1], p);
    }
  }

  /** A record goes to the first segment of its partition exactly if the bytes routed there so far, its
      own included, do not exceed the size of a segment: this can be told before it is appended. */
  lemma FirstSegmentIff(size: nat, partitions: nat, rs: seq<Bytes>, g: nat)
    requires partitions > 0 && g < |rs| && forall r | r in rs :: |r| <= size
    ensures Place(AppendAll(size, partitions, rs[..g]), rs[g]) == 0
            <==> Routed(rs[..g + 1], Route(rs[g], partitions), partitions) <= size
  {
    hide Route;
    FirstSegments(size, partitions, rs[..g], Route(rs[g], partitions));
    assert rs[..g + 1][..g] == rs[..g];
  }

  /** The lengths of the records that go to a partition, in order. */
  function LengthsTo(rs: seq<Bytes>, p: nat, partitions: nat): seq<nat>
    requires partitions > 0
  {
    if rs == [] then []
    else LengthsTo(rs[..|rs| - 1], p, partitions)
         + (if Route(rs[|rs| - 1], partitions) == p then [|rs[|rs| - 1]|] else [])
  }

  /** Where the next length goes in greedy packing: behind the last ones if it fits there, and
      otherwise to the beginning of a new segment. */
  function Slot(fill: nat, length: nat, size: nat): nat { if fill + length <= size then fill else 0 }

  /** How far greedy packing of the lengths fills its last segment. */
  function Packed(lengths: seq<nat>, size: nat): nat {
    if lengths == [] then 0
    else Slot(Packed(lengths[..|lengths| - 1], size), lengths[|lengths| - 1], size) + lengths[|lengths| - 1]
  }

  /** Where the record with a given offset lies in its segment. */
  function LocalOf(size: nat, partitions: nat, rs: seq<Bytes>, g: nat): nat
    requires partitions > 0 && g < |rs|
  {
    Slot(Packed(LengthsTo(rs[..g], Route(rs[g], partitions), partitions), size), |rs[g]|, size)
  }

  /** The last segment of a partition is filled as greedy packing of the lengths has it. */
  lemma {:induction false} LastSegments(size: nat, partitions: nat, rs: seq<Bytes>, p: nat)
    requires partitions > 0 && p < partitions
    ensures var segs := AppendAll(size, partitions, rs).segments[p];
            |segs[|segs| - 1]| == Packed(LengthsTo(rs, p, partitions), size)
    decreases |rs|
  {
    hide Route, Packed;
    if rs == [] {
      NothingPacked(size);
    } else {
      var front, last := rs[..|rs| - 1], rs[|rs| - 1];
      LastSegments(size, partitions, front, p);
      if Route(last, partitions) == p {
        PackedOneMore(LengthsTo(front, p, partitions), |last|, size);
      } else {
        assert LengthsTo(front, p, partitions) + [] == LengthsTo(front, p, partitions);
      }
    }
  }

  lemma NothingPacked(size: nat)
    ensures Packed([], size) == 0
  {}

  lemma PackedOneMore(lengths: seq<nat>, length: nat, size: nat)
    ensures Packed(lengths + [length], size) == Slot(Packed(lengths, size), length, size) + length
  {
    assert (lengths + [length])[..|lengths|] == lengths;
  }

  lemma AppendedOffset(q: Queue, data: Bytes)
    requires Sane(q)
    ensures var p := Route(data, |q.segments|);
            var segs := q.segments[p];
            var next := Appended(q, data);
            && next.nextOffset == q.nextOffset + 1
            && next.offsets
               == q.offsets[q.nextOffset := Mapping(p, if Fits(q, data) then |segs[|segs| - 1]| else 0)]
  {
    hide Route, Fits;
  }

  lemma {:induction false} OffsetsCountUp(size: nat, partitions: nat, rs: seq<Bytes>)
    requires partitions > 0
    ensures AppendAll(size, partitions, rs).nextOffset == |rs|
    decreases |rs|
  {
    hide Route, Fits, Appended;
    if rs != [] {
      OffsetsCountUp(size, partitions, rs[..|rs| - 1]);
      AppendedOffset(AppendAll(size, partitions, rs[..|rs| - 1]), rs[|rs| - 1]);
    }
  }

  /** The g-th record has offset g, and its mapping is where it went when it was appended. */
  lemma {:induction false} OffsetAt(size: nat, partitions: nat, rs: seq<Bytes>, g: nat)
    requires partitions > 0 && g < |rs|
    ensures var q := AppendAll(size, partitions, rs);
            g in q.offsets && q.offsets[g] == Mapping(Route(rs[g], partitions), LocalOf(size, partitions, rs, g))
    decreases |rs|
  {
    hide Route, Fits, Appended, LocalOf;
    var front := rs[..|rs| - 1];
    OffsetsCountUp(size, partitions, front);
    AppendedOffset(AppendAll(size, partitions, front), rs[|rs| - 1]);
    if g < |front| {
      OffsetAt(size, partitions, front, g);
      assert rs[..g] == front[..g];
      LocalOfFront(size, partitions, rs, front, g);
    } else {
      LocalOfLast(size, partitions, rs);
    }
  }

  /** Exactly the offsets that appends have returned are known. */
  lemma {:induction false} UnknownIff(size: nat, partitions: nat, rs: seq<Bytes>, g: nat)
    requires partitions > 0
    ensures var q := AppendAll(size, partitions, rs);
            && (g in q.offsets ==> q.offsets[g].partition < |q.segments|)
            && (Lookup(q.segments, q.offsets, g) == Err(UnknownOffset) <==> g >= |rs|)
    decreases |rs|
  {
    hide Route, Fits, Appended;
    if rs != [] {
      var front := AppendAll(size, partitions, rs[..|rs| - 1]);
      UnknownIff(size, partitions, rs[..|rs| - 1], g);
      OffsetsCountUp(size, partitions, rs[..|rs| - 1]);
      AppendedOffset(front, rs[|rs| - 1]);
    } else {
      NothingKnown(size, partitions, g);
    }
  }

  lemma NothingKnown(size: nat, partitions: nat, g: nat)
    requires partitions > 0
    ensures g !in AppendAll(size, partitions, []).offsets
  {}

  lemma LocalOfFront(size: nat, partitions: nat, rs: seq<Bytes>, front: seq<Bytes>, g: nat)
    requires partitions > 0 && g < |front| && g < |rs| && rs[..g] == front[..g] && rs[g] == front[g]
    ensures LocalOf(size, partitions, rs, g) == LocalOf(size, partitions, front, g)
  {}

  lemma LocalOfLast(size: nat, partitions: nat, rs: seq<Bytes>)
    requires partitions > 0 && rs != []
    ensures var q := AppendAll(size, partitions, rs[..|rs| - 1]);
            var segs := q.segments[Route(rs[|rs| - 1], partitions)];
            LocalOf(size, partitions, rs, |rs| - 1) == if Fits(q, rs[|rs| - 1]) then |segs[|segs| - 1]| else 0
  {
    hide Route, AppendAll, LengthsTo, Packed;
    LastSegments(size, partitions, rs[..|rs| - 1], Route(rs[|rs| - 1], partitions));
  }

  /** The bytes that fit the first segment before a record, and all of them. */
  lemma {:induction false} RoutedFirstGrows(size: nat, partitions: nat, rs: seq<Bytes>, n: nat, p: nat)
    requires partitions > 0 && n <= |rs|
    ensures RoutedFirst(rs[..n], p, partitions, size) <= RoutedFirst(rs, p, partitions, size)
    ensures Routed(rs[..n], p, partitions) <= Routed(rs, p, partitions)
    ensures Routed(rs, p, partitions) <= size ==> |RoutedFirst(rs, p, partitions, size)| == Routed(rs, p, partitions)
    decreases |rs|
  {
    hide Route;
    if n < |rs| {
      RoutedFirstGrows(size, partitions, rs[..|rs| - 1], n, p);
      assert rs[..|rs| - 1][..n] == rs[..n];
    } else {
      assert rs[..n] == rs;
      if rs != [] {
        RoutedFirstGrows(size, partitions, rs[..|rs| - 1], |rs| - 1, p);
      }
    }
  }

  /** After any sequence of appends, and told from the records alone: a record whose partition had
      been sent no more than a segment up to and including it reads as itself with what was sent there
      after it, as far as that fitted; any other record reads as what the first segment holds from the
      record's own local offset on. */
  lemma ReadAfterAppends(size: nat, partitions: nat, rs: seq<Bytes>, g: nat)
    requires partitions > 0 && g < |rs| && forall r | r in rs :: |r| <= size
    ensures var q, p := AppendAll(size, partitions, rs), Route(rs[g], partitions);
            var first := RoutedFirst(rs, p, partitions, size);
            && (g in q.offsets ==> q.offsets[g].partition < |q.segments|)
            && Lookup(q.segments, q.offsets, g) == SegmentRead(first, LocalOf(size, partitions, rs, g))
            && (Routed(rs[..g + 1], p, partitions) <= size ==>
                  && LocalOf(size, partitions, rs, g) == Routed(rs[..g], p, partitions)
                  && Routed(rs[..g], p, partitions) + |rs[g]| <= |first|
                  && first[Routed(rs[..g], p, partitions)..][..|rs[g]|] == rs[g])
  {
    hide Route, AppendAll, LocalOf, RoutedFirst, Routed;
    var p := Route(rs[g], partitions);
    OffsetAt(size, partitions, rs, g);
    FirstSegments(size, partitions, rs, p);
    if Routed(rs[..g + 1], p, partitions) <= size {
      LocalInFirst(size, partitions, rs, g);
      ReadsRoutedFirst(size, partitions, rs, g);
    }
  }

  lemma LocalInFirst(size: nat, partitions: nat, rs: seq<Bytes>, g: nat)
    requires partitions > 0 && g < |rs| && Routed(rs[..g + 1], Route(rs[g], partitions), partitions) <= size
    ensures LocalOf(size, partitions, rs, g) == Routed(rs[..g], Route(rs[g], partitions), partitions)
  {
    hide Route, AppendAll, RoutedFirst, LengthsTo, Packed;
    assert rs[..g + 1][..g] == rs[..g] && rs[..g + 1][g] == rs[g];
    FirstSegments(size, partitions, rs[..g], Route(rs[g], partitions));
    LastSegments(size, partitions, rs[..g], Route(rs[g], partitions));
  }

  lemma ReadsRoutedFirst(size: nat, partitions: nat, rs: seq<Bytes>, g: nat)
    requires partitions > 0 && g < |rs| && Routed(rs[..g + 1], Route(rs[g], partitions), partitions) <= size
    ensures var p := Route(rs[g], partitions);
            var first, at := RoutedFirst(rs, p, partitions, size), Routed(rs[..g], p, partitions);
            at + |rs[g]| <= |first| && first[at..][..|rs[g]|] == rs[g]
  {
    hide Route;
    var p := Route(rs[g], partitions);
    var upto := rs[..g + 1];
    assert upto[..g] == rs[..g] && upto[g] == rs[g];
    RoutedFirstGrows(size, partitions, rs[..g], g, p);
    RoutedFirstGrows(size, partitions, rs, g + 1, p);
    var at, before := Routed(rs[..g], p, partitions), RoutedFirst(rs[..g], p, partitions, size);
    assert RoutedFirst(upto, p, partitions, size) == before + rs[g];
    PrefixSlice(before, rs[g], RoutedFirst(rs, p, partitions, size));
  }

  lemma PrefixSlice(a: Bytes, b: Bytes, c: Bytes)
    requires a + b <= c
    ensures |a| + |b| <= |c| && c[|a|..][..|b|] == b
  {
    assert c[|a|..][..|b|] == (a + b)[|a|..];
  }

  /** So a non-empty record is what its read starts with whenever its partition had been sent no more
      than a segment with it; otherwise exactly if the first segment happens to hold the same bytes. */
  lemma ReadsItselfIff(size: nat, partitions: nat, rs: seq<Bytes>, g: nat)
    requires partitions > 0 && g < |rs| && rs[g] != [] && forall r | r in rs :: |r| <= size
    ensures var q, p := AppendAll(size, partitions, rs), Route(rs[g], partitions);
            var first, at := RoutedFirst(rs, p, partitions, size), LocalOf(size, partitions, rs, g);
            && (g in q.offsets ==> q.offsets[g].partition < |q.segments|)
            && var read := Lookup(q.segments, q.offsets, g);
               read.Ok? && rs[g] <= read.value <==>
                 || Routed(rs[..g + 1], p, partitions) <= size
                 || (at + |rs[g]| <= |first| && first[at..at + |rs[g]|] == rs[g])
  {
    hide Route, AppendAll, RoutedFirst, LocalOf, Routed;
    ReadAfterAppends(size, partitions, rs, g);
    var first := RoutedFirst(rs, Route(rs[g], partitions), partitions, size);
    SliceOfDrop(first, LocalOf(size, partitions, rs, g), rs[g]);
  }

  lemma SliceOfDrop(a: Bytes, n: nat, b: Bytes)
    ensures n <= |a| ==> (b <= a[n..] <==> n + |b| <= |a| && a[n..n + |b|] == b)
    ensures n <= |a| && n + |b| <= |a| ==> a[n..][..|b|] == a[n..n + |b|]
  {
    if n <= |a| && n + |b| <= |a| {
      assert a[n..][..|b|] == a[n..n + |b|];
    }
  }
}
