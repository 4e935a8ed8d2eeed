/** The matching engine against the order book: levels read as sorted queues, where the two agree, and
    where they do not. */
module EngineAgreement {
  import opened Wrappers
  import opened Sequences
  import opened Queues
  import opened MatchingEngines
  import OrderBooks

  // ---- Levels as sorted queues ----

  function Reversed(s: seq<nat>): seq<nat> { seq(|s|, i requires 0 <= i < |s| => s[|s| - 1 - i]) }

  /** Asks are queued from the lowest price up, bids from the highest price down. */
  function KeysOf(kind: Kind, levels: Levels): seq<nat> {
    if kind.Asks? then Ascending(levels.Keys) else Reversed(Ascending(levels.Keys))
  }

  function Queue(kind: Kind, levels: Levels): seq<Entry> { Flatten(levels, KeysOf(kind, levels)) }

  ghost predicate Ranked(kind: Kind, keys: seq<nat>) {
    forall i, j | 0 <= i < j < |keys| :: Rank(kind, CentsToPrice(keys[i])) < Rank(kind, CentsToPrice(keys[j]))
  }

  lemma KeysOfMembers(kind: Kind, levels: Levels, k: nat)
    ensures k in KeysOf(kind, levels) <==> k in levels
  {
    hide Ascending;
    var keys := Ascending(levels.Keys);
    AscendingMembers(levels.Keys, k);
    if k in keys {
      var i :| 0 <= i < |keys| && keys[i] == k;
      assert Reversed(keys)[|keys| - 1 - i] == k;
    }
  }

  lemma KeysOfRanked(kind: Kind, levels: Levels)
    ensures Ranked(kind, KeysOf(kind, levels))
  {
    hide Ascending;
    AscendingIncreases(levels.Keys);
  }

  lemma RankedAreDistinct(kind: Kind, keys: seq<nat>)
    requires Ranked(kind, keys)
    ensures Distinct(keys)
  {
    forall i, j | 0 <= i < j < |keys| ensures keys[i] != keys[j] {
      assert Rank(kind, CentsToPrice(keys[i])) < Rank(kind, CentsToPrice(keys[j]));
    }
  }

  lemma {:induction false} FlattenConcat(levels: Levels, a: seq<nat>, b: seq<nat>)
    ensures Flatten(levels, a + b) == Flatten(levels, a) + Flatten(levels, b)
    decreases |a|
  {
    if a == [] {
      assert a + b == b;
    } else {
      FlattenConcat(levels, a[1..], b);
      assert (a + b)[1..] == a[1..] + b;
      var es := EntriesAt(a[0], At(levels, a[0]));
      assert (es + Flatten(levels, a[1..])) + Flatten(levels, b) == es + (Flatten(levels, a[1..]) + Flatten(levels, b));
    }
  }

  /** Every entry of the flattened levels comes from one of them. */
  lemma {:induction false} FlattenSource(levels: Levels, keys: seq<nat>, e: Entry) returns (k: nat)
    requires e in Flatten(levels, keys)
    ensures k in keys && e in EntriesAt(k, At(levels, k)) && e.price == CentsToPrice(k)
    decreases |keys|
  {
    hide EntriesAt;
    var es := EntriesAt(keys[0], At(levels, keys[0]));
    if e in es {
      k := keys[0];
      EntriesPrice(k, At(levels, k), e);
    } else {
      k := FlattenSource(levels, keys[1..], e);
    }
  }

  lemma EntriesPrice(level: nat, orders: seq<Order>, e: Entry)
    requires e in EntriesAt(level, orders)
    ensures e.price == CentsToPrice(level)
  {}

  lemma {:induction false} FlattenHas(levels: Levels, keys: seq<nat>, k: nat, e: Entry)
    requires k in keys && e in EntriesAt(k, At(levels, k))
    ensures e in Flatten(levels, keys)
    decreases |keys|
  {
    hide EntriesAt;
    if k != keys[0] {
      FlattenHas(levels, keys[1..], k, e);
    }
  }

  /** Both readings of the levels have the same entries. */
  lemma SameMembers(levels: Levels, kind: Kind, other: Kind, e: Entry)
    requires e in Queue(kind, levels)
    ensures e in Queue(other, levels)
  {
    hide Flatten, EntriesAt, KeysOf;
    var k := FlattenSource(levels, KeysOf(kind, levels), e);
    KeysOfMembers(kind, levels, k);
    KeysOfMembers(other, levels, k);
    FlattenHas(levels, KeysOf(other, levels), k, e);
  }

  lemma {:induction false} FlattenSorted(kind: Kind, levels: Levels, keys: seq<nat>)
    requires Ranked(kind, keys)
    ensures Sorted(kind, Flatten(levels, keys))
    decreases |keys|
  {
    hide EntriesAt;
    if keys != [] {
      var es, rest := EntriesAt(keys[0], At(levels, keys[0])), Flatten(levels, keys[1..]);
      FlattenSorted(kind, levels, keys[1..]);
      forall e | e in es ensures e.price == CentsToPrice(keys[0]) {
        EntriesPrice(keys[0], At(levels, keys[0]), e);
      }
      forall e | e in rest ensures Rank(kind, CentsToPrice(keys[0])) <= Rank(kind, e.price) {
        var k := FlattenSource(levels, keys[1..], e);
      }
      SortedConcat(kind, es, rest, CentsToPrice(keys[0]));
    }
  }

  lemma SortedConcat(kind: Kind, a: seq<Entry>, b: seq<Entry>, price: real)
    requires forall e | e in a :: e.price == price
    requires Sorted(kind, b) && forall e | e in b :: Rank(kind, price) <= Rank(kind, e.price)
    ensures Sorted(kind, a + b)
  {
    forall i, j | 0 <= i < j < |a + b| ensures Rank(kind, (a + b)[i].price) <= Rank(kind, (a + b)[j].price) {
      if i < |a| { assert (a + b)[i] in a; }
      if j < |a| { assert (a + b)[j] in a; } else { assert (a + b)[j] in b; }
    }
  }

  lemma QueueOrdered(kind: Kind, levels: Levels)
    requires LevelsOpen(levels)
    ensures Sorted(kind, Queue(kind, levels)) && Positive(Queue(kind, levels))
  {
    hide Flatten, KeysOf;
    KeysOfRanked(kind, levels);
    FlattenSorted(kind, levels, KeysOf(kind, levels));
    FlattenPositive(levels, KeysOf(kind, levels));
  }

  // ---- Resting at a level is queueing behind one's equals ----

  lemma AtPriceConcat(a: seq<Entry>, b: seq<Entry>, price: real)
    ensures AtPrice(a + b, price) == AtPrice(a, price) + AtPrice(b, price)
  {
    FlatMapConcat((e: Entry) => if e.price == price then [e] else [], a, b);
  }

  lemma {:induction false} AtPriceSame(q: seq<Entry>, price: real, x: real)
    requires forall e | e in q :: e.price == price
    ensures AtPrice(q, x) == if x == price then q else []
    decreases |q|
  {
    if q != [] {
      AtPriceSame(q[1..], price, x);
      AtPriceFront(q[0], q[1..], x);
      assert q == [q[0]] + q[1..];
    }
  }

  /** The entries of the queue at a price are the orders of that level, in their order. */
  lemma {:induction false} FlattenAtPrice(levels: Levels, keys: seq<nat>, k: nat)
    requires Distinct(keys)
    ensures AtPrice(Flatten(levels, keys), CentsToPrice(k)) == if k in keys then EntriesAt(k, At(levels, k)) else []
    decreases |keys|
  {
    hide EntriesAt, AtPrice;
    if keys == [] {
      NothingThere(k);
    } else {
      var es := EntriesAt(keys[0], At(levels, keys[0]));
      forall e | e in es ensures e.price == CentsToPrice(keys[0]) {
        EntriesPrice(keys[0], At(levels, keys[0]), e);
      }
      AtPriceSame(es, CentsToPrice(keys[0]), CentsToPrice(k));
      AtPriceConcat(es, Flatten(levels, keys[1..]), CentsToPrice(k));
      FlattenAtPrice(levels, keys[1..], k);
      assert k == keys[0] ==> k !in keys[1..];
    }
  }

  lemma NothingThere(k: nat)
    ensures AtPrice([], CentsToPrice(k)) == []
  {}

  lemma {:induction false} FlattenOffPrice(levels: Levels, keys: seq<nat>, price: real)
    requires forall k | k in keys :: CentsToPrice(k) != price
    ensures AtPrice(Flatten(levels, keys), price) == []
    decreases |keys|
  {
    hide EntriesAt, AtPrice;
    if keys == [] {
      assert AtPrice([], price) == [] by { NothingAtPrice(Asks, [], price); }
    } else {
      var es := EntriesAt(keys[0], At(levels, keys[0]));
      forall e | e in es ensures e.price == CentsToPrice(keys[0]) {
        EntriesPrice(keys[0], At(levels, keys[0]), e);
      }
      AtPriceSame(es, CentsToPrice(keys[0]), price);
      AtPriceConcat(es, Flatten(levels, keys[1..]), price);
      FlattenOffPrice(levels, keys[1..], price);
    }
  }

  lemma QueueAtPrice(kind: Kind, levels: Levels, price: real)
    ensures forall k: nat | CentsToPrice(k) == price ::
              AtPrice(Queue(kind, levels), price) == EntriesAt(k, At(levels, k))
    ensures (forall k: nat :: CentsToPrice(k) != price) ==> AtPrice(Queue(kind, levels), price) == []
  {
    hide AtPrice, Flatten, KeysOf;
    KeysOfRanked(kind, levels);
    RankedAreDistinct(kind, KeysOf(kind, levels));
    forall k: nat | CentsToPrice(k) == price
      ensures AtPrice(Queue(kind, levels), price) == EntriesAt(k, At(levels, k))
    {
      FlattenAtPrice(levels, KeysOf(kind, levels), k);
      KeysOfMembers(kind, levels, k);
    }
    if forall k: nat :: CentsToPrice(k) != price {
      FlattenOffPrice(levels, KeysOf(kind, levels), price);
    }
  }

  /** Pushing an order onto its level is inserting it into the sorted queue behind its equals. */
  lemma PushedIsInsert(kind: Kind, levels: Levels, level: nat, o: Order)
    requires LevelsOpen(levels) && Sound(o) && Open(o) > 0
    ensures Queue(kind, Pushed(levels, level, o)) == Insert(kind, Queue(kind, levels), EntryOf(level, o))
  {
    hide AtPrice, Insert, Queue, StableSorted, EntriesAt, EntryOf;
    var q, t, e := Queue(kind, levels), Queue(kind, Pushed(levels, level, o)), EntryOf(level, o);
    PushedIsOpen(levels, level, o);
    QueueOrdered(kind, levels);
    QueueOrdered(kind, Pushed(levels, level, o));
    forall price ensures AtPrice(t, price) == AtPrice(q + [e], price) {
      PushedAtPrice(kind, levels, level, o, price);
    }
    PushThenSortIsInsertion(kind, q, e, t);
  }

  lemma PushedAtPrice(kind: Kind, levels: Levels, level: nat, o: Order, price: real)
    ensures AtPrice(Queue(kind, Pushed(levels, level, o)), price)
         == AtPrice(Queue(kind, levels) + [EntryOf(level, o)], price)
  {
    hide AtPrice, Queue;
    var q, e := Queue(kind, levels), EntryOf(level, o);
    QueueAtPrice(kind, levels, price);
    QueueAtPrice(kind, Pushed(levels, level, o), price);
    AtPriceAppend(q, e, price);
    if k: nat :| CentsToPrice(k) == price {
      if k == level {
        assert EntriesAt(k, At(levels, k) + [o]) == EntriesAt(k, At(levels, k)) + [e];
      } else {
        assert e.price != price;
      }
    }
  }

  // ---- A sweep is matching against the queue of asks ----

  function PriceLimit(limit: Option<nat>): Option<real> {
    if limit.None? then None else Some(CentsToPrice(limit.value))
  }

  /** The queue the sweep reaches, and the queue behind it. */
  function Reached(o: Order, levels: Levels, limit: Option<nat>): seq<Entry> {
    Flatten(levels, ReachOf(o, levels, limit))
  }

  function Beyond(o: Order, levels: Levels, limit: Option<nat>): seq<Entry> {
    Flatten(levels, KeysOf(Asks, levels)[|ReachOf(o, levels, limit)|..])
  }

  lemma ReachFacts(o: Order, levels: Levels, limit: Option<nat>)
    ensures var reach, keys := ReachOf(o, levels, limit), KeysOf(Asks, levels);
            && |reach| <= |keys| && reach == keys[..|reach|] && keys == reach + keys[|reach|..]
            && Distinct(keys) && Distinct(reach) && Increasing(keys)
            && (forall i | 0 <= i < |keys| :: keys[i] in levels) && (forall i | 0 <= i < |reach| :: reach[i] in levels)
  {
    hide Ascending, Reach;
    var reach, keys := ReachOf(o, levels, limit), KeysOf(Asks, levels);
    AscendingIncreases(levels.Keys);
    forall i | 0 <= i < |keys| ensures keys[i] in levels {
      AscendingMembers(levels.Keys, keys[i]);
    }
  }

  /** The sweep trades with the reached part of the ascending queue and leaves its rest. */
  lemma SweepOfQueue(o: Order, levels: Levels, limit: Option<nat>)
    requires LevelsOpen(levels)
    ensures Queue(Asks, levels) == Reached(o, levels, limit) + Beyond(o, levels, limit)
    ensures Queue(Asks, Left(o, levels, limit))
         == Rest(Asks, Reached(o, levels, limit), Open(o), None) + Beyond(o, levels, limit)
    ensures Positive(Reached(o, levels, limit)) && Sorted(Asks, Reached(o, levels, limit))
    ensures LevelsOpen(Left(o, levels, limit)) && Left(o, levels, limit).Keys == levels.Keys
  {
    hide Flatten, Swept, Rest, Reach, Ascending;
    var reach, keys, left := ReachOf(o, levels, limit), KeysOf(Asks, levels), Left(o, levels, limit);
    var tail := keys[|reach|..];
    ReachFacts(o, levels, limit);
    FlattenConcat(levels, reach, tail);
    FlattenConcat(left, reach, tail);
    SweptIsRest(levels, reach, Open(o));
    forall i | 0 <= i < |tail| ensures At(left, tail[i]) == At(levels, tail[i]) {
      assert tail[i] == keys[|reach| + i];
      SweptElsewhere(levels, reach, Open(o), tail[i]);
    }
    FlattenFrame(left, levels, tail);
    FlattenPositive(levels, reach);
    KeysOfRanked(Asks, levels);
    FlattenSorted(Asks, levels, reach);
  }

  /** A buy, or any order without a limit, trades as against a sorted queue of asks. */
  lemma BuySweep(o: Order, levels: Levels, limit: Option<nat>)
    requires LevelsOpen(levels) && (o.side.Buy? || limit.None?)
    ensures Taken(o, levels, limit) == Fills(Asks, Queue(Asks, levels), Open(o), PriceLimit(limit))
    ensures Queue(Asks, Left(o, levels, limit)) == Rest(Asks, Queue(Asks, levels), Open(o), PriceLimit(limit))
  {
    hide Flatten, Swept, Rest, Fills, Reach, Ascending;
    var reach, keys := ReachOf(o, levels, limit), KeysOf(Asks, levels);
    var a, b := Reached(o, levels, limit), Beyond(o, levels, limit);
    ReachFacts(o, levels, limit);
    SweepOfQueue(o, levels, limit);
    forall e | e in a ensures Takes(Asks, PriceLimit(limit), e) {
      var k := FlattenSource(levels, reach, e);
    }
    if b != [] {
      var k := FlattenSource(levels, keys[|reach|..], b[0]);
      BeyondReach(o, levels, limit, k);
    }
    LimitCutsOff(Asks, a, b, Open(o), PriceLimit(limit));
  }

  lemma BeyondReach(o: Order, levels: Levels, limit: Option<nat>, k: nat)
    requires (o.side.Buy? || limit.None?) && k in KeysOf(Asks, levels)[|ReachOf(o, levels, limit)|..]
    ensures limit.Some? && k > limit.value
  {
    hide Ascending, Reach;
    var reach, keys := ReachOf(o, levels, limit), KeysOf(Asks, levels);
    ReachFacts(o, levels, limit);
    var i :| |reach| <= i < |keys| && keys[i] == k;
  }

  // ---- Buys agree with the order book ----

  /** The levels of one symbol as the book of the trading competition. */
  function BookOf(buys: Levels, sells: Levels): OrderBooks.Book {
    OrderBooks.Book(Queue(Bids, buys), Queue(Asks, sells))
  }

  predicate Immediate(t: OrderType) { t.Market? || t.Limit? || t.IOC? }

  /** The same order as the trading competition would submit it: what is still open of it, at its
      price in whole cents. */
  function Competing(o: Order): OrderBooks.Order
    requires Immediate(o.orderType) && (o.price.Some? || o.orderType.Market?)
  {
    OrderBooks.Order(
      o.strategyId, o.symbol,
      if o.side.Buy? then OrderBooks.Buy else OrderBooks.Sell,
      match o.orderType { case Market => OrderBooks.Market case Limit => OrderBooks.Limit case _ => OrderBooks.IOC },
      if o.price.Some? then CentsToPrice(PriceToCents(o.price.value)) else 0.0,
      Open(o), 0)
  }

  /** Both engines give a buy order the same fills, in the same order, and leave the same book. */
  lemma BuysAgree(o: Order, opposite: Levels, own: Levels)
    requires Sound(o) && o.side.Buy? && Immediate(o.orderType) && (o.price.Some? || o.orderType.Market?)
    requires LevelsOpen(opposite) && LevelsOpen(own)
    ensures var r, b, c := OutcomeByType(o, opposite, own), BookOf(own, opposite), Competing(o);
            r.reported == OrderBooks.FillsOf(b, c) && BookOf(r.own, r.opposite) == OrderBooks.Matched(b, c)
  {
    hide Queue, Taken, Left, Fills, Rest, Insert, Pushed;
    var limit := if o.orderType.Market? then None else Some(PriceToCents(o.price.value));
    BuySweep(o, opposite, limit);
    var done := Increased(o, Taken(o, opposite, limit));
    if limit.Some? && Open(done) > 0 && o.orderType.Limit? {
      TakenBounded(o, opposite, limit);
      PushedIsInsert(Bids, own, limit.value, done);
    }
  }

  lemma TakenBounded(o: Order, levels: Levels, limit: Option<nat>)
    requires Sound(o) && LevelsOpen(levels)
    ensures 0 <= Queues.Filled(Taken(o, levels, limit)) <= Open(o)
    ensures Sound(Increased(o, Taken(o, levels, limit)))
  {
    hide Fills, Flatten, Reach, Ascending, Queue, Queues.Filled, Acceptable;
    var a := Reached(o, levels, limit);
    SweepOfQueue(o, levels, limit);
    FilledTotal(Asks, a, Open(o), None);
    AcceptableRange(Asks, a, None);
  }

  // ---- Sells do not ----

  /** A level below the limit, even an emptied one, is where the ascending sweep of a sell stops. */
  ghost predicate Blocked(levels: Levels, limit: Option<nat>) {
    limit.Some? && exists k :: k in levels && k < limit.value
  }

  lemma BlockedSweep(o: Order, levels: Levels, limit: Option<nat>)
    requires o.side.Sell? && Blocked(levels, limit)
    ensures ReachOf(o, levels, limit) == []
  {
    hide Ascending, Reach;
    var reach, keys := ReachOf(o, levels, limit), KeysOf(Asks, levels);
    ReachFacts(o, levels, limit);
    var k :| k in levels && k < limit.value;
    KeysOfMembers(Asks, levels, k);
    var i :| 0 <= i < |keys| && keys[i] == k;
    assert keys[0] <= keys[i];
    assert !Reaches(o.side, limit, keys[0]);
  }

  lemma UnblockedSweep(o: Order, levels: Levels, limit: Option<nat>)
    requires o.side.Sell? && !Blocked(levels, limit)
    ensures Reached(o, levels, limit) == Queue(Asks, levels) && Beyond(o, levels, limit) == []
  {
    hide Ascending, Reach, EntriesAt;
    var reach, keys := ReachOf(o, levels, limit), KeysOf(Asks, levels);
    ReachFacts(o, levels, limit);
    assert forall i | 0 <= i < |keys| :: keys[i] in levels && Reaches(o.side, limit, keys[i]);
    assert keys[|reach|..] == [];
    assert reach == keys;
  }

  /** A sell with a limit trades nothing if it is blocked; otherwise it takes the lowest bids first,
      as if they were asks and it had no limit. */
  lemma SellSweep(o: Order, levels: Levels, limit: Option<nat>)
    requires LevelsOpen(levels) && o.side.Sell?
    ensures Blocked(levels, limit) ==> Taken(o, levels, limit) == [] && Left(o, levels, limit) == levels
    ensures !Blocked(levels, limit) ==>
              && Taken(o, levels, limit) == Fills(Asks, Queue(Asks, levels), Open(o), None)
              && Queue(Asks, Left(o, levels, limit)) == Rest(Asks, Queue(Asks, levels), Open(o), None)
  {
    hide Queue, Reach, Fills, Rest, Blocked, Beyond;
    if Blocked(levels, limit) {
      BlockedSweep(o, levels, limit);
      FillsEnd(Asks, [], Open(o), None);
    } else {
      UnblockedSweep(o, levels, limit);
      SweepOfQueue(o, levels, limit);
      var rest := Rest(Asks, Queue(Asks, levels), Open(o), None);
      assert rest + [] == rest;
    }
  }

  ghost predicate OnePrice(q: seq<Entry>) { forall i, j | 0 <= i < |q| && 0 <= j < |q| :: q[i].price == q[j].price }

  ghost predicate SomeTaker(kind: Kind, q: seq<Entry>, limit: Option<real>) {
    exists e :: e in q && Takes(kind, limit, e)
  }

  lemma FirstFill(kind: Kind, q: seq<Entry>, quantity: int, limit: Option<real>)
    requires Sorted(kind, q) && Positive(q)
    ensures quantity > 0 && SomeTaker(kind, q, limit) ==>
              var fills := Fills(kind, q, quantity, limit); q != [] && fills != [] && fills[0].price == q[0].price
    ensures quantity <= 0 || !SomeTaker(kind, q, limit) ==> Fills(kind, q, quantity, limit) == []
  {
    if SomeTaker(kind, q, limit) {
      var e :| e in q && Takes(kind, limit, e);
      var i :| 0 <= i < |q| && q[i] == e;
      assert Rank(kind, q[0].price) <= Rank(kind, q[i].price);
    }
  }

  /** At one price both readings of the levels are the same queue. */
  lemma OnePriceSame(levels: Levels)
    requires LevelsOpen(levels) && OnePrice(Queue(Bids, levels))
    ensures Queue(Asks, levels) == Queue(Bids, levels)
  {
    hide Queue, EntriesAt, AtPrice;
    QueueOrdered(Asks, levels);
    var a, b := Queue(Asks, levels), Queue(Bids, levels);
    forall price ensures AtPrice(a, price) == AtPrice(b, price) {
      QueueAtPrice(Asks, levels, price);
      QueueAtPrice(Bids, levels, price);
      if k: nat :| CentsToPrice(k) == price {}
    }
    StableSortUnique(Asks, a, b);
  }

  lemma OneOrBoth(levels: Levels)
    requires LevelsOpen(levels) && Queue(Bids, levels) != []
    requires Queue(Asks, levels) != [] ==> Queue(Asks, levels)[0].price == Queue(Bids, levels)[0].price
    ensures OnePrice(Queue(Bids, levels))
  {
    hide Queue;
    QueueOrdered(Asks, levels);
    QueueOrdered(Bids, levels);
    var a, b := Queue(Asks, levels), Queue(Bids, levels);
    forall i | 0 <= i < |b| ensures b[i].price == b[0].price {
      SameMembers(levels, Bids, Asks, b[i]);
      var j :| 0 <= j < |a| && a[j] == b[i];
      assert Rank(Asks, a[0].price) <= Rank(Asks, a[j].price) && Rank(Bids, b[0].price) <= Rank(Bids, b[i].price);
    }
  }

  function LimitFor(o: Order): Option<nat> {
    if o.orderType.Market? || o.price.None? then None else Some(PriceToCents(o.price.value))
  }

  lemma SellFillsIff(o: Order, levels: Levels, limit: Option<nat>)
    requires Sound(o) && o.side.Sell? && LevelsOpen(levels)
    ensures var bids := Queue(Bids, levels);
            Taken(o, levels, limit) == Fills(Bids, bids, Open(o), PriceLimit(limit)) <==>
              Open(o) == 0 || !SomeTaker(Bids, bids, PriceLimit(limit)) || (!Blocked(levels, limit) && OnePrice(bids))
  {
    hide Queue, Taken, Left, Fills, Rest, SomeTaker, OnePrice, Blocked, Takes;
    var asks, bids, p := Queue(Asks, levels), Queue(Bids, levels), PriceLimit(limit);
    SellSweep(o, levels, limit);
    QueueOrdered(Asks, levels);
    QueueOrdered(Bids, levels);
    FirstFill(Bids, bids, Open(o), p);
    FirstFill(Asks, asks, Open(o), None);
    if !Blocked(levels, limit) {
      UnblockedTakes(levels, limit);
      if OnePrice(bids) {
        OnePriceSame(levels);
        assert bids + [] == bids;
        LimitCutsOff(Bids, bids, [], Open(o), p);
      } else if asks != [] && bids != [] && asks[0].price == bids[0].price {
        OneOrBoth(levels);
      }
    }
  }

  lemma UnblockedTakes(levels: Levels, limit: Option<nat>)
    requires !Blocked(levels, limit)
    ensures forall e | e in Queue(Bids, levels) :: Takes(Bids, PriceLimit(limit), e)
    ensures Queue(Asks, levels) != [] <==> Queue(Bids, levels) != []
    ensures SomeTaker(Asks, Queue(Asks, levels), None) <==> Queue(Asks, levels) != []
    ensures SomeTaker(Bids, Queue(Bids, levels), PriceLimit(limit)) <==> Queue(Bids, levels) != []
  {
    hide Flatten, KeysOf;
    var asks, bids := Queue(Asks, levels), Queue(Bids, levels);
    forall e | e in bids ensures Takes(Bids, PriceLimit(limit), e) {
      var k := FlattenSource(levels, KeysOf(Bids, levels), e);
      KeysOfMembers(Bids, levels, k);
    }
    if asks != [] { SameMembers(levels, Asks, Bids, asks[0]); assert Takes(Asks, None, asks[0]); }
    if bids != [] { SameMembers(levels, Bids, Asks, bids[0]); }
  }

  /** Where a sell gets the fills of the order book. */
  ghost predicate SellsAlike(o: Order, levels: Levels, limit: Option<nat>) {
    var bids := Queue(Bids, levels);
    Open(o) == 0 || !SomeTaker(Bids, bids, PriceLimit(limit)) || (!Blocked(levels, limit) && OnePrice(bids))
  }

  lemma RestUntouched(kind: Kind, q: seq<Entry>, quantity: int, limit: Option<real>)
    requires quantity <= 0 || !SomeTaker(kind, q, limit)
    ensures Rest(kind, q, quantity, limit) == q
  {
    if q != [] && Takes(kind, limit, q[0]) {
      assert q[0] in q;
    }
  }

  lemma LeftOnePrice(o: Order, levels: Levels, limit: Option<nat>)
    requires LevelsOpen(levels) && OnePrice(Queue(Bids, levels))
    ensures OnePrice(Queue(Bids, Left(o, levels, limit)))
  {
    hide Queue, Left;
    var bids, left := Queue(Bids, levels), Queue(Bids, Left(o, levels, limit));
    forall i, j | 0 <= i < |left| && 0 <= j < |left| ensures left[i].price == left[j].price {
      LeftPrices(o, levels, limit, left[i]);
      LeftPrices(o, levels, limit, left[j]);
    }
  }

  lemma LeftUntouched(o: Order, levels: Levels, limit: Option<nat>)
    requires Open(o) == 0
    ensures Left(o, levels, limit) == levels
  {
    hide Swept, Reach, Ascending;
    ReachFacts(o, levels, limit);
    SweptForNothing(levels, ReachOf(o, levels, limit));
  }

  /** Where the fills agree, so do the bids that are left. */
  lemma SellRestAgrees(o: Order, levels: Levels, limit: Option<nat>)
    requires Sound(o) && o.side.Sell? && LevelsOpen(levels) && SellsAlike(o, levels, limit)
    ensures Queue(Bids, Left(o, levels, limit)) == Rest(Bids, Queue(Bids, levels), Open(o), PriceLimit(limit))
  {
    hide Queue, Taken, Left, Fills, Rest, SomeTaker, OnePrice, Blocked, Takes;
    var bids, p := Queue(Bids, levels), PriceLimit(limit);
    if Open(o) == 0 {
      LeftUntouched(o, levels, limit);
      RestUntouched(Bids, bids, 0, p);
    } else if Blocked(levels, limit) {
      SellSweep(o, levels, limit);
      RestUntouched(Bids, bids, Open(o), p);
    } else {
      UnblockedTakes(levels, limit);
      if OnePrice(bids) {
        QueueOrdered(Bids, levels);
        OnePriceSame(levels);
        assert bids + [] == bids;
        LimitCutsOff(Bids, bids, [], Open(o), p);
        SweepOfQueue(o, levels, limit);
        LeftOnePrice(o, levels, limit);
        OnePriceSame(Left(o, levels, limit));
        SellSweep(o, levels, limit);
        assert Rest(Asks, bids, Open(o), None) + [] == Rest(Asks, bids, Open(o), None);
      } else {
        NoTakersNoBids(levels, limit);
        SellSweep(o, levels, limit);
      }
    }
  }

  lemma NoTakersNoBids(levels: Levels, limit: Option<nat>)
    requires !Blocked(levels, limit) && !SomeTaker(Bids, Queue(Bids, levels), PriceLimit(limit))
    ensures OnePrice(Queue(Bids, levels))
  {
    hide Queue;
    UnblockedTakes(levels, limit);
  }

  /** A sell gets the fills of the order book exactly if there is nothing to trade, or it is not
      blocked and all open bids are at one price; and then the books it leaves agree as well. */
  lemma SellsAgreeIff(o: Order, opposite: Levels, own: Levels)
    requires Sound(o) && o.side.Sell? && Immediate(o.orderType) && (o.price.Some? || o.orderType.Market?)
    requires LevelsOpen(opposite) && LevelsOpen(own)
    ensures OutcomeByType(o, opposite, own).reported == OrderBooks.FillsOf(BookOf(opposite, own), Competing(o))
            <==> SellsAlike(o, opposite, LimitFor(o))
    ensures var r := OutcomeByType(o, opposite, own);
            SellsAlike(o, opposite, LimitFor(o)) ==>
              BookOf(r.opposite, r.own) == OrderBooks.Matched(BookOf(opposite, own), Competing(o))
  {
    hide Queue, Taken, Left, Fills, Rest, Insert, Pushed, SomeTaker, OnePrice, Blocked;
    var limit := LimitFor(o);
    SellFillsIff(o, opposite, limit);
    if SellsAlike(o, opposite, limit) {
      SellRestAgrees(o, opposite, limit);
      var done := Increased(o, Taken(o, opposite, limit));
      if o.orderType.Limit? && Open(done) > 0 {
        TakenBounded(o, opposite, limit);
        PushedIsInsert(Asks, own, limit.value, done);
      }
    }
  }

  // ---- Where a sell leaves the book of the order book all the same ----

  function OpenAt(q: seq<Entry>, price: real): int { Sum(AtPrice(q, price), EntryQuantity) }

  lemma OpenAtFront(q: seq<Entry>, price: real)
    requires q != []
    ensures OpenAt(q, price) == (if q[0].price == price then q[0].quantity else 0) + OpenAt(q[1..], price)
  {
    AtPriceFront(q[0], q[1..], price);
    assert q == [q[0]] + q[1..];
    var front := if q[0].price == price then [q[0]] else [];
    SumConcat(front, AtPrice(q[1..], price), EntryQuantity);
    SumOne(q[0], EntryQuantity);
  }

  lemma {:induction false} OpenAtNonNegative(q: seq<Entry>, price: real)
    requires Positive(q)
    ensures 0 <= OpenAt(q, price) <= Sum(q, EntryQuantity)
    decreases |q|
  {
    hide AtPrice;
    if q == [] {
      NoneOpen(price);
    } else {
      OpenAtFront(q, price);
      OpenAtNonNegative(q[1..], price);
    }
  }

  lemma NoneOpen(price: real)
    ensures OpenAt([], price) == 0
  {}

  /** An order without a limit takes from the dearest bids first what the order book sells: the bids at
      the highest price lose all of it that they can. */
  lemma {:induction false} DearestLose(q: seq<Entry>, quantity: int, limit: Option<real>, price: real)
    requires Positive(q) && Sorted(Bids, q) && quantity >= 0
    requires forall i | 0 <= i < |q| :: q[i].price <= price && Takes(Bids, limit, q[i])
    ensures OpenAt(Rest(Bids, q, quantity, limit), price) == Max(OpenAt(q, price) - quantity, 0)
    decreases |q|
  {
    hide AtPrice, Rest;
    OpenAtNonNegative(q, price);
    if q == [] || quantity == 0 {
      FillsEnd(Bids, q, quantity, limit);
    } else if q[0].price < price {
      NoneDearer(q, price);
      RestOrdered(Bids, q, quantity, limit);
      NoneDearer(Rest(Bids, q, quantity, limit), price);
    } else {
      OpenAtFront(q, price);
      if quantity < q[0].quantity {
        FillsEnd(Bids, q, quantity, limit);
        OpenAtFront(Rest(Bids, q, quantity, limit), price);
        OpenAtNonNegative(q[1..], price);
      } else {
        FillsPop(Bids, q, quantity, limit);
        DearestLose(q[1..], quantity - q[0].quantity, limit, price);
      }
    }
  }

  lemma NoneDearer(q: seq<Entry>, price: real)
    requires forall i | 0 <= i < |q| :: q[i].price < price
    ensures OpenAt(q, price) == 0
  {
    NothingAtPrice(Bids, q, price);
  }

  /** The sweep takes them last: they lose only what all the others cannot give. */
  lemma {:induction false} DearestLast(q: seq<Entry>, quantity: int, price: real)
    requires Positive(q) && Sorted(Asks, q) && forall i | 0 <= i < |q| :: q[i].price <= price
    requires quantity >= 0
    ensures OpenAt(Rest(Asks, q, quantity, None), price) >= Min(OpenAt(q, price), Sum(q, EntryQuantity) - quantity)
    decreases |q|
  {
    hide AtPrice, Rest;
    OpenAtNonNegative(q, price);
    if q == [] || quantity == 0 {
      FillsEnd(Asks, q, quantity, None);
    } else {
      OpenAtFront(q, price);
      OpenAtNonNegative(q[1..], price);
      if quantity < q[0].quantity {
        FillsEnd(Asks, q, quantity, None);
        OpenAtFront(Rest(Asks, q, quantity, None), price);
        if q[0].price == price {
          AllDearest(q[1..], price);
        }
      } else {
        FillsPop(Asks, q, quantity, None);
        DearestLast(q[1..], quantity - q[0].quantity, price);
        if q[0].price == price {
          AllDearest(q[1..], price);
        }
      }
    }
  }

  lemma {:induction false} AllDearest(q: seq<Entry>, price: real)
    requires forall i | 0 <= i < |q| :: q[i].price == price
    ensures OpenAt(q, price) == Sum(q, EntryQuantity)
    decreases |q|
  {
    AtPriceSame(q, price, price);
  }

  lemma NotOnePrice(q: seq<Entry>)
    requires Sorted(Bids, q) && Positive(q) && q != [] && !OnePrice(q)
    ensures OpenAt(q, q[0].price) < Sum(q, EntryQuantity)
  {
    hide AtPrice;
    var i :| 0 <= i < |q| && q[i].price != q[0].price;
    assert Rank(Bids, q[0].price) <= Rank(Bids, q[i].price);
    LessAtPrice(q, i, q[0].price);
  }

  lemma {:induction false} LessAtPrice(q: seq<Entry>, i: nat, price: real)
    requires Positive(q) && i < |q| && q[i].price != price
    ensures OpenAt(q, price) < Sum(q, EntryQuantity)
    decreases |q|
  {
    hide AtPrice;
    OpenAtFront(q, price);
    OpenAtNonNegative(q[1..], price);
    if i > 0 {
      LessAtPrice(q[1..], i - 1, price);
    }
  }

  lemma EverythingTaken(kind: Kind, q: seq<Entry>, quantity: int, limit: Option<real>)
    requires Sorted(kind, q) && Positive(q) && quantity >= Sum(q, EntryQuantity)
    requires forall e | e in q :: Takes(kind, limit, e)
    ensures Rest(kind, q, quantity, limit) == []
  {
    hide Fills, Rest;
    FilledTotal(kind, q, quantity, limit);
    SumSame(q, (e: Entry) => if Takes(kind, limit, e) then e.quantity else 0, EntryQuantity);
    SumNonNegative(q, EntryQuantity);
    QuantityConserved(kind, q, quantity, limit);
    var rest := Rest(kind, q, quantity, limit);
    RestOrdered(kind, q, quantity, limit);
    if rest != [] {
      SumBound(rest, EntryQuantity, 0);
    }
  }

  lemma SameTotals(levels: Levels)
    ensures Sum(Queue(Asks, levels), EntryQuantity) == Sum(Queue(Bids, levels), EntryQuantity)
  {
    hide Flatten, EntriesAt, Ascending;
    ReversedTotal(levels, Ascending(levels.Keys));
  }

  lemma {:induction false} ReversedTotal(levels: Levels, keys: seq<nat>)
    ensures Sum(Flatten(levels, keys), EntryQuantity) == Sum(Flatten(levels, Reversed(keys)), EntryQuantity)
    decreases |keys|
  {
    hide EntriesAt, Flatten, Sum;
    if keys != [] {
      var k, tail := keys[0], keys[1..];
      var es := EntriesAt(k, At(levels, k));
      ReversedTotal(levels, tail);
      assert Reversed(keys) == Reversed(tail) + [k] && keys == [k] + tail;
      FlattenConcat(levels, Reversed(tail), [k]);
      FlattenFront(levels, k, tail);
      OneLevel(levels, k);
      SumConcat(Flatten(levels, Reversed(tail)), es, EntryQuantity);
      SumConcat(es, Flatten(levels, tail), EntryQuantity);
    } else {
      assert Reversed(keys) == [];
    }
  }

  lemma OneLevel(levels: Levels, k: nat)
    ensures Flatten(levels, [k]) == EntriesAt(k, At(levels, k))
  {
    hide EntriesAt;
    assert [k][1..] == [];
    assert EntriesAt(k, At(levels, k)) + [] == EntriesAt(k, At(levels, k));
  }

  lemma SameAtPrice(levels: Levels, price: real)
    ensures AtPrice(Queue(Asks, levels), price) == AtPrice(Queue(Bids, levels), price)
  {
    hide Queue, AtPrice, EntriesAt;
    QueueAtPrice(Asks, levels, price);
    QueueAtPrice(Bids, levels, price);
    if k: nat :| CentsToPrice(k) == price {}
  }

  /** Blocked, the sweep leaves bids that the order book sells to; otherwise it leaves more of the
      dearest bids. */
  lemma SellBidsDiffer(o: Order, levels: Levels, limit: Option<nat>)
    requires Sound(o) && o.side.Sell? && LevelsOpen(levels) && !SellsAlike(o, levels, limit)
    requires Blocked(levels, limit) || Open(o) < Sum(Queue(Bids, levels), EntryQuantity)
    ensures Queue(Bids, Left(o, levels, limit)) != Rest(Bids, Queue(Bids, levels), Open(o), PriceLimit(limit))
  {
    hide Queue, Left, Taken, Fills, Rest, Blocked, OpenAt, AtPrice, SomeTaker, OnePrice, Takes;
    var bids, asks, p := Queue(Bids, levels), Queue(Asks, levels), PriceLimit(limit);
    SellSweep(o, levels, limit);
    QueueOrdered(Bids, levels);
    QueueOrdered(Asks, levels);
    FirstFill(Bids, bids, Open(o), p);
    if Blocked(levels, limit) {
      var fills := Fills(Bids, bids, Open(o), p);
      FillsAcceptable(Bids, bids, Open(o), p);
      SumBound(fills, FillQuantity, 0);
      QuantityConserved(Bids, bids, Open(o), p);
    } else {
      UnblockedTakes(levels, limit);
      var price := bids[0].price;
      forall j | 0 <= j < |asks| ensures asks[j].price <= price {
        SameMembers(levels, Asks, Bids, asks[j]);
        var i :| 0 <= i < |bids| && bids[i] == asks[j];
        assert Rank(Bids, bids[0].price) <= Rank(Bids, bids[i].price);
      }
      forall i | 0 <= i < |bids| ensures bids[i].price <= price {
        assert Rank(Bids, bids[0].price) <= Rank(Bids, bids[i].price);
      }
      SellDearest(o, levels, limit, price);
    }
  }

  lemma SellDearest(o: Order, levels: Levels, limit: Option<nat>, price: real)
    requires Sound(o) && Open(o) > 0 && LevelsOpen(levels) && Open(o) < Sum(Queue(Bids, levels), EntryQuantity)
    requires var bids := Queue(Bids, levels);
             && Sorted(Bids, bids) && Positive(bids) && bids != [] && bids[0].price == price && !OnePrice(bids)
             && forall i | 0 <= i < |bids| :: bids[i].price <= price && Takes(Bids, PriceLimit(limit), bids[i])
    requires var asks := Queue(Asks, levels);
             Sorted(Asks, asks) && Positive(asks) && forall j | 0 <= j < |asks| :: asks[j].price <= price
    requires Queue(Asks, Left(o, levels, limit)) == Rest(Asks, Queue(Asks, levels), Open(o), None)
    ensures Queue(Bids, Left(o, levels, limit)) != Rest(Bids, Queue(Bids, levels), Open(o), PriceLimit(limit))
  {
    hide Queue, Left, Rest, AtPrice, Takes, OnePrice;
    var bids, asks := Queue(Bids, levels), Queue(Asks, levels);
    DearestLose(bids, Open(o), PriceLimit(limit), price);
    DearestLast(asks, Open(o), price);
    SameAtPrice(levels, price);
    SameAtPrice(Left(o, levels, limit), price);
    SameTotals(levels);
    NotOnePrice(bids);
    OpenAtFront(bids, price);
    assert bids[0] in bids;
    OpenAtNonNegative(bids[1..], price);
  }

  lemma SellTakesAll(o: Order, levels: Levels, limit: Option<nat>)
    requires Sound(o) && o.side.Sell? && LevelsOpen(levels) && !Blocked(levels, limit)
    requires Open(o) >= Sum(Queue(Bids, levels), EntryQuantity)
    ensures Queue(Bids, Left(o, levels, limit)) == []
    ensures Rest(Bids, Queue(Bids, levels), Open(o), PriceLimit(limit)) == []
    ensures Queues.Filled(Taken(o, levels, limit))
         == Queues.Filled(Fills(Bids, Queue(Bids, levels), Open(o), PriceLimit(limit)))
  {
    hide Queue, Left, Taken, Fills, Rest, Blocked, Takes;
    var bids, asks := Queue(Bids, levels), Queue(Asks, levels);
    SellSweep(o, levels, limit);
    QueueOrdered(Bids, levels);
    QueueOrdered(Asks, levels);
    UnblockedTakes(levels, limit);
    SameTotals(levels);
    AllTake(asks);
    EverythingTaken(Bids, bids, Open(o), PriceLimit(limit));
    EverythingTaken(Asks, asks, Open(o), None);
    QuantityConserved(Bids, bids, Open(o), PriceLimit(limit));
    QuantityConserved(Asks, asks, Open(o), None);
    var left := Queue(Bids, Left(o, levels, limit));
    if left != [] {
      SameMembers(Left(o, levels, limit), Bids, Asks, left[0]);
    }
  }

  lemma AllTake(q: seq<Entry>)
    ensures forall e | e in q :: Takes(Asks, None, e)
  {}

  /** A sell leaves the book of the order book exactly if it gets its fills, or takes all bids there are,
      though it takes them in the opposite order. */
  lemma SellBooksAgreeIff(o: Order, opposite: Levels, own: Levels)
    requires Sound(o) && o.side.Sell? && Immediate(o.orderType) && (o.price.Some? || o.orderType.Market?)
    requires LevelsOpen(opposite) && LevelsOpen(own)
    ensures var r := OutcomeByType(o, opposite, own);
            BookOf(r.opposite, r.own) == OrderBooks.Matched(BookOf(opposite, own), Competing(o)) <==>
              || SellsAlike(o, opposite, LimitFor(o))
              || (!Blocked(opposite, LimitFor(o)) && Open(o) >= Sum(Queue(Bids, opposite), EntryQuantity))
  {
    hide Queue, Taken, Left, Fills, Rest, Insert, Pushed, SellsAlike, Blocked, Queues.Filled, BookOf;
    var limit := LimitFor(o);
    SellBidsOf(o, opposite, own);
    if SellsAlike(o, opposite, limit) {
      SellsAgreeIff(o, opposite, own);
    } else if !Blocked(opposite, limit) && Open(o) >= Sum(Queue(Bids, opposite), EntryQuantity) {
      SellTakesAll(o, opposite, limit);
      SellAsksAgree(o, opposite, own);
    } else {
      SellBidsDiffer(o, opposite, limit);
    }
  }

  lemma SellBidsOf(o: Order, opposite: Levels, own: Levels)
    requires o.side.Sell? && Immediate(o.orderType) && (o.price.Some? || o.orderType.Market?)
    ensures var r := OutcomeByType(o, opposite, own);
            var limit := LimitFor(o);
            && BookOf(r.opposite, r.own).bids == Queue(Bids, Left(o, opposite, limit))
            && OrderBooks.Matched(BookOf(opposite, own), Competing(o)).bids
               == Rest(Bids, Queue(Bids, opposite), Open(o), PriceLimit(limit))
  {
    hide Queue, Taken, Left, Fills, Rest, Insert, Pushed, Queues.Filled;
  }

  lemma SellAsksAgree(o: Order, opposite: Levels, own: Levels)
    requires Sound(o) && o.side.Sell? && Immediate(o.orderType) && (o.price.Some? || o.orderType.Market?)
    requires LevelsOpen(opposite) && LevelsOpen(own)
    requires Queues.Filled(Taken(o, opposite, LimitFor(o)))
          == Queues.Filled(Fills(Bids, Queue(Bids, opposite), Open(o), PriceLimit(LimitFor(o))))
    ensures var r := OutcomeByType(o, opposite, own);
            BookOf(r.opposite, r.own).asks == OrderBooks.Matched(BookOf(opposite, own), Competing(o)).asks
  {
    hide Queue, Taken, Left, Fills, Rest, Insert, Pushed, Queues.Filled;
    var limit := LimitFor(o);
    var done := Increased(o, Taken(o, opposite, limit));
    if o.orderType.Limit? && Open(done) > 0 {
      TakenBounded(o, opposite, limit);
      PushedIsInsert(Asks, own, limit.value, done);
    }
  }

  const LOW_BID := Order(1, "AAPL", Buy, Limit, 10, Some(99.0), None, 0, New, "a")
  const HIGH_BID := Order(2, "AAPL", Buy, Limit, 10, Some(101.0), None, 0, New, "b")
  const SELL_BETWEEN := Order(3, "AAPL", Sell, Limit, 10, Some(100.0), None, 0, New, "c")
  const TWO_BIDS: Levels := map[9900 := [LOW_BID], 10100 := [HIGH_BID]]

  /** Two bids and a sell between them: the lower bid blocks it, the higher would trade with it. */
  lemma BlockedSellExample()
    ensures LimitFor(SELL_BETWEEN) == Some(10000) && LevelsOpen(TWO_BIDS) && Blocked(TWO_BIDS, Some(10000))
    ensures SomeTaker(Bids, Queue(Bids, TWO_BIDS), Some(100.0))
    ensures OrderBooks.Uncrossed(BookOf(TWO_BIDS, map[]))
  {
    hide Queue;
    assert 9900 in TWO_BIDS;
    HighBidQueued();
    EmptyQueue(Asks);
    assert Takes(Bids, Some(100.0), EntryOf(10100, HIGH_BID));
  }

  /** A limit sell in such a case does not trade at all where the order book would; it comes to rest at
      or below an open bid, and leaves the book crossed. */
  lemma BlockedSell(o: Order, opposite: Levels, own: Levels)
    requires Sound(o) && Open(o) > 0 && o.side.Sell? && o.orderType.Limit? && o.price.Some?
    requires LevelsOpen(opposite) && LevelsOpen(own) && OrderBooks.Uncrossed(BookOf(opposite, own))
    requires Blocked(opposite, LimitFor(o)) && SomeTaker(Bids, Queue(Bids, opposite), PriceLimit(LimitFor(o)))
    ensures var r := OutcomeByType(o, opposite, own);
            && r.reported == [] && r.opposite == opposite && r.own == Pushed(own, PriceToCents(o.price.value), o)
            && OrderBooks.FillsOf(BookOf(opposite, own), Competing(o)) != []
            && !OrderBooks.Uncrossed(BookOf(r.opposite, r.own))
  {
    hide Queue, Fills, Left, Taken, PriceToCents, Blocked, SomeTaker, OrderBooks.Uncrossed, Pushed;
    SellSweep(o, opposite, LimitFor(o));
    NothingFilled("");
    QueueOrdered(Bids, opposite);
    FirstFill(Bids, Queue(Bids, opposite), Open(o), PriceLimit(LimitFor(o)));
    SellUncrossedIff(o, opposite, own);
  }

  lemma HighBidQueued()
    ensures EntryOf(10100, HIGH_BID) in Queue(Bids, TWO_BIDS)
  {
    hide Flatten, KeysOf;
    KeysOfMembers(Bids, TWO_BIDS, 10100);
    assert EntriesAt(10100, [HIGH_BID])[0] == EntryOf(10100, HIGH_BID);
    FlattenHas(TWO_BIDS, KeysOf(Bids, TWO_BIDS), 10100, EntryOf(10100, HIGH_BID));
  }

  lemma EmptyQueue(kind: Kind)
    ensures Queue(kind, map[]) == []
  {
    var empty: Levels := map[];
    assert Ascending(empty.Keys) == [];
  }

  /** A sell leaves an uncrossed book uncrossed exactly if it does not come to rest, blocked, under
      a bid it should have traded with. */
  lemma SellUncrossedIff(o: Order, opposite: Levels, own: Levels)
    requires Sound(o) && o.side.Sell? && Immediate(o.orderType) && (o.price.Some? || o.orderType.Market?)
    requires LevelsOpen(opposite) && LevelsOpen(own) && OrderBooks.Uncrossed(BookOf(opposite, own))
    ensures var r := OutcomeByType(o, opposite, own);
            OrderBooks.Uncrossed(BookOf(r.opposite, r.own)) <==>
              !(o.orderType.Limit? && Open(o) > 0 && Blocked(opposite, LimitFor(o))
                && SomeTaker(Bids, Queue(Bids, opposite), PriceLimit(LimitFor(o))))
  {
    hide Queue, Taken, Left, Fills, Rest, Insert, Pushed, Blocked, PriceToCents, OrderBooks.Below, SomeTaker;
    var r := OutcomeByType(o, opposite, own);
    var limit, bids, asks := LimitFor(o), Queue(Bids, opposite), Queue(Asks, own);
    OrderBooks.UncrossedIsBelow(BookOf(opposite, own));
    OrderBooks.UncrossedIsBelow(BookOf(r.opposite, r.own));
    SellSweep(o, opposite, limit);
    TakenBounded(o, opposite, limit);
    var done := Increased(o, Taken(o, opposite, limit));
    if o.orderType.Limit? && Open(done) > 0 {
      PushedIsInsert(Asks, own, limit.value, done);
      if Blocked(opposite, limit) {
        NothingFilled("");
        BelowInsert(bids, asks, EntryOf(limit.value, done));
      } else {
        NothingLeft(o, opposite, limit);
        NothingIsBelow(Queue(Asks, r.own));
      }
    } else {
      if o.orderType.Limit? && Blocked(opposite, limit) { NothingFilled(""); }
      LeftBelow(o, opposite, limit, asks);
    }
  }

  lemma NothingIsBelow(asks: seq<Entry>)
    ensures OrderBooks.Below([], asks)
  {}

  lemma BelowInsert(bids: seq<Entry>, asks: seq<Entry>, e: Entry)
    requires OrderBooks.Below(bids, asks)
    ensures OrderBooks.Below(bids, Insert(Asks, asks, e)) <==> !SomeTaker(Bids, bids, Some(e.price))
  {
    hide Insert;
    InsertMembers(Asks, asks, e);
    if OrderBooks.Below(bids, Insert(Asks, asks, e)) {
      assert e in Insert(Asks, asks, e);
    } else {
      var x, y :| x in bids && y in Insert(Asks, asks, e) && x.price >= y.price;
      assert y == e && Takes(Bids, Some(e.price), x);
    }
  }

  lemma LeftBelow(o: Order, levels: Levels, limit: Option<nat>, asks: seq<Entry>)
    requires LevelsOpen(levels) && OrderBooks.Below(Queue(Bids, levels), asks)
    ensures OrderBooks.Below(Queue(Bids, Left(o, levels, limit)), asks)
  {
    hide Queue, Left;
    forall x, y | x in Queue(Bids, Left(o, levels, limit)) && y in asks ensures x.price < y.price {
      LeftPrices(o, levels, limit, x);
    }
  }

  lemma LeftPrices(o: Order, levels: Levels, limit: Option<nat>, x: Entry)
    requires LevelsOpen(levels) && x in Queue(Bids, Left(o, levels, limit))
    ensures exists y :: y in Queue(Bids, levels) && y.price == x.price
  {
    hide Queue, Left, Rest, Flatten, Beyond, Reach, Ascending;
    var a, b := Reached(o, levels, limit), Beyond(o, levels, limit);
    SweepOfQueue(o, levels, limit);
    SameMembers(Left(o, levels, limit), Bids, Asks, x);
    var y := x;
    if x in Rest(Asks, a, Open(o), None) {
      OrderBooks.RestPrices(Asks, a, Open(o), None, x);
      y :| y in a && y.price == x.price;
    }
    assert y in a + b;
    SameMembers(levels, Asks, Bids, y);
  }

  /** What a sell that is not blocked leaves open of itself, it leaves because no bid is left. */
  lemma NothingLeft(o: Order, levels: Levels, limit: Option<nat>)
    requires LevelsOpen(levels) && o.side.Sell? && !Blocked(levels, limit)
    requires Open(o) > Queues.Filled(Taken(o, levels, limit))
    ensures Queue(Bids, Left(o, levels, limit)) == []
  {
    hide Queue, Taken, Left, Fills, Rest, Blocked;
    SellSweep(o, levels, limit);
    QueueOrdered(Asks, levels);
    RemainderMeansExhausted(Asks, Queue(Asks, levels), Open(o), None);
    var bids := Queue(Bids, Left(o, levels, limit));
    if bids != [] {
      SameMembers(Left(o, levels, limit), Bids, Asks, bids[0]);
    }
  }
}
