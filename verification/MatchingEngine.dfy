/** The matching engine of the trading server: per symbol and side, price levels of orders that
    are served first come, first served, swept from the lowest price up. */
module MatchingEngines {
  import opened Wrappers
  import opened Sequences
  import opened Queues

  datatype Side = Buy | Sell

  datatype OrderType = Market | Limit | IOC | FOK | Stop | StopLimit

  datatype Status = New | PartiallyFilled | Filled | Cancelled | Rejected

  datatype Order = Order(
    orderId: nat, symbol: string, side: Side, orderType: OrderType, quantity: int,
    price: Option<real>, stopPrice: Option<real>, filledQuantity: int, status: Status, strategyId: string)

  datatype Execution = Execution(
    executionId: nat, orderId: nat, symbol: string, side: Side, price: real, quantity: int)

  /** A book of one symbol: price in cents to the orders resting there. */
  type Levels = map<nat, seq<Order>>

  const CENTS: real := 100.0

  /** Rounds half up; a negative price saturates at zero, as the cast to an unsigned integer does. */
  function PriceToCents(price: real): nat {
    if price <= 0.0 then 0 else (price * CENTS + 0.5).Floor
  }

  function CentsToPrice(cents: nat): real { (cents as real) / CENTS }

  /** A positive price goes to the nearest cent, upwards from halfway between two, and whole cents stay
      as they are. */
  lemma NearestCent(price: real, cents: nat)
    requires price > 0.0
    ensures PriceToCents(price) == cents <==> cents as real - 0.5 <= price * 100.0 < cents as real + 0.5
    ensures PriceToCents(CentsToPrice(cents)) == cents
  {}

  function Open(o: Order): int { o.quantity - o.filledQuantity }

  ghost predicate AllOpen(orders: seq<Order>) {
    forall i | 0 <= i < |orders| :: 0 <= orders[i].filledQuantity < orders[i].quantity
  }

  /** No resting order is completely filled. */
  ghost predicate LevelsOpen(levels: Levels) { forall k | k in levels :: AllOpen(levels[k]) }

  // ---- Levels as queues ----

  function EntryOf(level: nat, o: Order): Entry { Entry(CentsToPrice(level), Open(o), o.strategyId) }

  function EntriesAt(level: nat, orders: seq<Order>): seq<Entry> {
    seq(|orders|, i requires 0 <= i < |orders| => EntryOf(level, orders[i]))
  }

  function At(levels: Levels, level: nat): seq<Order> { if level in levels then levels[level] else [] }

  /** The levels one after another, in the order of the keys. */
  function Flatten(levels: Levels, keys: seq<nat>): seq<Entry> {
    if keys == [] then [] else EntriesAt(keys[0], At(levels, keys[0])) + Flatten(levels, keys[1..])
  }

  ghost predicate Increasing(keys: seq<nat>) { forall i, j | 0 <= i < j < |keys| :: keys[i] < keys[j] }

  predicate Least(s: set<nat>, m: nat) { m in s && forall x | x in s :: m <= x }

  lemma {:induction false} LeastExists(s: set<nat>) returns (m: nat)
    requires s != {}
    ensures Least(s, m)
    decreases |s|
  {
    m :| m in s;
    var rest := s - {m};
    if rest == {} {
      assert s == {m};
    } else {
      var n := LeastExists(rest);
      assert s == rest + {m};
      m := if n < m then n else m;
    }
  }

  lemma LeastIsThere(s: set<nat>)
    requires s != {}
    ensures exists m :: Least(s, m)
  {
    var m := LeastExists(s);
  }

  /** The keys of an ordered map, in the order it yields them. */
  function Ascending(s: set<nat>): seq<nat>
    decreases |s|
  {
    if s == {} then [] else
      LeastIsThere(s);
      var m :| Least(s, m);
      [m] + Ascending(s - {m})
  }

  lemma AscendingFront(s: set<nat>) returns (m: nat)
    requires s != {}
    ensures Least(s, m) && Ascending(s) == [m] + Ascending(s - {m})
  {
    m := Ascending(s)[0];
  }

  lemma {:induction false} AscendingMembers(s: set<nat>, k: nat)
    ensures k in Ascending(s) <==> k in s
    decreases |s|
  {
    hide Ascending;
    if s == {} {
      AscendingNothing();
    } else {
      var m := AscendingFront(s);
      AscendingMembers(s - {m}, k);
    }
  }

  lemma AscendingNothing()
    ensures Ascending({}) == []
  {}

  lemma {:induction false} AscendingIncreases(s: set<nat>)
    ensures Increasing(Ascending(s))
    decreases |s|
  {
    hide Ascending, Least;
    if s == {} {
      AscendingNothing();
    } else {
      var m := AscendingFront(s);
      var rest := Ascending(s - {m});
      AscendingIncreases(s - {m});
      forall j | 0 <= j < |rest| ensures m < rest[j] {
        AscendingMembers(s - {m}, rest[j]);
        LeastIsBelow(s, m, rest[j]);
      }
    }
  }

  lemma LeastIsBelow(s: set<nat>, m: nat, x: nat)
    requires Least(s, m) && x in s
    ensures m in s && m <= x
  {}

  // ---- What a sweep does ----

  predicate Reaches(side: Side, limit: Option<nat>, level: nat) {
    limit.None? || (if side.Buy? then level <= limit.value else level >= limit.value)
  }

  /** The levels a sweep visits: it stops at the first key that is not acceptable. */
  function Reach(side: Side, limit: Option<nat>, keys: seq<nat>): (r: seq<nat>)
    ensures |r| <= |keys| && r == keys[..|r|]
    ensures forall i | 0 <= i < |r| :: Reaches(side, limit, r[i])
    ensures |r| < |keys| ==> !Reaches(side, limit, keys[|r|])
  {
    if keys == [] || !Reaches(side, limit, keys[0]) then [] else [keys[0]] + Reach(side, limit, keys[1..])
  }

  function ReachOf(o: Order, levels: Levels, limit: Option<nat>): seq<nat> {
    Reach(o.side, limit, Ascending(levels.Keys))
  }

  /** A level after it gave up a quantity: filled orders are removed, the next is partially filled. */
  function LevelRest(orders: seq<Order>, quantity: int): seq<Order> {
    if quantity <= 0 || orders == [] then orders
    else if quantity < Open(orders[0]) then
      [orders[0].(filledQuantity := orders[0].filledQuantity + quantity, status := PartiallyFilled)] + orders[1..]
    else LevelRest(orders[1..], quantity - Open(orders[0]))
  }

  function LevelFills(level: nat, orders: seq<Order>, quantity: int): seq<Fill> {
    Fills(Asks, EntriesAt(level, orders), quantity, None)
  }

  /** The levels after the given ones were swept, one after another. */
  function Swept(levels: Levels, keys: seq<nat>, quantity: int): Levels
    decreases |keys|
  {
    if keys == [] then levels
    else
      var orders := At(levels, keys[0]);
      Swept(levels[keys[0] := LevelRest(orders, quantity)], keys[1..],
            quantity - Queues.Filled(LevelFills(keys[0], orders, quantity)))
  }

  // ---- What an order does ----

  /** What the book lost to the order, what was reported of it, and both sides of the book after. */
  datatype Outcome = Outcome(order: Order, traded: seq<Fill>, reported: seq<Fill>, opposite: Levels, own: Levels)

  function Taken(o: Order, levels: Levels, limit: Option<nat>): seq<Fill> {
    Fills(Asks, Flatten(levels, ReachOf(o, levels, limit)), Open(o), None)
  }

  function Left(o: Order, levels: Levels, limit: Option<nat>): Levels {
    Swept(levels, ReachOf(o, levels, limit), Open(o))
  }

  function Increased(o: Order, fills: seq<Fill>): Order {
    o.(filledQuantity := o.filledQuantity + Queues.Filled(fills))
  }

  function Settled(o: Order): Order {
    if o.filledQuantity == o.quantity then o.(status := Status.Filled)
    else if o.filledQuantity > 0 then o.(status := PartiallyFilled)
    else o
  }

  function Pushed(levels: Levels, level: nat, o: Order): Levels { levels[level := At(levels, level) + [o]] }

  function MarketOutcome(o: Order, opposite: Levels, own: Levels): Outcome {
    var fills := Taken(o, opposite, None);
    Outcome(Settled(Increased(o, fills)), fills, fills, Left(o, opposite, None), own)
  }

  function LimitOutcome(o: Order, opposite: Levels, own: Levels): Outcome {
    if o.price.None? then Outcome(o, [], [], opposite, own)
    else
      var cents := PriceToCents(o.price.value);
      var fills := Taken(o, opposite, Some(cents));
      var done := Increased(o, fills);
      Outcome(Settled(done), fills, fills, Left(o, opposite, Some(cents)),
              if Open(done) > 0 && o.orderType.Limit? then Pushed(own, cents, done) else own)
  }

  /** A stop order turns into a market or limit order once the market has reached its stop price. */
  function Converted(o: Order, market: Option<real>): Order {
    if (o.orderType.Stop? || o.orderType.StopLimit?) && market.Some? then
      var stop := if o.stopPrice.Some? then o.stopPrice.value else 0.0;
      if (if o.side.Buy? then market.value >= stop else market.value <= stop) then
        o.(orderType := if o.orderType.Stop? then Market else Limit)
      else o
    else o
  }

  function OutcomeByType(o: Order, opposite: Levels, own: Levels): Outcome {
    match o.orderType
    case Market => MarketOutcome(o, opposite, own)
    case Limit => LimitOutcome(o, opposite, own)
    case IOC =>
      var r := LimitOutcome(o, opposite, own);
      if r.order.filledQuantity < o.quantity then r.(order := r.order.(status := Cancelled)) else r
    case FOK =>
      var r := LimitOutcome(o, opposite, own);
      if r.order.filledQuantity == o.quantity then r else r.(order := o.(status := Cancelled), reported := [])
    case Stop | StopLimit => Outcome(o, [], [], opposite, own)
  }

  function OrderOutcome(o: Order, opposite: Levels, own: Levels, market: Option<real>): Outcome {
    OutcomeByType(Converted(o, market), opposite, own)
  }

  function StopPrice(o: Order): real { if o.stopPrice.Some? then o.stopPrice.value else 0.0 }

  /** The market has a price, and it has come to the stop price: from below for a buy, from above for a
      sell. */
  predicate StopReached(o: Order, market: Option<real>) {
    market.Some? && (o.side.Buy? ==> StopPrice(o) <= market.value) && (o.side.Sell? ==> market.value <= StopPrice(o))
  }

  /** Until the market has come to its stop price a stop order is returned as it came, without a fill,
      and both sides of the book are as they were; then a stop does what the same order sent as a market
      order does, and a stop limit what it does sent as a limit order. */
  lemma StopOutcome(o: Order, opposite: Levels, own: Levels, market: Option<real>, later: Option<real>)
    requires o.orderType.Stop? || o.orderType.StopLimit?
    ensures !StopReached(o, market) ==> OrderOutcome(o, opposite, own, market) == Outcome(o, [], [], opposite, own)
    ensures StopReached(o, market) ==>
              OrderOutcome(o, opposite, own, market)
              == OrderOutcome(o.(orderType := if o.orderType.Stop? then Market else Limit), opposite, own, later)
  {
    hide MarketOutcome, LimitOutcome;
  }

  /** The four other types do not look at the market. */
  lemma OthersIgnoreMarket(o: Order, opposite: Levels, own: Levels, market: Option<real>, later: Option<real>)
    requires !o.orderType.Stop? && !o.orderType.StopLimit?
    ensures OrderOutcome(o, opposite, own, market) == OrderOutcome(o, opposite, own, later)
  {}

  /** What comes back of an order is the order itself with what it traded: its status says whether all,
      some or nothing of it is filled, and whether the rest was cancelled. */
  lemma OutcomeStatus(o: Order, opposite: Levels, own: Levels)
    requires 0 <= o.filledQuantity <= o.quantity && !o.orderType.FOK?
    ensures var r := OutcomeByType(o, opposite, own);
            && r.order == o.(filledQuantity := r.order.filledQuantity, status := r.order.status)
            && r.order.filledQuantity == o.filledQuantity + Queues.Filled(r.traded) && r.reported == r.traded
            && (o.orderType.IOC? && Open(r.order) > 0 ==> r.order.status == Cancelled)
            && (o.orderType.Market? || (o.price.Some? && (o.orderType.Limit? || o.orderType.IOC?)) ==>
                  && (Open(r.order) == 0 ==> r.order.status == Status.Filled)
                  && (0 < r.order.filledQuantity && Open(r.order) != 0 && !o.orderType.IOC? ==>
                        r.order.status == PartiallyFilled)
                  && (r.order.filledQuantity == 0 && Open(r.order) != 0 && !o.orderType.IOC? ==>
                        r.order.status == o.status))
            && (!o.orderType.Market? && !o.orderType.IOC? && o.price.None? ==> r.order == o)
  {
    hide Taken, Left, Queues.Filled;
    NothingFilled("");
  }

  /** What rests: the remainder of a limit order with a price, behind the orders of its level, with the
      status that it came with; all else of its side stays as it was, and so does the whole side under
      any other order. */
  lemma OutcomeRests(o: Order, opposite: Levels, own: Levels)
    requires 0 <= o.filledQuantity <= o.quantity
    ensures var r := OutcomeByType(o, opposite, own);
            if o.orderType.Limit? && o.price.Some? && Open(r.order) > 0 then
              var cents := PriceToCents(o.price.value);
              && At(r.own, cents) == At(own, cents) + [o.(filledQuantity := r.order.filledQuantity)]
              && r.own.Keys == own.Keys + {cents}
              && forall k | k in own && k != cents :: r.own[k] == own[k]
            else r.own == own
  {
    hide Taken, Left, Queues.Filled;
  }

  /** The order as it was, or with more filled, but not all, and marked so. */
  predicate SameOrReduced(o: Order, now: Order) {
    now == o || (now == o.(filledQuantity := now.filledQuantity, status := PartiallyFilled)
                 && o.filledQuantity < now.filledQuantity < o.quantity)
  }

  /** The rest is the end of the orders, except that its head may be reduced. */
  predicate ServedFromFront(orders: seq<Order>, rest: seq<Order>) {
    rest == [] || (|rest| <= |orders| && SameOrReduced(orders[|orders| - |rest|], rest[0])
                   && rest[1..] == orders[|orders| - |rest| + 1..])
  }

  /** A level gives up whole orders from its front; the one that then heads it may be reduced, and is
      then partially filled; the orders behind it are as they were. */
  lemma {:induction false} LevelServesFront(orders: seq<Order>, quantity: int)
    requires AllOpen(orders)
    ensures ServedFromFront(orders, LevelRest(orders, quantity))
    decreases |orders|
  {
    hide SameOrReduced;
    if quantity <= 0 || orders == [] {
      HeadReduced(orders, 0);
    } else if quantity < Open(orders[0]) {
      HeadReduced(orders, quantity);
    } else {
      LevelServesFront(orders[1..], quantity - Open(orders[0]));
    }
  }

  lemma HeadReduced(orders: seq<Order>, quantity: int)
    requires orders != [] ==> 0 <= quantity < Open(orders[0])
    ensures orders != [] ==> SameOrReduced(orders[0], orders[0])
    ensures orders != [] && quantity > 0 ==>
              SameOrReduced(orders[0], orders[0].(filledQuantity := orders[0].filledQuantity + quantity,
                                                  status := PartiallyFilled))
  {}

  // ---- The sweep as a queue ----

  ghost predicate Distinct(keys: seq<nat>) { forall i, j | 0 <= i < j < |keys| :: keys[i] != keys[j] }

  lemma EntriesFront(level: nat, orders: seq<Order>)
    requires orders != []
    ensures EntriesAt(level, orders) != [] && EntriesAt(level, orders)[0] == EntryOf(level, orders[0])
    ensures EntriesAt(level, orders)[1..] == EntriesAt(level, orders[1..])
  {}

  lemma EntriesBehind(level: nat, o: Order, orders: seq<Order>)
    ensures EntriesAt(level, [o] + orders) == [EntryOf(level, o)] + EntriesAt(level, orders)
  {}

  lemma EntriesPositive(level: nat, orders: seq<Order>)
    requires AllOpen(orders)
    ensures Positive(EntriesAt(level, orders))
  {}

  lemma {:induction false} LevelRestEntries(level: nat, orders: seq<Order>, quantity: int)
    requires AllOpen(orders)
    ensures EntriesAt(level, LevelRest(orders, quantity)) == Rest(Asks, EntriesAt(level, orders), quantity, None)
    ensures AllOpen(LevelRest(orders, quantity))
    decreases |orders|
  {
    if quantity > 0 && orders != [] {
      EntriesFront(level, orders);
      if quantity < Open(orders[0]) {
        var o := orders[0].(filledQuantity := orders[0].filledQuantity + quantity, status := PartiallyFilled);
        EntriesBehind(level, o, orders[1..]);
        assert EntryOf(level, o) == EntryOf(level, orders[0]).(quantity := Open(orders[0]) - quantity);
      } else {
        LevelRestEntries(level, orders[1..], quantity - Open(orders[0]));
      }
    }
  }

  lemma {:induction false} FlattenFrame(a: Levels, b: Levels, keys: seq<nat>)
    requires forall i | 0 <= i < |keys| :: At(a, keys[i]) == At(b, keys[i])
    ensures Flatten(a, keys) == Flatten(b, keys)
    decreases |keys|
  {
    if keys != [] {
      FlattenFrame(a, b, keys[1..]);
    }
  }

  lemma {:induction false} FlattenPositive(levels: Levels, keys: seq<nat>)
    requires LevelsOpen(levels)
    ensures Positive(Flatten(levels, keys))
    decreases |keys|
  {
    if keys != [] {
      EntriesPositive(keys[0], At(levels, keys[0]));
      FlattenPositive(levels, keys[1..]);
    }
  }

  lemma {:induction false} SweptElsewhere(levels: Levels, keys: seq<nat>, quantity: int, level: nat)
    requires forall i | 0 <= i < |keys| :: keys[i] != level
    ensures At(Swept(levels, keys, quantity), level) == At(levels, level)
    decreases |keys|
  {
    if keys != [] {
      var orders := At(levels, keys[0]);
      SweptElsewhere(levels[keys[0] := LevelRest(orders, quantity)], keys[1..],
                     quantity - Queues.Filled(LevelFills(keys[0], orders, quantity)), level);
    }
  }

  /** Sweeping distinct levels is matching against one queue, the levels one after another. */
  lemma {:induction false} SweptIsRest(levels: Levels, keys: seq<nat>, quantity: int)
    requires LevelsOpen(levels) && Distinct(keys) && forall i | 0 <= i < |keys| :: keys[i] in levels
    ensures var swept := Swept(levels, keys, quantity);
            && Flatten(swept, keys) == Rest(Asks, Flatten(levels, keys), quantity, None)
            && LevelsOpen(swept) && swept.Keys == levels.Keys
    decreases |keys|
  {
    hide Fills, Rest, LevelRest, EntriesAt;
    if keys == [] {
      FillsEnd(Asks, [], quantity, None);
    } else {
      var k, orders := keys[0], levels[keys[0]];
      var es := EntriesAt(k, orders);
      var next := levels[k := LevelRest(orders, quantity)];
      var left := quantity - Queues.Filled(LevelFills(k, orders, quantity));
      LevelRestEntries(k, orders, quantity);
      SweptIsRest(next, keys[1..], left);
      SweptElsewhere(next, keys[1..], left, k);
      FlattenFrame(levels, next, keys[1..]);
      EntriesPositive(k, orders);
      FillsConcat(Asks, es, Flatten(levels, keys[1..]), quantity, None);
    }
  }

  // ---- The engine ----

  type Books = map<string, Levels>

  function LevelsIn(books: Books, symbol: string): Levels { if symbol in books then books[symbol] else map[] }

  ghost predicate BooksOpen(books: Books) { forall s | s in books :: LevelsOpen(books[s]) }

  ghost predicate SameElsewhere(a: Books, b: Books, symbol: string) {
    forall s | s != symbol :: LevelsIn(a, s) == LevelsIn(b, s)
  }

  function ExecutionOf(o: Order, f: Fill, id: nat): Execution {
    Execution(id, o.orderId, o.symbol, o.side, f.price, f.quantity)
  }

  /** One execution per fill, numbered from the counter on. */
  function ExecutionsOf(o: Order, fills: seq<Fill>, counter: nat): seq<Execution> {
    seq(|fills|, i requires 0 <= i < |fills| => ExecutionOf(o, fills[i], counter + i + 1))
  }

  /** An order as a caller submits it: it does not claim more filled than it asks for. */
  predicate Sound(o: Order) { 0 <= o.filledQuantity <= o.quantity }

  /** Executions are numbered on from the counter, name the order they belong to, and are for the price
      and quantity of their fills. */
  lemma ExecutionsNumbered(o: Order, fills: seq<Fill>, counter: nat)
    ensures var executions := ExecutionsOf(o, fills, counter);
            |executions| == |fills| && forall i | 0 <= i < |executions| ::
              && executions[i].executionId == counter + i + 1
              && executions[i].orderId == o.orderId && executions[i].symbol == o.symbol && executions[i].side == o.side
              && executions[i].price == fills[i].price && executions[i].quantity == fills[i].quantity
  {}

  lemma OneMoreExecution(o: Order, fills: seq<Fill>, f: Fill, counter: nat)
    ensures ExecutionsOf(o, fills + [f], counter)
         == ExecutionsOf(o, fills, counter) + [ExecutionOf(o, f, counter + |fills| + 1)]
  {}

  lemma NoExecutions(o: Order, counter: nat)
    ensures ExecutionsOf(o, [], counter) == [] && Queues.Filled([]) == 0
  {}

  lemma ExecutionsConcat(o: Order, a: seq<Fill>, b: seq<Fill>, counter: nat)
    ensures ExecutionsOf(o, a + b, counter) == ExecutionsOf(o, a, counter) + ExecutionsOf(o, b, counter + |a|)
  {}

  /** The level after its first order gave up x. */
  function Gives(orders: seq<Order>, x: int): seq<Order>
    requires orders != []
  {
    if x >= Open(orders[0]) then orders[1..]
    else orders[0 := orders[0].(filledQuantity := orders[0].filledQuantity + x, status := PartiallyFilled)]
  }

  /** Halfway through a level: what is done and what is to come make up the whole. */
  ghost predicate Taking(o: Order, level: nat, orders: seq<Order>, done: seq<Fill>, left: seq<Order>, taken: Order) {
    && AllOpen(left) && Sound(taken) && taken == Increased(o, done)
    && LevelRest(left, Open(taken)) == LevelRest(orders, Open(o))
    && Progress(Asks, EntriesAt(level, orders), Open(o), None, done, EntriesAt(level, left), Open(taken))
  }

  lemma TakingStarts(o: Order, level: nat, orders: seq<Order>)
    requires AllOpen(orders) && Sound(o)
    ensures Taking(o, level, orders, [], orders, o)
  {
    hide Fills, Rest, LevelRest, EntriesAt;
    EntriesPositive(level, orders);
  }

  lemma GivesEntries(level: nat, orders: seq<Order>, x: int)
    requires orders != []
    ensures EntriesAt(level, orders) != []
    ensures EntriesAt(level, Gives(orders, x)) == Served(EntriesAt(level, orders), x)
  {
    EntriesFront(level, orders);
  }

  lemma TakingRound(o: Order, level: nat, orders: seq<Order>, done: seq<Fill>, left: seq<Order>, taken: Order)
    requires Taking(o, level, orders, done, left, taken) && Open(taken) > 0 && left != []
    ensures var x := Min(Open(taken), Open(left[0]));
            Taking(o, level, orders, done + [Fill(CentsToPrice(level), x, left[0].strategyId)], Gives(left, x),
                   taken.(filledQuantity := taken.filledQuantity + x))
  {
    hide Fills, Rest, EntriesAt, Queues.Filled;
    var x := Min(Open(taken), Open(left[0]));
    var f := Fill(CentsToPrice(level), x, left[0].strategyId);
    var es := EntriesAt(level, left);
    EntriesFront(level, left);
    ProgressRound(Asks, EntriesAt(level, orders), Open(o), None, done, es, Open(taken));
    SumAppend(done, f, FillQuantity);
    assert Queues.Filled(done + [f]) == Queues.Filled(done) + x;
    GivesEntries(level, left, x);
    assert LevelRest(Gives(left, x), Open(taken) - x) == LevelRest(left, Open(taken));
  }

  lemma TakingEnds(o: Order, level: nat, orders: seq<Order>, done: seq<Fill>, left: seq<Order>, taken: Order)
    requires Taking(o, level, orders, done, left, taken) && (Open(taken) == 0 || left == [])
    ensures left == LevelRest(orders, Open(o)) && done == LevelFills(level, orders, Open(o))
    ensures Sound(taken) && taken == Increased(o, done)
  {
    hide Fills, Rest;
    ProgressEnds(Asks, EntriesAt(level, orders), Open(o), None, done, EntriesAt(level, left), Open(taken));
  }

  /** Halfway through a sweep: n levels are done, the others are as they were. */
  ghost predicate Sweeping(
    o: Order, levels: Levels, reach: seq<nat>, n: nat, done: seq<Fill>, left: Levels, taken: Order)
  {
    && n <= |reach| && left.Keys == levels.Keys && (forall i | 0 <= i < |reach| :: reach[i] in levels)
    && (forall i | n <= i < |reach| :: At(left, reach[i]) == At(levels, reach[i]))
    && Sound(taken) && taken == Increased(o, done)
    && Swept(left, reach[n..], Open(taken)) == Swept(levels, reach, Open(o))
    && done + Fills(Asks, Flatten(levels, reach[n..]), Open(taken), None)
       == Fills(Asks, Flatten(levels, reach), Open(o), None)
  }

  lemma SweepingStarts(o: Order, levels: Levels, limit: Option<nat>)
    requires Sound(o)
    ensures Sweeping(o, levels, ReachOf(o, levels, limit), 0, [], levels, o)
  {
    hide Fills, Swept, Flatten;
    var reach := ReachOf(o, levels, limit);
    assert reach[0..] == reach;
    forall i | 0 <= i < |reach| ensures reach[i] in levels {
      AscendingMembers(levels.Keys, reach[i]);
    }
  }

  lemma SweepingRound(o: Order, levels: Levels, reach: seq<nat>, n: nat, done: seq<Fill>, left: Levels, taken: Order)
    requires Sweeping(o, levels, reach, n, done, left, taken) && n < |reach| && LevelsOpen(levels) && Increasing(reach)
    requires Sound(Increased(taken, LevelFills(reach[n], left[reach[n]], Open(taken))))
    ensures var fills := LevelFills(reach[n], left[reach[n]], Open(taken));
            Sweeping(o, levels, reach, n + 1, done + fills,
                     left[reach[n] := LevelRest(left[reach[n]], Open(taken))], Increased(taken, fills))
  {
    hide Fills, Flatten, LevelRest, EntriesAt, LevelFills, Swept;
    var k, orders, tail := reach[n], left[reach[n]], reach[n + 1..];
    var fills := LevelFills(k, orders, Open(taken));
    assert reach[n..] == [k] + tail;
    SweepFront(levels, k, tail, Open(taken));
    SweptFront(left, k, tail, Open(taken));
    SumConcat(done, fills, FillQuantity);
    var more := Fills(Asks, Flatten(levels, tail), Open(taken) - Queues.Filled(fills), None);
    assert (done + fills) + more == done + (fills + more);
  }

  lemma SweepFront(levels: Levels, k: nat, tail: seq<nat>, quantity: int)
    requires LevelsOpen(levels) && k in levels
    ensures var fills := LevelFills(k, levels[k], quantity);
            Fills(Asks, Flatten(levels, [k] + tail), quantity, None)
            == fills + Fills(Asks, Flatten(levels, tail), quantity - Queues.Filled(fills), None)
  {
    hide Fills, Flatten, EntriesAt;
    FlattenFront(levels, k, tail);
    EntriesPositive(k, levels[k]);
    FillsConcat(Asks, EntriesAt(k, levels[k]), Flatten(levels, tail), quantity, None);
  }

  lemma SweptFront(levels: Levels, k: nat, tail: seq<nat>, quantity: int)
    requires k in levels
    ensures Swept(levels, [k] + tail, quantity)
         == Swept(levels[k := LevelRest(levels[k], quantity)], tail,
                  quantity - Queues.Filled(LevelFills(k, levels[k], quantity)))
  {
    hide LevelRest, LevelFills;
    assert ([k] + tail)[1..] == tail;
  }

  lemma FlattenFront(levels: Levels, k: nat, keys: seq<nat>)
    ensures Flatten(levels, [k] + keys) == EntriesAt(k, At(levels, k)) + Flatten(levels, keys)
  {
    assert ([k] + keys)[1..] == keys;
  }

  lemma {:induction false} SweptForNothing(levels: Levels, keys: seq<nat>)
    requires forall i | 0 <= i < |keys| :: keys[i] in levels
    ensures Swept(levels, keys, 0) == levels
    decreases |keys|
  {
    if keys != [] {
      assert levels[keys[0] := levels[keys[0]]] == levels;
      SweptForNothing(levels, keys[1..]);
    }
  }

  lemma SweepingEnds(o: Order, levels: Levels, reach: seq<nat>, n: nat, done: seq<Fill>, left: Levels, taken: Order)
    requires Sweeping(o, levels, reach, n, done, left, taken) && (Open(taken) == 0 || n == |reach|)
    ensures left == Swept(levels, reach, Open(o)) && done == Fills(Asks, Flatten(levels, reach), Open(o), None)
    ensures Sound(taken) && taken == Increased(o, done)
  {
    hide Fills;
    FillsEnd(Asks, Flatten(levels, reach[n..]), Open(taken), None);
    if n < |reach| {
      SweptForNothing(left, reach[n..]);
    }
  }

  lemma ReachIncreases(o: Order, levels: Levels, limit: Option<nat>)
    ensures Increasing(ReachOf(o, levels, limit))
  {
    AscendingIncreases(levels.Keys);
  }

  class MatchingEngine {
    var buyBook: Books
    var sellBook: Books
    var executionCounter: nat
    var currentPrices: map<string, real>

    constructor ()
      ensures buyBook == map[] && sellBook == map[] && executionCounter == 0 && currentPrices == map[]
    {
      buyBook, sellBook, executionCounter, currentPrices := map[], map[], 0, map[];
    }

    ghost predicate Valid()
      reads this
    {
      BooksOpen(buyBook) && BooksOpen(sellBook)
    }

    function Opposite(o: Order): Levels
      reads this
    {
      LevelsIn(if o.side.Buy? then sellBook else buyBook, o.symbol)
    }

    function Own(o: Order): Levels
      reads this
    {
      LevelsIn(if o.side.Buy? then buyBook else sellBook, o.symbol)
    }

    function MarketPrice(symbol: string): Option<real>
      reads this
    {
      if symbol in currentPrices then Some(currentPrices[symbol]) else None
    }

    method UpdateMarketPrice(symbol: string, price: real)
      modifies this`currentPrices
      ensures currentPrices == old(currentPrices)[symbol := price]
    {
      currentPrices := currentPrices[symbol := price];
    }

    /** The two nested loops that market and limit orders share. */
    method TakeLevel(order: Order, level: nat, orders: seq<Order>)
      returns (taken: Order, left: seq<Order>, executions: seq<Execution>)
      requires AllOpen(orders) && Sound(order)
      modifies this`executionCounter
      ensures var fills := LevelFills(level, orders, Open(order));
              && left == LevelRest(orders, Open(order))
              && taken == Increased(order, fills) && Sound(taken)
              && executions == ExecutionsOf(order, fills, old(executionCounter))
              && executionCounter == old(executionCounter) + |fills|
    {
      hide Taking, LevelRest, LevelFills, ExecutionsOf, Queues.Filled;
      ghost var done: seq<Fill> := [];
      taken, left, executions := order, orders, [];
      var remaining := order.quantity - order.filledQuantity;
      var i := 0;
      TakingStarts(order, level, orders);
      NoExecutions(order, executionCounter);
      while i < |left| && remaining > 0
        invariant 0 <= i <= |left| && (i == 0 || remaining == 0) && 0 <= remaining == Open(taken)
        invariant Taking(order, level, orders, done, left, taken)
        invariant executions == ExecutionsOf(order, done, old(executionCounter))
        invariant executionCounter == old(executionCounter) + |done|
        decreases |left| - i
      {
        TakingRound(order, level, orders, done, left, taken);
        var resting := left[i];
        var fillQuantity := Min(remaining, Open(resting));
        ghost var fill := Fill(CentsToPrice(level), fillQuantity, resting.strategyId);
        OneMoreExecution(order, done, fill, old(executionCounter));
        done := done + [fill];
        executionCounter := executionCounter + 1;
        var execution :=
          Execution(executionCounter, order.orderId, order.symbol, order.side, CentsToPrice(level), fillQuantity);
        executions := executions + [execution];
        taken := taken.(filledQuantity := taken.filledQuantity + fillQuantity);
        remaining := remaining - fillQuantity;
        resting := resting.(filledQuantity := resting.filledQuantity + fillQuantity);
        if resting.filledQuantity == resting.quantity {
          assert left[..0] + left[1..] == left[1..];
          left := left[..i] + left[i + 1..];
        } else {
          left := left[i := resting.(status := PartiallyFilled)];
          i := i + 1;
        }
      }
      TakingEnds(order, level, orders, done, left, taken);
    }

    /** Visits the levels from the lowest price up, until one is not acceptable or nothing remains. */
    method Sweep(order: Order, levels: Levels, limit: Option<nat>)
      returns (taken: Order, left: Levels, executions: seq<Execution>)
      requires LevelsOpen(levels) && Sound(order)
      modifies this`executionCounter
      ensures var fills := Taken(order, levels, limit);
              && left == Left(order, levels, limit)
              && taken == Increased(order, fills) && Sound(taken)
              && executions == ExecutionsOf(order, fills, old(executionCounter))
              && executionCounter == old(executionCounter) + |fills|
    {
      hide Sweeping, Swept, Flatten, LevelFills, LevelRest, ExecutionsOf, Queues.Filled, Ascending, Reach;
      ghost var reach, done := ReachOf(order, levels, limit), [];
      taken, left, executions := order, levels, [];
      var prices := Ascending(levels.Keys);
      var n := 0;
      SweepingStarts(order, levels, limit);
      ReachIncreases(order, levels, limit);
      NoExecutions(order, executionCounter);
      while n < |prices|
        invariant n <= |reach|
        invariant Sweeping(order, levels, reach, n, done, left, taken)
        invariant executions == ExecutionsOf(order, done, old(executionCounter))
        invariant executionCounter == old(executionCounter) + |done|
      {
        if !Reaches(order.side, limit, prices[n]) || taken.filledQuantity == taken.quantity {
          break;
        }
        LevelIsIntact(order, levels, reach, n, done, left, taken);
        ghost var fills := LevelFills(prices[n], left[prices[n]], Open(taken));
        var next, orders, more := TakeLevel(taken, prices[n], left[prices[n]]);
        SweepingRound(order, levels, reach, n, done, left, taken);
        SameExecutions(order, taken, fills, old(executionCounter) + |done|);
        ExecutionsConcat(order, done, fills, old(executionCounter));
        left := left[prices[n] := orders];
        taken, executions, done := next, executions + more, done + fills;
        n := n + 1;
      }
      SweepingEnds(order, levels, reach, n, done, left, taken);
    }

    /** What the caller gets and what the books become is the outcome r of the order. */
    twostate predicate Matches(o: Order, r: Outcome, updated: Order, executions: seq<Execution>)
      reads this
    {
      && updated == r.order
      && executions == ExecutionsOf(o, r.reported, old(executionCounter))
      && executionCounter == old(executionCounter) + |r.traded|
      && LevelsIn(if o.side.Buy? then sellBook else buyBook, o.symbol) == r.opposite
      && LevelsIn(if o.side.Buy? then buyBook else sellBook, o.symbol) == r.own
      && SameElsewhere(buyBook, old(buyBook), o.symbol) && SameElsewhere(sellBook, old(sellBook), o.symbol)
    }

    /** The sweep over the opposite book of the order's symbol, if there is one. */
    method SweepOpposite(order: Order, limit: Option<nat>) returns (taken: Order, executions: seq<Execution>)
      requires Valid() && Sound(order)
      modifies this`buyBook, this`sellBook, this`executionCounter
      ensures Valid() && Sound(taken)
      ensures var fills := Taken(order, old(Opposite(order)), limit);
              && taken == Increased(order, fills)
              && executions == ExecutionsOf(order, fills, old(executionCounter))
              && executionCounter == old(executionCounter) + |fills|
      ensures Opposite(order) == Left(order, old(Opposite(order)), limit) && Own(order) == old(Own(order))
      ensures SameElsewhere(buyBook, old(buyBook), order.symbol) && SameElsewhere(sellBook, old(sellBook), order.symbol)
    {
      hide Taken, Left, ExecutionsOf, Queues.Filled;
      taken, executions := order, [];
      LeftIsOpen(order, Opposite(order), limit);
      NothingTaken(order, limit);
      NoExecutions(order, executionCounter);
      var book := if order.side.Buy? then sellBook else buyBook;
      if order.symbol in book {
        var left;
        taken, left, executions := Sweep(order, book[order.symbol], limit);
        if order.side.Buy? {
          sellBook := sellBook[order.symbol := left];
        } else {
          buyBook := buyBook[order.symbol := left];
        }
      }
    }

    method MatchMarketOrder(order: Order) returns (updated: Order, executions: seq<Execution>)
      requires Valid() && Sound(order)
      modifies this`buyBook, this`sellBook, this`executionCounter
      ensures Valid() && Sound(updated)
      ensures Matches(order, MarketOutcome(order, old(Opposite(order)), old(Own(order))), updated, executions)
    {
      hide Taken, Left, ExecutionsOf, Queues.Filled;
      updated, executions := SweepOpposite(order, None);
      if updated.filledQuantity == updated.quantity {
        updated := updated.(status := Status.Filled);
      } else if updated.filledQuantity > 0 {
        updated := updated.(status := PartiallyFilled);
      }
    }

    method MatchLimitOrder(order: Order) returns (updated: Order, executions: seq<Execution>)
      requires Valid() && Sound(order)
      modifies this`buyBook, this`sellBook, this`executionCounter
      ensures Valid() && Sound(updated)
      ensures Matches(order, LimitOutcome(order, old(Opposite(order)), old(Own(order))), updated, executions)
    {
      hide Taken, Left, ExecutionsOf, Queues.Filled;
      NoExecutions(order, executionCounter);
      updated, executions := order, [];
      if order.price.Some? {
        var cents := PriceToCents(order.price.value);
        updated, executions := SweepOpposite(order, Some(cents));
        if updated.quantity - updated.filledQuantity > 0 && order.orderType == Limit {
          PushedIsOpen(Own(order), cents, updated);
          if order.side.Buy? {
            var levels := LevelsIn(buyBook, order.symbol);
            buyBook := buyBook[order.symbol := levels[cents := At(levels, cents) + [updated]]];
          } else {
            var levels := LevelsIn(sellBook, order.symbol);
            sellBook := sellBook[order.symbol := levels[cents := At(levels, cents) + [updated]]];
          }
        }
        if updated.filledQuantity == updated.quantity {
          updated := updated.(status := Status.Filled);
        } else if updated.filledQuantity > 0 {
          updated := updated.(status := PartiallyFilled);
        }
      }
    }

    method MatchOrder(order: Order) returns (updated: Order, executions: seq<Execution>)
      requires Valid() && Sound(order)
      modifies this`buyBook, this`sellBook, this`executionCounter
      ensures Valid() && Sound(updated)
      ensures var r := OrderOutcome(order, old(Opposite(order)), old(Own(order)), MarketPrice(order.symbol));
              Matches(order, r, updated, executions)
    {
      hide OutcomeByType, ExecutionsOf;
      ghost var r := OrderOutcome(order, Opposite(order), Own(order), MarketPrice(order.symbol));
      NoExecutions(order, executionCounter);
      SameExecutions(order, Converted(order, MarketPrice(order.symbol)), r.reported, executionCounter);
      updated := order;
      if updated.orderType == Stop || updated.orderType == StopLimit {
        var market := MarketPrice(order.symbol);
        if market.Some? {
          var stop := if order.stopPrice.Some? then order.stopPrice.value else 0.0;
          var triggered := if order.side.Buy? then market.value >= stop else market.value <= stop;
          if triggered {
            updated := updated.(orderType := if order.orderType == Stop then Market else Limit);
          } else {
            Untriggered(order, Opposite(order), Own(order));
            return order, [];
          }
        }
      }
      updated, executions := MatchByType(updated);
    }

    method MatchByType(order: Order) returns (updated: Order, executions: seq<Execution>)
      requires Valid() && Sound(order)
      modifies this`buyBook, this`sellBook, this`executionCounter
      ensures Valid() && Sound(updated)
      ensures Matches(order, OutcomeByType(order, old(Opposite(order)), old(Own(order))), updated, executions)
    {
      hide MarketOutcome, LimitOutcome, ExecutionsOf;
      NoExecutions(order, executionCounter);
      updated, executions := order, [];
      match order.orderType {
        case Market =>
          updated, executions := MatchMarketOrder(order);
        case Limit =>
          updated, executions := MatchLimitOrder(order);
        case IOC =>
          updated, executions := MatchLimitOrder(order);
          if updated.filledQuantity < order.quantity {
            updated := updated.(status := Cancelled);
          }
        case FOK =>
          updated, executions := MatchLimitOrder(order);
          if updated.filledQuantity != order.quantity {
            updated, executions := order.(status := Cancelled), [];
          }
        case Stop =>
        case StopLimit =>
      }
    }
  }

  lemma Untriggered(o: Order, opposite: Levels, own: Levels)
    requires o.orderType.Stop? || o.orderType.StopLimit?
    ensures OutcomeByType(o, opposite, own) == Outcome(o, [], [], opposite, own)
  {}

  lemma LevelIsIntact(o: Order, levels: Levels, reach: seq<nat>, n: nat, done: seq<Fill>, left: Levels, taken: Order)
    requires Sweeping(o, levels, reach, n, done, left, taken) && n < |reach| && LevelsOpen(levels)
    ensures reach[n] in left && AllOpen(left[reach[n]])
    ensures Sound(taken) && taken.orderId == o.orderId && taken.symbol == o.symbol && taken.side == o.side
  {}

  lemma SameExecutions(o: Order, taken: Order, fills: seq<Fill>, counter: nat)
    requires taken.orderId == o.orderId && taken.symbol == o.symbol && taken.side == o.side
    ensures ExecutionsOf(taken, fills, counter) == ExecutionsOf(o, fills, counter)
  {}

  lemma NothingTaken(o: Order, limit: Option<nat>)
    ensures Taken(o, map[], limit) == [] && Left(o, map[], limit) == map[]
    ensures Increased(o, []) == o
  {
    var empty: Levels := map[];
    assert Ascending(empty.Keys) == [];
  }

  lemma LeftIsOpen(o: Order, levels: Levels, limit: Option<nat>)
    requires LevelsOpen(levels)
    ensures LevelsOpen(Left(o, levels, limit))
  {
    var reach := ReachOf(o, levels, limit);
    ReachIncreases(o, levels, limit);
    forall i | 0 <= i < |reach| ensures reach[i] in levels {
      AscendingMembers(levels.Keys, reach[i]);
    }
    SweptIsRest(levels, reach, Open(o));
  }

  lemma PushedIsOpen(levels: Levels, level: nat, o: Order)
    requires LevelsOpen(levels) && Sound(o) && Open(o) > 0
    ensures LevelsOpen(Pushed(levels, level, o))
  {
    var orders := At(levels, level);
    assert AllOpen(orders);
    forall k | k in Pushed(levels, level, o) ensures AllOpen(Pushed(levels, level, o)[k]) {
      assert k != level ==> AllOpen(levels[k]);
    }
  }
}
