/** The order book of the trading competition: two sorted queues, quotes and greedy matching. */
module OrderBooks {
  import opened Wrappers
  import opened Sequences
  import opened Queues

  datatype Side = Buy | Sell

  datatype OrderType = Limit | Market | IOC

  datatype Order = Order(
    trader: string, symbol: string, side: Side, orderType: OrderType, price: real, quantity: int, timestamp: nat)

  datatype Quote = Quote(trader: string, bidPrice: real, bidSize: int, askPrice: real, askSize: int)

  datatype Trade = Trade(
    tradeId: nat, symbol: string, buyer: string, seller: string, price: real, quantity: int, timestamp: nat)

  // ---- The two queues as values ----

  datatype Book = Book(bids: seq<Entry>, asks: seq<Entry>)

  ghost predicate Ordered(b: Book) {
    Sorted(Bids, b.bids) && Sorted(Asks, b.asks) && Positive(b.bids) && Positive(b.asks)
  }

  ghost predicate Uncrossed(b: Book) {
    forall i, j | 0 <= i < |b.bids| && 0 <= j < |b.asks| :: b.bids[i].price < b.asks[j].price
  }

  function LimitOf(o: Order): Option<real> { if o.orderType.Market? then None else Some(o.price) }

  function OppositeKind(o: Order): Kind { if o.side.Buy? then Asks else Bids }

  function Opposite(b: Book, o: Order): seq<Entry> { if o.side.Buy? then b.asks else b.bids }

  function FillsOf(b: Book, o: Order): seq<Fill> {
    Fills(OppositeKind(o), Opposite(b, o), o.quantity, LimitOf(o))
  }

  function RemainderOf(b: Book, o: Order): int { o.quantity - Filled(FillsOf(b, o)) }

  function Resting(b: Book, o: Order): Entry { Entry(o.price, RemainderOf(b, o), o.trader) }

  /** The book after an order: the opposite queue has lost what was traded, and what is left of a
      limit order joins its own queue behind its equals. */
  function Matched(b: Book, o: Order): Book {
    var rest := Rest(OppositeKind(o), Opposite(b, o), o.quantity, LimitOf(o));
    var rests := RemainderOf(b, o) > 0 && o.orderType.Limit?;
    if o.side.Buy? then
      Book(if rests then Insert(Bids, b.bids, Resting(b, o)) else b.bids, rest)
    else
      Book(rest, if rests then Insert(Asks, b.asks, Resting(b, o)) else b.asks)
  }

  function TradesOf(o: Order, fills: seq<Fill>, counter: nat): seq<Trade> {
    seq(|fills|, i requires 0 <= i < |fills| => TradeOf(o, fills[i], counter + i + 1))
  }

  function TradeOf(o: Order, f: Fill, id: nat): Trade {
    Trade(id, o.symbol,
          if o.side.Buy? then o.trader else f.trader,
          if o.side.Buy? then f.trader else o.trader,
          f.price, f.quantity, o.timestamp)
  }

  function Without(q: seq<Entry>, trader: string): seq<Entry> {
    FlatMap((e: Entry) => if e.trader != trader then [e] else [], q)
  }

  /** The book after a quote: the trader's old entries are gone, the new ones are queued. */
  function Quoted(b: Book, quote: Quote): Book {
    var bids, asks := Without(b.bids, quote.trader), Without(b.asks, quote.trader);
    Book(if quote.bidSize > 0 then Insert(Bids, bids, Entry(quote.bidPrice, quote.bidSize, quote.trader)) else bids,
         if quote.askSize > 0 then Insert(Asks, asks, Entry(quote.askPrice, quote.askSize, quote.trader)) else asks)
  }

  // ---- What both operations keep ----

  lemma InsertKeepsOrder(kind: Kind, q: seq<Entry>, e: Entry)
    requires Sorted(kind, q) && Positive(q) && e.quantity > 0
    ensures Sorted(kind, Insert(kind, q, e)) && Positive(Insert(kind, q, e))
  {
    InsertIsSorted(kind, q, e);
    InsertMembers(kind, q, e);
  }

  lemma {:induction false} WithoutKeepsOrder(kind: Kind, q: seq<Entry>, trader: string)
    requires Sorted(kind, q) && Positive(q)
    ensures Sorted(kind, Without(q, trader)) && Positive(Without(q, trader))
    ensures forall e :: e in Without(q, trader) <==> e in q && e.trader != trader
    decreases |q|
  {
    if q != [] {
      WithoutKeepsOrder(kind, q[1..], trader);
      assert q == [q[0]] + q[1..];
      forall e | e in Without(q[1..], trader) ensures Rank(kind, q[0].price) <= Rank(kind, e.price) {
        assert e in q[1..];
      }
    }
  }

  lemma MatchedKeepsOrder(b: Book, o: Order)
    requires Ordered(b)
    ensures Ordered(Matched(b, o))
  {
    hide Insert, Rest, Fills;
    RestOrdered(OppositeKind(o), Opposite(b, o), o.quantity, LimitOf(o));
    if RemainderOf(b, o) > 0 {
      InsertKeepsOrder(Bids, b.bids, Resting(b, o));
      InsertKeepsOrder(Asks, b.asks, Resting(b, o));
    }
  }

  lemma QuotedKeepsOrder(b: Book, quote: Quote)
    requires Ordered(b)
    ensures Ordered(Quoted(b, quote))
  {
    hide Insert, Without;
    WithoutKeepsOrder(Bids, b.bids, quote.trader);
    WithoutKeepsOrder(Asks, b.asks, quote.trader);
    if quote.bidSize > 0 {
      InsertKeepsOrder(Bids, Without(b.bids, quote.trader), Entry(quote.bidPrice, quote.bidSize, quote.trader));
    }
    if quote.askSize > 0 {
      InsertKeepsOrder(Asks, Without(b.asks, quote.trader), Entry(quote.askPrice, quote.askSize, quote.trader));
    }
  }

  /** Membership form of an uncrossed book. */
  ghost predicate Below(bids: seq<Entry>, asks: seq<Entry>) {
    forall x, y | x in bids && y in asks :: x.price < y.price
  }

  lemma UncrossedIsBelow(b: Book)
    ensures Uncrossed(b) <==> Below(b.bids, b.asks)
  {
    if Below(b.bids, b.asks) {
      forall i, j | 0 <= i < |b.bids| && 0 <= j < |b.asks| ensures b.bids[i].price < b.asks[j].price {
        assert b.bids[i] in b.bids && b.asks[j] in b.asks;
      }
    }
  }

  lemma RestPrices(kind: Kind, q: seq<Entry>, quantity: int, limit: Option<real>, e: Entry)
    requires Sorted(kind, q) && Positive(q) && e in Rest(kind, q, quantity, limit)
    ensures exists x :: x in q && x.price == e.price
  {
    hide Rest;
    RestOrdered(kind, q, quantity, limit);
    var rest := Rest(kind, q, quantity, limit);
    var i :| 0 <= i < |rest| && rest[i] == e;
    assert q[|q| - |rest| + i] in q;
  }

  /** No order of any kind turns an uncrossed book into a crossed one. */
  lemma MatchedStaysUncrossed(b: Book, o: Order)
    requires Ordered(b) && Uncrossed(b)
    ensures Uncrossed(Matched(b, o))
  {
    hide Insert, Rest, Fills;
    var n := Matched(b, o);
    var kind, q := OppositeKind(o), Opposite(b, o);
    var rest := Rest(kind, q, o.quantity, LimitOf(o));
    UncrossedIsBelow(b);
    UncrossedIsBelow(n);
    InsertMembers(Bids, b.bids, Resting(b, o));
    InsertMembers(Asks, b.asks, Resting(b, o));
    RemainderMeansExhausted(kind, q, o.quantity, LimitOf(o));
    forall x, y | x in n.bids && y in n.asks ensures x.price < y.price {
      if o.side.Buy? {
        RestPrices(kind, q, o.quantity, LimitOf(o), y);
        assert x in b.bids || !Takes(kind, LimitOf(o), y);
      } else {
        RestPrices(kind, q, o.quantity, LimitOf(o), x);
        assert y in b.asks || !Takes(kind, LimitOf(o), x);
      }
    }
  }

  /** A quote is never matched, so it may cross the book: it leaves an uncrossed book uncrossed
      exactly if it asks for more than it bids and stays clear of everybody else's best prices. */
  lemma QuotedUncrossedIff(b: Book, quote: Quote)
    requires Ordered(b) && Uncrossed(b)
    ensures Uncrossed(Quoted(b, quote)) <==>
            && (quote.bidSize > 0 && quote.askSize > 0 ==> quote.bidPrice < quote.askPrice)
            && (quote.bidSize > 0 ==> forall e | e in b.asks && e.trader != quote.trader :: quote.bidPrice < e.price)
            && (quote.askSize > 0 ==> forall e | e in b.bids && e.trader != quote.trader :: e.price < quote.askPrice)
  {
    hide Insert, Without;
    var n := Quoted(b, quote);
    var bid := Entry(quote.bidPrice, quote.bidSize, quote.trader);
    var ask := Entry(quote.askPrice, quote.askSize, quote.trader);
    UncrossedIsBelow(b);
    UncrossedIsBelow(n);
    WithoutKeepsOrder(Bids, b.bids, quote.trader);
    WithoutKeepsOrder(Asks, b.asks, quote.trader);
    InsertMembers(Bids, Without(b.bids, quote.trader), bid);
    InsertMembers(Asks, Without(b.asks, quote.trader), ask);
    if Below(n.bids, n.asks) {
      assert quote.bidSize > 0 ==> bid in n.bids;
      assert quote.askSize > 0 ==> ask in n.asks;
      forall e | e in b.asks && e.trader != quote.trader ensures e in n.asks {}
      forall e | e in b.bids && e.trader != quote.trader ensures e in n.bids {}
    }
  }

  // ---- Whose quantity rests ----

  lemma {:induction false} InsertOpen(kind: Kind, q: seq<Entry>, e: Entry, trader: string)
    ensures OpenOf(Insert(kind, q, e), trader) == OpenOf(q, trader) + (if e.trader == trader then e.quantity else 0)
    decreases |q|
  {
    if q == [] || Rank(kind, e.price) < Rank(kind, q[0].price) {
      assert ([e] + q)[1..] == q;
    } else {
      InsertOpen(kind, q[1..], e, trader);
      assert Insert(kind, q, e)[1..] == Insert(kind, q[1..], e);
    }
  }

  lemma {:induction false} WithoutOpen(q: seq<Entry>, gone: string, trader: string)
    ensures OpenOf(Without(q, gone), trader) == if trader == gone then 0 else OpenOf(q, trader)
    decreases |q|
  {
    if q != [] {
      WithoutOpen(q[1..], gone, trader);
      assert q[0].trader != gone ==> Without(q, gone)[1..] == Without(q[1..], gone);
      assert q[0].trader == gone ==> Without(q, gone) == Without(q[1..], gone);
    }
  }

  /** After a quote its trader offers just the quoted sizes, and everybody else what they offered. */
  lemma QuotedOpen(b: Book, quote: Quote, trader: string)
    ensures OpenOf(Quoted(b, quote).bids, trader)
         == if trader == quote.trader then Max(quote.bidSize, 0) else OpenOf(b.bids, trader)
    ensures OpenOf(Quoted(b, quote).asks, trader)
         == if trader == quote.trader then Max(quote.askSize, 0) else OpenOf(b.asks, trader)
  {
    hide Insert, Without, OpenOf;
    WithoutOpen(b.bids, quote.trader, trader);
    WithoutOpen(b.asks, quote.trader, trader);
    InsertOpen(Bids, Without(b.bids, quote.trader), Entry(quote.bidPrice, quote.bidSize, quote.trader), trader);
    InsertOpen(Asks, Without(b.asks, quote.trader), Entry(quote.askPrice, quote.askSize, quote.trader), trader);
  }

  function OwnSide(b: Book, o: Order): seq<Entry> { if o.side.Buy? then b.bids else b.asks }

  /** What an order asked for and the opposite queue did not give rests for its trader if it is a limit
      order, and is dropped otherwise; nobody else's quantity on its own side changes. */
  lemma MatchedOpen(b: Book, o: Order, trader: string)
    requires Ordered(b) && o.quantity >= 0
    ensures var lost := Sum(Opposite(b, o), EntryQuantity) - Sum(Opposite(Matched(b, o), o), EntryQuantity);
            && 0 <= lost <= o.quantity
            && OpenOf(OwnSide(Matched(b, o), o), trader)
               == OpenOf(OwnSide(b, o), trader)
                  + (if o.orderType.Limit? && trader == o.trader then o.quantity - lost else 0)
  {
    hide Insert, Rest, Fills, OpenOf, Filled;
    var kind, q, limit := OppositeKind(o), Opposite(b, o), LimitOf(o);
    QuantityConserved(kind, q, o.quantity, limit);
    FilledTotal(kind, q, o.quantity, limit);
    AcceptableRange(kind, q, limit);
    InsertOpen(Bids, b.bids, Resting(b, o), trader);
    InsertOpen(Asks, b.asks, Resting(b, o), trader);
  }

  // ---- The trades of an order ----

  lemma NoTrades(o: Order, counter: nat)
    ensures TradesOf(o, [], counter) == [] && Filled([]) == 0
  {}

  /** Trades are numbered on from the counter, carry the symbol and the time of the order, and have the
      prices and quantities of the entries that they are with; the order's trader is on the order's side. */
  lemma TradesDescribed(o: Order, fills: seq<Fill>, counter: nat)
    ensures var trades := TradesOf(o, fills, counter);
            |trades| == |fills| && forall i | 0 <= i < |trades| ::
              && trades[i].tradeId == counter + i + 1 && trades[i].symbol == o.symbol
              && trades[i].timestamp == o.timestamp
              && trades[i].price == fills[i].price && trades[i].quantity == fills[i].quantity
              && (o.side.Buy? ==> trades[i].buyer == o.trader && trades[i].seller == fills[i].trader)
              && (o.side.Sell? ==> trades[i].seller == o.trader && trades[i].buyer == fills[i].trader)
  {}

  lemma OneMoreTrade(o: Order, fills: seq<Fill>, f: Fill, counter: nat)
    ensures |TradesOf(o, fills, counter)| == |fills|
    ensures TradesOf(o, fills + [f], counter) == TradesOf(o, fills, counter) + [TradeOf(o, f, counter + |fills| + 1)]
  {}

  class OrderBook {
    const symbol: string
    var bids: seq<Entry>
    var asks: seq<Entry>
    var lastTradePrice: real
    var trades: seq<Trade>
    var tradeCounter: nat

    constructor (symbol: string, initialPrice: real)
      ensures this.symbol == symbol && View() == Book([], []) && Ordered(View()) && Uncrossed(View())
      ensures lastTradePrice == initialPrice && trades == [] && tradeCounter == 0
    {
      this.symbol := symbol;
      bids, asks, lastTradePrice, trades, tradeCounter := [], [], initialPrice, [], 0;
    }

    function View(): Book
      reads this
    {
      Book(bids, asks)
    }

    method UpdateQuote(quote: Quote)
      requires Ordered(View())
      modifies this`bids, this`asks
      ensures View() == Quoted(old(View()), quote) && Ordered(View())
    {
      hide Insert, Without, StableSorted;
      WithoutKeepsOrder(Bids, bids, quote.trader);
      WithoutKeepsOrder(Asks, asks, quote.trader);
      QuotedKeepsOrder(View(), quote);
      bids := Without(bids, quote.trader);
      asks := Without(asks, quote.trader);
      if quote.bidSize > 0 {
        var e := Entry(quote.bidPrice, quote.bidSize, quote.trader);
        PushThenSortIsInsertion(Bids, bids, e, []);
        bids := StableSorted(Bids, bids + [e]);
      }
      if quote.askSize > 0 {
        var e := Entry(quote.askPrice, quote.askSize, quote.trader);
        PushThenSortIsInsertion(Asks, asks, e, []);
        asks := StableSorted(Asks, asks + [e]);
      }
    }

    method MatchOrder(order: Order) returns (result: seq<Trade>)
      requires Ordered(View())
      modifies this
      ensures View() == Matched(old(View()), order)
      ensures result == TradesOf(order, FillsOf(old(View()), order), old(tradeCounter))
      ensures trades == old(trades) + result && tradeCounter == old(tradeCounter) + |result|
      ensures lastTradePrice == if result == [] then old(lastTradePrice) else result[|result| - 1].price
      ensures Ordered(View()) && (old(Uncrossed(View())) ==> Uncrossed(View()))
    {
      hide Insert, StableSorted, Fills, Rest, TradesOf, Filled;
      ghost var b := View();
      MatchedKeepsOrder(b, order);
      if Uncrossed(b) { MatchedStaysUncrossed(b, order); }
      var remaining;
      ghost var done;
      match order.side {
        case Buy => result, remaining, done := TakeAsks(order);
        case Sell => result, remaining, done := TakeBids(order);
      }
      if remaining > 0 && order.orderType == Limit {
        var e := Entry(order.price, remaining, order.trader);
        match order.side {
          case Buy =>
            PushThenSortIsInsertion(Bids, bids, e, []);
            bids := StableSorted(Bids, bids + [e]);
          case Sell =>
            PushThenSortIsInsertion(Asks, asks, e, []);
            asks := StableSorted(Asks, asks + [e]);
        }
      }
    }

    /** The loop of a buy order over the asks. */
    method TakeAsks(order: Order) returns (result: seq<Trade>, remaining: int, ghost done: seq<Fill>)
      requires Ordered(View()) && order.side == Buy
      modifies this`asks, this`trades, this`tradeCounter, this`lastTradePrice
      ensures done == FillsOf(old(View()), order) && remaining == RemainderOf(old(View()), order)
      ensures asks == Rest(Asks, old(asks), order.quantity, LimitOf(order))
      ensures Recorded(order, done, result, old(trades), old(tradeCounter), old(lastTradePrice))
    {
      hide Fills, Rest, TradesOf, Filled, Served;
      ghost var before := asks;
      result, remaining, done := [], order.quantity, [];
      NoTrades(order, tradeCounter);
      while remaining > 0 && asks != []
        invariant Progress(Asks, before, order.quantity, LimitOf(order), done, asks, remaining)
        invariant Recorded(order, done, result, old(trades), old(tradeCounter), old(lastTradePrice))
        decreases |asks|, remaining
      {
        var head := asks[0];
        if order.orderType == Market || order.price >= head.price {
          var quantity := Min(remaining, head.quantity);
          ProgressRound(Asks, before, order.quantity, LimitOf(order), done, asks, remaining);
          ServedEither(asks, quantity);
          OneMoreTrade(order, done, FillOf(head, quantity), old(tradeCounter));
          done := done + [FillOf(head, quantity)];
          tradeCounter := tradeCounter + 1;
          var trade :=
            Trade(tradeCounter, order.symbol, order.trader, head.trader, head.price, quantity, order.timestamp);
          result := result + [trade];
          trades := trades + [trade];
          lastTradePrice := head.price;
          remaining := remaining - quantity;
          if quantity >= head.quantity {
            asks := asks[1..];
          } else {
            asks := asks[0 := head.(quantity := head.quantity - quantity)];
          }
        } else {
          break;
        }
      }
      ProgressEnds(Asks, before, order.quantity, LimitOf(order), done, asks, remaining);
    }

    /** The loop of a sell order over the bids. */
    method TakeBids(order: Order) returns (result: seq<Trade>, remaining: int, ghost done: seq<Fill>)
      requires Ordered(View()) && order.side == Sell
      modifies this`bids, this`trades, this`tradeCounter, this`lastTradePrice
      ensures done == FillsOf(old(View()), order) && remaining == RemainderOf(old(View()), order)
      ensures bids == Rest(Bids, old(bids), order.quantity, LimitOf(order))
      ensures Recorded(order, done, result, old(trades), old(tradeCounter), old(lastTradePrice))
    {
      hide Fills, Rest, TradesOf, Filled, Served;
      ghost var before := bids;
      result, remaining, done := [], order.quantity, [];
      NoTrades(order, tradeCounter);
      while remaining > 0 && bids != []
        invariant Progress(Bids, before, order.quantity, LimitOf(order), done, bids, remaining)
        invariant Recorded(order, done, result, old(trades), old(tradeCounter), old(lastTradePrice))
        decreases |bids|, remaining
      {
        var head := bids[0];
        if order.orderType == Market || order.price <= head.price {
          var quantity := Min(remaining, head.quantity);
          ProgressRound(Bids, before, order.quantity, LimitOf(order), done, bids, remaining);
          ServedEither(bids, quantity);
          OneMoreTrade(order, done, FillOf(head, quantity), old(tradeCounter));
          done := done + [FillOf(head, quantity)];
          tradeCounter := tradeCounter + 1;
          var trade :=
            Trade(tradeCounter, order.symbol, head.trader, order.trader, head.price, quantity, order.timestamp);
          result := result + [trade];
          trades := trades + [trade];
          lastTradePrice := head.price;
          remaining := remaining - quantity;
          if quantity >= head.quantity {
            bids := bids[1..];
          } else {
            bids := bids[0 := head.(quantity := head.quantity - quantity)];
          }
        } else {
          break;
        }
      }
      ProgressEnds(Bids, before, order.quantity, LimitOf(order), done, bids, remaining);
    }

    /** The trades recorded so far are those of the fills done so far. */
    ghost predicate Recorded(
      order: Order, done: seq<Fill>, result: seq<Trade>, trades0: seq<Trade>, counter0: nat, last0: real)
      reads this
    {
      && result == TradesOf(order, done, counter0)
      && trades == trades0 + result && tradeCounter == counter0 + |result|
      && lastTradePrice == if result == [] then last0 else result[|result| - 1].price
    }
  }
}
