/** The traders' cash and positions, as the trades of an order are delivered to all of them. */
module Ledger {
  import opened Wrappers
  import opened Sequences
  import opened Queues
  import opened OrderBooks

  const HISTORY_LENGTH: nat := 100

  datatype Account = Account(id: string, cash: real, positions: map<string, int>)

  function Position(a: Account, symbol: string): int {
    if symbol in a.positions then a.positions[symbol] else 0
  }

  function Cost(price: real, quantity: int): real { price * (quantity as real) }

  function Amount(t: Trade): real { Cost(t.price, t.quantity) }

  /** The buyer's leg is booked first, so a trader that trades with itself books only that leg. */
  function Booked(a: Account, t: Trade): Account {
    if t.buyer == a.id then
      a.(positions := a.positions[t.symbol := Position(a, t.symbol) + t.quantity], cash := a.cash - Amount(t))
    else if t.seller == a.id then
      a.(positions := a.positions[t.symbol := Position(a, t.symbol) - t.quantity], cash := a.cash + Amount(t))
    else a
  }

  class Trader {
    const traderId: string
    var cash: real
    var positions: map<string, int>
    var tradeHistory: seq<Trade>

    function View(): Account
      reads this
    {
      Account(traderId, cash, positions)
    }

    constructor (traderId: string, initialCash: real)
      ensures View() == Account(traderId, initialCash, map[]) && tradeHistory == []
    {
      this.traderId := traderId;
      cash, positions, tradeHistory := initialCash, map[], [];
    }

    method ProcessTrade(trade: Trade)
      requires |tradeHistory| <= HISTORY_LENGTH
      modifies this
      ensures View() == Booked(old(View()), trade)
      ensures |tradeHistory| <= 100
      ensures tradeHistory == if |old(tradeHistory)| == 100 then old(tradeHistory)[1..] + [trade]
                              else old(tradeHistory) + [trade]
    {
      hide Amount;
      if trade.buyer == traderId {
        if trade.symbol !in positions {
          positions := positions[trade.symbol := 0];
        }
        positions := positions[trade.symbol := positions[trade.symbol] + trade.quantity];
        cash := cash - Amount(trade);
      } else if trade.seller == traderId {
        if trade.symbol !in positions {
          positions := positions[trade.symbol := 0];
        }
        positions := positions[trade.symbol := positions[trade.symbol] - trade.quantity];
        cash := cash + Amount(trade);
      }
      tradeHistory := tradeHistory + [trade];
      if |tradeHistory| > HISTORY_LENGTH {
        tradeHistory := tradeHistory[1..];
      }
    }
  }

  // ---- All traders together ----

  function Deliver(accounts: seq<Account>, t: Trade): seq<Account> {
    seq(|accounts|, i requires 0 <= i < |accounts| => Booked(accounts[i], t))
  }

  function DeliverAll(accounts: seq<Account>, trades: seq<Trade>): seq<Account>
    decreases |trades|
  {
    if trades == [] then accounts else DeliverAll(Deliver(accounts, trades[0]), trades[1..])
  }

  function TotalCash(accounts: seq<Account>): real {
    if accounts == [] then 0.0 else accounts[0].cash + TotalCash(accounts[1..])
  }

  function TotalPosition(accounts: seq<Account>, symbol: string): int {
    Sum(accounts, (a: Account) => Position(a, symbol))
  }

  ghost predicate Distinct(accounts: seq<Account>) {
    forall i, j | 0 <= i < j < |accounts| :: accounts[i].id != accounts[j].id
  }

  ghost predicate Trades(accounts: seq<Account>, id: string) { exists i :: 0 <= i < |accounts| && accounts[i].id == id }

  function When(b: bool, x: real): real { if b then x else 0.0 }

  /** One trade takes its amount from the total if somebody books its buyer's leg, and returns it
      if somebody books the seller's. */
  lemma {:induction false} DeliverShifts(accounts: seq<Account>, t: Trade, symbol: string)
    requires Distinct(accounts)
    ensures var buys, sells := Trades(accounts, t.buyer), t.seller != t.buyer && Trades(accounts, t.seller);
            && TotalCash(Deliver(accounts, t)) == TotalCash(accounts) - When(buys, Amount(t)) + When(sells, Amount(t))
            && TotalPosition(Deliver(accounts, t), symbol)
               == TotalPosition(accounts, symbol)
                  + (if buys && symbol == t.symbol then t.quantity else 0)
                  - (if sells && symbol == t.symbol then t.quantity else 0)
    decreases |accounts|
  {
    hide Amount, Trades;
    if accounts == [] {
      NobodyTrades(t.buyer);
      NobodyTrades(t.seller);
    } else {
      DeliverShifts(accounts[1..], t, symbol);
      assert Deliver(accounts, t)[1..] == Deliver(accounts[1..], t);
      TradesFront(accounts, t.buyer);
      TradesFront(accounts, t.seller);
    }
  }

  lemma NobodyTrades(id: string)
    ensures !Trades([], id)
  {}

  lemma TradesFront(accounts: seq<Account>, id: string)
    requires accounts != [] && Distinct(accounts)
    ensures Trades(accounts, id) <==> accounts[0].id == id || Trades(accounts[1..], id)
    ensures accounts[0].id == id ==> !Trades(accounts[1..], id)
  {
    if Trades(accounts[1..], id) {
      var i :| 0 <= i < |accounts[1..]| && accounts[1..][i].id == id;
      assert accounts[i + 1].id == id;
    }
    if Trades(accounts, id) && accounts[0].id != id {
      var i :| 0 <= i < |accounts| && accounts[i].id == id;
      assert accounts[1..][i - 1].id == id;
    }
  }

  /** A trade keeps the total cash exactly if it is for nothing, or both of its sides are booked,
      or neither is. */
  lemma CashKeptIff(accounts: seq<Account>, t: Trade)
    requires Distinct(accounts)
    ensures TotalCash(Deliver(accounts, t)) == TotalCash(accounts) <==>
            Amount(t) == 0.0 || (Trades(accounts, t.buyer) <==> t.seller != t.buyer && Trades(accounts, t.seller))
  {
    DeliverShifts(accounts, t, t.symbol);
  }

  // ---- A whole order ----

  function SelfTraded(trades: seq<Trade>): real {
    if trades == [] then 0.0
    else (if trades[0].buyer == trades[0].seller then Amount(trades[0]) else 0.0) + SelfTraded(trades[1..])
  }

  function SelfTradedQuantity(trades: seq<Trade>, symbol: string): int {
    Sum(trades, (t: Trade) => if t.buyer == t.seller && t.symbol == symbol then t.quantity else 0)
  }

  ghost predicate AllKnown(accounts: seq<Account>, trades: seq<Trade>) {
    forall t | t in trades :: Trades(accounts, t.buyer) && Trades(accounts, t.seller)
  }

  lemma DeliverKeepsIds(accounts: seq<Account>, t: Trade)
    requires Distinct(accounts)
    ensures Distinct(Deliver(accounts, t))
    ensures forall id :: Trades(Deliver(accounts, t), id) <==> Trades(accounts, id)
  {
    forall id ensures Trades(Deliver(accounts, t), id) <==> Trades(accounts, id) {
      if Trades(accounts, id) {
        var i :| 0 <= i < |accounts| && accounts[i].id == id;
        assert Deliver(accounts, t)[i].id == id;
      }
      if Trades(Deliver(accounts, t), id) {
        var i :| 0 <= i < |accounts| && Deliver(accounts, t)[i].id == id;
        assert accounts[i].id == id;
      }
    }
  }

  /** Delivered to everybody, trades among the traders lose exactly the cash that was traded with
      oneself, and invent exactly that quantity. */
  lemma {:induction false} RunConserves(accounts: seq<Account>, trades: seq<Trade>, symbol: string)
    requires Distinct(accounts) && AllKnown(accounts, trades)
    ensures TotalCash(DeliverAll(accounts, trades)) == TotalCash(accounts) - SelfTraded(trades)
    ensures TotalPosition(DeliverAll(accounts, trades), symbol)
         == TotalPosition(accounts, symbol) + SelfTradedQuantity(trades, symbol)
    decreases |trades|
  {
    hide Amount, Trades, Deliver, TotalCash, TotalPosition;
    if trades != [] {
      DeliverKeepsIds(accounts, trades[0]);
      DeliverShifts(accounts, trades[0], symbol);
      RunConserves(Deliver(accounts, trades[0]), trades[1..], symbol);
    }
  }

  lemma {:induction false} NoSelfTrades(trades: seq<Trade>, symbol: string)
    requires forall t | t in trades :: t.buyer != t.seller
    ensures SelfTraded(trades) == 0.0 && SelfTradedQuantity(trades, symbol) == 0
    decreases |trades|
  {
    if trades != [] {
      NoSelfTrades(trades[1..], symbol);
    }
  }

  ghost predicate TradersOf(accounts: seq<Account>, q: seq<Entry>) { forall e | e in q :: Trades(accounts, e.trader) }

  /** Before the order comes: an entry of its own trader rests on the other side at a price that the
      order accepts, and what rests before that entry does not use the order up. */
  ghost predicate ReachesOwn(b: Book, o: Order) {
    var q := Opposite(b, o);
    exists i :: 0 <= i < |q| && q[i].trader == o.trader && Takes(OppositeKind(o), LimitOf(o), q[i])
                && Sum(q[..i], EntryQuantity) < o.quantity
  }

  /** That is exactly when the order trades with its own trader. */
  lemma ReachesOwnIff(b: Book, o: Order)
    requires Ordered(b)
    ensures ReachesOwn(b, o) <==> exists i :: 0 <= i < |FillsOf(b, o)| && FillsOf(b, o)[i].trader == o.trader
  {
    hide Fills, Rest, Takes, Sum;
    var q, fills := Opposite(b, o), FillsOf(b, o);
    FillsOrdered(OppositeKind(o), q, o.quantity, LimitOf(o));
    forall i | 0 <= i < |q|
      ensures i < |fills| <==> Takes(OppositeKind(o), LimitOf(o), q[i]) && Sum(q[..i], EntryQuantity) < o.quantity
    {
      ReachedIff(OppositeKind(o), q, o.quantity, LimitOf(o), i);
    }
    if ReachesOwn(b, o) {
      var i :| 0 <= i < |q| && q[i].trader == o.trader && Takes(OppositeKind(o), LimitOf(o), q[i])
               && Sum(q[..i], EntryQuantity) < o.quantity;
      assert fills[i].trader == o.trader;
    }
    if i :| 0 <= i < |fills| && fills[i].trader == o.trader {
      assert q[i].trader == o.trader;
    }
  }

  lemma {:induction false} SelfTradedSign(trades: seq<Trade>, symbol: string)
    requires forall t | t in trades :: t.quantity > 0 && t.symbol == symbol
    ensures SelfTradedQuantity(trades, symbol) >= 0
    ensures SelfTradedQuantity(trades, symbol) > 0 <==> exists t :: t in trades && t.buyer == t.seller
    decreases |trades|
  {
    if trades != [] {
      SelfTradedSign(trades[1..], symbol);
      assert trades[0] in trades;
      assert forall t :: t in trades <==> t == trades[0] || t in trades[1..];
    }
  }

  lemma {:induction false} SelfTradedElsewhere(trades: seq<Trade>, symbol: string)
    requires forall t | t in trades :: t.symbol != symbol
    ensures SelfTradedQuantity(trades, symbol) == 0
    decreases |trades|
  {
    if trades != [] {
      SelfTradedElsewhere(trades[1..], symbol);
    }
  }

  lemma {:induction false} SelfTradedCashSign(trades: seq<Trade>)
    requires forall t | t in trades :: Amount(t) > 0.0
    ensures SelfTraded(trades) >= 0.0
    ensures SelfTraded(trades) > 0.0 <==> exists t :: t in trades && t.buyer == t.seller
    decreases |trades|
  {
    hide Amount;
    if trades != [] {
      SelfTradedCashSign(trades[1..]);
      assert trades[0] in trades;
      assert forall t :: t in trades <==> t == trades[0] || t in trades[1..];
    }
  }

  lemma PositiveAmount(t: Trade)
    requires t.price > 0.0 && t.quantity > 0
    ensures Amount(t) > 0.0
  {}

  lemma TradeAt(b: Book, o: Order, counter: nat, accounts: seq<Account>, i: nat)
    requires Ordered(b) && Trades(accounts, o.trader) && TradersOf(accounts, Opposite(b, o)) && i < |FillsOf(b, o)|
    ensures var t := TradesOf(o, FillsOf(b, o), counter)[i];
            && Trades(accounts, t.buyer) && Trades(accounts, t.seller) && t.quantity > 0 && t.symbol == o.symbol
            && (t.buyer == t.seller <==> FillsOf(b, o)[i].trader == o.trader)
            && exists e :: e in Opposite(b, o) && e.price == t.price
  {
    hide Fills, Rest, Trades, Amount;
    var q, fills := Opposite(b, o), FillsOf(b, o);
    FillsOrdered(OppositeKind(o), q, o.quantity, LimitOf(o));
    FillsAcceptable(OppositeKind(o), q, o.quantity, LimitOf(o));
    assert fills[i] in fills && q[i] in q && fills[i].trader == q[i].trader && fills[i].price == q[i].price;
  }

  /** The trades of an order: known traders, positive quantities, resting prices, and a self-trade
      exactly where the order meets its own trader. */
  lemma TradesOfOrder(b: Book, o: Order, counter: nat, accounts: seq<Account>)
    requires Ordered(b) && Trades(accounts, o.trader) && TradersOf(accounts, Opposite(b, o))
    ensures var trades := TradesOf(o, FillsOf(b, o), counter);
            && AllKnown(accounts, trades)
            && (forall t | t in trades :: t.quantity > 0 && t.symbol == o.symbol)
            && ((forall e | e in Opposite(b, o) :: e.price > 0.0) ==> forall t | t in trades :: Amount(t) > 0.0)
            && (ReachesOwn(b, o) <==> exists t :: t in trades && t.buyer == t.seller)
  {
    hide FillsOf, Trades, Amount, TradeOf, Ordered, Opposite, TradersOf, ReachesOwn;
    ReachesOwnIff(b, o);
    var trades := TradesOf(o, FillsOf(b, o), counter);
    forall t | t in trades
      ensures t.quantity > 0 && t.symbol == o.symbol && Trades(accounts, t.buyer) && Trades(accounts, t.seller)
      ensures (forall e | e in Opposite(b, o) :: e.price > 0.0) ==> Amount(t) > 0.0
      ensures t.buyer == t.seller ==> ReachesOwn(b, o)
    {
      var i :| 0 <= i < |trades| && trades[i] == t;
      TradeAt(b, o, counter, accounts, i);
      if forall e | e in Opposite(b, o) :: e.price > 0.0 { PositiveAmount(t); }
    }
    if ReachesOwn(b, o) {
      var i :| 0 <= i < |FillsOf(b, o)| && FillsOf(b, o)[i].trader == o.trader;
      TradeAt(b, o, counter, accounts, i);
      assert trades[i] in trades;
    }
  }

  /** An order through the book against entries of the traders leaves the positions in its symbol
      summing to what they did exactly if it does not trade with its own trader; other symbols are
      not touched; and, prices being positive, the same holds of the total cash. */
  lemma OrderConserves(b: Book, o: Order, counter: nat, accounts: seq<Account>, symbol: string)
    requires Ordered(b) && Distinct(accounts) && Trades(accounts, o.trader)
    requires TradersOf(accounts, Opposite(b, o))
    ensures var after := DeliverAll(accounts, TradesOf(o, FillsOf(b, o), counter));
            && (TotalPosition(after, symbol) == TotalPosition(accounts, symbol) <==>
                  symbol != o.symbol || !ReachesOwn(b, o))
            && (!ReachesOwn(b, o) ==> TotalCash(after) == TotalCash(accounts))
            && ((forall e | e in Opposite(b, o) :: e.price > 0.0) ==>
                  (TotalCash(after) == TotalCash(accounts) <==> !ReachesOwn(b, o)))
  {
    hide FillsOf, TradesOf, Trades, Amount, ReachesOwn, TotalCash, TotalPosition, Position;
    var trades := TradesOf(o, FillsOf(b, o), counter);
    TradesOfOrder(b, o, counter, accounts);
    RunConserves(accounts, trades, symbol);
    SelfTradedSign(trades, o.symbol);
    if symbol != o.symbol {
      SelfTradedElsewhere(trades, symbol);
    }
    if !ReachesOwn(b, o) {
      NoSelfTrades(trades, symbol);
    }
    if forall e | e in Opposite(b, o) :: e.price > 0.0 {
      SelfTradedCashSign(trades);
    }
  }

  // ---- Who gains and who pays ----

  /** The money that the entries of a queue are worth: those of one trader, or all. */
  function Worth(q: seq<Entry>, of: Option<string>): real {
    if q == [] then 0.0
    else (if of == None || of == Some(q[0].trader) then Cost(q[0].price, q[0].quantity) else 0.0) + Worth(q[1..], of)
  }

  function Paid(fills: seq<Fill>, of: Option<string>): real {
    if fills == [] then 0.0
    else (if of == None || of == Some(fills[0].trader) then Cost(fills[0].price, fills[0].quantity) else 0.0)
         + Paid(fills[1..], of)
  }

  lemma CostSplits(price: real, a: int, b: int)
    ensures Cost(price, a) + Cost(price, b) == Cost(price, a + b)
  {}

  /** What a queue loses in money is what is paid in the fills. */
  lemma {:induction false} WorthConserved(
    kind: Kind, q: seq<Entry>, quantity: int, limit: Option<real>, of: Option<string>)
    ensures Worth(q, of) == Paid(Fills(kind, q, quantity, limit), of) + Worth(Rest(kind, q, quantity, limit), of)
    decreases |q|
  {
    hide Cost, Takes;
    if quantity > 0 && q != [] && Takes(kind, limit, q[0]) {
      if quantity < q[0].quantity {
        CostSplits(q[0].price, quantity, q[0].quantity - quantity);
        assert Rest(kind, q, quantity, limit)[1..] == q[1..];
        assert Fills(kind, q, quantity, limit)[1..] == [];
      } else {
        WorthConserved(kind, q[1..], quantity - q[0].quantity, limit, of);
        var more := Fills(kind, q[1..], quantity - q[0].quantity, limit);
        assert ([FillOf(q[0], q[0].quantity)] + more)[1..] == more;
      }
    }
  }

  /** One account after a sequence of trades. */
  function BookedAll(a: Account, trades: seq<Trade>): Account
    decreases |trades|
  {
    if trades == [] then a else BookedAll(Booked(a, trades[0]), trades[1..])
  }

  lemma {:induction false} DeliveredTo(accounts: seq<Account>, trades: seq<Trade>, j: nat)
    requires j < |accounts|
    ensures |DeliverAll(accounts, trades)| == |accounts|
    ensures DeliverAll(accounts, trades)[j] == BookedAll(accounts[j], trades)
    decreases |trades|
  {
    hide Booked;
    if trades != [] {
      DeliveredTo(Deliver(accounts, trades[0]), trades[1..], j);
    }
  }

  function Signed(side: Side, x: int): int { if side.Buy? then x else -x }

  function SignedCash(side: Side, x: real): real { if side.Buy? then x else -x }

  lemma {:induction false} OwnFills(a: Account, o: Order, fills: seq<Fill>, counter: nat, symbol: string)
    requires a.id == o.trader && forall i | 0 <= i < |fills| :: fills[i].trader != o.trader
    ensures var after := BookedAll(a, TradesOf(o, fills, counter));
            && after.id == a.id
            && Position(after, symbol)
               == Position(a, symbol) + (if symbol == o.symbol then Signed(o.side, Filled(fills)) else 0)
            && after.cash == a.cash - SignedCash(o.side, Paid(fills, None))
    decreases |fills|
  {
    hide Cost;
    if fills != [] {
      TradesFirst(o, fills, counter);
      var t := TradeOf(o, fills[0], counter + 1);
      OwnFills(Booked(a, t), o, fills[1..], counter + 1, symbol);
    }
  }

  lemma TradesFirst(o: Order, fills: seq<Fill>, counter: nat)
    requires fills != []
    ensures TradesOf(o, fills, counter) != [] && TradesOf(o, fills, counter)[0] == TradeOf(o, fills[0], counter + 1)
    ensures TradesOf(o, fills, counter)[1..] == TradesOf(o, fills[1..], counter + 1)
  {}

  lemma {:induction false} OthersFills(a: Account, o: Order, fills: seq<Fill>, counter: nat, symbol: string)
    requires a.id != o.trader
    ensures var after := BookedAll(a, TradesOf(o, fills, counter));
            && after.id == a.id
            && Position(after, symbol)
               == Position(a, symbol) - (if symbol == o.symbol then Signed(o.side, FilledOf(fills, a.id)) else 0)
            && after.cash == a.cash + SignedCash(o.side, Paid(fills, Some(a.id)))
    decreases |fills|
  {
    hide Cost;
    if fills != [] {
      TradesFirst(o, fills, counter);
      var t := TradeOf(o, fills[0], counter + 1);
      OthersFills(Booked(a, t), o, fills[1..], counter + 1, symbol);
    }
  }

  /** How much of a queue has gone, of one trader or of all. */
  function Gone(before: seq<Entry>, after: seq<Entry>, of: Option<string>): int {
    if of == None then Sum(before, EntryQuantity) - Sum(after, EntryQuantity)
    else OpenOf(before, of.value) - OpenOf(after, of.value)
  }

  /** An order that does not reach entries of its own trader, delivered to all: that trader gains, if it
      buys, or gives up, if it sells, exactly what the opposite queue has lost, and pays or is paid what
      that was worth there; every other trader's account moves the other way, by what the trader's own
      entries have lost; and no other symbol is touched. */
  lemma OrderSettles(b: Book, o: Order, counter: nat, accounts: seq<Account>, j: nat, symbol: string)
    requires Ordered(b) && !ReachesOwn(b, o) && j < |accounts|
    ensures var before, after := Opposite(b, o), Opposite(Matched(b, o), o);
            var a, end := accounts[j], DeliverAll(accounts, TradesOf(o, FillsOf(b, o), counter));
            var of := if a.id == o.trader then None else Some(a.id);
            var gains := (o.side.Buy? <==> a.id == o.trader);
            var quantity, money := Gone(before, after, of), Worth(before, of) - Worth(after, of);
            && |end| == |accounts| && end[j].id == a.id
            && Position(end[j], symbol)
               == Position(a, symbol) + (if symbol != o.symbol then 0 else if gains then quantity else -quantity)
            && end[j].cash == a.cash + (if gains then -money else money)
  {
    hide Fills, Rest, TradesOf, Position, Worth, Paid, Filled, DeliverAll, BookedAll, ReachesOwn;
    var kind, q, limit, fills := OppositeKind(o), Opposite(b, o), LimitOf(o), FillsOf(b, o);
    DeliveredTo(accounts, TradesOf(o, fills, counter), j);
    ReachesOwnIff(b, o);
    if accounts[j].id == o.trader {
      OwnFills(accounts[j], o, fills, counter, symbol);
      QuantityConserved(kind, q, o.quantity, limit);
      WorthConserved(kind, q, o.quantity, limit, None);
    } else {
      OthersFills(accounts[j], o, fills, counter, symbol);
      TraderConserved(kind, q, o.quantity, limit, accounts[j].id);
      WorthConserved(kind, q, o.quantity, limit, Some(accounts[j].id));
    }
  }

  // ---- A whole run of the market ----

  datatype Event = Quotes(quote: Quote) | Orders(order: Order)

  function Actor(e: Event): string { if e.Quotes? then e.quote.trader else e.order.trader }

  /** The book, and all trades so far, after a run of quotes and orders on an empty book. */
  function Market(events: seq<Event>): (Book, seq<Trade>) {
    if events == [] then (Book([], []), [])
    else
      var (b, trades) := Market(events[..|events| - 1]);
      match events[|events| - 1]
      case Quotes(quote) => (Quoted(b, quote), trades)
      case Orders(order) => (Matched(b, order), trades + TradesOf(order, FillsOf(b, order), |trades|))
  }

  lemma QuotedTraders(accounts: seq<Account>, b: Book, quote: Quote)
    requires Ordered(b) && TradersOf(accounts, b.bids) && TradersOf(accounts, b.asks) && Trades(accounts, quote.trader)
    ensures TradersOf(accounts, Quoted(b, quote).bids) && TradersOf(accounts, Quoted(b, quote).asks)
  {
    hide Insert, Without, Trades;
    WithoutKeepsOrder(Bids, b.bids, quote.trader);
    WithoutKeepsOrder(Asks, b.asks, quote.trader);
    InsertMembers(Bids, Without(b.bids, quote.trader), Entry(quote.bidPrice, quote.bidSize, quote.trader));
    InsertMembers(Asks, Without(b.asks, quote.trader), Entry(quote.askPrice, quote.askSize, quote.trader));
  }

  lemma MatchedTraders(accounts: seq<Account>, b: Book, o: Order, counter: nat)
    requires Ordered(b) && TradersOf(accounts, b.bids) && TradersOf(accounts, b.asks) && Trades(accounts, o.trader)
    ensures TradersOf(accounts, Matched(b, o).bids) && TradersOf(accounts, Matched(b, o).asks)
    ensures AllKnown(accounts, TradesOf(o, FillsOf(b, o), counter))
  {
    hide Insert, Rest, Fills, Trades;
    var kind, q := OppositeKind(o), Opposite(b, o);
    var rest, fills := Rest(kind, q, o.quantity, LimitOf(o)), FillsOf(b, o);
    RestOrdered(kind, q, o.quantity, LimitOf(o));
    forall e | e in rest ensures Trades(accounts, e.trader) {
      var i :| 0 <= i < |rest| && rest[i] == e;
      assert q[|q| - |rest| + i] in q;
    }
    InsertMembers(Bids, b.bids, Resting(b, o));
    InsertMembers(Asks, b.asks, Resting(b, o));
    FillsOrdered(kind, q, o.quantity, LimitOf(o));
    var trades := TradesOf(o, fills, counter);
    forall t | t in trades ensures Trades(accounts, t.buyer) && Trades(accounts, t.seller) {
      var i :| 0 <= i < |trades| && trades[i] == t;
      assert fills[i].trader == q[i].trader && q[i] in q;
    }
  }

  lemma {:induction false} MarketKeeps(accounts: seq<Account>, events: seq<Event>)
    requires Distinct(accounts) && forall e | e in events :: Trades(accounts, Actor(e))
    ensures var (b, trades) := Market(events);
            Ordered(b) && TradersOf(accounts, b.bids) && TradersOf(accounts, b.asks) && AllKnown(accounts, trades)
  {
    hide Trades, Quoted, Matched, TradesOf, FillsOf;
    if events != [] {
      var front, e := events[..|events| - 1], events[|events| - 1];
      MarketKeeps(accounts, front);
      assert e in events && Trades(accounts, Actor(e));
      var (b, trades) := Market(front);
      match e {
        case Quotes(quote) =>
          QuotedKeepsOrder(b, quote);
          QuotedTraders(accounts, b, quote);
        case Orders(order) =>
          MatchedKeepsOrder(b, order);
          MatchedTraders(accounts, b, order, |trades|);
      }
    }
  }

  /** Over any run of quotes and orders among the traders, with every trade delivered to all of
      them: total cash plus the cash traded with oneself is constant, and the positions in each
      symbol sum to the quantity traded with oneself. */
  lemma MarketConserves(accounts: seq<Account>, events: seq<Event>, symbol: string)
    requires Distinct(accounts) && forall e | e in events :: Trades(accounts, Actor(e))
    ensures var trades := Market(events).1;
            var after := DeliverAll(accounts, trades);
            && TotalCash(after) + SelfTraded(trades) == TotalCash(accounts)
            && TotalPosition(after, symbol) == TotalPosition(accounts, symbol) + SelfTradedQuantity(trades, symbol)
  {
    hide Market, Trades;
    MarketKeeps(accounts, events);
    RunConserves(accounts, Market(events).1, symbol);
  }

  // ---- A trader that trades with itself ----

  const OFFER := Order("t", "AAPL", Sell, Limit, 10.0, 5, 1)
  const BID := Order("t", "AAPL", Buy, Limit, 10.0, 5, 2)
  const SELF_TRADE := Trade(1, "AAPL", "t", "t", 10.0, 5, 2)

  lemma SelfTradeHappens()
    ensures Market([Orders(OFFER), Orders(BID)]).1 == [SELF_TRADE]
  {
    hide Market, Matched, FillsOf, TradesOf;
    MarketStarts();
    MarketNext([], Orders(OFFER));
    OfferRests();
    assert [] + [Orders(OFFER)] == [Orders(OFFER)];
    MarketNext([Orders(OFFER)], Orders(BID));
    assert [Orders(OFFER)] + [Orders(BID)] == [Orders(OFFER), Orders(BID)];
    BidMeetsOffer();
  }

  lemma OfferRests()
    ensures Matched(Book([], []), OFFER) == Book([], [Entry(10.0, 5, "t")])
    ensures [] + TradesOf(OFFER, FillsOf(Book([], []), OFFER), 0) == []
  {
    FillsEnd(Bids, [], 5, Some(10.0));
    NothingFilled("");
  }

  lemma BidMeetsOffer()
    ensures [] + TradesOf(BID, FillsOf(Book([], [Entry(10.0, 5, "t")]), BID), 0) == [SELF_TRADE]
  {
    hide Fills, Rest;
    var offered := Entry(10.0, 5, "t");
    FillsPop(Asks, [offered], 5, Some(10.0));
    FillsEnd(Asks, [offered][1..], 0, Some(10.0));
    assert FillsOf(Book([], [offered]), BID) == [Fill(10.0, 5, "t")];
  }

  lemma MarketStarts()
    ensures Market([]) == (Book([], []), [])
  {}

  lemma MarketNext(events: seq<Event>, e: Event)
    ensures var (b, trades) := Market(events);
            Market(events + [e])
            == match e
               case Quotes(quote) => (Quoted(b, quote), trades)
               case Orders(order) => (Matched(b, order), trades + TradesOf(order, FillsOf(b, order), |trades|))
  {
    assert (events + [e])[..|events|] == events;
  }

  /** A trader sells to itself: only the bought leg is booked, so its cash is gone and its position is
      out of nothing. */
  lemma SelfTradeLoses(cash: real)
    ensures var accounts := [Account("t", cash, map[])];
            var after := DeliverAll(accounts, Market([Orders(OFFER), Orders(BID)]).1);
            TotalCash(after) == TotalCash(accounts) - 50.0
            && TotalPosition(after, "AAPL") == TotalPosition(accounts, "AAPL") + 5
  {
    hide Market, DeliverAll, TotalCash, TotalPosition;
    SelfTradeHappens();
    var accounts := [Account("t", cash, map[])];
    assert accounts[0].id == "t";
    RunConserves(accounts, [SELF_TRADE], "AAPL");
    SumOne(SELF_TRADE, (t: Trade) => if t.buyer == t.seller && t.symbol == "AAPL" then t.quantity else 0);
    assert [SELF_TRADE][1..] == [];
  }
}
