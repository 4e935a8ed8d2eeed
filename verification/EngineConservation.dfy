/** What the matching engine conserves: quantities, order by order and over whole runs. */
module EngineConservation {
  import opened Wrappers
  import opened Sequences
  import opened Queues
  import opened MatchingEngines
  import opened EngineAgreement

  // ---- What the engine conserves ----

  function OpenQuantity(levels: Levels): int { Sum(Queue(Asks, levels), EntryQuantity) }

  function OpenOfStrategy(levels: Levels, strategy: string): int { OpenOf(Queue(Asks, levels), strategy) }

  lemma OpenOfConcat(a: seq<Entry>, b: seq<Entry>, strategy: string)
    ensures OpenOf(a + b, strategy) == OpenOf(a, strategy) + OpenOf(b, strategy)
    ensures Sum(a + b, EntryQuantity) == Sum(a, EntryQuantity) + Sum(b, EntryQuantity)
  {
    SumConcat(a, b, (e: Entry) => if e.trader == strategy then e.quantity else 0);
    SumConcat(a, b, EntryQuantity);
  }

  /** A sweep takes from the book, in total and from each strategy, exactly what it trades. */
  lemma SweepConserves(o: Order, levels: Levels, limit: Option<nat>, strategy: string)
    requires LevelsOpen(levels)
    ensures var fills, left := Taken(o, levels, limit), Left(o, levels, limit);
            && OpenQuantity(levels) == Queues.Filled(fills) + OpenQuantity(left)
            && OpenOfStrategy(levels, strategy) == FilledOf(fills, strategy) + OpenOfStrategy(left, strategy)
  {
    hide Queue, Fills, Rest, Beyond, Left, Flatten, OpenOf, FilledOf, Queues.Filled;
    var a, b := Reached(o, levels, limit), Beyond(o, levels, limit);
    SweepOfQueue(o, levels, limit);
    QuantityConserved(Asks, a, Open(o), None);
    TraderConserved(Asks, a, Open(o), None, strategy);
    OpenOfConcat(a, b, strategy);
    OpenOfConcat(Rest(Asks, a, Open(o), None), b, strategy);
  }

  /** Whatever the order, unless it is fill-or-kill: the executions sum to the order's filled
      increase and to the fall in the opposite side's open quantity, strategy by strategy, and what
      a priced limit order asked for beyond that rests on its own side. */
  lemma OutcomeConserves(o: Order, opposite: Levels, own: Levels, strategy: string)
    requires Sound(o) && LevelsOpen(opposite) && LevelsOpen(own) && !o.orderType.FOK?
    ensures var r := OutcomeByType(o, opposite, own);
            && Queues.Filled(r.reported) == r.order.filledQuantity - o.filledQuantity
            && Queues.Filled(r.reported) == OpenQuantity(opposite) - OpenQuantity(r.opposite)
            && FilledOf(r.reported, strategy)
               == OpenOfStrategy(opposite, strategy) - OpenOfStrategy(r.opposite, strategy)
            && OpenQuantity(r.own) - OpenQuantity(own)
               == (if o.orderType.Limit? && o.price.Some? then Open(o) - Queues.Filled(r.reported) else 0)
            && Sound(r.order)
  {
    hide Queue, Taken, Left, OpenOf, FilledOf, Queues.Filled, Insert, Pushed;
    NothingFilled(strategy);
    if o.orderType.Market? || (o.price.Some? && Immediate(o.orderType)) {
      var limit := LimitFor(o);
      SweepConserves(o, opposite, limit, strategy);
      TakenBounded(o, opposite, limit);
      var done := Increased(o, Taken(o, opposite, limit));
      if o.orderType.Limit? && Open(done) > 0 {
        PushedIsInsert(Asks, own, limit.value, done);
        InsertTotal(Asks, Queue(Asks, own), EntryOf(limit.value, done));
      }
    }
  }

  /** So it is with stop orders, triggered or not, whatever the market price. */
  lemma OrderConserves(o: Order, opposite: Levels, own: Levels, market: Option<real>, strategy: string)
    requires Sound(o) && LevelsOpen(opposite) && LevelsOpen(own) && !o.orderType.FOK?
    ensures var r, c := OrderOutcome(o, opposite, own, market), Converted(o, market);
            && Queues.Filled(r.reported) == r.order.filledQuantity - o.filledQuantity
            && Queues.Filled(r.reported) == OpenQuantity(opposite) - OpenQuantity(r.opposite)
            && FilledOf(r.reported, strategy)
               == OpenOfStrategy(opposite, strategy) - OpenOfStrategy(r.opposite, strategy)
            && OpenQuantity(r.own) - OpenQuantity(own) == (if Rests(c) then Open(o) - Queues.Filled(r.reported) else 0)
  {
    hide OutcomeByType, OpenQuantity, OpenOfStrategy, FilledOf, Queues.Filled;
    OutcomeConserves(Converted(o, market), opposite, own, strategy);
  }

  predicate Rests(o: Order) { o.orderType.Limit? && o.price.Some? }

  lemma OutcomeOpen(o: Order, opposite: Levels, own: Levels)
    requires Sound(o) && LevelsOpen(opposite) && LevelsOpen(own)
    ensures LevelsOpen(OutcomeByType(o, opposite, own).opposite) && LevelsOpen(OutcomeByType(o, opposite, own).own)
  {
    hide Taken, Left, Pushed, Queues.Filled;
    if o.orderType.Market? || o.price.Some? {
      var limit := LimitFor(o);
      LeftIsOpen(o, opposite, limit);
      TakenBounded(o, opposite, limit);
      var done := Increased(o, Taken(o, opposite, limit));
      if limit.Some? && Open(done) > 0 {
        PushedIsOpen(own, limit.value, done);
      }
    }
  }

  // ---- A run of orders ----

  /** An order, and the market price of its symbol when it comes. */
  datatype Submission = Submission(order: Order, market: Option<real>)

  /** Both sides of a symbol's book after some orders; how much the limit orders among them offered,
      how much of that they took themselves, how much was executed in all, and how much was lost to
      fill-or-kill orders that were killed. */
  datatype Session = Session(buys: Levels, sells: Levels, offered: int, taken: int, executed: int, lost: int)

  /** What a killed fill-or-kill order takes from the book without an execution. */
  function Lost(o: Order, opposite: Levels): int {
    if o.orderType.FOK? && o.price.Some? && ReachedQuantity(o, opposite) < Open(o) then ReachedQuantity(o, opposite)
    else 0
  }

  function Submitted(s: Session, u: Submission): Session {
    var o, c := u.order, Converted(u.order, u.market);
    var opposite, own := if o.side.Buy? then s.sells else s.buys, if o.side.Buy? then s.buys else s.sells;
    var r := OrderOutcome(o, opposite, own, u.market);
    var x := Queues.Filled(r.reported);
    Session(
      if o.side.Buy? then r.own else r.opposite, if o.side.Buy? then r.opposite else r.own,
      s.offered + (if Rests(c) then Open(o) else 0), s.taken + (if Rests(c) then x else 0), s.executed + x,
      s.lost + Lost(c, opposite))
  }

  function AfterRun(us: seq<Submission>): Session {
    if us == [] then Session(map[], map[], 0, 0, 0, 0) else Submitted(AfterRun(us[..|us| - 1]), us[|us| - 1])
  }

  /** Over any run of orders of one symbol: every share that a limit order ever offered still rests in
      the book, or was taken by the order itself when it came, or was executed against it later, or was
      lost to a fill-or-kill order that was killed. */
  lemma {:induction false} RunConserves(us: seq<Submission>)
    requires forall i | 0 <= i < |us| :: Sound(us[i].order)
    ensures var s := AfterRun(us);
            && LevelsOpen(s.buys) && LevelsOpen(s.sells)
            && s.offered == OpenQuantity(s.buys) + OpenQuantity(s.sells) + s.taken + s.executed + s.lost
    decreases |us|
  {
    hide OutcomeByType, OpenQuantity, OpenOfStrategy, FilledOf, Queues.Filled, Converted, Submitted;
    if us == [] {
      EmptyBook();
    } else {
      var front, u := us[..|us| - 1], us[|us| - 1];
      RunConserves(front);
      assert Sound(u.order);
      SubmittedConserves(AfterRun(front), u);
    }
  }

  lemma EmptyBook()
    ensures OpenQuantity(map[]) == 0
  {
    EmptyQueue(Asks);
  }

  lemma SubmittedConserves(s: Session, u: Submission)
    requires LevelsOpen(s.buys) && LevelsOpen(s.sells) && Sound(u.order)
    requires s.offered == OpenQuantity(s.buys) + OpenQuantity(s.sells) + s.taken + s.executed + s.lost
    ensures var n := Submitted(s, u);
            && LevelsOpen(n.buys) && LevelsOpen(n.sells)
            && n.offered == OpenQuantity(n.buys) + OpenQuantity(n.sells) + n.taken + n.executed + n.lost
  {
    hide OutcomeByType, OpenQuantity, OpenOfStrategy, FilledOf, Queues.Filled, LevelsOpen, Rests, Lost;
    var opposite := if u.order.side.Buy? then s.sells else s.buys;
    var own := if u.order.side.Buy? then s.buys else s.sells;
    if u.order.orderType.FOK? {
      KillLoses(u.order, opposite, own);
    } else {
      OrderConserves(u.order, opposite, own, u.market, "");
      NothingLost(Converted(u.order, u.market), opposite);
    }
    OutcomeOpen(Converted(u.order, u.market), opposite, own);
  }

  lemma NothingLost(o: Order, opposite: Levels)
    requires !o.orderType.FOK?
    ensures Lost(o, opposite) == 0
  {}

  /** A fill-or-kill order takes from the book what it executes and what it loses, and never rests. */
  lemma KillLoses(o: Order, opposite: Levels, own: Levels)
    requires Sound(o) && LevelsOpen(opposite) && o.orderType.FOK?
    ensures var r := OutcomeByType(o, opposite, own);
            && OpenQuantity(r.opposite) == OpenQuantity(opposite) - Queues.Filled(r.reported) - Lost(o, opposite)
            && r.own == own && !Rests(o)
  {
    hide OpenQuantity, Queues.Filled, Taken, Left, ReachedQuantity;
    NothingFilled("");
    if o.price.Some? {
      FillOrKill(o, opposite, own);
    }
  }

  /** What a fill-or-kill order can reach. */
  function ReachedQuantity(o: Order, levels: Levels): int
    requires o.price.Some?
  {
    Sum(Reached(o, levels, Some(PriceToCents(o.price.value))), EntryQuantity)
  }

  /** A fill-or-kill order is filled or cancelled as it should be, but a killed one has already taken
      from the book what it reached: its executions account for the book only if that is nothing. */
  lemma FillOrKill(o: Order, opposite: Levels, own: Levels)
    requires Sound(o) && LevelsOpen(opposite) && o.orderType.FOK? && o.price.Some?
    ensures var r := OutcomeByType(o, opposite, own);
            && ((r.order.status == Status.Filled && Open(r.order) == 0 && Queues.Filled(r.reported) == Open(o))
                <==> ReachedQuantity(o, opposite) >= Open(o))
            && (ReachedQuantity(o, opposite) < Open(o) ==>
                  && r.order == o.(status := Cancelled) && r.reported == []
                  && OpenQuantity(r.opposite) == OpenQuantity(opposite) - ReachedQuantity(o, opposite))
            && (Queues.Filled(r.reported) == OpenQuantity(opposite) - OpenQuantity(r.opposite)
                <==> ReachedQuantity(o, opposite) >= Open(o) || ReachedQuantity(o, opposite) == 0)
  {
    hide OpenQuantity, Taken, Left, FilledOf, Queues.Filled, ReachedQuantity;
    SweepConserves(o, opposite, Some(PriceToCents(o.price.value)), "");
    NothingFilled("");
    FilledReached(o, opposite);
  }

  lemma FilledReached(o: Order, levels: Levels)
    requires Sound(o) && LevelsOpen(levels) && o.price.Some?
    ensures ReachedQuantity(o, levels) >= 0
    ensures Queues.Filled(Taken(o, levels, Some(PriceToCents(o.price.value))))
         == Min(Open(o), ReachedQuantity(o, levels))
  {
    hide Queue, Fills, Left, Flatten, Queues.Filled, Reach, Ascending;
    var limit := Some(PriceToCents(o.price.value));
    var a := Reached(o, levels, limit);
    SweepOfQueue(o, levels, limit);
    FilledTotal(Asks, a, Open(o), None);
    AcceptableRange(Asks, a, None);
    SumSame(a, (e: Entry) => if Takes(Asks, None, e) then e.quantity else 0, EntryQuantity);
  }
}
