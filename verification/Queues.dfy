/** One side of an order book as a queue: stable sorting by price, and greedy matching. */
module Queues {
  import opened Wrappers
  import opened Sequences

  /** Asks are served cheapest first, bids dearest first. */
  datatype Kind = Bids | Asks

  datatype Entry = Entry(price: real, quantity: int, trader: string)

  datatype Fill = Fill(price: real, quantity: int, trader: string)

  function Rank(kind: Kind, price: real): real { if kind.Asks? then price else -price }

  ghost predicate Sorted(kind: Kind, q: seq<Entry>) {
    forall i, j | 0 <= i < j < |q| :: Rank(kind, q[i].price) <= Rank(kind, q[j].price)
  }

  ghost predicate Positive(q: seq<Entry>) { forall e | e in q :: e.quantity > 0 }

  // ---- Stable sorting ----

  function AtPrice(q: seq<Entry>, price: real): seq<Entry> {
    FlatMap((e: Entry) => if e.price == price then [e] else [], q)
  }

  /** t has the entries of s, in price order, and equal prices in the order they have in s. */
  ghost predicate IsStableSort(kind: Kind, t: seq<Entry>, s: seq<Entry>) {
    Sorted(kind, t) && forall price :: AtPrice(t, price) == AtPrice(s, price)
  }

  /** Behind every entry that is served no later. */
  function Insert(kind: Kind, q: seq<Entry>, e: Entry): seq<Entry> {
    if q == [] || Rank(kind, e.price) < Rank(kind, q[0].price) then [e] + q
    else [q[0]] + Insert(kind, q[1..], e)
  }

  /** What the library's stable sort returns. */
  function StableSorted(kind: Kind, s: seq<Entry>): seq<Entry> {
    if s == [] then [] else Insert(kind, StableSorted(kind, s[..|s| - 1]), s[|s| - 1])
  }

  lemma AtPriceFront(e: Entry, rest: seq<Entry>, price: real)
    ensures AtPrice([e] + rest, price) == (if e.price == price then [e] else []) + AtPrice(rest, price)
  {
    assert ([e] + rest)[1..] == rest;
  }

  lemma AtPriceAppend(q: seq<Entry>, e: Entry, price: real)
    ensures AtPrice(q + [e], price) == AtPrice(q, price) + (if e.price == price then [e] else [])
  {
    FlatMapAppend((e: Entry) => if e.price == price then [e] else [], q, e);
  }

  lemma {:induction false} NothingAtPrice(kind: Kind, q: seq<Entry>, price: real)
    requires forall i | 0 <= i < |q| :: Rank(kind, price) < Rank(kind, q[i].price)
    ensures AtPrice(q, price) == []
    decreases |q|
  {
    if q != [] {
      NothingAtPrice(kind, q[1..], price);
    }
  }

  lemma {:induction false} InsertMembers(kind: Kind, q: seq<Entry>, e: Entry)
    ensures forall x :: x in Insert(kind, q, e) <==> x == e || x in q
    ensures |Insert(kind, q, e)| == |q| + 1
    decreases |q|
  {
    if q != [] && Rank(kind, e.price) >= Rank(kind, q[0].price) {
      InsertMembers(kind, q[1..], e);
      assert q == [q[0]] + q[1..];
    }
  }

  lemma {:induction false} InsertIsSorted(kind: Kind, q: seq<Entry>, e: Entry)
    requires Sorted(kind, q)
    ensures Sorted(kind, Insert(kind, q, e))
    decreases |q|
  {
    if q != [] && Rank(kind, e.price) >= Rank(kind, q[0].price) {
      var rest := Insert(kind, q[1..], e);
      InsertIsSorted(kind, q[1..], e);
      InsertMembers(kind, q[1..], e);
      forall j | 0 <= j < |rest| ensures Rank(kind, q[0].price) <= Rank(kind, rest[j].price) {
        assert rest[j] in rest;
      }
    }
  }

  lemma {:induction false} InsertIsStable(kind: Kind, q: seq<Entry>, e: Entry, price: real)
    requires Sorted(kind, q)
    ensures AtPrice(Insert(kind, q, e), price) == AtPrice(q + [e], price)
    decreases |q|
  {
    AtPriceAppend(q, e, price);
    if q == [] {
    } else if Rank(kind, e.price) < Rank(kind, q[0].price) {
      AtPriceFront(e, q, price);
      if e.price == price {
        NothingAtPrice(kind, q, price);
      }
    } else {
      InsertIsStable(kind, q[1..], e, price);
      AtPriceFront(q[0], Insert(kind, q[1..], e), price);
      AtPriceFront(q[0], q[1..], price);
      AtPriceAppend(q[1..], e, price);
      assert q == [q[0]] + q[1..];
    }
  }

  lemma {:induction false} StableSortedIsStableSort(kind: Kind, s: seq<Entry>)
    ensures IsStableSort(kind, StableSorted(kind, s), s)
  {
    hide AtPrice, Insert;
    if s != [] {
      var front, e := s[..|s| - 1], s[|s| - 1];
      StableSortedIsStableSort(kind, front);
      var t := StableSorted(kind, front);
      InsertIsSorted(kind, t, e);
      forall price ensures AtPrice(Insert(kind, t, e), price) == AtPrice(s, price) {
        InsertIsStable(kind, t, e, price);
        AtPriceAppend(t, e, price);
        AtPriceAppend(front, e, price);
        assert s == front + [e];
      }
    }
  }

  lemma {:induction false} AtPriceWitness(q: seq<Entry>, price: real) returns (i: nat)
    requires AtPrice(q, price) != []
    ensures i < |q| && q[i].price == price
    decreases |q|
  {
    if q[0].price == price {
      i := 0;
    } else {
      i := AtPriceWitness(q[1..], price);
      i := i + 1;
    }
  }

  lemma HeadsAgree(kind: Kind, t: seq<Entry>, u: seq<Entry>)
    requires t != [] && Sorted(kind, t) && Sorted(kind, u)
    requires forall price :: AtPrice(t, price) == AtPrice(u, price)
    ensures u != [] && t[0] == u[0]
  {
    assert AtPrice(t, t[0].price)[0] == t[0];
    var i := AtPriceWitness(u, t[0].price);
    assert AtPrice(u, u[0].price)[0] == u[0];
    var j := AtPriceWitness(t, u[0].price);
    assert Rank(kind, u[0].price) <= Rank(kind, t[0].price) <= Rank(kind, u[0].price);
  }

  /** There is only one stable sort. */
  lemma {:induction false} StableSortUnique(kind: Kind, t: seq<Entry>, u: seq<Entry>)
    requires Sorted(kind, t) && Sorted(kind, u)
    requires forall price :: AtPrice(t, price) == AtPrice(u, price)
    ensures t == u
    decreases |t|
  {
    if t == [] {
      if u != [] { HeadsAgree(kind, u, t); }
    } else {
      HeadsAgree(kind, t, u);
      forall price ensures AtPrice(t[1..], price) == AtPrice(u[1..], price) {
        AtPriceFront(t[0], t[1..], price);
        AtPriceFront(u[0], u[1..], price);
        assert t == [t[0]] + t[1..] && u == [u[0]] + u[1..];
        var n := if t[0].price == price then 1 else 0;
        assert AtPrice(t, price)[n..] == AtPrice(t[1..], price) && AtPrice(u, price)[n..] == AtPrice(u[1..], price);
      }
      StableSortUnique(kind, t[1..], u[1..]);
      assert t == [t[0]] + t[1..] && u == [u[0]] + u[1..];
    }
  }

  /** Pushing an entry onto a sorted queue and sorting stably is exactly insertion behind its
      equals: first come, first served. */
  lemma PushThenSortIsInsertion(kind: Kind, q: seq<Entry>, e: Entry, t: seq<Entry>)
    requires Sorted(kind, q)
    ensures IsStableSort(kind, t, q + [e]) <==> t == Insert(kind, q, e)
    ensures StableSorted(kind, q + [e]) == Insert(kind, q, e)
  {
    InsertIsSorted(kind, q, e);
    forall price ensures AtPrice(Insert(kind, q, e), price) == AtPrice(q + [e], price) {
      InsertIsStable(kind, q, e, price);
    }
    StableSortedIsStableSort(kind, q + [e]);
    StableSortUnique(kind, StableSorted(kind, q + [e]), Insert(kind, q, e));
    if IsStableSort(kind, t, q + [e]) {
      StableSortUnique(kind, t, Insert(kind, q, e));
    }
  }

  // ---- Greedy matching ----

  /** An order without a limit takes any price. */
  function Takes(kind: Kind, limit: Option<real>, e: Entry): bool {
    limit.None? || Rank(kind, e.price) <= Rank(kind, limit.value)
  }

  function FillOf(e: Entry, quantity: int): Fill { Fill(e.price, quantity, e.trader) }

  /** What the matching loop trades, in order, and what it leaves in the queue. */
  function Fills(kind: Kind, q: seq<Entry>, quantity: int, limit: Option<real>): seq<Fill>
    decreases |q|
  {
    if quantity <= 0 || q == [] || !Takes(kind, limit, q[0]) then []
    else if quantity < q[0].quantity then [FillOf(q[0], quantity)]
    else [FillOf(q[0], q[0].quantity)] + Fills(kind, q[1..], quantity - q[0].quantity, limit)
  }

  function Rest(kind: Kind, q: seq<Entry>, quantity: int, limit: Option<real>): seq<Entry>
    decreases |q|
  {
    if quantity <= 0 || q == [] || !Takes(kind, limit, q[0]) then q
    else if quantity < q[0].quantity then [q[0].(quantity := q[0].quantity - quantity)] + q[1..]
    else Rest(kind, q[1..], quantity - q[0].quantity, limit)
  }

  function FillQuantity(f: Fill): int { f.quantity }

  function Filled(fills: seq<Fill>): int { Sum(fills, FillQuantity) }

  // ---- What matching achieves, said without the loop ----

  /** The quantity in the whole queue that the order would take. */
  function Acceptable(kind: Kind, q: seq<Entry>, limit: Option<real>): int {
    Sum(q, (e: Entry) => if Takes(kind, limit, e) then e.quantity else 0)
  }

  function Min(a: int, b: int): int { if a < b then a else b }

  function Max(a: int, b: int): int { if a < b then b else a }

  lemma FilledFront(f: Fill, rest: seq<Fill>)
    ensures Filled([f] + rest) == f.quantity + Filled(rest)
  {
    assert ([f] + rest)[1..] == rest;
  }

  lemma AcceptableRange(kind: Kind, q: seq<Entry>, limit: Option<real>)
    requires Positive(q)
    ensures Acceptable(kind, q, limit) >= 0
    ensures (forall e | e in q :: !Takes(kind, limit, e)) ==> Acceptable(kind, q, limit) == 0
  {
    SumNonNegative(q, (e: Entry) => if Takes(kind, limit, e) then e.quantity else 0);
    if forall e | e in q :: !Takes(kind, limit, e) {
      SumConstant(q, (e: Entry) => if Takes(kind, limit, e) then e.quantity else 0, 0);
    }
  }

  /** As much is traded as the order asks for and the whole queue offers at acceptable prices. */
  lemma {:induction false} FilledTotal(kind: Kind, q: seq<Entry>, quantity: int, limit: Option<real>)
    requires Sorted(kind, q) && Positive(q)
    ensures Filled(Fills(kind, q, quantity, limit)) == Min(Max(quantity, 0), Acceptable(kind, q, limit))
    decreases |q|
  {
    AcceptableRange(kind, q, limit);
    if quantity > 0 && q != [] && Takes(kind, limit, q[0]) {
      AcceptableRange(kind, q[1..], limit);
      if quantity < q[0].quantity {
        SumOne(FillOf(q[0], quantity), FillQuantity);
      } else {
        FilledTotal(kind, q[1..], quantity - q[0].quantity, limit);
        FilledFront(FillOf(q[0], q[0].quantity), Fills(kind, q[1..], quantity - q[0].quantity, limit));
      }
    }
  }

  /** The first k entries in full, then x of the next one. */
  function PrefixFills(q: seq<Entry>, k: nat, x: int): seq<Fill>
    requires k <= |q| && (x > 0 ==> k < |q|)
  {
    seq(k, i requires 0 <= i < k => FillOf(q[i], q[i].quantity)) + (if x > 0 then [FillOf(q[k], x)] else [])
  }

  /** The rest of the queue, with x taken off its head. */
  function SuffixLeft(q: seq<Entry>, k: nat, x: int): seq<Entry>
    requires k <= |q| && (x > 0 ==> k < |q|)
  {
    if x > 0 then [q[k].(quantity := q[k].quantity - x)] + q[k + 1..] else q[k..]
  }

  ghost predicate Cut(q: seq<Entry>, k: nat, x: int) {
    k <= |q| && 0 <= x && (x > 0 ==> k < |q| && x < q[k].quantity)
  }

  lemma CutShift(q: seq<Entry>, k: nat, x: int)
    requires q != [] && k < |q| && Cut(q[1..], k, x)
    ensures Cut(q, k + 1, x)
    ensures PrefixFills(q, k + 1, x) == [FillOf(q[0], q[0].quantity)] + PrefixFills(q[1..], k, x)
    ensures SuffixLeft(q, k + 1, x) == SuffixLeft(q[1..], k, x)
  {}

  lemma CutFirst(q: seq<Entry>, x: int)
    requires Cut(q, 0, x)
    ensures x == 0 ==> PrefixFills(q, 0, x) == [] && SuffixLeft(q, 0, x) == q
    ensures x > 0 ==> PrefixFills(q, 0, x) == [FillOf(q[0], x)]
    ensures x > 0 ==> SuffixLeft(q, 0, x) == [q[0].(quantity := q[0].quantity - x)] + q[1..]
  {}

  /** Matching consumes a price-time prefix and leaves the exact suffix. */
  lemma {:induction false} MatchingCuts(kind: Kind, q: seq<Entry>, quantity: int, limit: Option<real>)
    returns (k: nat, x: int)
    requires Positive(q)
    ensures Cut(q, k, x)
    ensures Fills(kind, q, quantity, limit) == PrefixFills(q, k, x)
    ensures Rest(kind, q, quantity, limit) == SuffixLeft(q, k, x)
    decreases |q|
  {
    hide PrefixFills, SuffixLeft;
    if quantity <= 0 || q == [] || !Takes(kind, limit, q[0]) {
      k, x := 0, 0;
      CutFirst(q, x);
    } else if quantity < q[0].quantity {
      k, x := 0, quantity;
      CutFirst(q, x);
    } else {
      k, x := MatchingCuts(kind, q[1..], quantity - q[0].quantity, limit);
      CutShift(q, k, x);
      k := k + 1;
    }
  }

  lemma {:induction false} PrefixTotal(q: seq<Entry>, k: nat, x: int)
    requires Cut(q, k, x)
    ensures Filled(PrefixFills(q, k, x)) == Sum(q[..k], (e: Entry) => e.quantity) + x
    decreases k
  {
    if k == 0 {
      if x > 0 {
        SumOne(FillOf(q[0], x), FillQuantity);
        assert PrefixFills(q, 0, x) == [FillOf(q[0], x)];
      }
    } else {
      PrefixTotal(q[1..], k - 1, x);
      FilledFront(FillOf(q[0], q[0].quantity), PrefixFills(q[1..], k - 1, x));
      CutShift(q, k - 1, x);
      assert q[..k][1..] == q[1..][..k - 1];
    }
  }

  lemma PrefixSums(q: seq<Entry>, j: nat, k: nat)
    requires Positive(q) && j < k <= |q|
    ensures Sum(q[..j], (e: Entry) => e.quantity) + q[j].quantity <= Sum(q[..k], (e: Entry) => e.quantity)
  {
    var w := (e: Entry) => e.quantity;
    assert q[..k] == q[..j] + q[j..k];
    SumConcat(q[..j], q[j..k], w);
    SumBound(q[j..k], w, 0);
  }

  /** A prefix of the queue is determined by how much it comes to, so matching is the only way to
      trade that much in price-time order. */
  lemma CutUnique(q: seq<Entry>, k: nat, x: int, j: nat, y: int)
    requires Positive(q) && Cut(q, k, x) && Cut(q, j, y)
    requires Filled(PrefixFills(q, k, x)) == Filled(PrefixFills(q, j, y))
    ensures k == j && x == y
  {
    PrefixTotal(q, k, x);
    PrefixTotal(q, j, y);
    if k < j { PrefixSums(q, k, j); }
    if j < k { PrefixSums(q, j, k); }
  }

  /** Every fill is of a positive quantity at an acceptable price. */
  lemma {:induction false} FillsAcceptable(kind: Kind, q: seq<Entry>, quantity: int, limit: Option<real>)
    requires Positive(q)
    ensures forall f | f in Fills(kind, q, quantity, limit) ::
              f.quantity > 0 && (limit.Some? ==> Rank(kind, f.price) <= Rank(kind, limit.value))
    decreases |q|
  {
    if quantity > 0 && q != [] && Takes(kind, limit, q[0]) && quantity >= q[0].quantity {
      FillsAcceptable(kind, q[1..], quantity - q[0].quantity, limit);
    }
  }

  /** What is left keeps the order of the queue, at prices of the queue. */
  lemma RestOrdered(kind: Kind, q: seq<Entry>, quantity: int, limit: Option<real>)
    requires Sorted(kind, q) && Positive(q)
    ensures var rest := Rest(kind, q, quantity, limit);
            && Sorted(kind, rest) && Positive(rest)
            && |rest| <= |q|
            && forall i | 0 <= i < |rest| ::
                 var e := q[|q| - |rest| + i];
                 rest[i].price == e.price && rest[i].trader == e.trader
  {
    hide Rest, Fills;
    var k, x := MatchingCuts(kind, q, quantity, limit);
    var rest := Rest(kind, q, quantity, limit);
    assert |rest| == |q| - k;
    forall i | 0 <= i < |rest|
      ensures rest[i].price == q[k + i].price && rest[i].trader == q[k + i].trader && rest[i].quantity > 0
    {
      assert q[k + i] in q;
    }
  }

  lemma FillsOrdered(kind: Kind, q: seq<Entry>, quantity: int, limit: Option<real>)
    requires Positive(q)
    ensures var fills := Fills(kind, q, quantity, limit);
            && |fills| <= |q| && |fills| + |Rest(kind, q, quantity, limit)| <= |q| + 1
            && forall i | 0 <= i < |fills| :: fills[i].price == q[i].price && fills[i].trader == q[i].trader
  {
    hide Rest, Fills;
    var k, x := MatchingCuts(kind, q, quantity, limit);
  }

  /** An entry is traded with exactly if its price is acceptable and what rests before it does not use
      up the order: this can be told from the queue alone. */
  lemma {:induction false} ReachedIff(kind: Kind, q: seq<Entry>, quantity: int, limit: Option<real>, i: nat)
    requires Sorted(kind, q) && Positive(q) && i < |q|
    ensures i < |Fills(kind, q, quantity, limit)|
            <==> Takes(kind, limit, q[i]) && Sum(q[..i], EntryQuantity) < quantity
    decreases |q|
  {
    BeforeEntry(q, i);
    if i > 0 && 0 < q[0].quantity <= quantity && Takes(kind, limit, q[0]) {
      ReachedIff(kind, q[1..], quantity - q[0].quantity, limit, i - 1);
    }
  }

  lemma BeforeEntry(q: seq<Entry>, i: nat)
    requires Positive(q) && i < |q|
    ensures Sum(q[..i], EntryQuantity) == if i == 0 then 0 else q[0].quantity + Sum(q[1..][..i - 1], EntryQuantity)
    ensures i > 0 ==> Sum(q[1..][..i - 1], EntryQuantity) >= 0
  {
    if i > 0 {
      assert q[..i][1..] == q[1..][..i - 1];
      SumNonNegative(q[1..][..i - 1], EntryQuantity);
    }
  }

  /** Trades happen at resting prices, and nothing left is served before anything traded. */
  lemma PricePriority(kind: Kind, q: seq<Entry>, quantity: int, limit: Option<real>)
    requires Sorted(kind, q) && Positive(q)
    ensures var fills, rest := Fills(kind, q, quantity, limit), Rest(kind, q, quantity, limit);
            forall i, j | 0 <= i < |fills| && 0 <= j < |rest| :: Rank(kind, fills[i].price) <= Rank(kind, rest[j].price)
  {
    hide Rest, Fills;
    FillsOrdered(kind, q, quantity, limit);
    RestOrdered(kind, q, quantity, limit);
  }

  /** If quantity is left over, nothing acceptable is left in the queue. */
  lemma {:induction false} RemainderMeansExhausted(kind: Kind, q: seq<Entry>, quantity: int, limit: Option<real>)
    requires Sorted(kind, q) && Positive(q)
    ensures quantity > Filled(Fills(kind, q, quantity, limit)) ==>
              forall e | e in Rest(kind, q, quantity, limit) :: !Takes(kind, limit, e)
    decreases |q|
  {
    if quantity > 0 && q != [] && Takes(kind, limit, q[0]) {
      if quantity < q[0].quantity {
        SumOne(FillOf(q[0], quantity), FillQuantity);
      } else {
        RemainderMeansExhausted(kind, q[1..], quantity - q[0].quantity, limit);
        FilledFront(FillOf(q[0], q[0].quantity), Fills(kind, q[1..], quantity - q[0].quantity, limit));
      }
    }
  }

  function OpenOf(q: seq<Entry>, trader: string): int {
    Sum(q, (e: Entry) => if e.trader == trader then e.quantity else 0)
  }

  function FilledOf(fills: seq<Fill>, trader: string): int {
    Sum(fills, (f: Fill) => if f.trader == trader then f.quantity else 0)
  }

  /** Nothing is lost: each trader's resting quantity is what was traded with him and what is left. */
  lemma {:induction false} TraderConserved(
    kind: Kind, q: seq<Entry>, quantity: int, limit: Option<real>, trader: string)
    ensures OpenOf(q, trader)
         == FilledOf(Fills(kind, q, quantity, limit), trader) + OpenOf(Rest(kind, q, quantity, limit), trader)
    decreases |q|
  {
    if quantity > 0 && q != [] && Takes(kind, limit, q[0]) {
      if quantity < q[0].quantity {
        SumOne(FillOf(q[0], quantity), (f: Fill) => if f.trader == trader then f.quantity else 0);
        assert Rest(kind, q, quantity, limit)[1..] == q[1..];
      } else {
        var more := Fills(kind, q[1..], quantity - q[0].quantity, limit);
        TraderConserved(kind, q[1..], quantity - q[0].quantity, limit, trader);
        assert ([FillOf(q[0], q[0].quantity)] + more)[1..] == more;
      }
    }
  }

  lemma FillsPop(kind: Kind, q: seq<Entry>, quantity: int, limit: Option<real>)
    requires q != [] && Takes(kind, limit, q[0]) && 0 < q[0].quantity <= quantity
    ensures Fills(kind, q, quantity, limit)
         == [FillOf(q[0], q[0].quantity)] + Fills(kind, q[1..], quantity - q[0].quantity, limit)
    ensures Rest(kind, q, quantity, limit) == Rest(kind, q[1..], quantity - q[0].quantity, limit)
  {}

  lemma FillsEnd(kind: Kind, q: seq<Entry>, quantity: int, limit: Option<real>)
    requires quantity <= 0 || q == [] || (Takes(kind, limit, q[0]) && quantity < q[0].quantity)
    ensures Fills(kind, q, quantity, limit) == if quantity <= 0 || q == [] then [] else [FillOf(q[0], quantity)]
    ensures Rest(kind, q, quantity, limit)
         == if quantity <= 0 || q == [] then q else [q[0].(quantity := q[0].quantity - quantity)] + q[1..]
  {}

  /** A queue of takers in front is served to the end before the queue behind it is touched. */
  lemma {:induction false} FillsConcat(kind: Kind, a: seq<Entry>, b: seq<Entry>, quantity: int, limit: Option<real>)
    requires Positive(a) && forall e | e in a :: Takes(kind, limit, e)
    ensures var left := quantity - Filled(Fills(kind, a, quantity, limit));
            && Fills(kind, a + b, quantity, limit) == Fills(kind, a, quantity, limit) + Fills(kind, b, left, limit)
            && Rest(kind, a + b, quantity, limit) == Rest(kind, a, quantity, limit) + Rest(kind, b, left, limit)
    decreases |a|
  {
    hide Fills, Rest, Filled, Takes;
    if a == [] {
      FillsEnd(kind, a, quantity, limit);
      NothingFilled("");
      assert a + b == b;
      NothingBefore(Fills(kind, b, quantity, limit), Rest(kind, b, quantity, limit));
    } else if quantity < a[0].quantity {
      EndsInFront(kind, a, b, quantity, limit);
    } else {
      FillsConcat(kind, a[1..], b, quantity - a[0].quantity, limit);
      PopsInFront(kind, a, b, quantity, limit);
    }
  }

  lemma NothingBefore(fills: seq<Fill>, rest: seq<Entry>)
    ensures [] + fills == fills && [] + rest == rest
  {}

  /** The first entry of the front queue is enough. */
  lemma EndsInFront(kind: Kind, a: seq<Entry>, b: seq<Entry>, quantity: int, limit: Option<real>)
    requires a != [] && Takes(kind, limit, a[0]) && 0 < a[0].quantity && quantity < a[0].quantity
    ensures var left := quantity - Filled(Fills(kind, a, quantity, limit));
            && Fills(kind, a + b, quantity, limit) == Fills(kind, a, quantity, limit) + Fills(kind, b, left, limit)
            && Rest(kind, a + b, quantity, limit) == Rest(kind, a, quantity, limit) + Rest(kind, b, left, limit)
  {
    hide Fills, Rest, Filled, Takes;
    FillsEnd(kind, a, quantity, limit);
    FillsEnd(kind, a + b, quantity, limit);
    NothingFilled("");
    OneFilled(FillOf(a[0], quantity));
    FillsEnd(kind, b, if quantity <= 0 then quantity else 0, limit);
    if quantity > 0 {
      HeadOfBoth(a[0].(quantity := a[0].quantity - quantity), a, b);
    }
  }

  lemma HeadOfBoth(head: Entry, a: seq<Entry>, b: seq<Entry>)
    requires a != []
    ensures [head] + (a + b)[1..] == ([head] + a[1..]) + b
  {}

  lemma OneFilled(f: Fill)
    ensures Filled([f]) == f.quantity
  {
    SumOne(f, FillQuantity);
  }

  /** The first entry of the front queue is used up, and the rest of the two goes on. */
  lemma PopsInFront(kind: Kind, a: seq<Entry>, b: seq<Entry>, quantity: int, limit: Option<real>)
    requires a != [] && Takes(kind, limit, a[0]) && 0 < a[0].quantity <= quantity
    requires var less := quantity - a[0].quantity;
             var left := less - Filled(Fills(kind, a[1..], less, limit));
             && Fills(kind, a[1..] + b, less, limit) == Fills(kind, a[1..], less, limit) + Fills(kind, b, left, limit)
             && Rest(kind, a[1..] + b, less, limit) == Rest(kind, a[1..], less, limit) + Rest(kind, b, left, limit)
    ensures var left := quantity - Filled(Fills(kind, a, quantity, limit));
            && Fills(kind, a + b, quantity, limit) == Fills(kind, a, quantity, limit) + Fills(kind, b, left, limit)
            && Rest(kind, a + b, quantity, limit) == Rest(kind, a, quantity, limit) + Rest(kind, b, left, limit)
  {
    hide Fills, Rest, Filled, Takes;
    var f, less := FillOf(a[0], a[0].quantity), quantity - a[0].quantity;
    var more := Fills(kind, a[1..], less, limit);
    assert (a + b)[1..] == a[1..] + b;
    FillsPop(kind, a, quantity, limit);
    FillsPop(kind, a + b, quantity, limit);
    FilledFront(f, more);
    FillsAssociate(f, more, Fills(kind, b, less - Filled(more), limit));
  }

  lemma FillsAssociate(f: Fill, more: seq<Fill>, last: seq<Fill>)
    ensures [f] + (more + last) == ([f] + more) + last
  {}

  /** A limit only says where a queue ends: it cuts off everything from the first entry it refuses. */
  lemma {:induction false} LimitCutsOff(kind: Kind, a: seq<Entry>, b: seq<Entry>, quantity: int, limit: Option<real>)
    requires Positive(a) && forall e | e in a :: Takes(kind, limit, e)
    requires b == [] || !Takes(kind, limit, b[0])
    ensures Fills(kind, a + b, quantity, limit) == Fills(Asks, a, quantity, None)
    ensures Rest(kind, a + b, quantity, limit) == Rest(Asks, a, quantity, None) + b
    decreases |a|
  {
    if a == [] {
      assert a + b == b;
    } else if quantity > 0 {
      assert (a + b)[1..] == a[1..] + b;
      if quantity >= a[0].quantity {
        LimitCutsOff(kind, a[1..], b, quantity - a[0].quantity, limit);
      }
    }
  }

  lemma NothingFilled(trader: string)
    ensures Filled([]) == 0 && FilledOf([], trader) == 0
  {}

  function EntryQuantity(e: Entry): int { e.quantity }

  /** Nothing is lost in total: what rested is what was traded and what is left. */
  lemma {:induction false} QuantityConserved(kind: Kind, q: seq<Entry>, quantity: int, limit: Option<real>)
    ensures Sum(q, EntryQuantity)
         == Filled(Fills(kind, q, quantity, limit)) + Sum(Rest(kind, q, quantity, limit), EntryQuantity)
    decreases |q|
  {
    if quantity > 0 && q != [] && Takes(kind, limit, q[0]) {
      if quantity < q[0].quantity {
        SumOne(FillOf(q[0], quantity), FillQuantity);
        assert Rest(kind, q, quantity, limit)[1..] == q[1..];
      } else {
        QuantityConserved(kind, q[1..], quantity - q[0].quantity, limit);
        FilledFront(FillOf(q[0], q[0].quantity), Fills(kind, q[1..], quantity - q[0].quantity, limit));
      }
    }
  }

  lemma {:induction false} InsertTotal(kind: Kind, q: seq<Entry>, e: Entry)
    ensures Sum(Insert(kind, q, e), EntryQuantity) == Sum(q, EntryQuantity) + e.quantity
    decreases |q|
  {
    if q == [] || Rank(kind, e.price) < Rank(kind, q[0].price) {
      assert ([e] + q)[1..] == q;
    } else {
      InsertTotal(kind, q[1..], e);
      assert Insert(kind, q, e)[1..] == Insert(kind, q[1..], e);
    }
  }

  // ---- One round of the matching loop ----

  /** The queue after its head gives up x: popped if that is all it has, reduced otherwise. */
  function Served(q: seq<Entry>, x: int): seq<Entry>
    requires q != []
  {
    if x >= q[0].quantity then q[1..] else q[0 := q[0].(quantity := q[0].quantity - x)]
  }

  lemma MatchRound(kind: Kind, q: seq<Entry>, quantity: int, limit: Option<real>)
    requires quantity > 0 && q != [] && Takes(kind, limit, q[0])
    ensures var x := Min(quantity, q[0].quantity);
            && Fills(kind, q, quantity, limit)
               == [FillOf(q[0], x)] + Fills(kind, Served(q, x), quantity - x, limit)
            && Rest(kind, q, quantity, limit) == Rest(kind, Served(q, x), quantity - x, limit)
  {
    if quantity < q[0].quantity {
      assert Served(q, quantity) == [q[0].(quantity := q[0].quantity - quantity)] + q[1..];
    }
  }

  lemma ServedEither(q: seq<Entry>, x: int)
    requires q != []
    ensures x >= q[0].quantity ==> Served(q, x) == q[1..]
    ensures x < q[0].quantity ==> Served(q, x) == q[0 := q[0].(quantity := q[0].quantity - x)]
  {}

  /** Fills done and fills to come make up the fills of the whole order. */
  ghost predicate Progress(
    kind: Kind, q0: seq<Entry>, quantity: int, limit: Option<real>, done: seq<Fill>, q: seq<Entry>, remaining: int)
  {
    && done + Fills(kind, q, remaining, limit) == Fills(kind, q0, quantity, limit)
    && Rest(kind, q, remaining, limit) == Rest(kind, q0, quantity, limit)
    && remaining == quantity - Filled(done)
    && Positive(q)
  }

  lemma ProgressRound(
    kind: Kind, q0: seq<Entry>, quantity: int, limit: Option<real>, done: seq<Fill>, q: seq<Entry>, remaining: int)
    requires Progress(kind, q0, quantity, limit, done, q, remaining)
    requires remaining > 0 && q != [] && Takes(kind, limit, q[0])
    ensures var x := Min(remaining, q[0].quantity);
            Progress(kind, q0, quantity, limit, done + [FillOf(q[0], x)], Served(q, x), remaining - x)
  {
    hide Fills, Rest;
    var x := Min(remaining, q[0].quantity);
    MatchRound(kind, q, remaining, limit);
    SumAppend(done, FillOf(q[0], x), FillQuantity);
    var more := Fills(kind, Served(q, x), remaining - x, limit);
    assert (done + [FillOf(q[0], x)]) + more == done + ([FillOf(q[0], x)] + more);
  }

  lemma ProgressEnds(
    kind: Kind, q0: seq<Entry>, quantity: int, limit: Option<real>, done: seq<Fill>, q: seq<Entry>, remaining: int)
    requires Progress(kind, q0, quantity, limit, done, q, remaining)
    requires remaining <= 0 || q == [] || !Takes(kind, limit, q[0])
    ensures done == Fills(kind, q0, quantity, limit)
    ensures q == Rest(kind, q0, quantity, limit)
  {
    assert Fills(kind, q, remaining, limit) == [];
    assert done + [] == done;
  }
}
