/** The circuit breaker as a state machine over its event history, and retries with backoff. */
module Resilience {
  import opened Wrappers

  datatype CircuitState = Closed | Open | HalfOpen

  datatype BreakerConfig = BreakerConfig(failureThreshold: nat, successThreshold: nat, timeout: real)

  datatype ResilienceError = MaxRetriesExceeded(retries: nat) | CircuitBreakerOpen | OperationError(message: string)

  /** The fields of a circuit breaker. */
  datatype Breaker = Breaker(state: CircuitState, failures: nat, successes: nat, changed: real)

  /** What happens to a breaker, and when: somebody asks to proceed, or an operation ends. */
  datatype Event = Ask(now: real) | Success(now: real) | Failure(now: real)

  function Opened(b: Breaker, now: real): Breaker { b.(state := Open, changed := now, successes := 0) }

  function Halved(now: real): Breaker { Breaker(HalfOpen, 0, 0, now) }

  function New(now: real): Breaker { Breaker(Closed, 0, 0, now) }

  predicate Admits(c: BreakerConfig, b: Breaker, now: real) {
    b.state.Open? ==> now - b.changed >= c.timeout
  }

  function Asked(c: BreakerConfig, b: Breaker, now: real): Breaker {
    if b.state.Open? && Admits(c, b, now) then Halved(now) else b
  }

  function Succeeded(c: BreakerConfig, b: Breaker, now: real): Breaker {
    match b.state
    case Closed => b.(failures := 0)
    case HalfOpen => if b.successes + 1 >= c.successThreshold then New(now) else b.(successes := b.successes + 1)
    case Open => b
  }

  function Failed(c: BreakerConfig, b: Breaker, now: real): Breaker {
    match b.state
    case Closed =>
      var n := b.(failures := b.failures + 1);
      if n.failures >= c.failureThreshold then Opened(n, now) else n
    case HalfOpen => Opened(b, now)
    case Open => b
  }

  function Step(c: BreakerConfig, b: Breaker, e: Event): Breaker {
    match e
    case Ask(now) => Asked(c, b, now)
    case Success(now) => Succeeded(c, b, now)
    case Failure(now) => Failed(c, b, now)
  }

  /** The breaker after a history of events. */
  function After(c: BreakerConfig, b: Breaker, es: seq<Event>): Breaker {
    if es == [] then b else Step(c, After(c, b, es[..|es| - 1]), es[|es| - 1])
  }

  class CircuitBreaker {
    const config: BreakerConfig
    var state: CircuitState
    var failureCount: nat
    var successCount: nat
    var lastStateChange: real

    /** When the breaker was built, and everything that has happened to it since. */
    ghost const start: real
    ghost var history: seq<Event>

    function View(): Breaker
      reads this
    {
      Breaker(state, failureCount, successCount, lastStateChange)
    }

    ghost predicate Valid()
      reads this
    {
      View() == After(config, New(start), history)
    }

    constructor (config: BreakerConfig, now: real)
      ensures this.config == config && View() == New(now)
      ensures Valid() && start == now && history == []
    {
      this.config, start, history := config, now, [];
      state, failureCount, successCount, lastStateChange := Closed, 0, 0, now;
    }

    method CanProceed(now: real) returns (r: Result<(), ResilienceError>)
      requires Valid()
      modifies this
      ensures Valid() && history == old(history) + [Ask(now)]
      ensures r == if Refused(config, start, old(history), now) then Err(CircuitBreakerOpen) else Ok(())
      ensures View() == Step(config, old(View()), Ask(now))
    {
      hide After, Refused;
      RefusedIff(config, start, history, now);
      AfterAppend(config, New(start), history, Ask(now));
      history := history + [Ask(now)];
      match state {
        case Closed => return Ok(());
        case HalfOpen => return Ok(());
        case Open =>
          if now - lastStateChange >= config.timeout {
            TransitionToHalfOpen(now);
            return Ok(());
          }
          return Err(CircuitBreakerOpen);
      }
    }

    method RecordSuccess(now: real)
      requires Valid()
      modifies this
      ensures Valid() && history == old(history) + [Success(now)]
      ensures View() == Step(config, old(View()), Success(now))
    {
      hide After;
      AfterAppend(config, New(start), history, Success(now));
      history := history + [Success(now)];
      match state {
        case Closed =>
          failureCount := 0;
        case HalfOpen =>
          successCount := successCount + 1;
          if successCount >= config.successThreshold {
            TransitionToClosed(now);
          }
        case Open =>
      }
    }

    method RecordFailure(now: real)
      requires Valid()
      modifies this
      ensures Valid() && history == old(history) + [Failure(now)]
      ensures View() == Step(config, old(View()), Failure(now))
    {
      hide After;
      AfterAppend(config, New(start), history, Failure(now));
      history := history + [Failure(now)];
      match state {
        case Closed =>
          failureCount := failureCount + 1;
          if failureCount >= config.failureThreshold {
            TransitionToOpen(now);
          }
        case HalfOpen =>
          TransitionToOpen(now);
        case Open =>
      }
    }

    method TransitionToOpen(now: real)
      modifies this`state, this`failureCount, this`successCount, this`lastStateChange
      ensures View() == Opened(old(View()), now)
    {
      state, lastStateChange, successCount := Open, now, 0;
    }

    method TransitionToHalfOpen(now: real)
      modifies this`state, this`failureCount, this`successCount, this`lastStateChange
      ensures View() == Halved(now)
    {
      state, lastStateChange, successCount, failureCount := HalfOpen, now, 0, 0;
    }

    method TransitionToClosed(now: real)
      modifies this`state, this`failureCount, this`successCount, this`lastStateChange
      ensures View() == New(now)
    {
      state, lastStateChange, successCount, failureCount := Closed, now, 0, 0;
    }

    /** Runs an operation if the breaker admits it: the outcome is what it returns if it is run. */
    method WithCircuitBreaker<T>(outcome: Result<T, string>, asked: real, ended: real)
      returns (r: Result<T, ResilienceError>, called: bool)
      requires Valid()
      modifies this
      ensures called <==> !Refused(config, start, old(history), asked)
      ensures r == if !called then Err(CircuitBreakerOpen)
                   else if outcome.Ok? then Ok(outcome.value) else Err(OperationError(outcome.error))
      ensures Valid() && history == old(history) + [Ask(asked)]
                                    + if !called then []
                                      else [if outcome.Ok? then Success(ended) else Failure(ended)]
    {
      hide Refused, After;
      var admitted := CanProceed(asked);
      called := admitted.Ok?;
      if !called {
        return Err(admitted.error), false;
      }
      match outcome {
        case Ok(value) =>
          RecordSuccess(ended);
          r := Ok(value);
        case Err(error) =>
          RecordFailure(ended);
          r := Err(OperationError(error));
      }
    }
  }

  // ---- What the state says about the history ----

  lemma AfterAppend(c: BreakerConfig, b: Breaker, es: seq<Event>, e: Event)
    ensures After(c, b, es + [e]) == Step(c, After(c, b, es), e)
  {
    assert (es + [e])[..|es|] == es;
  }

  lemma {:induction false} AfterConcat(c: BreakerConfig, b: Breaker, a: seq<Event>, es: seq<Event>)
    ensures After(c, b, a + es) == After(c, After(c, b, a), es)
    decreases |es|
  {
    if es == [] {
      assert a + es == a;
    } else {
      var front, e := es[..|es| - 1], es[|es| - 1];
      AfterConcat(c, b, a, front);
      assert a + es == (a + front) + [e];
      AfterAppend(c, b, a + front, e);
    }
  }

  function AtLeastOne(n: nat): nat { if n == 0 then 1 else n }

  /** How many failures there were since the last success. */
  function Streak(es: seq<Event>): nat {
    if es == [] then 0
    else match es[|es| - 1]
         case Ask(_) => Streak(es[..|es| - 1])
         case Success(_) => 0
         case Failure(_) => Streak(es[..|es| - 1]) + 1
  }

  function Successes(es: seq<Event>): nat {
    if es == [] then 0 else Successes(es[..|es| - 1]) + (if es[|es| - 1].Success? then 1 else 0)
  }

  /** No n failures in a row. */
  ghost predicate NoStreak(es: seq<Event>, n: nat) { forall k | 0 <= k <= |es| :: Streak(es[..k]) < n }

  ghost predicate Stays(c: BreakerConfig, b: Breaker, es: seq<Event>, state: CircuitState) {
    forall k | 0 <= k <= |es| :: After(c, b, es[..k]).state == state
  }

  lemma PrefixOfFront(es: seq<Event>, k: nat)
    requires k < |es|
    ensures es[..|es| - 1][..k] == es[..k]
  {}

  lemma Whole(es: seq<Event>)
    ensures es[..|es|] == es
  {}

  lemma StaysFront(c: BreakerConfig, b: Breaker, es: seq<Event>, state: CircuitState)
    requires es != []
    ensures Stays(c, b, es, state) <==> Stays(c, b, es[..|es| - 1], state) && After(c, b, es).state == state
  {
    hide After;
    var front := es[..|es| - 1];
    Whole(es);
    if Stays(c, b, es, state) {
      assert After(c, b, es[..|es|]).state == state;
      forall k | 0 <= k <= |front| ensures After(c, b, front[..k]).state == state {
        PrefixOfFront(es, k);
        assert After(c, b, es[..k]).state == state;
      }
    } else {
      var k :| 0 <= k <= |es| && After(c, b, es[..k]).state != state;
      if k < |es| { PrefixOfFront(es, k); }
    }
  }

  lemma NoStreakFront(es: seq<Event>, n: nat)
    requires es != []
    ensures NoStreak(es, n) <==> NoStreak(es[..|es| - 1], n) && Streak(es) < n
  {
    hide Streak;
    var front := es[..|es| - 1];
    Whole(es);
    if NoStreak(es, n) {
      assert Streak(es[..|es|]) < n;
      forall k | 0 <= k <= |front| ensures Streak(front[..k]) < n {
        PrefixOfFront(es, k);
        assert Streak(es[..k]) < n;
      }
    } else {
      var k :| 0 <= k <= |es| && Streak(es[..k]) >= n;
      if k < |es| { PrefixOfFront(es, k); }
    }
  }

  /** A closed breaker that has just been built or reset stays closed exactly as long as there have
      not been failureThreshold failures in a row; a threshold of zero acts as one. */
  lemma {:induction false} StaysClosedIff(c: BreakerConfig, start: real, es: seq<Event>)
    ensures Stays(c, New(start), es, Closed) <==> NoStreak(es, AtLeastOne(c.failureThreshold))
    ensures Stays(c, New(start), es, Closed) ==> After(c, New(start), es) == Breaker(Closed, Streak(es), 0, start)
    decreases |es|
  {
    hide Stays, NoStreak;
    if es == [] {
      ClosedAtFirst(c, start);
    } else {
      StaysFront(c, New(start), es, Closed);
      NoStreakFront(es, AtLeastOne(c.failureThreshold));
      NoStreakAtEnd(es[..|es| - 1], AtLeastOne(c.failureThreshold));
      StaysClosedIff(c, start, es[..|es| - 1]);
    }
  }

  lemma NoStreakAtEnd(es: seq<Event>, n: nat)
    ensures NoStreak(es, n) ==> Streak(es) < n
  {
    assert es[..|es|] == es;
  }

  lemma ClosedAtFirst(c: BreakerConfig, start: real)
    ensures Stays(c, New(start), [], Closed) && NoStreak([], AtLeastOne(c.failureThreshold))
  {}

  /** It opens with the failure that completes the row, and with nothing else. */
  lemma TripsIff(c: BreakerConfig, start: real, es: seq<Event>, e: Event)
    requires Stays(c, New(start), es, Closed)
    ensures After(c, New(start), es + [e]).state == Open
            <==> e.Failure? && Streak(es) + 1 >= AtLeastOne(c.failureThreshold)
    ensures After(c, New(start), es + [e]).state == Open ==>
              After(c, New(start), es + [e]) == Breaker(Open, Streak(es) + 1, 0, e.now)
    ensures After(c, New(start), es + [e]).state != HalfOpen
  {
    StaysClosedIff(c, start, es);
    AfterAppend(c, New(start), es, e);
  }

  /** A half-open breaker stays so exactly while nothing has failed and fewer than successThreshold
      operations have succeeded. */
  lemma {:induction false} StaysHalfOpenIff(c: BreakerConfig, start: real, es: seq<Event>)
    ensures Stays(c, Halved(start), es, HalfOpen)
            <==> (forall i | 0 <= i < |es| :: !es[i].Failure?) && Successes(es) < AtLeastOne(c.successThreshold)
    ensures Stays(c, Halved(start), es, HalfOpen) ==>
              After(c, Halved(start), es) == Breaker(HalfOpen, 0, Successes(es), start)
    decreases |es|
  {
    hide Stays;
    if es == [] {
      HalfOpenAtFirst(c, start);
    } else {
      var front := es[..|es| - 1];
      StaysFront(c, Halved(start), es, HalfOpen);
      StaysHalfOpenIff(c, start, front);
      assert (forall i | 0 <= i < |es| :: !es[i].Failure?) <==>
             (forall i | 0 <= i < |front| :: !front[i].Failure?) && !es[|es| - 1].Failure?;
    }
  }

  lemma HalfOpenAtFirst(c: BreakerConfig, start: real)
    ensures Stays(c, Halved(start), [], HalfOpen)
  {}

  /** It opens again with the first failure, and closes, with clean counters, with the success that
      completes the number. */
  lemma HalfOpenEnds(c: BreakerConfig, start: real, es: seq<Event>, e: Event)
    requires Stays(c, Halved(start), es, HalfOpen)
    ensures var n := After(c, Halved(start), es + [e]);
            && (n.state == Open <==> e.Failure?) && (n.state == Open ==> n == Breaker(Open, 0, 0, e.now))
            && (n.state == Closed <==> e.Success? && Successes(es) + 1 >= AtLeastOne(c.successThreshold))
            && (n.state == Closed ==> n == New(e.now))
  {
    StaysHalfOpenIff(c, start, es);
    AfterAppend(c, Halved(start), es, e);
  }

  /** Before the timeout has passed an open breaker does not move, whatever it is told. */
  lemma {:induction false} StaysOpen(c: BreakerConfig, b: Breaker, es: seq<Event>)
    requires b.state.Open? && forall i | 0 <= i < |es| :: es[i].now - b.changed < c.timeout
    ensures After(c, b, es) == b
    decreases |es|
  {
    if es != [] {
      StaysOpen(c, b, es[..|es| - 1]);
      var e := es[|es| - 1];
      assert e.now - b.changed < c.timeout;
    }
  }

  predicate LateAsk(c: BreakerConfig, b: Breaker, e: Event) { e.Ask? && e.now - b.changed >= c.timeout }

  /** An open breaker stays open, unchanged, exactly while nobody asks after the timeout: reports of
      operations that are still under way change nothing. */
  lemma {:induction false} StaysOpenIff(c: BreakerConfig, b: Breaker, es: seq<Event>)
    requires b.state.Open?
    ensures Stays(c, b, es, Open) <==> forall i | 0 <= i < |es| :: !LateAsk(c, b, es[i])
    ensures Stays(c, b, es, Open) ==> After(c, b, es) == b
    decreases |es|
  {
    hide Stays;
    if es == [] {
      OpenAtFirst(c, b);
    } else {
      var front := es[..|es| - 1];
      StaysFront(c, b, es, Open);
      StaysOpenIff(c, b, front);
      assert (forall i | 0 <= i < |es| :: !LateAsk(c, b, es[i])) <==>
             (forall i | 0 <= i < |front| :: !LateAsk(c, b, front[i])) && !LateAsk(c, b, es[|es| - 1]);
    }
  }

  lemma OpenAtFirst(c: BreakerConfig, b: Breaker)
    requires b.state.Open?
    ensures Stays(c, b, [], Open)
  {}

  /** It leaves the open state with the first request after the timeout, which it admits, and is then
      half-open, as if new. */
  lemma OpenEnds(c: BreakerConfig, b: Breaker, es: seq<Event>, e: Event)
    requires b.state.Open? && Stays(c, b, es, Open)
    ensures After(c, b, es + [e]) == if LateAsk(c, b, e) then Halved(e.now) else b
    ensures e.Ask? ==> (Admits(c, After(c, b, es), e.now) <==> After(c, b, es + [e]).state == HalfOpen)
  {
    StaysOpenIff(c, b, es);
    AfterAppend(c, b, es, e);
  }

  ghost predicate Monotone(es: seq<Event>) { forall i, j | 0 <= i < j < |es| :: es[i].now <= es[j].now }

  /** Event i opened the breaker. */
  ghost predicate Opens(c: BreakerConfig, b: Breaker, es: seq<Event>, i: nat)
    requires i < |es|
  {
    After(c, b, es[..i]).state != Open && After(c, b, es[..i + 1]).state == Open
  }

  /** Over any history of a monotone clock, nothing is admitted sooner than the timeout after any
      opening that came before it. */
  lemma NothingAdmittedTooSoon(c: BreakerConfig, b: Breaker, es: seq<Event>, i: nat, j: nat)
    requires Monotone(es) && i < j < |es| && Opens(c, b, es, i)
    requires es[j].Ask? && Admits(c, After(c, b, es[..j]), es[j].now)
    ensures es[j].now - es[i].now >= c.timeout
  {
    hide After;
    if es[j].now - es[i].now < c.timeout {
      StillOpen(c, b, es, i, j);
    }
  }

  /** Event i opened the breaker, and it has been open ever since. */
  ghost predicate OpenSince(c: BreakerConfig, start: real, es: seq<Event>, i: nat) {
    && i < |es| && Opens(c, New(start), es, i)
    && forall j | i < j <= |es| :: After(c, New(start), es[..j]).state == Open
  }

  /** An event opened the breaker less than the timeout ago, and it has been open ever since. */
  ghost predicate Refused(c: BreakerConfig, start: real, es: seq<Event>, now: real) {
    exists i :: 0 <= i < |es| && OpenSince(c, start, es, i) && now - es[i].now < c.timeout
  }

  /** After any history of a new breaker, that is exactly when a request is refused: a closed breaker
      and a half-open one admit everything. */
  lemma RefusedIff(c: BreakerConfig, start: real, es: seq<Event>, now: real)
    ensures !Admits(c, After(c, New(start), es), now) <==> Refused(c, start, es, now)
  {
    hide After, OpenSince;
    if After(c, New(start), es).state == Open {
      var i := LastOpening(c, start, es);
      OpenSinceThen(c, start, es, i);
    }
    if k :| 0 <= k < |es| && OpenSince(c, start, es, k) && now - es[k].now < c.timeout {
      OpenSinceThen(c, start, es, k);
    }
  }

  lemma {:induction false} LastOpening(c: BreakerConfig, start: real, es: seq<Event>) returns (i: nat)
    requires After(c, New(start), es).state == Open
    ensures i < |es| && OpenSince(c, start, es, i)
    decreases |es|
  {
    hide Step;
    var front := es[..|es| - 1];
    Whole(es);
    if After(c, New(start), front).state == Open {
      i := LastOpening(c, start, front);
      PrefixOfFront(es, i);
      PrefixOfFront(es, i + 1);
      forall j | i < j <= |es| ensures After(c, New(start), es[..j]).state == Open {
        if j < |es| { PrefixOfFront(es, j); }
      }
    } else {
      i := |es| - 1;
    }
  }

  lemma OpenSinceThen(c: BreakerConfig, start: real, es: seq<Event>, i: nat)
    requires i < |es| && OpenSince(c, start, es, i)
    ensures var b := After(c, New(start), es); b.state == Open && b.changed == es[i].now
  {
    hide After;
    var b, since := After(c, New(start), es[..i + 1]), es[i + 1..];
    OpeningTime(c, New(start), es, i);
    forall k | 0 <= k <= |since| ensures After(c, b, since[..k]).state == Open {
      assert es[..i + 1] + since[..k] == es[..i + 1 + k];
      AfterConcat(c, New(start), es[..i + 1], since[..k]);
    }
    StaysOpenIff(c, b, since);
    assert es[..i + 1] + since == es;
    AfterConcat(c, New(start), es[..i + 1], since);
  }

  lemma StillOpen(c: BreakerConfig, b: Breaker, es: seq<Event>, i: nat, j: nat)
    requires Monotone(es) && i < j < |es| && Opens(c, b, es, i) && es[j].now - es[i].now < c.timeout
    ensures var o := After(c, b, es[..j]); o.state == Open && o.changed == es[i].now
  {
    var o := After(c, b, es[..i + 1]);
    OpeningTime(c, b, es, i);
    var between := es[i + 1..j];
    forall k | 0 <= k < |between| ensures between[k].now - o.changed < c.timeout {
      assert between[k] == es[i + 1 + k] && es[i + 1 + k].now <= es[j].now;
    }
    StaysOpen(c, o, between);
    AfterConcat(c, b, es[..i + 1], between);
    assert es[..j] == es[..i + 1] + between;
  }

  lemma OpeningTime(c: BreakerConfig, b: Breaker, es: seq<Event>, i: nat)
    requires i < |es| && Opens(c, b, es, i)
    ensures After(c, b, es[..i + 1]).changed == es[i].now
  {
    assert es[..i + 1] == es[..i] + [es[i]];
    AfterAppend(c, b, es[..i], es[i]);
  }

  /** As a breaker is right after it changed state. */
  ghost predicate JustChanged(b: Breaker) { b == New(b.changed) || b == Halved(b.changed) || b.state == Open }

  /** What a breaker has counted since it changed state. */
  function Counted(b: Breaker, es: seq<Event>): Breaker {
    match b.state
    case Closed => b.(failures := Streak(es))
    case HalfOpen => b.(successes := Successes(es))
    case Open => b
  }

  /** The state is a function of the history: since the k-th event, the last that changed it, the
      breaker has been in the state that event left it in, at the time it left it, and its counters
      are the streak of failures or the number of successes since then. */
  lemma {:induction false} StateFromHistory(c: BreakerConfig, start: real, es: seq<Event>) returns (k: nat)
    ensures k <= |es|
    ensures var b := After(c, New(start), es[..k]);
            && JustChanged(b) && b.changed == (if k == 0 then start else es[k - 1].now)
            && Stays(c, b, es[k..], b.state)
            && After(c, New(start), es) == Counted(b, es[k..])
    decreases |es|
  {
    hide Stays, After, Counted, JustChanged, Step;
    if es == [] {
      k := 0;
      HistoryStarts(c, start);
      assert es[..0] == [] && es[0..] == [];
    } else {
      var front, e := es[..|es| - 1], es[|es| - 1];
      var j := StateFromHistory(c, start, front);
      var b := After(c, New(start), es[..j]);
      assert front[..j] == es[..j] && es == front + [e];
      AfterAppend(c, New(start), front, e);
      if After(c, New(start), es).state == b.state {
        k := j;
        HistoryStays(c, b, New(start), es, j);
      } else {
        k := |es|;
        assert es[..k] == es && es[k..] == [];
        HistoryMoves(c, b, front[j..], After(c, New(start), front), e);
        CountsNothing(c, After(c, New(start), es));
      }
    }
  }

  lemma HistoryStarts(c: BreakerConfig, start: real)
    ensures After(c, New(start), []) == New(start) && JustChanged(New(start))
    ensures Stays(c, New(start), [], Closed) && Counted(New(start), []) == New(start)
  {}

  /** An event that leaves the state as it was is counted. */
  lemma HistoryStays(c: BreakerConfig, b: Breaker, first: Breaker, es: seq<Event>, j: nat)
    requires es != [] && j < |es| && b == After(c, first, es[..j]) && JustChanged(b)
    requires Stays(c, b, es[..|es| - 1][j..], b.state)
    requires After(c, first, es[..|es| - 1]) == Counted(b, es[..|es| - 1][j..])
    requires After(c, first, es).state == b.state
    ensures Stays(c, b, es[j..], b.state) && After(c, first, es) == Counted(b, es[j..])
  {
    hide Stays, After, Counted, JustChanged, Step;
    var front, e := es[..|es| - 1], es[|es| - 1];
    var since := front[j..];
    assert es == front + [e] && es[j..] == since + [e] && es[..j] + es[j..] == es;
    assert es[j..][..|es[j..]| - 1] == since;
    AfterAppend(c, first, front, e);
    AfterConcat(c, first, es[..j], es[j..]);
    StaysFront(c, b, es[j..], b.state);
    StepCounts(c, b, since, e);
  }

  /** An event that changes it leaves the breaker as new in its state, since now. */
  lemma HistoryMoves(c: BreakerConfig, b: Breaker, since: seq<Event>, last: Breaker, e: Event)
    requires JustChanged(b) && last == Counted(b, since) && Step(c, last, e).state != b.state
    ensures JustChanged(Step(c, last, e)) && Step(c, last, e).changed == e.now
  {}

  lemma CountsNothing(c: BreakerConfig, b: Breaker)
    requires JustChanged(b)
    ensures Stays(c, b, [], b.state) && Counted(b, []) == b
  {}

  lemma StepCounts(c: BreakerConfig, b: Breaker, es: seq<Event>, e: Event)
    requires JustChanged(b) && Step(c, Counted(b, es), e).state == b.state
    ensures Step(c, Counted(b, es), e) == Counted(b, es + [e])
  {
    assert (es + [e])[..|es|] == es;
  }

  // ---- Retries ----

  /** Durations are seconds; they cannot be negative. */
  datatype RetryConfig = RetryConfig(maxRetries: nat, initialBackoff: real, maxBackoff: real, backoffMultiplier: real)

  predicate Sound(c: RetryConfig) { c.initialBackoff >= 0.0 && c.maxBackoff >= 0.0 && c.backoffMultiplier >= 0.0 }

  function Lesser(a: real, b: real): real { if a < b then a else b }

  function Times(a: real, b: real): real { a * b }

  function NextBackoff(c: RetryConfig, backoff: real): real {
    Lesser(Times(backoff, c.backoffMultiplier), c.maxBackoff)
  }

  function Wait(c: RetryConfig, k: nat): real {
    if k == 0 then c.initialBackoff else NextBackoff(c, Wait(c, k - 1))
  }

  /** The number of failures before the first success, if that comes within the attempts. */
  function FailuresBefore<T>(operation: nat -> Result<T, string>, attempt: nat, last: nat): (k: nat)
    requires attempt <= last + 1
    ensures attempt <= k <= last + 1
    ensures forall i | attempt <= i < k :: operation(i).Err?
    ensures k <= last ==> operation(k).Ok?
    decreases last + 1 - attempt
  {
    if attempt > last || operation(attempt).Ok? then attempt else FailuresBefore(operation, attempt + 1, last)
  }

  /** The operation returns operation(i) when it is called for the i-th time, counted from zero. */
  method RetryWithBackoff<T>(c: RetryConfig, operation: nat -> Result<T, string>)
    returns (r: Result<T, ResilienceError>, calls: nat, waits: seq<real>)
    requires Sound(c)
    ensures var k := FailuresBefore(operation, 0, c.maxRetries);
            && calls == (if k <= c.maxRetries then k + 1 else c.maxRetries + 1)
            && r == (if k <= c.maxRetries then Ok(operation(k).value) else Err(MaxRetriesExceeded(c.maxRetries)))
    ensures |waits| == calls - 1 <= c.maxRetries && forall i | 0 <= i < |waits| :: waits[i] == Wait(c, i)
  {
    hide NextBackoff;
    var attempt := 0;
    var backoff := c.initialBackoff;
    calls, waits := 0, [];
    while true
      invariant attempt <= c.maxRetries && calls == attempt == |waits| && backoff == Wait(c, attempt)
      invariant FailuresBefore(operation, attempt, c.maxRetries) == FailuresBefore(operation, 0, c.maxRetries)
      invariant forall i | 0 <= i < |waits| :: waits[i] == Wait(c, i)
      decreases c.maxRetries - attempt
    {
      var result := operation(calls);
      calls := calls + 1;
      match result {
        case Ok(value) =>
          return Ok(value), calls, waits;
        case Err(error) =>
          if attempt >= c.maxRetries {
            return Err(MaxRetriesExceeded(attempt)), calls, waits;
          }
          waits := waits + [backoff];
          backoff := NextBackoff(c, backoff);
          attempt := attempt + 1;
      }
    }
  }

  function Power(m: real, k: nat): real { if k == 0 then 1.0 else Times(Power(m, k - 1), m) }

  /** The closed form that the backoff is meant to have. */
  function Capped(c: RetryConfig, k: nat): real {
    Lesser(Times(c.initialBackoff, Power(c.backoffMultiplier, k)), c.maxBackoff)
  }

  lemma TimesMonotonic(a: real, b: real, m: real)
    requires a <= b && m >= 0.0
    ensures Times(a, m) <= Times(b, m)
  {}

  lemma TimesUnits(x: real)
    ensures Times(x, 0.0) == 0.0 == Times(0.0, x) && Times(x, 1.0) == x == Times(1.0, x)
  {}

  lemma TimesCommutes(a: real, b: real)
    ensures Times(a, b) == Times(b, a)
  {}

  lemma TimesAssociates(a: real, b: real, m: real)
    ensures Times(a, Times(b, m)) == Times(Times(a, b), m)
  {}

  lemma PowerNext(i: real, m: real, k: nat)
    requires k >= 1
    ensures Times(i, Power(m, k)) == Times(Times(i, Power(m, k - 1)), m)
  {
    hide Times;
    TimesAssociates(i, Power(m, k - 1), m);
  }

  lemma FirstPower(i: real, m: real)
    ensures Times(i, Power(m, 0)) == i
  {}

  lemma {:induction false} PowerNonNegative(m: real, k: nat)
    requires m >= 0.0
    ensures Power(m, k) >= 0.0
  {
    hide Times;
    if k > 0 {
      PowerNonNegative(m, k - 1);
      TimesMonotonic(0.0, Power(m, k - 1), m);
      TimesUnits(m);
    }
  }

  lemma CapGrows(x: real, m: real, cap: real)
    requires m >= 1.0 && cap >= 0.0
    ensures Lesser(Times(Lesser(x, cap), m), cap) == Lesser(Times(x, m), cap)
  {
    hide Times;
    if x >= cap {
      TimesMonotonic(cap, x, m);
      TimesMonotonic(1.0, m, cap);
      TimesUnits(cap);
      TimesCommutes(cap, m);
    }
  }

  lemma {:induction false} GrowingWaits(c: RetryConfig, k: nat)
    requires Sound(c) && c.backoffMultiplier >= 1.0 && k >= 1
    ensures Wait(c, k) == Capped(c, k)
    decreases k
  {
    hide Power, Times;
    var i, m := c.initialBackoff, c.backoffMultiplier;
    PowerNext(i, m, k);
    if k == 1 {
      FirstPower(i, m);
    } else {
      GrowingWaits(c, k - 1);
      CapGrows(Times(i, Power(m, k - 1)), m, c.maxBackoff);
    }
  }

  lemma Shrinks(x: real, m: real)
    requires x >= 0.0 && 0.0 <= m <= 1.0
    ensures 0.0 <= Times(x, m) <= x
  {}

  lemma {:induction false} ShrinkingWaits(c: RetryConfig, k: nat)
    requires Sound(c) && c.backoffMultiplier <= 1.0 && Times(c.initialBackoff, c.backoffMultiplier) <= c.maxBackoff
    requires k >= 1
    ensures Wait(c, k) == Capped(c, k) == Times(c.initialBackoff, Power(c.backoffMultiplier, k))
    ensures 0.0 <= Wait(c, k) <= c.maxBackoff
    decreases k
  {
    hide Power, Times;
    var i, m := c.initialBackoff, c.backoffMultiplier;
    PowerNext(i, m, k);
    if k == 1 {
      FirstPower(i, m);
      Shrinks(i, m);
    } else {
      ShrinkingWaits(c, k - 1);
      Shrinks(Wait(c, k - 1), m);
    }
  }

  lemma {:induction false} NoWaits(c: RetryConfig, k: nat)
    requires Sound(c) && c.maxBackoff == 0.0 && k >= 1
    ensures Wait(c, k) == 0.0 == Capped(c, k)
    decreases k
  {
    hide Power, Times;
    var i, m := c.initialBackoff, c.backoffMultiplier;
    PowerNonNegative(m, k);
    TimesMonotonic(0.0, i, Power(m, k));
    TimesUnits(Power(m, k));
    TimesUnits(m);
    if k > 1 { NoWaits(c, k - 1); } else { TimesMonotonic(0.0, i, m); }
  }

  lemma SecondWaitDiffers(c: RetryConfig)
    requires Sound(c) && c.backoffMultiplier < 1.0
    requires Times(c.initialBackoff, c.backoffMultiplier) > c.maxBackoff > 0.0
    ensures Wait(c, 2) < Capped(c, 2)
  {
    hide Power, Times;
    var i, m, x := c.initialBackoff, c.backoffMultiplier, c.maxBackoff;
    PowerNext(i, m, 1);
    PowerNext(i, m, 2);
    FirstPower(i, m);
    assert Wait(c, 1) == x;
    TimesUnits(i);
    Strictly(x, Times(i, m), m);
  }

  lemma Strictly(x: real, y: real, m: real)
    requires 0.0 < x < y && 0.0 < m < 1.0
    ensures Times(x, m) < x && Times(x, m) < Times(y, m)
  {}

  /** Every wait after the first is the capped geometric one, exactly if the backoff grows, or is
      below its cap from the second wait on, or the cap is zero. */
  lemma ClosedFormIff(c: RetryConfig)
    requires Sound(c)
    ensures (forall k | k >= 1 :: Wait(c, k) == Capped(c, k)) <==>
            || c.backoffMultiplier >= 1.0
            || Times(c.initialBackoff, c.backoffMultiplier) <= c.maxBackoff
            || c.maxBackoff == 0.0
  {
    hide Wait, Capped, Times;
    if c.backoffMultiplier >= 1.0 {
      forall k | k >= 1 ensures Wait(c, k) == Capped(c, k) { GrowingWaits(c, k); }
    } else if Times(c.initialBackoff, c.backoffMultiplier) <= c.maxBackoff {
      forall k | k >= 1 ensures Wait(c, k) == Capped(c, k) { ShrinkingWaits(c, k); }
    } else if c.maxBackoff == 0.0 {
      forall k | k >= 1 ensures Wait(c, k) == Capped(c, k) { NoWaits(c, k); }
    } else {
      SecondWaitDiffers(c);
    }
  }

  /** The first wait is not capped: all waits keep to the maximum exactly if there are none or the
      initial one does. */
  lemma CapIff(c: RetryConfig, n: nat)
    requires Sound(c)
    ensures (forall k | 0 <= k < n :: Wait(c, k) <= c.maxBackoff) <==> n == 0 || c.initialBackoff <= c.maxBackoff
  {
    if n > 0 { assert Wait(c, 0) == c.initialBackoff; }
  }
}
