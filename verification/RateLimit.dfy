/** The in-memory sliding-window rate limiter (common/rate-limit.go). Times are whole seconds. */
module RateLimit {

  type Queue = seq<int>
  type Store = map<string, Queue>

  /** What a request is asked with. A negative limit is a programming error: making the queue panics. */
  datatype Rule = Rule(max: nat, duration: int)

  // ------------------------------------------------------------- the limiter itself

  function Accepts(store: Store, key: string, rule: Rule, now: int): bool
    requires WellFormed(store)
  {
    key in store && |store[key]| >= rule.max ==> now - store[key][0] >= rule.duration
  }

  function AfterRequest(store: Store, key: string, rule: Rule, now: int): (next: Store)
    requires WellFormed(store)
    ensures WellFormed(next)
  {
    if key !in store then store[key := [now]]
    else if |store[key]| < rule.max then store[key := store[key] + [now]]
    else if now - store[key][0] >= rule.duration then store[key := store[key][1..] + [now]]
    else store
  }

  predicate Expired(queue: Queue, expiration: int, now: int) {
    |queue| == 0 || now - queue[|queue| - 1] > expiration
  }

  function AfterSweep(store: Store, expiration: int, now: int): Store {
    map key | key in store && !Expired(store[key], expiration, now) :: store[key]
  }

  /** A stored queue is never empty. */
  predicate WellFormed(store: Store) {
    forall key :: key in store ==> |store[key]| > 0
  }

  class InMemoryRateLimiter {
    var store: Store
    const expiration: int
    const sweeping: bool

    ghost predicate Valid()
      reads this
    {
      WellFormed(store)
    }

    /** `Init`, which starts the sweeper only for a positive expiration. */
    constructor (expiration: int)
      ensures Valid() && store == map[] && this.expiration == expiration
      ensures sweeping <==> expiration > 0
    {
      this.expiration := expiration;
      store := map[];
      sweeping := expiration > 0;
    }

    /** `Request`. */
    method Request(key: string, maxRequestNum: nat, duration: int, now: int) returns (ok: bool)
      requires Valid()
      modifies this
      ensures Valid()
      ensures ok == Accepts(old(store), key, Rule(maxRequestNum, duration), now)
      ensures store == AfterRequest(old(store), key, Rule(maxRequestNum, duration), now)
    {
      if key in store {
        var queue := store[key];
        if |queue| < maxRequestNum {
          store := store[key := queue + [now]];
          return true;
        }
        if now - queue[0] >= duration {
          queue := queue[1..];
          store := store[key := queue + [now]];
          return true;
        }
        return false;
      }
      store := store[key := []];
      store := store[key := store[key] + [now]];
      assert [] + [now] == [now];
      return true;
    }

    /** One pass of `clearExpiredItems`. */
    method ClearExpiredItems(now: int)
      requires Valid()
      modifies this
      ensures Valid() && store == AfterSweep(old(store), expiration, now)
    {
      var keys := store.Keys;
      while keys != {}
        invariant keys <= old(store).Keys
        invariant store == map k | k in old(store) && (k in keys || !Expired(old(store)[k], expiration, now))
                               :: old(store)[k]
      {
        var key :| key in keys;
        var queue := store[key];
        if |queue| == 0 || now - queue[|queue| - 1] > expiration {
          store := store - {key};
        }
        keys := keys - {key};
      }
    }
  }

  // --------------------------------------------------------------------------- runs

  /** Every request carries its own limit and window: one key may be asked with several. */
  datatype Event = Ask(key: string, rule: Rule, now: int) | Sweep(now: int)

  function StoreAfter(expiration: int, events: seq<Event>): (store: Store)
    ensures WellFormed(store)
  {
    if events == [] then map[]
    else
      var before := StoreAfter(expiration, events[..|events| - 1]);
      match events[|events| - 1]
      case Sweep(now) => AfterSweep(before, expiration, now)
      case Ask(key, rule, now) => AfterRequest(before, key, rule, now)
  }

  /** What the limiter answers to a request after a run. */
  predicate Answer(expiration: int, events: seq<Event>, e: Event)
    requires e.Ask?
  {
    Accepts(StoreAfter(expiration, events), e.key, e.rule, e.now)
  }

  /** When the requests of a key were accepted. */
  function History(expiration: int, events: seq<Event>, key: string): seq<int> {
    if events == [] then []
    else
      var init, e := events[..|events| - 1], events[|events| - 1];
      History(expiration, init, key) + if e.Ask? && e.key == key && Answer(expiration, init, e) then [e.now] else []
  }

  function QueueOf(store: Store, key: string): Queue {
    if key in store then store[key] else []
  }

  /** How many entries are younger than the window. */
  function CountYoung(times: seq<int>, now: int, duration: int): nat {
    if times == [] then 0
    else CountYoung(times[..|times| - 1], now, duration) + if now - times[|times| - 1] < duration then 1 else 0
  }

  /** The code always lets one request through, so a limit of zero acts as one. */
  function Limit(max: nat): nat {
    if max < 1 then 1 else max
  }

  /** The reference, a limiter that forgets nothing: when it accepted the requests of a key. */
  function Logged(events: seq<Event>, key: string): seq<int>
    decreases |events|, 0
  {
    if events == [] then []
    else
      var init, e := events[..|events| - 1], events[|events| - 1];
      Logged(init, key) + if e.Ask? && e.key == key && LogAnswer(init, e) then [e.now] else []
  }

  predicate LogAnswer(events: seq<Event>, e: Event)
    requires e.Ask?
    decreases |events|, 1
  {
    CountYoung(Logged(events, e.key), e.now, e.rule.duration) < Limit(e.rule.max)
  }

  /** The clock never runs backwards. */
  ghost predicate Monotone(events: seq<Event>) {
    forall i, j :: 0 <= i < j < |events| ==> events[i].now <= events[j].now
  }

  ghost predicate Until(events: seq<Event>, now: int) {
    forall i :: 0 <= i < |events| ==> events[i].now <= now
  }

  /** The sweeper runs only if it was started. */
  ghost predicate Scheduled(expiration: int, events: seq<Event>) {
    expiration > 0 || NoSweeps(events)
  }

  ghost predicate NoSweeps(events: seq<Event>) {
    forall i :: 0 <= i < |events| ==> events[i].Ask?
  }

  lemma Init(events: seq<Event>)
    requires events != [] && Monotone(events)
    ensures var init, e := events[..|events| - 1], events[|events| - 1];
            && events == init + [e] && Monotone(init) && Until(init, e.now)
            && (NoSweeps(events) ==> NoSweeps(init) && e.Ask?)
  {
  }

  lemma Snoc(events: seq<Event>, e: Event)
    ensures var all := events + [e];
            all[..|events|] == events && all[..|all| - 1] == events && all[|all| - 1] == e
  {
  }

  // -------------------------------------------------------------------- one request

  /** A queue lets a request in while it is not full, or once its oldest entry has left the window. */
  predicate Admits(q: Queue, rule: Rule, now: int) {
    |q| < Limit(rule.max) || now - q[0] >= rule.duration
  }

  /** The request is put at the end, in place of the oldest one if the queue was full. */
  function Requested(q: Queue, rule: Rule, now: int): Queue {
    if |q| < Limit(rule.max) then q + [now]
    else if now - q[0] >= rule.duration then q[1..] + [now] else q
  }

  function Swept(q: Queue, expiration: int, now: int): Queue {
    if q != [] && now - q[|q| - 1] > expiration then [] else q
  }

  lemma RequestSpec(store: Store, key: string, rule: Rule, now: int)
    requires WellFormed(store)
    ensures var q, next := QueueOf(store, key), AfterRequest(store, key, rule, now);
            && (Accepts(store, key, rule, now) <==> Admits(q, rule, now))
            && QueueOf(next, key) == Requested(q, rule, now)
            && forall k :: k != key ==> QueueOf(next, k) == QueueOf(store, k)
  {
    assert [] + [now] == [now];
  }

  lemma SweepSpec(store: Store, expiration: int, now: int, key: string)
    ensures QueueOf(AfterSweep(store, expiration, now), key) == Swept(QueueOf(store, key), expiration, now)
  {
  }

  /** What a run does to the queue of one key; what is asked for other keys does not matter. */
  function QueueAfter(expiration: int, events: seq<Event>, key: string): Queue {
    if events == [] then []
    else
      var q := QueueAfter(expiration, events[..|events| - 1], key);
      match events[|events| - 1]
      case Sweep(now) => Swept(q, expiration, now)
      case Ask(asking, rule, now) => if asking == key then Requested(q, rule, now) else q
  }

  lemma {:induction false} StoreHoldsQueues(expiration: int, events: seq<Event>, key: string)
    ensures QueueOf(StoreAfter(expiration, events), key) == QueueAfter(expiration, events, key)
    decreases |events|
  {
    if events == [] {
    } else {
      var init := events[..|events| - 1];
      StoreHoldsQueues(expiration, init, key);
      match events[|events| - 1] {
        case Sweep(now) => SweepSpec(StoreAfter(expiration, init), expiration, now, key);
        case Ask(asking, rule, now) => RequestSpec(StoreAfter(expiration, init), asking, rule, now);
      }
    }
  }

  lemma AnswerSpec(expiration: int, events: seq<Event>, e: Event)
    requires e.Ask?
    ensures Answer(expiration, events, e) <==> Admits(QueueAfter(expiration, events, e.key), e.rule, e.now)
  {
    StoreHoldsQueues(expiration, events, e.key);
    RequestSpec(StoreAfter(expiration, events), e.key, e.rule, e.now);
  }

  // One event more, in terms of the queue, the accepted times and the log of one key.

  ghost predicate AsksFor(e: Event, key: string) {
    e.Ask? && e.key == key
  }

  ghost function NextQueue(q: Queue, expiration: int, e: Event, key: string): Queue {
    if e.Sweep? then Swept(q, expiration, e.now) else if e.key == key then Requested(q, e.rule, e.now) else q
  }

  ghost function NextTimes(times: seq<int>, q: Queue, e: Event, key: string): seq<int> {
    if AsksFor(e, key) && Admits(q, e.rule, e.now) then times + [e.now] else times
  }

  ghost function NextLog(times: seq<int>, e: Event, key: string): seq<int> {
    if AsksFor(e, key) && CountYoung(times, e.now, e.rule.duration) < Limit(e.rule.max) then times + [e.now]
    else times
  }

  lemma QueueNext(expiration: int, init: seq<Event>, e: Event, key: string)
    ensures QueueAfter(expiration, init + [e], key) == NextQueue(QueueAfter(expiration, init, key), expiration, e, key)
  {
    Snoc(init, e);
  }

  lemma HistoryNext(expiration: int, init: seq<Event>, e: Event, key: string)
    ensures History(expiration, init + [e], key) ==
            NextTimes(History(expiration, init, key), QueueAfter(expiration, init, key), e, key)
  {
    Snoc(init, e);
    if e.Ask? {
      AnswerSpec(expiration, init, e);
    }
    assert History(expiration, init, key) + [] == History(expiration, init, key);
  }

  lemma LoggedNext(init: seq<Event>, e: Event, key: string)
    ensures Logged(init + [e], key) == NextLog(Logged(init, key), e, key)
  {
    Snoc(init, e);
    assert Logged(init, key) + [] == Logged(init, key);
  }

  ghost predicate Sorted(times: seq<int>) {
    forall i, j :: 0 <= i < j < |times| ==> times[i] <= times[j]
  }

  /** In a sorted list the young entries are full in number exactly when the oldest entry is young. */
  lemma {:induction false} CountFull(times: seq<int>, now: int, duration: int)
    requires Sorted(times)
    ensures CountYoung(times, now, duration) <= |times|
    ensures |times| > 0 ==> (CountYoung(times, now, duration) == |times| <==> now - times[0] < duration)
  {
    if |times| > 1 {
      CountFull(times[..|times| - 1], now, duration);
    } else if |times| == 1 {
      assert CountYoung(times[..0], now, duration) == 0;
    }
  }

  /** Whatever the length of the queue and the limit: refused exactly when at least the limit is queued and all
      of it is young. */
  lemma RefusedExactlyWhen(store: Store, key: string, rule: Rule, now: int)
    requires WellFormed(store) && Sorted(QueueOf(store, key))
    ensures var q := QueueOf(store, key);
            !Accepts(store, key, rule, now) <==>
            |q| >= Limit(rule.max) && CountYoung(q, now, rule.duration) == |q|
  {
    RequestSpec(store, key, rule, now);
    CountFull(QueueOf(store, key), now, rule.duration);
  }

  // ------------------------------------------------ what holds whatever the limits are

  /** The queue is the tail of a sorted list of past times. */
  ghost predicate TailOf(queue: Queue, times: seq<int>, now: int) {
    && Sorted(times) && (forall i :: 0 <= i < |times| ==> times[i] <= now)
    && |queue| <= |times| && times[|times| - |queue|..] == queue
  }

  lemma TailGrows(queue: Queue, times: seq<int>, before: int, now: int)
    requires TailOf(queue, times, before) && before <= now
    ensures TailOf(queue + [now], times + [now], now)
    ensures queue != [] ==> TailOf(queue[1..] + [now], times + [now], now)
  {
    var k := |times| - |queue|;
    assert (times + [now])[k..] == queue + [now];
    if queue != [] {
      assert (times + [now])[k + 1..] == queue[1..] + [now];
    }
  }

  lemma TailSwept(times: seq<int>, now: int)
    ensures times[|times|..] == []
  {
  }

  lemma TailStep(q: Queue, times: seq<int>, expiration: int, e: Event, key: string)
    requires TailOf(q, times, e.now)
    ensures TailOf(NextQueue(q, expiration, e, key), NextTimes(times, q, e, key), e.now)
  {
    TailSwept(times, e.now);
    TailGrows(q, times, e.now, e.now);
  }

  lemma TailLater(q: Queue, times: seq<int>, now: int, later: int)
    requires TailOf(q, times, now) && now <= later
    ensures TailOf(q, times, later)
  {
  }

  /** In every run, with any limits and windows and whatever is swept, the queue of a key is the tail of the
      times at which its requests were accepted. */
  lemma {:induction false} QueueIsTail(expiration: int, events: seq<Event>, key: string, now: int)
    requires Monotone(events) && Until(events, now)
    ensures TailOf(QueueAfter(expiration, events, key), History(expiration, events, key), now)
    decreases |events|
  {
    if events == [] {
    } else {
      Init(events);
      var init, e := events[..|events| - 1], events[|events| - 1];
      QueueIsTail(expiration, init, key, e.now);
      QueueNext(expiration, init, e, key);
      HistoryNext(expiration, init, e, key);
      TailStep(QueueAfter(expiration, init, key), History(expiration, init, key), expiration, e, key);
      TailLater(QueueAfter(expiration, events, key), History(expiration, events, key), e.now, now);
    }
  }

  lemma {:induction false} CountSuffix(times: seq<int>, k: nat, now: int, duration: int)
    requires k <= |times|
    ensures CountYoung(times, now, duration) >= CountYoung(times[k..], now, duration)
  {
    if k < |times| {
      CountSuffix(times[..|times| - 1], k, now, duration);
      assert times[k..][..|times| - k - 1] == times[..|times| - 1][k..];
    }
  }

  lemma SortedTail(times: seq<int>, k: nat)
    requires Sorted(times) && k <= |times|
    ensures Sorted(times[k..])
  {
  }

  /** No request is refused without cause, in any run, with any limits and windows and whatever is swept: at
      least as many requests as its limit allows were accepted within its window. */
  lemma RefusalsAreRight(expiration: int, events: seq<Event>, e: Event)
    requires e.Ask? && Monotone(events + [e]) && !Answer(expiration, events, e)
    ensures CountYoung(History(expiration, events, e.key), e.now, e.rule.duration) >= Limit(e.rule.max)
  {
    Init(events + [e]);
    Snoc(events, e);
    QueueIsTail(expiration, events, e.key, e.now);
    var times, q := History(expiration, events, e.key), QueueAfter(expiration, events, e.key);
    SortedTail(times, |times| - |q|);
    AnswerSpec(expiration, events, e);
    CountFull(q, e.now, e.rule.duration);
    CountSuffix(times, |times| - |q|, e.now, e.rule.duration);
  }

  // --------------------------------------------------------- limits that change from request to request

  /** The limits a key is asked with, request by request. */
  type Plan = nat -> nat

  function Asks(events: seq<Event>, key: string): nat {
    if events == [] then 0
    else
      var e := events[|events| - 1];
      Asks(events[..|events| - 1], key) + if e.Ask? && e.key == key then 1 else 0
  }

  lemma AsksNext(init: seq<Event>, e: Event, key: string)
    ensures Asks(init + [e], key) == Asks(init, key) + if AsksFor(e, key) then 1 else 0
  {
    Snoc(init, e);
  }

  /** The requests of the key come with these limits, and all with the same window. */
  ghost predicate Follows(events: seq<Event>, key: string, window: int, plan: Plan) {
    forall i :: 0 <= i < |events| && events[i].Ask? && events[i].key == key ==>
      events[i].rule == Rule(plan(Asks(events[..i], key)), window)
  }

  lemma FollowsInit(init: seq<Event>, e: Event, key: string, window: int, plan: Plan)
    requires Follows(init + [e], key, window, plan)
    ensures Follows(init, key, window, plan)
    ensures AsksFor(e, key) ==> e.rule == Rule(plan(Asks(init, key)), window)
  {
    var events := init + [e];
    forall i | 0 <= i < |init| && init[i].Ask? && init[i].key == key
      ensures init[i].rule == Rule(plan(Asks(init[..i], key)), window)
    {
      assert init[..i] == events[..i] && init[i] == events[i];
    }
    assert events[..|init|] == init && events[|init|] == e;
  }

  /** How long the queue is after n requests, if nothing is swept. The limits alone decide it, because a
      request that finds the queue full leaves its length as it is, accepted or not. */
  function Queued(plan: Plan, n: nat): nat {
    if n == 0 then 0
    else
      var before := Queued(plan, n - 1);
      if before < Limit(plan(n - 1)) then before + 1 else before
  }

  lemma LengthStep(q: Queue, expiration: int, e: Event, key: string, plan: Plan, n: nat)
    requires |q| <= Queued(plan, n) && (AsksFor(e, key) ==> e.rule.max == plan(n))
    ensures var next := |NextQueue(q, expiration, e, key)|;
            && next <= Queued(plan, if AsksFor(e, key) then n + 1 else n)
            && (e.Ask? && |q| == Queued(plan, n) ==> next == Queued(plan, if AsksFor(e, key) then n + 1 else n))
  {
  }

  lemma {:induction false} QueueLength(
    expiration: int, events: seq<Event>, key: string, window: int, plan: Plan)
    requires Follows(events, key, window, plan)
    ensures |QueueAfter(expiration, events, key)| <= Queued(plan, Asks(events, key))
    ensures NoSweeps(events) ==> |QueueAfter(expiration, events, key)| == Queued(plan, Asks(events, key))
    decreases |events|
  {
    if events == [] {
    } else {
      var init, e := events[..|events| - 1], events[|events| - 1];
      assert events == init + [e];
      FollowsInit(init, e, key, window, plan);
      QueueLength(expiration, init, key, window, plan);
      QueueNext(expiration, init, e, key);
      AsksNext(init, e, key);
      LengthStep(QueueAfter(expiration, init, key), expiration, e, key, plan, Asks(init, key));
      assert NoSweeps(events) ==> NoSweeps(init) && e.Ask?;
    }
  }

  // -------------------------------------------------------------------- the simulation

  /** A queue stands for a log when it is the log's tail and everything before it has left the window. */
  ghost predicate StandsFor(queue: Queue, times: seq<int>, window: int, now: int) {
    TailOf(queue, times, now) && forall i :: 0 <= i < |times| - |queue| ==> now - times[i] >= window
  }

  lemma {:induction false} CountTail(times: seq<int>, k: nat, now: int, duration: int)
    requires k <= |times| && forall i :: 0 <= i < k ==> now - times[i] >= duration
    ensures CountYoung(times, now, duration) == CountYoung(times[k..], now, duration)
  {
    if k == |times| {
      if k > 0 {
        CountTail(times[..k - 1], k - 1, now, duration);
        assert times[..k - 1][k - 1..] == [];
      }
    } else {
      CountTail(times[..|times| - 1], k, now, duration);
      assert times[k..][..|times| - k - 1] == times[..|times| - 1][k..];
    }
  }

  /** A queue that is not longer than the limit decides as the log does. */
  lemma QueueDecides(queue: Queue, times: seq<int>, rule: Rule, now: int)
    requires StandsFor(queue, times, rule.duration, now) && |queue| <= Limit(rule.max)
    ensures CountYoung(times, now, rule.duration) < Limit(rule.max) <==>
            |queue| < Limit(rule.max) || now - queue[0] >= rule.duration
  {
    var k := |times| - |queue|;
    CountTail(times, k, now, rule.duration);
    SortedTail(times, k);
    CountFull(queue, now, rule.duration);
  }

  /** An accepted request keeps the relation, whether the queue grows or its head, out of the window, goes. */
  lemma QueueStep(queue: Queue, times: seq<int>, window: int, now: int)
    requires StandsFor(queue, times, window, now)
    ensures StandsFor(queue + [now], times + [now], window, now)
    ensures queue != [] && now - queue[0] >= window ==> StandsFor(queue[1..] + [now], times + [now], window, now)
  {
    TailGrows(queue, times, now, now);
    if queue != [] {
      assert times[|times| - |queue|] == queue[0];
    }
  }

  /** A sweep whose expiration covers the window loses only entries that have left it. */
  lemma SweepKeeps(queue: Queue, times: seq<int>, window: int, expiration: int, now: int)
    requires StandsFor(queue, times, window, now) && window <= expiration + 1
    ensures StandsFor(Swept(queue, expiration, now), times, window, now)
  {
    TailSwept(times, now);
    assert queue != [] ==> times[|times| - 1] == queue[|queue| - 1];
  }

  /** No window outlives the sweeper's expiration by more than the second its strict comparison grants. */
  predicate Covers(expiration: int, window: int) {
    expiration <= 0 || window <= expiration + 1
  }

  /** A request finds a queue that is not longer than its limit, and one that is shorter. */
  ghost predicate FitsAt(plan: Plan, n: nat) {
    Queued(plan, n) <= Limit(plan(n))
  }

  ghost predicate RoomAt(plan: Plan, n: nat) {
    Queued(plan, n) < Limit(plan(n))
  }

  /** Every request does. */
  ghost predicate Fits(plan: Plan) {
    forall n: nat :: FitsAt(plan, n)
  }

  ghost predicate Roomy(plan: Plan) {
    forall n: nat :: RoomAt(plan, n)
  }

  ghost predicate FitsBelow(plan: Plan, n: nat) {
    forall m: nat :: m < n ==> FitsAt(plan, m)
  }

  lemma StandsStep(q: Queue, times: seq<int>, window: int, expiration: int, e: Event, key: string)
    requires StandsFor(q, times, window, e.now) && (e.Sweep? ==> window <= expiration + 1)
    requires AsksFor(e, key) ==> e.rule.duration == window && |q| <= Limit(e.rule.max)
    ensures StandsFor(NextQueue(q, expiration, e, key), NextLog(times, e, key), window, e.now)
    ensures NextTimes(times, q, e, key) == NextLog(times, e, key)
  {
    if e.Sweep? {
      SweepKeeps(q, times, window, expiration, e.now);
    } else if e.key == key {
      QueueDecides(q, times, e.rule, e.now);
      QueueStep(q, times, window, e.now);
    }
  }

  lemma StandsLater(q: Queue, times: seq<int>, window: int, now: int, later: int)
    requires StandsFor(q, times, window, now) && now <= later
    ensures StandsFor(q, times, window, later)
  {
  }

  /** As long as they do, queue and log agree, under limits that fit. */
  lemma {:induction false} QueueStandsForLog(
    expiration: int, events: seq<Event>, key: string, window: int, plan: Plan, now: int)
    requires Monotone(events) && Until(events, now) && Follows(events, key, window, plan)
    requires window <= expiration + 1 || NoSweeps(events)
    requires FitsBelow(plan, Asks(events, key))
    ensures StandsFor(QueueAfter(expiration, events, key), Logged(events, key), window, now)
    ensures History(expiration, events, key) == Logged(events, key)
    decreases |events|
  {
    if events == [] {
    } else {
      Init(events);
      var init, e := events[..|events| - 1], events[|events| - 1];
      FollowsInit(init, e, key, window, plan);
      AsksNext(init, e, key);
      QueueStandsForLog(expiration, init, key, window, plan, e.now);
      var q, times := QueueAfter(expiration, init, key), Logged(init, key);
      if AsksFor(e, key) {
        assert FitsAt(plan, Asks(init, key));
        QueueLength(expiration, init, key, window, plan);
      }
      StandsStep(q, times, window, expiration, e, key);
      QueueNext(expiration, init, e, key);
      HistoryNext(expiration, init, e, key);
      LoggedNext(init, e, key);
      StandsLater(QueueAfter(expiration, events, key), Logged(events, key), window, e.now, now);
    }
  }

  lemma AnswersAgree(expiration: int, events: seq<Event>, e: Event, window: int, plan: Plan)
    requires e.Ask? && e.rule == Rule(plan(Asks(events, e.key)), window)
    requires Follows(events, e.key, window, plan)
    requires StandsFor(QueueAfter(expiration, events, e.key), Logged(events, e.key), window, e.now)
    requires FitsAt(plan, Asks(events, e.key))
    ensures Answer(expiration, events, e) == LogAnswer(events, e)
  {
    AnswerSpec(expiration, events, e);
    QueueLength(expiration, events, e.key, window, plan);
    QueueDecides(QueueAfter(expiration, events, e.key), Logged(events, e.key), e.rule, e.now);
  }

  /** The limiter answers every request of the key as the log does. */
  ghost predicate Exact(expiration: int, events: seq<Event>, key: string) {
    forall i :: 0 <= i < |events| && events[i].Ask? && events[i].key == key ==> ExactAt(expiration, events, i)
  }

  ghost predicate ExactAt(expiration: int, events: seq<Event>, i: int)
    requires 0 <= i < |events| && events[i].Ask?
  {
    Answer(expiration, events[..i], events[i]) == LogAnswer(events[..i], events[i])
  }

  lemma Prefix(events: seq<Event>, key: string, window: int, plan: Plan, i: nat)
    requires i < |events| && Monotone(events) && Follows(events, key, window, plan)
    ensures Monotone(events[..i]) && Until(events[..i], events[i].now) && Follows(events[..i], key, window, plan)
    ensures NoSweeps(events) ==> NoSweeps(events[..i])
  {
    var init := events[..i];
    forall j | 0 <= j < |init| && init[j].Ask? && init[j].key == key
      ensures init[j].rule == Rule(plan(Asks(init[..j], key)), window)
    {
      assert init[..j] == events[..j] && init[j] == events[j];
    }
  }

  /** For every interleaving of requests and sweeps under a monotone clock, with limits that fit and a sweeper
      whose expiration covers the window, the bounded queues answer exactly as the full log does. */
  lemma LimiterIsExact(expiration: int, events: seq<Event>, key: string, window: int, plan: Plan)
    requires Monotone(events) && Scheduled(expiration, events) && Follows(events, key, window, plan)
    requires Covers(expiration, window) && Fits(plan)
    ensures Exact(expiration, events, key) && History(expiration, events, key) == Logged(events, key)
  {
    forall i: nat | i < |events| && events[i].Ask? && events[i].key == key ensures ExactAt(expiration, events, i) {
      Prefix(events, key, window, plan, i);
      QueueStandsForLog(expiration, events[..i], key, window, plan, events[i].now);
      AnswersAgree(expiration, events[..i], events[i], window, plan);
    }
    QueueStandsForLog(expiration, events, key, window, plan, if events == [] then 0 else events[|events| - 1].now);
  }

  /** If every request finds room, nothing is ever refused, whatever is swept. */
  lemma RoomyIsExact(expiration: int, events: seq<Event>, key: string, window: int, plan: Plan)
    requires Monotone(events) && Follows(events, key, window, plan) && Roomy(plan)
    ensures Exact(expiration, events, key)
  {
    forall i: nat | i < |events| && events[i].Ask? && events[i].key == key ensures ExactAt(expiration, events, i) {
      Prefix(events, key, window, plan, i);
      var n := Asks(events[..i], key);
      QueueLength(expiration, events[..i], key, window, plan);
      AnswerSpec(expiration, events[..i], events[i]);
      assert RoomAt(plan, n);
      RoomyLength(plan, n);
      LoggedLength(events[..i], key);
      CountBounded(Logged(events[..i], key), events[i].now, window);
    }
  }

  lemma {:induction false} RoomyLength(plan: Plan, n: nat)
    requires Roomy(plan)
    ensures Queued(plan, n) == n
  {
    if n == 0 {
    } else {
      RoomyLength(plan, n - 1);
      assert RoomAt(plan, n - 1);
    }
  }

  lemma {:induction false} LoggedLength(events: seq<Event>, key: string)
    ensures |Logged(events, key)| <= Asks(events, key)
    decreases |events|
  {
    if events == [] {
    } else {
      LoggedLength(events[..|events| - 1], key);
    }
  }

  lemma {:induction false} CountBounded(times: seq<int>, now: int, duration: int)
    ensures CountYoung(times, now, duration) <= |times|
    ensures duration <= 0 && (forall i :: 0 <= i < |times| ==> times[i] <= now) ==>
              CountYoung(times, now, duration) == 0
  {
    if times == [] {
    } else {
      CountBounded(times[..|times| - 1], now, duration);
    }
  }

  /** Without a window nothing is ever refused. */
  lemma NoWindowIsExact(expiration: int, events: seq<Event>, key: string, window: int, plan: Plan)
    requires Monotone(events) && Follows(events, key, window, plan) && window <= 0
    ensures Exact(expiration, events, key)
  {
    forall i: nat | i < |events| && events[i].Ask? && events[i].key == key ensures ExactAt(expiration, events, i) {
      Prefix(events, key, window, plan, i);
      var init, e := events[..i], events[i];
      QueueIsTail(expiration, init, key, e.now);
      var q, times := QueueAfter(expiration, init, key), History(expiration, init, key);
      assert q != [] ==> q[0] == times[|times| - |q|];
      AnswerSpec(expiration, init, e);
      LoggedUntil(init, key, e.now);
      CountBounded(Logged(init, key), e.now, window);
    }
  }

  lemma {:induction false} LoggedUntil(events: seq<Event>, key: string, now: int)
    requires Until(events, now)
    ensures forall i :: 0 <= i < |Logged(events, key)| ==> Logged(events, key)[i] <= now
    decreases |events|
  {
    if events == [] {
    } else {
      LoggedUntil(events[..|events| - 1], key, now);
    }
  }

  // ----------------------------------------------------------------- where it fails

  /** A run of n requests of the key that follow the plan, and what it leaves. */
  ghost predicate Reaches(expiration: int, events: seq<Event>, key: string, window: int, plan: Plan, now: int,
                          n: nat, queue: Queue, log: seq<int>, times: seq<int>)
  {
    && Monotone(events) && NoSweeps(events) && Until(events, now) && Follows(events, key, window, plan)
    && Asks(events, key) == n && QueueAfter(expiration, events, key) == queue && Logged(events, key) == log
    && History(expiration, events, key) == times
  }

  lemma ReachesNext(expiration: int, events: seq<Event>, key: string, window: int, plan: Plan, now: int, later: int,
                    n: nat, queue: Queue, log: seq<int>, times: seq<int>)
    requires Reaches(expiration, events, key, window, plan, now, n, queue, log, times) && now <= later
    ensures var e := Ask(key, Rule(plan(n), window), later);
            Reaches(expiration, events + [e], key, window, plan, later, n + 1,
                    Requested(queue, e.rule, later), NextLog(log, e, key), NextTimes(times, queue, e, key))
  {
    var e := Ask(key, Rule(plan(n), window), later);
    QueueNext(expiration, events, e, key);
    LoggedNext(events, e, key);
    HistoryNext(expiration, events, e, key);
    AsksNext(events, e, key);
    FollowsNext(events, e, key, window, plan);
  }

  lemma FollowsNext(events: seq<Event>, e: Event, key: string, window: int, plan: Plan)
    requires Follows(events, key, window, plan)
    requires AsksFor(e, key) ==> e.rule == Rule(plan(Asks(events, key)), window)
    ensures Follows(events + [e], key, window, plan)
  {
    var all := events + [e];
    forall i | 0 <= i < |all| && all[i].Ask? && all[i].key == key
      ensures all[i].rule == Rule(plan(Asks(all[..i], key)), window)
    {
      if i < |events| {
        assert all[..i] == events[..i] && all[i] == events[i];
      } else {
        assert all[..i] == events;
      }
    }
  }

  /** Entries from time zero, and then entries from another time. */
  ghost predicate Mixed(times: seq<int>, gone: nat, at: int, young: nat) {
    && |times| == gone + young
    && (forall i :: 0 <= i < gone ==> times[i] == 0) && (forall i :: gone <= i < |times| ==> times[i] == at)
  }

  lemma {:induction false} CountMixed(times: seq<int>, gone: nat, at: int, young: nat, now: int, window: int)
    requires Mixed(times, gone, at, young) && now - at < window
    ensures CountYoung(times, now, window) == if now < window then gone + young else young
    decreases |times|
  {
    if times == [] {
    } else {
      var init := times[..|times| - 1];
      if young > 0 {
        CountMixed(init, gone, at, young - 1, now, window);
      } else {
        CountMixed(init, gone - 1, at, 0, now, window);
      }
    }
  }

  lemma MixedGrows(times: seq<int>, gone: nat, at: int, young: nat)
    requires Mixed(times, gone, at, young)
    ensures Mixed(times + [at], gone, at, young + 1)
    ensures gone > 0 ==> Mixed(times[1..] + [at], gone - 1, at, young + 1)
  {
  }

  /** Some entries from time zero and none from another. */
  ghost predicate Zeros(times: seq<int>, n: nat) {
    Mixed(times, n, 0, 0)
  }

  lemma ZerosGrow(times: seq<int>, n: nat)
    requires Zeros(times, n)
    ensures Zeros(times + [0], n + 1)
  {
  }

  /** At time zero requests are accepted until the queue is full. */
  lemma {:induction false} AllAtZero(expiration: int, key: string, window: int, plan: Plan, n: nat)
    returns (events: seq<Event>, queue: Queue)
    requires window > 0
    ensures Reaches(expiration, events, key, window, plan, 0, n, queue, queue, queue)
    ensures Zeros(queue, Queued(plan, n))
  {
    if n == 0 {
      events, queue := [], [];
      NothingReached(expiration, key, window, plan);
    } else {
      var before, q := AllAtZero(expiration, key, window, plan, n - 1);
      events, queue := OneAtZero(expiration, before, key, window, plan, n - 1, q);
    }
  }

  lemma NothingReached(expiration: int, key: string, window: int, plan: Plan)
    ensures Reaches(expiration, [], key, window, plan, 0, 0, [], [], []) && Zeros([], 0)
  {
  }

  lemma OneAtZero(
    expiration: int, before: seq<Event>, key: string, window: int, plan: Plan, n: nat, q: Queue)
    returns (events: seq<Event>, queue: Queue)
    requires window > 0 && Reaches(expiration, before, key, window, plan, 0, n, q, q, q)
    requires Zeros(q, Queued(plan, n))
    ensures Reaches(expiration, events, key, window, plan, 0, n + 1, queue, queue, queue)
    ensures Zeros(queue, Queued(plan, n + 1))
  {
    var e := Ask(key, Rule(plan(n), window), 0);
    ReachesNext(expiration, before, key, window, plan, 0, 0, n, q, q, q);
    ZeroNext(q, e);
    events, queue := before + [e], Requested(q, e.rule, 0);
  }

  /** One request at time zero: queue and log, both full of such entries, take it or leave it alike. */
  lemma ZeroNext(queue: Queue, e: Event)
    requires e.Ask? && e.now == 0 < e.rule.duration && Zeros(queue, |queue|)
    ensures var next := Requested(queue, e.rule, 0);
            && Zeros(next, if |queue| < Limit(e.rule.max) then |queue| + 1 else |queue|)
            && NextLog(queue, e, e.key) == NextTimes(queue, queue, e, e.key) == next
  {
    CountMixed(queue, |queue|, 0, 0, 0, e.rule.duration);
    ZerosGrow(queue, |queue|);
  }

  /** When the window is over every request is accepted, in place of one from time zero or next to them. */
  lemma {:induction false} OneByOne(expiration: int, key: string, window: int, plan: Plan, s: nat, n: nat)
    returns (events: seq<Event>, queue: Queue, log: seq<int>, times: seq<int>)
    requires window > 0 && s <= n && FitsBelow(plan, n) && Queued(plan, n) > n - s
    ensures Reaches(expiration, events, key, window, plan, window, n, queue, log, times)
    ensures Mixed(queue, Queued(plan, n) - (n - s), window, n - s) && Mixed(log, Queued(plan, s), window, n - s)
    decreases n
  {
    if n == s {
      events, queue := AllAtZero(expiration, key, window, plan, s);
      log, times := queue, queue;
    } else {
      assert FitsAt(plan, n - 1);
      var before, q, l, t := OneByOne(expiration, key, window, plan, s, n - 1);
      var e := Ask(key, Rule(plan(n - 1), window), window);
      ReachesNext(expiration, before, key, window, plan, window, window, n - 1, q, l, t);
      events, queue := before + [e], Requested(q, e.rule, window);
      log, times := NextLog(l, e, key), NextTimes(t, q, e, key);
      MixedNext(q, l, Queued(plan, n - 1) - (n - 1 - s), Queued(plan, s), n - 1 - s, e);
    }
  }

  lemma MixedNext(queue: Queue, log: seq<int>, gone: nat, all: nat, young: nat, e: Event)
    requires e.Ask? && e.now == e.rule.duration > 0 && gone > 0 && gone + young <= Limit(e.rule.max)
    requires Mixed(queue, gone, e.now, young) && Mixed(log, all, e.now, young)
    ensures var left := if gone + young < Limit(e.rule.max) then gone else gone - 1;
            && Mixed(Requested(queue, e.rule, e.now), left, e.now, young + 1)
            && Mixed(NextLog(log, e, e.key), all, e.now, young + 1)
  {
    CountMixed(log, all, e.now, young, e.now, e.now);
    MixedGrows(queue, gone, e.now, young);
    MixedGrows(log, all, e.now, young);
  }

  lemma NotExact(expiration: int, before: seq<Event>, e: Event, key: string)
    requires e.Ask? && e.key == key && Answer(expiration, before, e) != LogAnswer(before, e)
    ensures !Exact(expiration, before + [e], key)
  {
    Snoc(before, e);
    assert !ExactAt(expiration, before + [e], |before|);
  }

  /** A limit below the length of the queue: only the oldest entry is looked at, and once that has left the
      window the request is accepted, although as many as its limit are young. */
  lemma LoweredLimitFails(expiration: int, key: string, window: int, plan: Plan, n: nat) returns (events: seq<Event>)
    requires window > 0 && FitsBelow(plan, n) && !FitsAt(plan, n)
    ensures Monotone(events) && NoSweeps(events) && Follows(events, key, window, plan)
    ensures !Exact(expiration, events, key)
  {
    var young := Limit(plan(n));
    QueuedBounded(plan, n);
    var s := n - young;
    var before, queue, log, times := OneByOne(expiration, key, window, plan, s, n);
    var e := Ask(key, Rule(plan(n), window), window);
    AnswerSpec(expiration, before, e);
    CountMixed(log, Queued(plan, s), window, young, window, window);
    NotExact(expiration, before, e, key);
    ReachesNext(expiration, before, key, window, plan, window, window, n, queue, log, times);
    events := before + [e];
  }

  lemma {:induction false} QueuedBounded(plan: Plan, n: nat)
    ensures Queued(plan, n) <= n
  {
    if n == 0 {
    } else {
      QueuedBounded(plan, n - 1);
    }
  }

  /** A window that outlives the expiration: the sweeper drops a full queue too early. */
  lemma ShortExpirationFails(expiration: int, key: string, window: int, plan: Plan, n: nat)
    returns (events: seq<Event>)
    requires expiration > 0 && window > expiration + 1 && !RoomAt(plan, n)
    ensures Monotone(events) && Follows(events, key, window, plan)
    ensures !Exact(expiration, events, key)
    ensures var times := History(expiration, events, key);
            |times| == Queued(plan, n) + 1 && times[0] == 0 && times[Queued(plan, n)] == expiration + 1
  {
    var asked, queue := AllAtZero(expiration, key, window, plan, n);
    var sweep, last := Sweep(expiration + 1), Ask(key, Rule(plan(n), window), expiration + 1);
    SweptTooEarly(expiration, asked, last, queue);
    events := asked + [sweep] + [last];
    NotExact(expiration, asked + [sweep], last, key);
    FollowsMore(asked, sweep, last, key, window, plan);
    LaterOnly(asked, sweep, last);
  }

  lemma LaterOnly(asked: seq<Event>, sweep: Event, last: Event)
    requires Monotone(asked) && Until(asked, 0) && 0 <= sweep.now <= last.now
    ensures Monotone(asked + [sweep] + [last])
  {
  }

  /** A full queue from time zero is swept although the window is not over. */
  lemma SweptTooEarly(expiration: int, asked: seq<Event>, last: Event, queue: Queue)
    requires expiration > 0 && last.Ask? && last.now == expiration + 1 < last.rule.duration
    requires Zeros(queue, |queue|) && |queue| >= Limit(last.rule.max)
    requires QueueAfter(expiration, asked, last.key) == Logged(asked, last.key) == queue
    requires History(expiration, asked, last.key) == queue
    ensures var swept := asked + [Sweep(expiration + 1)];
            && Answer(expiration, swept, last) && !LogAnswer(swept, last)
            && History(expiration, swept + [last], last.key) == queue + [last.now]
  {
    var sweep := Sweep(expiration + 1);
    var swept := asked + [sweep];
    QueueNext(expiration, asked, sweep, last.key);
    LoggedNext(asked, sweep, last.key);
    HistoryNext(expiration, asked, sweep, last.key);
    HistoryNext(expiration, swept, last, last.key);
    AnswerSpec(expiration, swept, last);
    CountMixed(queue, |queue|, last.now, 0, last.now, last.rule.duration);
  }

  lemma FollowsMore(asked: seq<Event>, sweep: Event, last: Event, key: string, window: int, plan: Plan)
    requires Follows(asked, key, window, plan) && sweep.Sweep?
    requires last.Ask? && last.key == key && last.rule == Rule(plan(Asks(asked, key)), window)
    ensures Follows(asked + [sweep] + [last], key, window, plan)
  {
    AsksNext(asked, sweep, key);
    FollowsNext(asked, sweep, key, window, plan);
    FollowsNext(asked + [sweep], last, key, window, plan);
  }

  // -------------------------------------------------------------------- exactly when

  ghost predicate ExactOverAllRuns(expiration: int, window: int, plan: Plan) {
    forall events, key :: Monotone(events) && Scheduled(expiration, events) && Follows(events, key, window, plan) ==>
      Exact(expiration, events, key)
  }

  /** Over every run the limiter answers the requests of a key as the full log does, precisely when there is no
      window, or no request finds the queue full, or no request finds it longer than its limit and the
      sweeper's expiration covers the window. How long the queue is follows from the limits alone. */
  lemma ExactExactlyWhen(expiration: int, window: int, plan: Plan)
    ensures ExactOverAllRuns(expiration, window, plan) <==>
            window <= 0 || Roomy(plan) || (Fits(plan) && Covers(expiration, window))
  {
    if window <= 0 || Roomy(plan) || (Fits(plan) && Covers(expiration, window)) {
      forall events, key | Monotone(events) && Scheduled(expiration, events) && Follows(events, key, window, plan)
        ensures Exact(expiration, events, key)
      {
        if window <= 0 {
          NoWindowIsExact(expiration, events, key, window, plan);
        } else if Roomy(plan) {
          RoomyIsExact(expiration, events, key, window, plan);
        } else {
          LimiterIsExact(expiration, events, key, window, plan);
        }
      }
    } else if !Fits(plan) {
      var n := FirstMisfit(plan);
      var events := LoweredLimitFails(expiration, "", window, plan, n);
      assert Scheduled(expiration, events);
    } else {
      var n: nat :| !RoomAt(plan, n);
      var events := ShortExpirationFails(expiration, "", window, plan, n);
      assert Scheduled(expiration, events);
    }
  }

  lemma FitsNext(plan: Plan, n: nat)
    requires FitsBelow(plan, n) && FitsAt(plan, n)
    ensures FitsBelow(plan, n + 1)
  {
  }

  lemma FirstMisfit(plan: Plan) returns (n: nat)
    requires !Fits(plan)
    ensures FitsBelow(plan, n) && !FitsAt(plan, n)
  {
    var some: nat :| !FitsAt(plan, some);
    n := 0;
    while FitsAt(plan, n)
      invariant n <= some && FitsBelow(plan, n)
      decreases some - n
    {
      FitsNext(plan, n);
      n := n + 1;
    }
  }

  // ------------------------------------------------------- a key that is always asked the same

  ghost predicate Steady(events: seq<Event>, key: string, rule: Rule) {
    forall i :: 0 <= i < |events| && events[i].Ask? && events[i].key == key ==> events[i].rule == rule
  }

  lemma SteadyFollows(events: seq<Event>, key: string, rule: Rule)
    ensures Steady(events, key, rule) <==> Follows(events, key, rule.duration, n => rule.max)
  {
  }

  /** The queue of such a key fills up and stays full. */
  lemma {:induction false} SteadyLength(max: nat, n: nat)
    ensures Queued(m => max, n) == if n < Limit(max) then n else Limit(max)
  {
    if n == 0 {
    } else {
      SteadyLength(max, n - 1);
    }
  }

  /** Any `Limit` + 1 consecutive accepted times span at least the window. */
  ghost predicate Spaced(times: seq<int>, rule: Rule) {
    forall i :: 0 <= i && i + Limit(rule.max) < |times| ==> times[i + Limit(rule.max)] - times[i] >= rule.duration
  }

  lemma AcceptSpaced(times: seq<int>, rule: Rule, now: int)
    requires Sorted(times) && Spaced(times, rule)
    requires CountYoung(times, now, rule.duration) < Limit(rule.max)
    ensures Spaced(times + [now], rule)
  {
    var k := |times| - Limit(rule.max);
    if k >= 0 {
      if now - times[k] < rule.duration {
        CountSuffix(times, k, now, rule.duration);
        CountFull(times[k..], now, rule.duration);
      }
    }
  }

  ghost predicate WellSpaced(times: seq<int>, rule: Rule, now: int) {
    Sorted(times) && Spaced(times, rule) && forall i :: 0 <= i < |times| ==> times[i] <= now
  }

  lemma SpacedStep(times: seq<int>, rule: Rule, e: Event, key: string)
    requires WellSpaced(times, rule, e.now) && (AsksFor(e, key) ==> e.rule == rule)
    ensures WellSpaced(NextLog(times, e, key), rule, e.now)
  {
    if AsksFor(e, key) && CountYoung(times, e.now, rule.duration) < Limit(rule.max) {
      AcceptSpaced(times, rule, e.now);
      SortedGrows(times, e.now);
    }
  }

  lemma SortedGrows(times: seq<int>, now: int)
    requires Sorted(times) && forall i :: 0 <= i < |times| ==> times[i] <= now
    ensures Sorted(times + [now]) && forall i :: 0 <= i < |times + [now]| ==> (times + [now])[i] <= now
  {
  }

  lemma SpacedLater(times: seq<int>, rule: Rule, now: int, later: int)
    requires WellSpaced(times, rule, now) && now <= later
    ensures WellSpaced(times, rule, later)
  {
  }

  lemma {:induction false} LoggedSpaced(events: seq<Event>, key: string, rule: Rule, now: int)
    requires Monotone(events) && Until(events, now) && Steady(events, key, rule)
    ensures WellSpaced(Logged(events, key), rule, now)
    decreases |events|
  {
    if events == [] {
    } else {
      Init(events);
      var init, e := events[..|events| - 1], events[|events| - 1];
      assert AsksFor(e, key) ==> e.rule == rule;
      LoggedSpaced(init, key, rule, e.now);
      LoggedNext(init, e, key);
      SpacedStep(Logged(init, key), rule, e, key);
      SpacedLater(Logged(events, key), rule, e.now, now);
    }
  }

  /** The requests the limiter accepts: any `Limit` + 1 consecutive ones of a key span at least the window. */
  lemma AcceptedRequestsAreSpaced(expiration: int, events: seq<Event>, key: string, rule: Rule)
    requires Monotone(events) && Scheduled(expiration, events) && Steady(events, key, rule)
    requires Covers(expiration, rule.duration)
    ensures Spaced(History(expiration, events, key), rule)
  {
    SteadyFollows(events, key, rule);
    var plan: Plan := n => rule.max;
    forall n: nat ensures FitsAt(plan, n) {
      SteadyLength(rule.max, n);
    }
    LimiterIsExact(expiration, events, key, rule.duration, plan);
    LoggedSpaced(events, key, rule, if events == [] then 0 else events[|events| - 1].now);
  }

  ghost predicate SpacedOverAllRuns(expiration: int, rule: Rule) {
    forall events, key :: Monotone(events) && Scheduled(expiration, events) && Steady(events, key, rule) ==>
      Spaced(History(expiration, events, key), rule)
  }

  /** For a key that is always asked the same, the limiter is exact, and what it accepts is spaced, precisely
      when nothing sweeps or the window is not longer than the expiration plus one second. */
  lemma SteadyExactExactlyWhen(expiration: int, rule: Rule)
    ensures ExactOverAllRuns(expiration, rule.duration, n => rule.max) <==> Covers(expiration, rule.duration)
    ensures SpacedOverAllRuns(expiration, rule) <==> Covers(expiration, rule.duration)
  {
    var plan: Plan := n => rule.max;
    var full := Limit(rule.max);
    forall n: nat ensures FitsAt(plan, n) && (n >= full ==> !RoomAt(plan, n)) {
      SteadyLength(rule.max, n);
    }
    SteadyLength(rule.max, full);
    assert !RoomAt(plan, full);
    ExactExactlyWhen(expiration, rule.duration, plan);
    if Covers(expiration, rule.duration) {
      forall events, key | Monotone(events) && Scheduled(expiration, events) && Steady(events, key, rule)
        ensures Spaced(History(expiration, events, key), rule)
      {
        AcceptedRequestsAreSpaced(expiration, events, key, rule);
      }
    } else {
      var events := ShortExpirationFails(expiration, "", rule.duration, plan, full);
      SteadyFollows(events, "", rule);
      var times := History(expiration, events, "");
      SteadyLength(rule.max, full);
      assert times[0 + full] - times[0] == expiration + 1;
      assert !Spaced(times, rule);
    }
  }
}
