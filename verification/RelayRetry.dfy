/** The retry loops of `Relay` and `RelayTask` (controller/relay.go) with the channel selection that moves
    their retry counter (service/channel_select.go), and what becomes of the reserved quota. */
module RelayRetry {
  import opened Basics

  // ------------------------------------------------------------------ retry decisions

  /** What the decisions look at in an upstream error. */
  datatype RelayError = RelayError(
    status: int, isChannelError: bool, skipsRetry: bool, alwaysSkippedCode: bool, soundsTransient: bool)

  datatype TaskError = TaskError(status: int, isLocal: bool)

  /** What they look at in the request and the settings. */
  datatype Policy = Policy(
    affinityForbids: bool, pinnedChannel: bool, retriesStatus: int -> bool, neverRetriesStatus: int -> bool)

  /** `shouldRetry`. */
  predicate ShouldRetry(policy: Policy, err: RelayError, retriesLeft: int) {
    if policy.affinityForbids then false
    else if err.isChannelError then true
    else if err.skipsRetry then false
    else if retriesLeft <= 0 then false
    else if policy.pinnedChannel then false
    else if 200 <= err.status < 300 then false
    else if err.status < 100 || err.status > 599 then true
    else if err.alwaysSkippedCode then false
    else if err.status == 400 && err.soundsTransient then true
    else policy.retriesStatus(err.status)
  }

  /** `shouldRetryTaskRelay`. */
  predicate ShouldRetryTask(policy: Policy, err: TaskError, retriesLeft: int) {
    if policy.affinityForbids || retriesLeft <= 0 || policy.pinnedChannel then false
    else if err.status == 429 || err.status == 307 then true
    else if 500 <= err.status < 600 then !policy.neverRetriesStatus(err.status)
    else if err.status == 400 || err.status == 408 || err.isLocal then false
    else !(200 <= err.status < 300)
  }

  /** A channel error is retried even with no retries left; nothing else is, and no task error is. */
  lemma OnlyChannelErrorsOutliveTheCount(policy: Policy, err: RelayError, taskErr: TaskError, retriesLeft: int)
    requires retriesLeft <= 0
    ensures ShouldRetry(policy, err, retriesLeft) <==> err.isChannelError && !policy.affinityForbids
    ensures !ShouldRetryTask(policy, taskErr, retriesLeft)
  {
  }

  /** Which failures are retried while retries are left and nothing forbids it: for relayed requests any
      status that is no HTTP status at all, and else, unless the error's code is exempt, a bad request that
      sounds transient or a status the settings list; success never. For tasks too many requests, the
      temporary redirect, server errors the settings do not exempt, and other failures that did not arise in
      the gateway itself, except bad requests and timeouts. */
  lemma RetriedExactlyWhen(policy: Policy, err: RelayError, task: TaskError, left: int)
    requires !policy.affinityForbids && !policy.pinnedChannel && left > 0
    ensures ShouldRetry(policy, err, left) <==>
            || err.isChannelError
            || (!err.skipsRetry && (err.status < 100 || 600 <= err.status))
            || (!err.skipsRetry && !err.alwaysSkippedCode && (100 <= err.status < 200 || 300 <= err.status < 600)
                && ((err.soundsTransient && err.status == 400) || policy.retriesStatus(err.status)))
    ensures ShouldRetryTask(policy, task, left) <==>
            || task.status == 429 || task.status == 307
            || (500 <= task.status < 600 && !policy.neverRetriesStatus(task.status))
            || (!task.isLocal && task.status != 400 && task.status != 408
                && (task.status < 200 || 300 <= task.status < 500 || 600 <= task.status))
  {
  }

  // ---------------------------------------------------------------- channel selection

  /** Where channels come from: one fixed group, or a list of groups tried in turn, moving on after the
      retries of a group are used up if `crossGroup`. */
  datatype Groups = Fixed | Auto(count: nat, crossGroup: bool)

  /** Is there a channel in a group at a priority level, in a given round? */
  type Availability = (nat, nat, nat) -> bool

  datatype Counter = Counter(retry: nat, resetNext: bool, group: nat)

  function SelectFrom(c: Counter, count: nat, crossGroup: bool, retryTimes: nat, available: (nat, nat) -> bool)
    : (Counter, bool)
    decreases count - c.group
  {
    if c.group >= count then (c, false)
    else if !available(c.group, c.retry) then
      SelectFrom(c.(retry := 0, group := c.group + 1), count, crossGroup, retryTimes, available)
    else if crossGroup && c.retry >= retryTimes then (Counter(0, true, c.group + 1), true)
    else (c, true)
  }

  function Select(c: Counter, groups: Groups, retryTimes: nat, available: (nat, nat) -> bool): (Counter, bool) {
    match groups
    case Fixed => (c, available(0, c.retry))
    case Auto(count, crossGroup) => SelectFrom(c, count, crossGroup, retryTimes, available)
  }

  function Increased(c: Counter): Counter {
    if c.resetNext then c.(resetNext := false) else c.(retry := c.retry + 1)
  }

  /** The priority at which a selection looks at a group: what was reached in the current one, the highest
      in later ones. */
  function LevelAt(c: Counter, g: nat): nat {
    if g == c.group then c.retry else 0
  }

  /** A selection takes the first group from the current one on that has a channel at its level. The count
      stays, or starts over with a new group; once a group's retries are used up and may cross groups, the
      next selection starts over behind it. Without such a group it finds nothing. */
  lemma {:induction false} SelectsFirstAvailable(
    c: Counter, count: nat, crossGroup: bool, retryTimes: nat, available: (nat, nat) -> bool, first: nat)
    requires !c.resetNext && c.group <= first
    requires forall g: nat :: c.group <= g < first && g < count ==> !available(g, LevelAt(c, g))
    requires first < count ==> available(first, LevelAt(c, first))
    ensures var (next, found) := SelectFrom(c, count, crossGroup, retryTimes, available);
            && (found <==> first < count)
            && (found ==> next == if crossGroup && LevelAt(c, first) >= retryTimes then Counter(0, true, first + 1)
                                  else Counter(LevelAt(c, first), false, first))
    decreases first - c.group
  {
    if c.group < first && c.group < count {
      assert !available(c.group, LevelAt(c, c.group));
      var moved := c.(retry := 0, group := c.group + 1);
      assert forall g: nat :: g > c.group ==> LevelAt(moved, g) == LevelAt(c, g);
      SelectsFirstAvailable(moved, count, crossGroup, retryTimes, available, first);
    }
  }

  /** `RetryParam`, with the group index the request context keeps for it. */
  class RetryParam {
    var retry: nat
    var resetNext: bool
    var group: nat

    function State(): Counter
      reads this
    {
      Counter(retry, resetNext, group)
    }

    constructor (group: nat)
      ensures State() == Counter(0, false, group)
    {
      retry, resetNext, this.group := 0, false, group;
    }

    method IncreaseRetry()
      modifies this
      ensures State() == Increased(old(State()))
    {
      if resetNext {
        resetNext := false;
        return;
      }
      retry := retry + 1;
    }

    /** `CacheGetRandomSatisfiedChannel`: the group that serves the next attempt, if any. */
    method SelectChannel(groups: Groups, retryTimes: nat, available: (nat, nat) -> bool) returns (found: bool)
      modifies this
      ensures (State(), found) == Select(old(State()), groups, retryTimes, available)
    {
      if groups.Fixed? {
        return available(0, retry);
      }
      var i := group;
      while i < groups.count
        invariant i == group
        invariant SelectFrom(State(), groups.count, groups.crossGroup, retryTimes, available)
               == SelectFrom(old(State()), groups.count, groups.crossGroup, retryTimes, available)
      {
        var priorityRetry := retry;
        if !available(i, priorityRetry) {
          i := i + 1;
          group, retry := i, 0;
          continue;
        }
        if groups.crossGroup && priorityRetry >= retryTimes {
          group, retry, resetNext := i + 1, 0, true;
        }
        return true;
      }
      return false;
    }
  }

  // --------------------------------------------------------------------- the loop

  /** How one round of the loop goes once a channel is selected: it may fail before the attempt (setting
      up the channel, preparing the bill, getting the body), or be tried. `opensBill` tells whether the
      round is the one that reserves quota. */
  datatype Round<E> = Broken(err: E, opensBill: bool) | Tried(result: Option<E>, opensBill: bool)

  datatype Mark = Attempt(ok: bool) | Settle | Refund

  /** How many more attempts a loop that stands at this counter can make. */
  function Budget(c: Counter, groups: Groups, retryTimes: nat): nat {
    if c.retry > retryTimes then 0
    else
      match groups
      case Fixed => retryTimes + 1 - c.retry
      case Auto(count, _) =>
        if c.group >= count then 0
        else BudgetPositive(count - c.group, retryTimes, c.retry); (count - c.group) * (retryTimes + 1) - c.retry
  }

  lemma BudgetPositive(left: nat, retryTimes: nat, retry: nat)
    requires left >= 1 && retry <= retryTimes
    ensures left * (retryTimes + 1) - retry >= 1
  {
  }

  /** A selection that finds a channel, the attempt and the increment together use up budget. */
  lemma SelectUsesBudget(c: Counter, groups: Groups, retryTimes: nat, available: (nat, nat) -> bool)
    requires c.retry <= retryTimes && !c.resetNext && Select(c, groups, retryTimes, available).1
    ensures Budget(Increased(Select(c, groups, retryTimes, available).0), groups, retryTimes)
          < Budget(c, groups, retryTimes)
    ensures !Increased(Select(c, groups, retryTimes, available).0).resetNext
  {
    if groups.Auto? {
      SelectFromUsesBudget(c, groups, retryTimes, available);
    }
  }

  lemma {:induction false} SelectFromUsesBudget(
    c: Counter, groups: Groups, retryTimes: nat, available: (nat, nat) -> bool)
    requires groups.Auto? && c.retry <= retryTimes && !c.resetNext
    requires SelectFrom(c, groups.count, groups.crossGroup, retryTimes, available).1
    ensures var next := Increased(SelectFrom(c, groups.count, groups.crossGroup, retryTimes, available).0);
            !next.resetNext && Budget(next, groups, retryTimes) < Budget(c, groups, retryTimes)
    decreases groups.count - c.group
  {
    var left := groups.count - c.group;
    assert left * (retryTimes + 1) == (left - 1) * (retryTimes + 1) + (retryTimes + 1);
    BudgetPositive(left, retryTimes, c.retry);
    if !available(c.group, c.retry) {
      var moved := c.(retry := 0, group := c.group + 1);
      SelectFromUsesBudget(moved, groups, retryTimes, available);
    }
  }

  /** Is an error retried, with so many retries left? */
  type Decision<!E> = (E, int) -> bool

  /** Everything a retry loop asks of its surroundings. */
  datatype Env<!E> = Env(
    retryTimes: nat, groups: Groups, noChannel: E,
    again: Decision<E>, rounds: nat -> Round<E>, available: Availability)

  /** What a loop leaves behind: its marks, the error that remains, whether there is a bill, and how many
      rounds found a channel. */
  datatype Outcome<E> = Outcome(trace: seq<Mark>, err: Option<E>, billed: bool, played: nat)

  function Prepend<E>(ok: bool, opensBill: bool, rest: Outcome<E>): Outcome<E> {
    Outcome([Attempt(ok)] + rest.trace, rest.err, opensBill || rest.billed, 1 + rest.played)
  }

  /** What a round's selection finds; the first round uses the channel the request arrived with. */
  function SelectIn<E>(c: Counter, round: nat, env: Env<E>): (Counter, bool) {
    if round == 0 then (c, true)
    else Select(c, env.groups, env.retryTimes, (g: nat, p: nat) => env.available(round, g, p))
  }

  /** The retry loop from a given counter and round on; `last` is the error of the round before. */
  function Loop<E>(c: Counter, round: nat, last: Option<E>, env: Env<E>): Outcome<E>
    requires !c.resetNext
    decreases round == 0, Budget(c, env.groups, env.retryTimes)
  {
    if c.retry > env.retryTimes then Outcome([], last, false, 0)
    else
      var (selected, found) := SelectIn(c, round, env);
      if !found then Outcome([], Some(env.noChannel), false, 0)
      else
        match env.rounds(round)
        case Broken(err, opensBill) => Outcome([], Some(err), opensBill, 1)
        case Tried(None, opensBill) => Outcome([Attempt(true)], None, opensBill, 1)
        case Tried(Some(e), opensBill) =>
          if !env.again(e, env.retryTimes - selected.retry) then Outcome([Attempt(false)], Some(e), opensBill, 1)
          else
            RoundUsesBudget(c, round, env);
            Prepend(false, opensBill, Loop(Increased(selected), round + 1, Some(e), env))
  }

  lemma RoundUsesBudget<E>(c: Counter, round: nat, env: Env<E>)
    requires c.retry <= env.retryTimes && !c.resetNext && SelectIn(c, round, env).1
    ensures var next := Increased(SelectIn(c, round, env).0);
            !next.resetNext
            && (round > 0 ==> Budget(next, env.groups, env.retryTimes) < Budget(c, env.groups, env.retryTimes))
  {
    if round > 0 {
      SelectUsesBudget(c, env.groups, env.retryTimes, (g: nat, p: nat) => env.available(round, g, p));
    }
  }

  /** The rest of a run after the given marks. */
  function Follow<E>(trace: seq<Mark>, billed: bool, played: nat, rest: Outcome<E>): Outcome<E> {
    Outcome(trace + rest.trace, rest.err, billed || rest.billed, played + rest.played)
  }

  lemma FollowPrepend<E>(trace: seq<Mark>, billed: bool, played: nat, ok: bool, opensBill: bool, rest: Outcome<E>)
    ensures Follow(trace, billed, played, Prepend(ok, opensBill, rest))
         == Follow(trace + [Attempt(ok)], billed || opensBill, played + 1, rest)
  {
    assert trace + ([Attempt(ok)] + rest.trace) == (trace + [Attempt(ok)]) + rest.trace;
  }

  /** One round on a selected channel: the marks, error and bill it adds, and whether the loop goes on. */
  method PlayRound<E>(ghost c: Counter, selected: Counter, round: nat, ghost last: Option<E>, env: Env<E>,
                      trace: seq<Mark>, billed: bool)
    returns (trace': seq<Mark>, err: Option<E>, billed': bool, more: bool)
    requires !c.resetNext && c.retry <= env.retryTimes && SelectIn(c, round, env) == (selected, true)
    ensures more ==> err.Some? && !Increased(selected).resetNext
    ensures Follow(trace, billed, round, Loop(c, round, last, env)) ==
            if more then Follow(trace', billed', round + 1, Loop(Increased(selected), round + 1, err, env))
            else Outcome(trace', err, billed', round + 1)
  {
    RoundUsesBudget(c, round, env);
    var outcome := env.rounds(round);
    billed', more := billed || outcome.opensBill, false;
    if outcome.Broken? {
      trace', err := trace, Some(outcome.err);
      return;
    }
    err := outcome.result;
    trace' := trace + [Attempt(err.None?)];
    if err.None? {
      return;
    }
    more := env.again(err.value, env.retryTimes - selected.retry);
    if more {
      FollowPrepend(trace, billed, round, false, outcome.opensBill, Loop(Increased(selected), round + 1, err, env));
    }
  }

  /** `getChannel`: the first round has its channel already. */
  method FindChannel<E>(param: RetryParam, round: nat, env: Env<E>) returns (found: bool)
    modifies param
    ensures (param.State(), found) == SelectIn(old(param.State()), round, env)
  {
    if round == 0 {
      return true;
    }
    found := param.SelectChannel(env.groups, env.retryTimes, (g: nat, p: nat) => env.available(round, g, p));
  }

  /** One pass through the body of the loop and its increment. */
  method PlayNext<E>(param: RetryParam, round: nat, last: Option<E>, env: Env<E>, trace: seq<Mark>, billed: bool)
    returns (trace': seq<Mark>, err: Option<E>, billed': bool, played: nat, more: bool)
    requires !param.resetNext && param.retry <= env.retryTimes
    modifies param
    ensures more ==> !param.resetNext && played == round + 1
    ensures more && round > 0 ==>
              Budget(param.State(), env.groups, env.retryTimes) < old(Budget(param.State(), env.groups, env.retryTimes))
    ensures Follow(trace, billed, round, Loop(old(param.State()), round, last, env)) ==
            if more then Follow(trace', billed', played, Loop(param.State(), round + 1, err, env))
            else Outcome(trace', err, billed', played)
  {
    ghost var before := param.State();
    var found := FindChannel(param, round, env);
    if !found {
      assert trace + [] == trace;
      return trace, Some(env.noChannel), billed, round, false;
    }
    RoundUsesBudget(before, round, env);
    trace', err, billed', more := PlayRound(before, param.State(), round, last, env, trace, billed);
    played := round + 1;
    if more {
      param.IncreaseRetry();
    }
  }

  /** The `for` loop of `Relay` and `RelayTask`. */
  method RetryLoop<E>(startGroup: nat, env: Env<E>)
    returns (trace: seq<Mark>, err: Option<E>, billed: bool, played: nat)
    ensures Outcome(trace, err, billed, played) == Loop(Counter(0, false, startGroup), 0, None, env)
  {
    var param := new RetryParam(startGroup);
    trace, err, billed, played := [], None, false, 0;
    ghost var whole := Loop(Counter(0, false, startGroup), 0, None, env);
    while param.retry <= env.retryTimes
      invariant !param.resetNext
      invariant whole == Follow(trace, billed, played, Loop(param.State(), played, err, env))
      decreases played == 0, Budget(param.State(), env.groups, env.retryTimes)
    {
      var more;
      trace, err, billed, played, more := PlayNext(param, played, err, env, trace, billed);
      if !more {
        return;
      }
    }
    assert trace + [] == trace;
  }

  // -------------------------------------------------------------- what every run does

  /** Attempts only, none after a success, and an error at the end unless the last attempt succeeded. */
  ghost predicate Shaped<E(!new)>(r: Outcome<E>) {
    && (forall i :: 0 <= i < |r.trace| ==> r.trace[i].Attempt?)
    && (forall i :: 0 <= i < |r.trace| - 1 ==> !r.trace[i].ok)
    && (r.err.None? <==> r.trace != [] && r.trace[|r.trace| - 1].ok)
  }

  lemma {:induction false} LoopShaped<E(!new)>(c: Counter, round: nat, last: Option<E>, env: Env<E>)
    requires !c.resetNext && (last.None? ==> round == 0 && c.retry <= env.retryTimes)
    ensures Shaped(Loop(c, round, last, env))
    decreases round == 0, Budget(c, env.groups, env.retryTimes)
  {
    if c.retry <= env.retryTimes {
      var (selected, found) := SelectIn(c, round, env);
      if found {
        RoundUsesBudget(c, round, env);
        var outcome := env.rounds(round);
        if outcome.Tried? && outcome.result.Some? && env.again(outcome.result.value, env.retryTimes - selected.retry) {
          var rest := Loop(Increased(selected), round + 1, outcome.result, env);
          LoopShaped(Increased(selected), round + 1, outcome.result, env);
          PrependShaped(outcome.opensBill, rest);
        }
      }
    }
  }

  lemma PrependShaped<E(!new)>(opensBill: bool, rest: Outcome<E>)
    requires Shaped(rest)
    ensures Shaped(Prepend(false, opensBill, rest))
  {
  }

  /** Some round among the first ones opened a bill. */
  ghost predicate OpenedBill<E(!new)>(env: Env<E>, from: nat, played: nat) {
    exists k :: from <= k < from + played && env.rounds(k).opensBill
  }

  /** What the marks, the error and the number of rounds tell about the rounds that were played: an attempt
      mark for each round that was tried, then possibly one round that broke off before its attempt. The
      error is that of the last round, or that no channel was found. */
  ghost predicate Played<E(!new)>(
    env: Env<E>, from: nat, last: Option<E>, trace: seq<Mark>, err: Option<E>, played: nat)
  {
    var n := |trace|;
    && n <= played <= n + 1
    && (forall k :: 0 <= k < n ==> Marked(env.rounds(from + k), trace[k]))
    && (played == n + 1 ==> env.rounds(from + n).Broken? && err == ErrorOf(env.rounds(from + n)))
    && (played == n ==> err == Some(env.noChannel) || err == if n == 0 then last else ErrorOf(env.rounds(from + n - 1)))
  }

  /** The mark stands for a round that was tried, and for how it went. */
  ghost predicate Marked<E(!new)>(round: Round<E>, mark: Mark) {
    round.Tried? && mark == Attempt(round.result.None?)
  }

  function ErrorOf<E>(round: Round<E>): Option<E> {
    match round
    case Broken(err, _) => Some(err)
    case Tried(result, _) => result
  }

  /** A run has a bill exactly when one of the rounds it played opened one. */
  lemma {:induction false} LoopPlayed<E(!new)>(c: Counter, round: nat, last: Option<E>, env: Env<E>)
    requires !c.resetNext
    ensures var r := Loop(c, round, last, env);
            Played(env, round, last, r.trace, r.err, r.played) && (r.billed <==> OpenedBill(env, round, r.played))
    decreases round == 0, Budget(c, env.groups, env.retryTimes)
  {
    if c.retry <= env.retryTimes && SelectIn(c, round, env).1 {
      var selected := SelectIn(c, round, env).0;
      RoundUsesBudget(c, round, env);
      var outcome := env.rounds(round);
      if outcome.Tried? && outcome.result.Some? && env.again(outcome.result.value, env.retryTimes - selected.retry) {
        LoopPlayed(Increased(selected), round + 1, outcome.result, env);
        PlayedOneMore(env, round, last, Loop(Increased(selected), round + 1, outcome.result, env));
      } else {
        assert OpenedBill(env, round, 1) <==> env.rounds(round).opensBill;
      }
    }
  }

  lemma PlayedOneMore<E(!new)>(env: Env<E>, round: nat, last: Option<E>, rest: Outcome<E>)
    requires env.rounds(round).Tried? && env.rounds(round).result.Some?
    requires Played(env, round + 1, env.rounds(round).result, rest.trace, rest.err, rest.played)
    requires rest.billed <==> OpenedBill(env, round + 1, rest.played)
    ensures var r := Prepend(false, env.rounds(round).opensBill, rest);
            Played(env, round, last, r.trace, r.err, r.played) && (r.billed <==> OpenedBill(env, round, r.played))
  {
    var trace := [Attempt(false)] + rest.trace;
    forall k | 0 <= k < |trace| ensures Marked(env.rounds(round + k), trace[k]) {
      if k > 0 { assert trace[k] == rest.trace[k - 1] && round + k == (round + 1) + (k - 1); }
    }
    if OpenedBill(env, round, 1 + rest.played) {
      var k :| round <= k < round + 1 + rest.played && env.rounds(k).opensBill;
      assert k > round ==> OpenedBill(env, round + 1, rest.played);
    }
  }

  // ------------------------------------------------------- which rounds are played, in all modes

  /** Where a round is served: the group, and how often that group was tried before. */
  datatype Place = Place(group: nat, tries: nat)

  /** The group's retries are used up by this round and the next one moves to the group behind it. The round
      with the channel the request arrived with never does. */
  predicate Crosses<E>(env: Env<E>, k: nat, p: Place) {
    k > 0 && env.groups.Auto? && env.groups.crossGroup && p.tries >= env.retryTimes
  }

  /** Where the next round asks for a channel. */
  function NextPlace<E>(env: Env<E>, k: nat, p: Place): Place {
    if Crosses(env, k, p) then Place(p.group + 1, 0) else Place(p.group, p.tries + 1)
  }

  /** How many retries the decision after a round is told. */
  function RetriesLeft<E>(env: Env<E>, k: nat, p: Place): int {
    if Crosses(env, k, p) then env.retryTimes else env.retryTimes - p.tries
  }

  /** The round failed in a way that is retried, and the count is not used up. */
  ghost predicate GoesOn<E(!new)>(env: Env<E>, retried: Decision<E>, k: nat, p: Place) {
    && env.rounds(k).Tried? && env.rounds(k).result.Some?
    && retried(env.rounds(k).result.value, RetriesLeft(env, k, p))
    && NextPlace(env, k, p).tries <= env.retryTimes
  }

  /** At which priority a group is asked: the one reached in the group itself, the highest in later ones. */
  function TriesIn(wish: Place, g: nat): nat {
    if g == wish.group then wish.tries else 0
  }

  /** The channel comes from the first group, from the wished one on, that has one. */
  ghost predicate ServedAt<E(!new)>(env: Env<E>, k: nat, wish: Place, p: Place) {
    if env.groups.Fixed? then p == wish && env.available(k, 0, wish.tries)
    else
      && wish.group <= p.group < env.groups.count && p.tries == TriesIn(wish, p.group)
      && env.available(k, p.group, p.tries)
      && forall g: nat :: wish.group <= g < p.group ==> !env.available(k, g, TriesIn(wish, g))
  }

  ghost predicate Unserved<E(!new)>(env: Env<E>, k: nat, wish: Place) {
    if env.groups.Fixed? then !env.available(k, 0, wish.tries)
    else forall g: nat :: wish.group <= g < env.groups.count ==> !env.available(k, g, TriesIn(wish, g))
  }

  /** The rounds from k on are served at these places, no more and no fewer, and leave this error: as long as
      the run goes on the next round is served; it ends with the error of its last round, and with that of
      a missing channel exactly when it would go on and no group has one. */
  ghost predicate Goes<E(!new)>(env: Env<E>, retried: Decision<E>, k: nat, places: seq<Place>, err: Option<E>)
    decreases |places|
  {
    && places != []
    && if !GoesOn(env, retried, k, places[0]) then |places| == 1 && err == ErrorOf(env.rounds(k))
       else
         var wish := NextPlace(env, k, places[0]);
         if |places| == 1 then Unserved(env, k + 1, wish) && err == Some(env.noChannel)
         else ServedAt(env, k + 1, wish, places[1]) && Goes(env, retried, k + 1, places[1..], err)
  }

  /** The counter that stands for asking at a place, and the one a selection leaves behind. */
  function Standing(wish: Place): Counter {
    Counter(wish.tries, false, wish.group)
  }

  function Selected<E>(env: Env<E>, k: nat, p: Place): Counter {
    if Crosses(env, k, p) then Counter(0, true, p.group + 1) else Standing(p)
  }

  lemma SelectedLeadsOn<E>(env: Env<E>, k: nat, p: Place)
    ensures Increased(Selected(env, k, p)) == Standing(NextPlace(env, k, p))
    ensures env.retryTimes - Selected(env, k, p).retry == RetriesLeft(env, k, p)
  {
  }

  lemma SelectionServes<E(!new)>(env: Env<E>, k: nat, wish: Place, p: Place)
    requires k > 0
    ensures ServedAt(env, k, wish, p) ==> SelectIn(Standing(wish), k, env) == (Selected(env, k, p), true)
    ensures Unserved(env, k, wish) ==> !SelectIn(Standing(wish), k, env).1
  {
    if env.groups.Auto? {
      var available := (g: nat, level: nat) => env.available(k, g, level);
      forall g: nat ensures LevelAt(Standing(wish), g) == TriesIn(wish, g) {}
      if ServedAt(env, k, wish, p) {
        SelectsFirstAvailable(Standing(wish), env.groups.count, env.groups.crossGroup, env.retryTimes, available,
                              p.group);
      } else if Unserved(env, k, wish) {
        var first := if wish.group < env.groups.count then env.groups.count else wish.group;
        SelectsFirstAvailable(Standing(wish), env.groups.count, env.groups.crossGroup, env.retryTimes, available,
                              first);
      }
    }
  }

  /** Every wish is served at some place, or by none. */
  lemma FindPlace<E(!new)>(env: Env<E>, k: nat, wish: Place) returns (p: Option<Place>)
    ensures if p.Some? then ServedAt(env, k, wish, p.value) else Unserved(env, k, wish)
  {
    if env.groups.Fixed? {
      p := if env.available(k, 0, wish.tries) then Some(wish) else None;
    } else {
      var g := wish.group;
      while g < env.groups.count && !env.available(k, g, TriesIn(wish, g))
        invariant wish.group <= g
        invariant forall h: nat :: wish.group <= h < g ==> !env.available(k, h, TriesIn(wish, h))
      {
        g := g + 1;
      }
      p := if g < env.groups.count then Some(Place(g, TriesIn(wish, g))) else None;
    }
  }

  /** The loop at a round that is served at a place: it goes on behind it exactly when the run does. */
  lemma RoundAtPlace<E(!new)>(c: Counter, k: nat, last: Option<E>, env: Env<E>, p: Place)
    requires !c.resetNext && c.retry <= env.retryTimes && SelectIn(c, k, env) == (Selected(env, k, p), true)
    ensures var r, wish := Loop(c, k, last, env), NextPlace(env, k, p);
            if GoesOn(env, env.again, k, p) then
              var rest := Loop(Standing(wish), k + 1, env.rounds(k).result, env);
              r.played == rest.played + 1 && r.err == rest.err
            else r.played == 1 && r.err == ErrorOf(env.rounds(k))
  {
    SelectedLeadsOn(env, k, p);
    RoundUsesBudget(c, k, env);
    if env.rounds(k).Tried? && env.rounds(k).result.Some?
       && env.again(env.rounds(k).result.value, RetriesLeft(env, k, p)) {
      assert Loop(c, k, last, env) == Prepend(false, env.rounds(k).opensBill,
               Loop(Standing(NextPlace(env, k, p)), k + 1, env.rounds(k).result, env));
    }
  }

  lemma ServedOnce<E(!new)>(env: Env<E>, k: nat, wish: Place, p: Place, q: Place)
    requires ServedAt(env, k, wish, p)
    ensures ServedAt(env, k, wish, q) ==> p == q
    ensures !Unserved(env, k, wish)
  {
  }

  /** Where a run starts decides all of it: the places and the error. */
  lemma {:induction false} RunIsDetermined<E(!new)>(
    env: Env<E>, retried: Decision<E>, k: nat, a: seq<Place>, errA: Option<E>, b: seq<Place>, errB: Option<E>)
    requires Goes(env, retried, k, a, errA) && Goes(env, retried, k, b, errB) && a[0] == b[0]
    ensures a == b && errA == errB
    decreases |a|
  {
    if |a| > 1 {
      var wish := NextPlace(env, k, a[0]);
      ServedOnce(env, k + 1, wish, a[1], if |b| > 1 then b[1] else wish);
      RunIsDetermined(env, retried, k + 1, a[1..], errA, b[1..], errB);
      assert a == [a[0]] + a[1..] && b == [b[0]] + b[1..];
    } else if |b| > 1 {
      ServedOnce(env, k + 1, NextPlace(env, k, b[0]), b[1], b[1]);
    }
  }

  /** Every run of the loop goes that way. */
  lemma {:induction false} RunGoes<E(!new)>(c: Counter, k: nat, last: Option<E>, env: Env<E>, p: Place)
    returns (places: seq<Place>)
    requires !c.resetNext && c.retry <= env.retryTimes && SelectIn(c, k, env) == (Selected(env, k, p), true)
    ensures var r := Loop(c, k, last, env);
            |places| == r.played && places != [] && places[0] == p && Goes(env, env.again, k, places, r.err)
    decreases k == 0, Budget(c, env.groups, env.retryTimes)
  {
    RoundAtPlace(c, k, last, env, p);
    places := [p];
    if GoesOn(env, env.again, k, p) {
      var wish := NextPlace(env, k, p);
      var next := FindPlace(env, k + 1, wish);
      SelectionServes(env, k + 1, wish, if next.Some? then next.value else wish);
      if next.Some? {
        SelectedLeadsOn(env, k, p);
        RoundUsesBudget(c, k, env);
        var rest := RunGoes(Standing(wish), k + 1, env.rounds(k).result, env, next.value);
        places := [p] + rest;
        assert places[1..] == rest;
      }
    }
  }

  /** A whole run, from the request's own channel on. */
  ghost predicate Runs<E(!new)>(
    env: Env<E>, retried: Decision<E>, startGroup: nat, places: seq<Place>, err: Option<E>)
  {
    places != [] && places[0] == Place(startGroup, 0) && Goes(env, retried, 0, places, err)
  }

  /** In every mode, with one group or with groups tried in turn, crossing or not, exactly one list of places
      and one error fit, and they are those of the loop. */
  lemma WholeRun<E(!new)>(env: Env<E>, startGroup: nat) returns (places: seq<Place>)
    ensures var r := Loop(Counter(0, false, startGroup), 0, None, env);
            && |places| == r.played && Runs(env, env.again, startGroup, places, r.err)
            && forall others, err :: Runs(env, env.again, startGroup, others, err) ==> others == places && err == r.err
  {
    var c, p := Counter(0, false, startGroup), Place(startGroup, 0);
    places := RunGoes(c, 0, None, env, p);
    var r := Loop(c, 0, None, env);
    forall others, err | Runs(env, env.again, startGroup, others, err) ensures others == places && err == r.err {
      RunIsDetermined(env, env.again, 0, others, err, places, r.err);
    }
  }

  /** A loop makes no more attempts than its budget allows. */
  lemma {:induction false} LoopWithinBudget<E(!new)>(c: Counter, round: nat, last: Option<E>, env: Env<E>)
    requires !c.resetNext && round > 0
    ensures |Loop(c, round, last, env).trace| <= Budget(c, env.groups, env.retryTimes)
    decreases Budget(c, env.groups, env.retryTimes)
  {
    if c.retry <= env.retryTimes {
      var (selected, found) := SelectIn(c, round, env);
      if found {
        RoundUsesBudget(c, round, env);
        var outcome := env.rounds(round);
        if outcome.Tried? && outcome.result.Some? && env.again(outcome.result.value, env.retryTimes - selected.retry) {
          LoopWithinBudget(Increased(selected), round + 1, outcome.result, env);
        }
      }
    }
  }

  /** The most attempts a request can cause: one more than the retry setting in one group, that many for
      every group from the starting one on when groups are tried in turn. */
  function MostAttempts(groups: Groups, startGroup: nat, retryTimes: nat): nat {
    1 + Budget(Counter(1, false, startGroup), groups, retryTimes)
  }

  lemma AttemptsBounded<E(!new)>(startGroup: nat, env: Env<E>)
    ensures var most := MostAttempts(env.groups, startGroup, env.retryTimes);
            && |Loop(Counter(0, false, startGroup), 0, None, env).trace| <= most
            && (env.groups.Fixed? ==> most == env.retryTimes + 1)
            && (env.groups.Auto? && startGroup < env.groups.count && env.retryTimes > 0 ==>
                  most == (env.groups.count - startGroup) * (env.retryTimes + 1))
  {
    var outcome := env.rounds(0);
    if outcome.Tried? {
      LoopWithinBudget(Counter(1, false, startGroup), 1, outcome.result, env);
    }
    if env.groups.Auto? && startGroup < env.groups.count && env.retryTimes > 0 {
      BudgetPositive(env.groups.count - startGroup, env.retryTimes, 1);
    }
  }

  /** A run in which everything is available, and every attempt fails in a way that is retried as long as
      retries are left. */
  ghost predicate AlwaysFails<E(!new)>(env: Env<E>) {
    && (forall round, g, p :: env.available(round, g, p))
    && FailsWhileRetried(env)
  }

  ghost predicate FailsWhileRetried<E(!new)>(env: Env<E>) {
    forall round :: FailsIn(env, round)
  }

  ghost predicate FailsIn<E(!new)>(env: Env<E>, round: nat) {
    && env.rounds(round).Tried? && env.rounds(round).result.Some?
    && forall left :: left > 0 ==> env.again(env.rounds(round).result.value, left)
  }

  /** A failed attempt that is retried adds one to what the rest of the loop makes. */
  lemma FailedRound<E(!new)>(c: Counter, round: nat, last: Option<E>, env: Env<E>)
    requires !c.resetNext && c.retry <= env.retryTimes && SelectIn(c, round, env).1 && FailsIn(env, round)
    ensures |Loop(c, round, last, env).trace| >= 1
    ensures var selected := SelectIn(c, round, env).0;
            selected.retry < env.retryTimes ==>
              !Increased(selected).resetNext
              && |Loop(c, round, last, env).trace|
                 == 1 + |Loop(Increased(selected), round + 1, env.rounds(round).result, env).trace|
  {
    RoundUsesBudget(c, round, env);
    var e := env.rounds(round).result;
    assert env.retryTimes - SelectIn(c, round, env).0.retry > 0 ==>
             env.again(e.value, env.retryTimes - SelectIn(c, round, env).0.retry);
  }

  lemma {:induction false} FailingLoopUsesItsBudget<E(!new)>(c: Counter, round: nat, last: Option<E>, env: Env<E>)
    requires !c.resetNext && round > 0 && AlwaysFails(env) && env.retryTimes > 0
    requires env.groups.Auto? ==> env.groups.crossGroup
    ensures |Loop(c, round, last, env).trace| == Budget(c, env.groups, env.retryTimes)
    decreases Budget(c, env.groups, env.retryTimes)
  {
    if c.retry <= env.retryTimes && SelectIn(c, round, env).1 {
      var selected := SelectIn(c, round, env).0;
      assert FailsIn(env, round);
      FailedRound(c, round, last, env);
      RoundUsesBudget(c, round, env);
      if selected.retry < env.retryTimes {
        FailingLoopUsesItsBudget(Increased(selected), round + 1, env.rounds(round).result, env);
      } else {
        EndsAfter(c, round, last, env);
      }
      if env.groups.Auto? {
        var left := env.groups.count - c.group;
        assert left * (env.retryTimes + 1) == (left - 1) * (env.retryTimes + 1) + (env.retryTimes + 1);
      }
    }
  }

  /** With the retries used up, a round is the last one, retried or not. */
  lemma EndsAfter<E(!new)>(c: Counter, round: nat, last: Option<E>, env: Env<E>)
    requires !c.resetNext && c.retry <= env.retryTimes && SelectIn(c, round, env).1
    requires SelectIn(c, round, env).0.retry >= env.retryTimes && !SelectIn(c, round, env).0.resetNext
    ensures |Loop(c, round, last, env).trace| <= 1
  {
    RoundUsesBudget(c, round, env);
    var next := Increased(SelectIn(c, round, env).0);
    if env.rounds(round).Tried? {
      assert Loop(next, round + 1, env.rounds(round).result, env).trace == [];
    }
  }

  /** The bound is reached: so with several groups tried in turn a request makes more attempts than the
      retry setting plus one. */
  lemma BoundIsReached<E(!new)>(startGroup: nat, env: Env<E>)
    requires AlwaysFails(env) && (env.groups.Auto? ==> env.groups.crossGroup)
    ensures |Loop(Counter(0, false, startGroup), 0, None, env).trace|
         == MostAttempts(env.groups, startGroup, env.retryTimes)
  {
    var c := Counter(0, false, startGroup);
    assert FailsIn(env, 0);
    FailedRound(c, 0, None, env);
    if env.retryTimes > 0 {
      FailingLoopUsesItsBudget(Increased(c), 1, env.rounds(0).result, env);
    } else {
      EndsAfter(c, 0, None, env);
    }
  }

  /** A run in which every attempt fails and is retried, and only the groups after the starting one have
      channels. */
  ghost predicate StartRunsDry<E(!new)>(env: Env<E>, startGroup: nat) {
    && (forall round, g: nat, p :: env.available(round, g, p) <==> g > startGroup)
    && FailsWhileRetried(env)
  }

  /** A group with channels is tried until its retries are used up. */
  lemma {:induction false} GroupIsUsedUp<E(!new)>(c: Counter, round: nat, last: Option<E>, env: Env<E>, startGroup: nat)
    requires !c.resetNext && round > 0 && StartRunsDry(env, startGroup)
    requires env.groups.Auto? && startGroup < c.group < env.groups.count
    ensures |Loop(c, round, last, env).trace| >= env.retryTimes + 1 - c.retry
    decreases Budget(c, env.groups, env.retryTimes)
  {
    if c.retry <= env.retryTimes {
      assert env.available(round, c.group, c.retry);
      var selected := SelectIn(c, round, env).0;
      assert FailsIn(env, round);
      FailedRound(c, round, last, env);
      RoundUsesBudget(c, round, env);
      if c.retry < env.retryTimes {
        GroupIsUsedUp(Increased(selected), round + 1, env.rounds(round).result, env, startGroup);
      }
    }
  }

  /** Once the starting group has no channel left, the counter starts over in the next one, whether or not
      retries may cross groups. */
  lemma StartingOver<E(!new)>(startGroup: nat, env: Env<E>)
    requires env.groups.Auto? && startGroup + 1 < env.groups.count && env.retryTimes > 0
    requires StartRunsDry(env, startGroup)
    ensures |Loop(Counter(0, false, startGroup), 0, None, env).trace| > env.retryTimes + 1
  {
    assert FailsIn(env, 0) && FailsIn(env, 1);
    FailedRound(Counter(0, false, startGroup), 0, None, env);
    var c, moved := Counter(1, false, startGroup), Counter(0, false, startGroup + 1);
    assert !env.available(1, startGroup, 1) && env.available(1, startGroup + 1, 0);
    assert SelectIn(c, 1, env) == SelectIn(moved, 1, env) == (moved, true);
    FailedRound(c, 1, env.rounds(0).result, env);
    GroupIsUsedUp(Increased(moved), 2, env.rounds(1).result, env, startGroup);
  }

  // ------------------------------------------------------- the bound under the code's decisions

  /** The surroundings of a relayed request, with `shouldRetry` deciding. */
  function RelayEnv(policy: Policy, env: Env<RelayError>): Env<RelayError> {
    env.(again := (e, left) => ShouldRetry(policy, e, left))
  }

  /** The surroundings of a task, with `shouldRetryTaskRelay` deciding; a task locked to a channel keeps it
      in every round. */
  function TaskEnv(policy: Policy, env: Env<TaskError>, locked: bool): Env<TaskError> {
    var decided := env.(again := (e, left) => ShouldRetryTask(policy, e, left));
    if locked then decided.(groups := Fixed, available := (round, g, p) => true) else decided
  }

  /** Which errors of a relayed request are retried: none if channel affinity forbids it, channel errors
      always, and others, unless they ask not to be, while retries are left and no channel is pinned: any
      status that is no HTTP status, and of those that are neither success nor of an exempt code a bad request
      that sounds transient and what the settings list. */
  ghost function RelayRetries(policy: Policy): Decision<RelayError> {
    (e: RelayError, left: int) =>
      && !policy.affinityForbids
      && (|| e.isChannelError
          || (&& left > 0 && !policy.pinnedChannel && !e.skipsRetry
              && (|| e.status < 100 || 600 <= e.status
                  || (&& !e.alwaysSkippedCode && (e.status < 200 || 300 <= e.status)
                      && ((e.status == 400 && e.soundsTransient) || policy.retriesStatus(e.status))))))
  }

  /** Which errors of a task are retried, while retries are left, no channel is pinned and affinity allows it:
      too many requests, the temporary redirect, server errors the settings do not exempt, and other failures
      that did not arise in the gateway itself, except bad requests and timeouts. */
  ghost function TaskRetries(policy: Policy): Decision<TaskError> {
    (e: TaskError, left: int) =>
      && left > 0 && !policy.affinityForbids && !policy.pinnedChannel
      && (|| e.status == 429 || e.status == 307
          || (500 <= e.status < 600 && !policy.neverRetriesStatus(e.status))
          || (!e.isLocal && e.status != 400 && e.status != 408
              && (e.status < 200 || 300 <= e.status < 500 || 600 <= e.status)))
  }

  /** Surroundings that differ only in the decision, and decide alike, lead to the same runs. */
  lemma {:induction false} SameRuns<E(!new)>(
    env: Env<E>, decided: Env<E>, retried: Decision<E>, k: nat, places: seq<Place>, err: Option<E>)
    requires decided == env.(again := decided.again)
    requires forall e, left :: decided.again(e, left) <==> retried(e, left)
    ensures Goes(decided, decided.again, k, places, err) <==> Goes(env, retried, k, places, err)
    decreases |places|
  {
    if places != [] {
      assert GoesOn(decided, decided.again, k, places[0]) <==> GoesOn(env, retried, k, places[0]);
      if |places| > 1 {
        SameRuns(env, decided, retried, k + 1, places[1..], err);
      }
    }
  }

  /** The rounds and the error of a relayed request, said of its policy and surroundings alone. */
  lemma RelayRun(policy: Policy, env: Env<RelayError>, startGroup: nat) returns (places: seq<Place>)
    ensures var r := Loop(Counter(0, false, startGroup), 0, None, RelayEnv(policy, env));
            |places| == r.played && Runs(env, RelayRetries(policy), startGroup, places, r.err)
  {
    var decided := RelayEnv(policy, env);
    places := WholeRun(decided, startGroup);
    var r := Loop(Counter(0, false, startGroup), 0, None, decided);
    SameRuns(env, decided, RelayRetries(policy), 0, places, r.err);
  }

  /** Those of a task that is not locked to a channel. */
  lemma TaskRun(policy: Policy, env: Env<TaskError>, startGroup: nat) returns (places: seq<Place>)
    ensures var r := Loop(Counter(0, false, startGroup), 0, None, TaskEnv(policy, env, false));
            |places| == r.played && Runs(env, TaskRetries(policy), startGroup, places, r.err)
  {
    var decided := TaskEnv(policy, env, false);
    places := WholeRun(decided, startGroup);
    var r := Loop(Counter(0, false, startGroup), 0, None, decided);
    SameRuns(env, decided, TaskRetries(policy), 0, places, r.err);
  }

  /** A round of a locked task is followed by another. */
  ghost predicate LockedGoesOn(env: Env<TaskError>, policy: Policy, k: nat) {
    && env.rounds(k).Tried? && env.rounds(k).result.Some?
    && TaskRetries(policy)(env.rounds(k).result.value, env.retryTimes - k)
  }

  /** A locked task plays the rounds 0, 1, 2, ... up to the first that succeeds, breaks off, is not retried or
      uses up the count, and is left with that one's error; it looks for no channel. */
  ghost predicate LockedRuns(env: Env<TaskError>, policy: Policy, played: nat, err: Option<TaskError>) {
    && played > 0 && (forall k: nat :: k < played - 1 ==> LockedGoesOn(env, policy, k))
    && !LockedGoesOn(env, policy, played - 1) && err == ErrorOf(env.rounds(played - 1))
  }

  lemma LockedRun(policy: Policy, env: Env<TaskError>, startGroup: nat)
    ensures var r := Loop(Counter(0, false, startGroup), 0, None, TaskEnv(policy, env, true));
            LockedRuns(env, policy, r.played, r.err)
  {
    var decided := TaskEnv(policy, env, true);
    var places := WholeRun(decided, startGroup);
    var r := Loop(Counter(0, false, startGroup), 0, None, decided);
    LockedFrom(policy, env, decided, 0, places, r.err);
  }

  lemma {:induction false} LockedFrom(
    policy: Policy, env: Env<TaskError>, decided: Env<TaskError>, k: nat, places: seq<Place>, err: Option<TaskError>)
    requires decided == TaskEnv(policy, env, true)
    requires Goes(decided, decided.again, k, places, err) && places[0].tries == k
    ensures forall i: nat :: k <= i < k + |places| - 1 ==> LockedGoesOn(env, policy, i)
    ensures var last := k + |places| - 1;
            !LockedGoesOn(env, policy, last) && err == ErrorOf(env.rounds(last))
    decreases |places|
  {
    assert LockedGoesOn(env, policy, k) <==> GoesOn(decided, decided.again, k, places[0]);
    if |places| > 1 {
      LockedFrom(policy, env, decided, k + 1, places[1..], err);
    }
  }

  function RelayAttempts(policy: Policy, env: Env<RelayError>, startGroup: nat): nat {
    |Loop(Counter(0, false, startGroup), 0, None, RelayEnv(policy, env)).trace|
  }

  function TaskAttempts(policy: Policy, env: Env<TaskError>, locked: bool, startGroup: nat): nat {
    |Loop(Counter(0, false, startGroup), 0, None, TaskEnv(policy, env, locked)).trace|
  }

  /** There is no second group to move to. */
  predicate OneGroupLeft(groups: Groups, startGroup: nat) {
    groups.Fixed? || groups.count <= startGroup + 1
  }

  lemma OneGroupBound<E(!new)>(startGroup: nat, env: Env<E>)
    requires OneGroupLeft(env.groups, startGroup) || env.retryTimes == 0
    ensures |Loop(Counter(0, false, startGroup), 0, None, env).trace| <= env.retryTimes + 1
  {
    AttemptsBounded(startGroup, env);
  }

  /** A request that is never retried makes at most one attempt. */
  lemma NeverRetried<E(!new)>(startGroup: nat, env: Env<E>)
    requires forall left :: env.rounds(0).Tried? && env.rounds(0).result.Some? ==>
               !env.again(env.rounds(0).result.value, left)
    ensures |Loop(Counter(0, false, startGroup), 0, None, env).trace| <= 1
  {
    if env.rounds(0).Tried? && env.rounds(0).result.Some? {
      assert !env.again(env.rounds(0).result.value, env.retryTimes - 0);
    }
  }

  /** For relayed requests the retry setting plus one bounds the attempts of every run exactly when channel
      affinity forbids retries, there is no second group to move to, or no retry is set. A pinned channel
      makes no difference, because channel errors are retried all the same; nor does it matter whether
      retries may cross groups. */
  lemma RelayBoundExactlyWhen(policy: Policy, groups: Groups, startGroup: nat, retryTimes: nat)
    ensures (forall env: Env<RelayError> :: env.groups == groups && env.retryTimes == retryTimes ==>
               RelayAttempts(policy, env, startGroup) <= retryTimes + 1) <==>
            policy.affinityForbids || OneGroupLeft(groups, startGroup) || retryTimes == 0
  {
    if policy.affinityForbids || OneGroupLeft(groups, startGroup) || retryTimes == 0 {
      forall env: Env<RelayError> | env.groups == groups && env.retryTimes == retryTimes
        ensures RelayAttempts(policy, env, startGroup) <= retryTimes + 1
      {
        if policy.affinityForbids {
          NeverRetried(startGroup, RelayEnv(policy, env));
        } else {
          OneGroupBound(startGroup, RelayEnv(policy, env));
        }
      }
    } else {
      var env := FailingRelay(policy, groups, startGroup, retryTimes);
      assert RelayAttempts(policy, env, startGroup) > retryTimes + 1;
    }
  }

  /** The run: a channel error in every round, and no channel left in the starting group. */
  lemma FailingRelay(policy: Policy, groups: Groups, startGroup: nat, retryTimes: nat)
    returns (env: Env<RelayError>)
    requires !policy.affinityForbids && !OneGroupLeft(groups, startGroup) && retryTimes > 0
    ensures env.groups == groups && env.retryTimes == retryTimes
    ensures RelayAttempts(policy, env, startGroup) > retryTimes + 1
  {
    var err := RelayError(500, true, false, false, false);
    env := Env(retryTimes, groups, err, (e, left) => false, n => Tried(Some(err), false), (r, g, p) => g > startGroup);
    var decided := RelayEnv(policy, env);
    forall round ensures FailsIn(decided, round) {
      assert forall left :: ShouldRetry(policy, err, left);
    }
    StartingOver(startGroup, decided);
  }

  /** A pinned channel does stop everything but channel errors. */
  lemma PinnedRetriesOnlyChannelErrors(policy: Policy, env: Env<RelayError>, startGroup: nat)
    requires policy.pinnedChannel
    requires env.rounds(0).Tried? && env.rounds(0).result.Some? ==> !env.rounds(0).result.value.isChannelError
    ensures RelayAttempts(policy, env, startGroup) <= 1
  {
    NeverRetried(startGroup, RelayEnv(policy, env));
  }

  /** For tasks the bound also holds when the channel is pinned or locked. */
  lemma TaskBoundExactlyWhen(policy: Policy, groups: Groups, locked: bool, startGroup: nat, retryTimes: nat)
    ensures (forall env: Env<TaskError> :: env.groups == groups && env.retryTimes == retryTimes ==>
               TaskAttempts(policy, env, locked, startGroup) <= retryTimes + 1) <==>
            policy.affinityForbids || policy.pinnedChannel || locked
            || OneGroupLeft(groups, startGroup) || retryTimes == 0
  {
    if policy.affinityForbids || policy.pinnedChannel || locked || OneGroupLeft(groups, startGroup) || retryTimes == 0 {
      forall env: Env<TaskError> | env.groups == groups && env.retryTimes == retryTimes
        ensures TaskAttempts(policy, env, locked, startGroup) <= retryTimes + 1
      {
        if policy.affinityForbids || policy.pinnedChannel {
          NeverRetried(startGroup, TaskEnv(policy, env, locked));
        } else {
          OneGroupBound(startGroup, TaskEnv(policy, env, locked));
        }
      }
    } else {
      var env := FailingTask(policy, groups, startGroup, retryTimes);
      assert TaskAttempts(policy, env, locked, startGroup) > retryTimes + 1;
    }
  }

  /** The run: every attempt is answered with status 429, and the starting group has no channel left. */
  lemma FailingTask(policy: Policy, groups: Groups, startGroup: nat, retryTimes: nat)
    returns (env: Env<TaskError>)
    requires !policy.affinityForbids && !policy.pinnedChannel && !OneGroupLeft(groups, startGroup) && retryTimes > 0
    ensures env.groups == groups && env.retryTimes == retryTimes
    ensures TaskAttempts(policy, env, false, startGroup) > retryTimes + 1
  {
    var err := TaskError(429, false);
    env := Env(retryTimes, groups, err, (e, left) => false, n => Tried(Some(err), false), (r, g, p) => g > startGroup);
    var decided := TaskEnv(policy, env, false);
    forall round ensures FailsIn(decided, round) {
      assert forall left :: left > 0 ==> ShouldRetryTask(policy, err, left);
    }
    StartingOver(startGroup, decided);
  }

  // ------------------------------------------------------------------------ the bill

  function Count(trace: seq<Mark>, m: Mark): nat {
    if trace == [] then 0 else Count(trace[..|trace| - 1], m) + if trace[|trace| - 1] == m then 1 else 0
  }

  lemma {:induction false} CountAttempts(trace: seq<Mark>, m: Mark)
    requires forall i :: 0 <= i < |trace| ==> trace[i].Attempt?
    requires !m.Attempt?
    ensures Count(trace, m) == 0
  {
    if trace == [] {
    } else {
      CountAttempts(trace[..|trace| - 1], m);
    }
  }

  lemma CountLast(trace: seq<Mark>, last: Mark, m: Mark)
    ensures Count(trace + [last], m) == Count(trace, m) + if last == m then 1 else 0
  {
    assert (trace + [last])[..|trace|] == trace;
  }

  /** `Relay` from the reservation on. A request refused before or by the reservation leaves no mark;
      afterwards a deferred refund runs once if an error remains and there is a bill, either from before the
      loop or opened by one of the rounds it played. */
  method Relay(startGroup: nat, policy: Policy, env: Env<RelayError>, refused: Option<RelayError>, preConsumed: bool)
    returns (trace: seq<Mark>, err: Option<RelayError>, played: nat, ghost places: seq<Place>)
    ensures |trace| <= MostAttempts(env.groups, startGroup, env.retryTimes) + 1
    ensures Count(trace, Refund) <= 1 && Count(trace, Settle) == 0
    ensures Attempt(true) in trace ==> Count(trace, Refund) == 0 && err.None?
    ensures refused.Some? ==> trace == [] && err == refused
    ensures refused.None? ==> played == |places| && Runs(env, RelayRetries(policy), startGroup, places, err)
    ensures refused.None? ==>
              Count(trace, Refund) == if err.Some? && (preConsumed || OpenedBill(env, 0, played)) then 1 else 0
    ensures refused.None? ==>
              Count(trace, Refund) <= |trace|
              && Played(env, 0, None, trace[..|trace| - Count(trace, Refund)], err, played)
  {
    if refused.Some? {
      return [], refused, 0, [];
    }
    var decided := RelayEnv(policy, env);
    trace, err, played := RunRelay(startGroup, decided, preConsumed);
    places := RelayRun(policy, env, startGroup);
    SameRounds(env, decided, played, trace[..|trace| - Count(trace, Refund)], err);
  }

  /** The retry decision has no part in what was played. */
  lemma SameRounds<E(!new)>(env: Env<E>, decided: Env<E>, played: nat, trace: seq<Mark>, err: Option<E>)
    requires env.rounds == decided.rounds && env.noChannel == decided.noChannel
    ensures Played(env, 0, None, trace, err, played) <==> Played(decided, 0, None, trace, err, played)
    ensures OpenedBill(env, 0, played) <==> OpenedBill(decided, 0, played)
  {
  }

  method RunRelay<E(!new)>(startGroup: nat, env: Env<E>, preConsumed: bool)
    returns (trace: seq<Mark>, err: Option<E>, played: nat)
    ensures played == Loop(Counter(0, false, startGroup), 0, None, env).played
    ensures |trace| <= MostAttempts(env.groups, startGroup, env.retryTimes) + 1
    ensures Count(trace, Refund) <= 1 && Count(trace, Settle) == 0
    ensures Attempt(true) in trace ==> Count(trace, Refund) == 0 && err.None?
    ensures err == Loop(Counter(0, false, startGroup), 0, None, env).err
    ensures Count(trace, Refund) == if err.Some? && (preConsumed || OpenedBill(env, 0, played)) then 1 else 0
    ensures Count(trace, Refund) <= |trace|
            && Played(env, 0, None, trace[..|trace| - Count(trace, Refund)], err, played)
  {
    var billed;
    trace, err, billed, played := RetryLoop(startGroup, env);
    AttemptsBounded(startGroup, env);
    LoopShaped(Counter(0, false, startGroup), 0, None, env);
    LoopPlayed(Counter(0, false, startGroup), 0, None, env);
    OnlyAttempts(trace);
    SuccessLeavesNoError(Outcome(trace, err, billed, played));
    assert trace[..|trace|] == trace;
    if err.Some? && (preConsumed || billed) {
      Ending(trace, Refund);
      trace := trace + [Refund];
    }
  }

  /** `RelayTask` from its loop on: exactly one of settling and failing happens, and a failure refunds
      exactly when one of the rounds played opened a bill. */
  method RelayTask(startGroup: nat, policy: Policy, env: Env<TaskError>, locked: bool)
    returns (trace: seq<Mark>, err: Option<TaskError>, played: nat, ghost places: seq<Place>)
    ensures locked ==> LockedRuns(env, policy, played, err)
    ensures !locked ==> played == |places| && Runs(env, TaskRetries(policy), startGroup, places, err)
    ensures Count(trace, Settle) == (if err.None? then 1 else 0)
    ensures Count(trace, Refund) == (if err.Some? && OpenedBill(env, 0, played) then 1 else 0)
    ensures err.None? <==> Attempt(true) in trace
    ensures |trace| <= MostAttempts(if locked then Fixed else env.groups, startGroup, env.retryTimes) + 1
    ensures var ending := Count(trace, Settle) + Count(trace, Refund);
            ending <= |trace| && Played(env, 0, None, trace[..|trace| - ending], err, played)
  {
    var decided := TaskEnv(policy, env, locked);
    trace, err, played := RunTask(startGroup, decided);
    if locked {
      LockedRun(policy, env, startGroup);
      places := [];
    } else {
      places := TaskRun(policy, env, startGroup);
    }
    SameRounds(env, decided, played, trace[..|trace| - Count(trace, Settle) - Count(trace, Refund)], err);
  }

  method RunTask<E(!new)>(startGroup: nat, env: Env<E>)
    returns (trace: seq<Mark>, err: Option<E>, played: nat)
    ensures err == Loop(Counter(0, false, startGroup), 0, None, env).err
    ensures played == Loop(Counter(0, false, startGroup), 0, None, env).played
    ensures Count(trace, Settle) == (if err.None? then 1 else 0)
    ensures Count(trace, Refund) == (if err.Some? && OpenedBill(env, 0, played) then 1 else 0)
    ensures err.None? <==> Attempt(true) in trace
    ensures |trace| <= MostAttempts(env.groups, startGroup, env.retryTimes) + 1
    ensures var ending := Count(trace, Settle) + Count(trace, Refund);
            ending <= |trace| && Played(env, 0, None, trace[..|trace| - ending], err, played)
  {
    var billed;
    trace, err, billed, played := RetryLoop(startGroup, env);
    AttemptsBounded(startGroup, env);
    LoopShaped(Counter(0, false, startGroup), 0, None, env);
    LoopPlayed(Counter(0, false, startGroup), 0, None, env);
    OnlyAttempts(trace);
    SuccessLeavesNoError(Outcome(trace, err, billed, played));
    assert trace[..|trace|] == trace;
    if err.None? {
      Ending(trace, Settle);
      trace := trace + [Settle];
    } else if billed {
      Ending(trace, Refund);
      trace := trace + [Refund];
    }
  }

  lemma SuccessLeavesNoError<E(!new)>(r: Outcome<E>)
    requires Shaped(r)
    ensures Attempt(true) in r.trace <==> r.err.None?
  {
    if r.err.None? {
      assert r.trace[|r.trace| - 1] == Attempt(true);
    }
  }

  lemma OnlyAttempts(trace: seq<Mark>)
    requires forall i :: 0 <= i < |trace| ==> trace[i].Attempt?
    ensures Count(trace, Settle) == 0 && Count(trace, Refund) == 0
  {
    CountAttempts(trace, Settle);
    CountAttempts(trace, Refund);
  }

  /** One closing mark behind the attempts. */
  lemma Ending(trace: seq<Mark>, last: Mark)
    requires !last.Attempt? && forall i :: 0 <= i < |trace| ==> trace[i].Attempt?
    ensures var all := trace + [last];
            && Count(all, Settle) == (if last == Settle then 1 else 0)
            && Count(all, Refund) == (if last == Refund then 1 else 0)
            && all[..|all| - 1] == trace && (Attempt(true) in all <==> Attempt(true) in trace)
  {
    OnlyAttempts(trace);
    CountLast(trace, last, Settle);
    CountLast(trace, last, Refund);
  }
}
