/** The life of a request's bill (service/billing_session.go, service/funding_source.go): quota is
    reserved on a funding source and on the token, topped up, and finally settled or refunded. Every operation
    on the database may fail, also one that undoes a partial step or returns money; the code only logs that. */
module BillingSession {

  datatype Source = Wallet | Subscription

  /** A session next to the two balances it moves: what is left on the funding source and on the token. */
  datatype State = State(
    source: Source, playground: bool,
    funds: int, token: int,
    preConsumed: int,      // quota reserved in all
    fundingHeld: int,      // wallet: everything taken; subscription: what its first reservation took
    tokenConsumed: int, extraReserved: int,
    trusted: bool, fundingSettled: bool, settled: bool, refunded: bool)

  function Fresh(source: Source, playground: bool, funds: int, token: int): State {
    State(source, playground, funds, token, 0, 0, 0, 0, false, false, false, false)
  }

  /** Token quota moves only outside the playground. */
  function TakeToken(s: State, amount: int): State {
    if s.playground then s else s.(token := s.token - amount)
  }

  // ------------------------------------------------------------------- reservation

  /** How the database answers during a reservation: may the token be charged, may the source be
      charged, how much a subscription actually reserved (it may pick another package, hence another
      price), may the token be brought in line with that, and do source and token take back what a later
      refusal has made void. */
  datatype Answers = Answers(
    tokenOk: bool, fundingOk: bool, selected: nat, adjustOk: bool, undoFundingOk: bool, undoTokenOk: bool)

  datatype Started = Started(s: State) | Rejected(s: State)

  /** `preConsume`; `trusts` tells whether the trust bypass applies, which it never does to subscriptions. */
  function PreConsume(s: State, quota: nat, trusts: bool, db: Answers): Started {
    var trusted := trusts && s.source.Wallet?;
    var effective := if trusted then 0 else quota;
    if effective > 0 && !s.playground && !db.tokenOk then Rejected(s)
    else
      var charged := TakeToken(s, effective).(trusted := trusted, tokenConsumed := effective);
      match s.source
      case Wallet => FundedByWallet(charged, effective, db)
      case Subscription => FundedBySubscription(charged, effective, db)
  }

  /** The wallet's part, once the token was charged. */
  function FundedByWallet(s: State, effective: int, db: Answers): Started {
    if effective > 0 && !db.fundingOk then Rejected(Undone(s, db.undoTokenOk))
    else Started(s.(funds := s.funds - effective, fundingHeld := effective, preConsumed := effective))
  }

  /** The subscription's part: the package it picked may cost more or less than was charged to the token,
      which is brought in line. */
  function FundedBySubscription(s: State, effective: int, db: Answers): Started {
    if !db.fundingOk || db.selected == 0 then Rejected(Undone(s, db.undoTokenOk))
    else
      var held := s.(funds := s.funds - db.selected, fundingHeld := db.selected, preConsumed := db.selected);
      var delta := db.selected - effective;
      if s.playground || delta == 0 then Started(held)
      else if !db.adjustOk then
        Rejected(Undone(held, db.undoTokenOk).(
          funds := if db.undoFundingOk then s.funds else held.funds, fundingHeld := 0, preConsumed := 0))
      else Started(TakeToken(held, delta).(tokenConsumed := held.tokenConsumed + delta))
  }

  /** The token reservation given back, if the token takes it. */
  function Undone(s: State, ok: bool): State {
    (if ok then TakeToken(s, -s.tokenConsumed) else s).(tokenConsumed := 0)
  }

  // ----------------------------------------------------------- top-up, settlement, refund

  /** `Reserve`: raise the reservation to a target, on both sides or on neither. If the token refuses, the
      source is to take its part back; where it does not, a wallet's session at least remembers it. */
  function Reserve(s: State, target: int, fundingOk: bool, tokenOk: bool, undoOk: bool): State {
    var delta := target - s.preConsumed;
    if s.settled || s.refunded || s.trusted || delta <= 0 || !fundingOk then s
    else
      var taken := s.(
        funds := s.funds - delta, fundingHeld := if s.source.Wallet? then s.fundingHeld + delta else s.fundingHeld);
      if !s.playground && !tokenOk then (if undoOk then s else taken)
      else
        TakeToken(taken, delta).(
          preConsumed := s.preConsumed + delta, tokenConsumed := s.tokenConsumed + delta,
          extraReserved := s.extraReserved + delta)
  }

  /** `Settle`: correct the reservation to what was used. The source comes first; once it is corrected a
      failing token correction is only reported. */
  function Settle(s: State, actual: int, fundingOk: bool, tokenOk: bool): State {
    var delta := actual - s.preConsumed;
    if s.settled || (!s.fundingSettled && delta != 0 && !fundingOk) then s
    else
      var committed := s.(
        funds := if s.fundingSettled then s.funds else s.funds - delta, fundingSettled := true, settled := true);
      if tokenOk then TakeToken(committed, delta) else committed
  }

  predicate NeedsRefund(s: State) {
    !s.settled && !s.refunded && !s.fundingSettled
    && (s.tokenConsumed > 0 || (s.source.Subscription? && s.fundingHeld > 0))
  }

  /** Which of a refund's three steps the database performs: the source's own reservation, what a subscription
      was topped up by, and the token's part. */
  datatype Returns = Returns(source: bool, extra: bool, token: bool)

  /** `Refund`: everything reserved goes back, once. */
  function Refund(s: State, r: Returns): State {
    if !NeedsRefund(s) then s
    else
      var own := if r.source && s.fundingHeld > 0 then s.fundingHeld else 0;
      var extra := if r.extra && s.source.Subscription? && s.extraReserved > 0 then s.extraReserved else 0;
      TakeToken(s, if r.token && s.tokenConsumed > 0 then -s.tokenConsumed else 0)
        .(funds := s.funds + own + extra, refunded := true)
  }

  // ------------------------------------------------------------------------ the session

  class Session {
    const source: Source
    const playground: bool
    var funds: int
    var token: int
    var preConsumed: int
    var fundingHeld: int
    var tokenConsumed: int
    var extraReserved: int
    var trusted: bool
    var fundingSettled: bool
    var settled: bool
    var refunded: bool

    function Now(): State
      reads this
    {
      State(source, playground, funds, token, preConsumed, fundingHeld, tokenConsumed, extraReserved,
            trusted, fundingSettled, settled, refunded)
    }

    constructor (source: Source, playground: bool, funds: int, token: int)
      ensures Now() == State(source, playground, funds, token, 0, 0, 0, 0, false, false, false, false)
    {
      this.source, this.playground, this.funds, this.token := source, playground, funds, token;
      preConsumed, fundingHeld, tokenConsumed, extraReserved := 0, 0, 0, 0;
      trusted, fundingSettled, settled, refunded := false, false, false, false;
    }

    /** What a reservation leaves: all of its state if it started, and else the two balances. */
    ghost predicate Reached(r: Started, ok: bool)
      reads this
    {
      && ok == r.Started? && funds == r.s.funds && token == r.s.token
      && (ok ==> Now() == r.s)
    }

    method ChargeToken(amount: int)
      modifies `token
      ensures token == TakeToken(old(Now()), amount).token
    {
      if !playground { token := token - amount; }
    }

    method PreConsumeQuota(quota: nat, trusts: bool, db: Answers) returns (ok: bool)
      requires Now() == Fresh(source, playground, funds, token)
      modifies this
      ensures Reached(PreConsume(old(Now()), quota, trusts, db), ok)
    {
      var effective: int := quota;
      if trusts && source.Wallet? {
        trusted, effective := true, 0;
      }
      if effective > 0 {
        if !playground && !db.tokenOk {
          return false;
        }
        ChargeToken(effective);
      }
      tokenConsumed := effective;
      if source.Wallet? {
        ok := FundFromWallet(effective, db);
      } else {
        ok := FundFromSubscription(effective, db);
      }
    }

    /** The wallet's part of a reservation. */
    method FundFromWallet(effective: int, db: Answers) returns (ok: bool)
      requires tokenConsumed == effective
      modifies this
      ensures Reached(FundedByWallet(old(Now()), effective, db), ok)
    {
      if effective > 0 && !db.fundingOk {
        if db.undoTokenOk { ChargeToken(-tokenConsumed); }
        return false;
      }
      funds, fundingHeld, preConsumed := funds - effective, effective, effective;
      return true;
    }

    /** The subscription's part. */
    method FundFromSubscription(effective: int, db: Answers) returns (ok: bool)
      requires tokenConsumed == effective
      modifies this
      ensures Reached(FundedBySubscription(old(Now()), effective, db), ok)
    {
      if !db.fundingOk || db.selected == 0 {
        if db.undoTokenOk { ChargeToken(-tokenConsumed); }
        return false;
      }
      funds, fundingHeld := funds - db.selected, db.selected;
      var delta := db.selected - effective;
      if delta != 0 && !playground {
        if !db.adjustOk {
          if db.undoFundingOk { funds := funds + db.selected; }
          if db.undoTokenOk { ChargeToken(-tokenConsumed); }
          return false;
        }
        ChargeToken(delta);
        tokenConsumed := tokenConsumed + delta;
      }
      preConsumed := db.selected;
      return true;
    }

    method ReserveQuota(target: int, fundingOk: bool, tokenOk: bool, undoOk: bool) returns (ok: bool)
      modifies this
      ensures Now() == Reserve(old(Now()), target, fundingOk, tokenOk, undoOk)
      ensures ok <==> old(settled || refunded || trusted) || preConsumed >= target
    {
      if settled || refunded || trusted || target <= preConsumed {
        return true;
      }
      var delta := target - preConsumed;
      if !fundingOk {
        return false;
      }
      funds := funds - delta;
      if source.Wallet? { fundingHeld := fundingHeld + delta; }
      if !playground && !tokenOk {
        if undoOk {
          funds := funds + delta;
          if source.Wallet? { fundingHeld := fundingHeld - delta; }
        }
        return false;
      }
      ChargeToken(delta);
      preConsumed, tokenConsumed, extraReserved := preConsumed + delta, tokenConsumed + delta, extraReserved + delta;
      return true;
    }

    method SettleQuota(actual: int, fundingOk: bool, tokenOk: bool) returns (ok: bool)
      modifies this
      ensures Now() == Settle(old(Now()), actual, fundingOk, tokenOk || actual == old(preConsumed))
      ensures ok <==> old(settled) || actual == old(preConsumed)
                      || ((fundingOk || old(fundingSettled)) && (tokenOk || playground))
    {
      if settled {
        return true;
      }
      var delta := actual - preConsumed;
      if !fundingSettled {
        if delta != 0 {
          if !fundingOk {
            return false;
          }
          funds := funds - delta;
        }
        fundingSettled := true;
      }
      if delta == 0 {
        settled := true;
        return true;
      }
      ok := playground || tokenOk;
      if tokenOk { ChargeToken(delta); }
      settled := true;
    }

    method RefundQuota(r: Returns)
      modifies this
      ensures Now() == Refund(old(Now()), r)
    {
      if settled || refunded || !NeedsRefund(Now()) {
        return;
      }
      refunded := true;
      if fundingHeld > 0 && r.source { funds := funds + fundingHeld; }
      if extraReserved > 0 && source.Subscription? && r.extra { funds := funds + extraReserved; }
      if tokenConsumed > 0 && r.token { ChargeToken(-tokenConsumed); }
    }
  }

  // -------------------------------------------------------------- what a bill comes to

  /** An amount on the funding source and one on the token. */
  datatype Charge = Charge(funds: int, token: int)

  /** What happened besides the session's own fields: what a settlement charged, and what failed attempts to
      undo or return something have lost. */
  datatype Ledger = Ledger(charged: Charge, lost: Charge)

  const CLEAN := Ledger(Charge(0, 0), Charge(0, 0))

  /** What the session knows the source to have given, and by how much that exceeds the reservation. */
  function Held(s: State): int {
    if s.source.Wallet? then s.fundingHeld else s.preConsumed
  }

  function Stuck(s: State): int {
    Held(s) - s.preConsumed
  }

  /** What a balance is short of while the bill is open, once it was settled, and once it was refunded. A
      settlement after the refund charges only the difference to what had been reserved; one without a
      refund does not give back what is stuck. */
  function Due(s: State, held: int, charged: int): int {
    if s.settled && s.refunded then charged - s.preConsumed
    else if s.settled then charged + (held - s.preConsumed)
    else if s.refunded then 0
    else held
  }

  /** The balances differ from the opening ones by exactly what is due and what was lost, and the session's
      own fields agree with it. */
  ghost predicate Accounted(open: State, s: State, l: Ledger) {
    && s.source == open.source && s.playground == open.playground
    && s.preConsumed >= 0 && s.extraReserved >= 0 && s.fundingHeld >= 0 && Stuck(s) >= 0
    && (s.source.Subscription? ==> s.fundingHeld > 0 && s.preConsumed == s.fundingHeld + s.extraReserved)
    && (if s.playground && s.source.Subscription? then s.tokenConsumed >= 0 else s.tokenConsumed == s.preConsumed)
    && (s.fundingSettled <==> s.settled)
    && s.funds == open.funds - Due(s, Held(s), l.charged.funds) - l.lost.funds
    && s.token == open.token - (if s.playground then 0 else Due(s, s.preConsumed, l.charged.token) + l.lost.token)
  }

  /** A reservation that succeeds is fully accounted for. One that fails takes nothing from the source exactly
      when the source had given nothing or takes it back, and nothing from the token likewise. */
  lemma PreConsumeAllOrNothing(open: State, quota: nat, trusts: bool, db: Answers)
    requires open == Fresh(open.source, open.playground, open.funds, open.token)
    ensures var r := PreConsume(open, quota, trusts, db);
            var tokenRefused := quota > 0 && !open.playground && !db.tokenOk;
            if r.Started? then
              && Accounted(open, r.s, CLEAN) && Stuck(r.s) == 0
              && r.s.preConsumed == if open.source.Subscription? then db.selected
                                    else if r.s.trusted then 0 else quota
            else
              && (r.s.funds == open.funds <==>
                  open.source.Wallet? || tokenRefused || !db.fundingOk || db.selected == 0 || db.undoFundingOk)
              && (r.s.token == open.token <==> quota == 0 || open.playground || tokenRefused || db.undoTokenOk)
  {
  }

  /** Where it does cost something: a subscription reserves more than was asked for, the token refuses the
      difference, and neither takes back what it gave. */
  lemma UndoFails(open: State, quota: nat, selected: nat)
    requires open == Fresh(Subscription, false, open.funds, open.token) && 0 < quota < selected
    ensures var r := PreConsume(open, quota, false, Answers(true, true, selected, false, false, false));
            r.Rejected? && r.s.funds == open.funds - selected && r.s.token == open.token - quota
  {
  }

  /** A reservation starts exactly when every step it needs is accepted: the token's charge, the source's, and
      for a subscription the token's correction to the price of the package. A trusted wallet needs none. */
  lemma ReservationStartsExactlyWhen(open: State, quota: nat, trusts: bool, db: Answers)
    requires open == Fresh(open.source, open.playground, open.funds, open.token)
    ensures var r := PreConsume(open, quota, trusts, db);
            && (open.source.Wallet? ==>
                  (r.Started? <==> trusts || quota == 0 || (db.fundingOk && (open.playground || db.tokenOk))))
            && (open.source.Subscription? ==>
                  (r.Started? <==>
                   && (quota == 0 || open.playground || db.tokenOk)
                   && db.fundingOk && db.selected > 0
                   && (open.playground || db.selected == quota || db.adjustOk)))
            && (r.Started? ==> (r.s.trusted <==> trusts && open.source.Wallet?))
  {
  }

  datatype Event =
    | TopUp(target: int, fundingOk: bool, tokenOk: bool, undoOk: bool)
    | SettleUp(actual: int, fundingOk: bool, tokenOk: bool)
    | GiveBack(back: Returns)

  function Step(s: State, e: Event): State {
    match e
    case TopUp(target, fundingOk, tokenOk, undoOk) => Reserve(s, target, fundingOk, tokenOk, undoOk)
    case SettleUp(actual, fundingOk, tokenOk) => Settle(s, actual, fundingOk, tokenOk)
    case GiveBack(back) => Refund(s, back)
  }

  /** The charge a settlement fixes: the first one that goes through charges the source what was used, and
      the token too, unless its correction fails and it stays charged what was reserved. */
  function ChargedBy(s: State, e: Event, charged: Charge): Charge {
    if !s.settled && e.SettleUp? && Step(s, e).settled
    then Charge(e.actual, if e.tokenOk then e.actual else s.preConsumed)
    else charged
  }

  /** What a step loses: a subscription's part of a top-up that it does not take back, and whatever a refund
      fails to return. */
  function LostBy(s: State, e: Event): Charge {
    match e
    case TopUp(target, fundingOk, tokenOk, undoOk) =>
      var tried := !s.settled && !s.refunded && !s.trusted && target > s.preConsumed && fundingOk;
      if tried && !s.playground && !tokenOk && !undoOk && s.source.Subscription?
      then Charge(target - s.preConsumed, 0) else Charge(0, 0)
    case SettleUp(_, _, _) => Charge(0, 0)
    case GiveBack(r) =>
      if !NeedsRefund(s) then Charge(0, 0)
      else Charge(
        (if r.source then 0 else s.fundingHeld) + (if r.extra || s.source.Wallet? then 0 else s.extraReserved),
        if r.token then 0 else s.tokenConsumed)
  }

  function Booked(s: State, e: Event, l: Ledger): Ledger {
    var lost := LostBy(s, e);
    Ledger(ChargedBy(s, e, l.charged), Charge(l.lost.funds + lost.funds, l.lost.token + lost.token))
  }

  function Run(s: State, events: seq<Event>): State
    decreases |events|
  {
    if events == [] then s else Run(Step(s, events[0]), events[1..])
  }

  function LedgerOf(s: State, events: seq<Event>, l: Ledger): Ledger
    decreases |events|
  {
    if events == [] then l else LedgerOf(Step(s, events[0]), events[1..], Booked(s, events[0], l))
  }

  lemma StepAccounted(open: State, s: State, l: Ledger, e: Event)
    requires Accounted(open, s, l)
    ensures Accounted(open, Step(s, e), Booked(s, e, l))
  {
    match e {
      case TopUp(_, _, _, _) => TopUpAccounted(open, s, l, e);
      case SettleUp(_, _, _) => SettleAccounted(open, s, l, e);
      case GiveBack(_) => RefundAccounted(open, s, l, e);
    }
  }

  lemma TopUpAccounted(open: State, s: State, l: Ledger, e: Event)
    requires Accounted(open, s, l) && e.TopUp?
    ensures Accounted(open, Step(s, e), Booked(s, e, l))
  {
  }

  lemma SettleAccounted(open: State, s: State, l: Ledger, e: Event)
    requires Accounted(open, s, l) && e.SettleUp?
    ensures Accounted(open, Step(s, e), Booked(s, e, l))
  {
  }

  lemma RefundAccounted(open: State, s: State, l: Ledger, e: Event)
    requires Accounted(open, s, l) && e.GiveBack?
    ensures Accounted(open, Step(s, e), Booked(s, e, l))
  {
  }

  /** Over every run of top-ups, settlements and refunds, in any order, repeated or failing at any step, the
      source and the token lose exactly what is due and what failed undos and returns lost. */
  lemma {:induction false} EveryRunAccounted(open: State, s: State, l: Ledger, events: seq<Event>)
    requires Accounted(open, s, l)
    ensures Accounted(open, Run(s, events), LedgerOf(s, events, l))
    decreases |events|
  {
    if events == [] {
    } else {
      StepAccounted(open, s, l, events[0]);
      EveryRunAccounted(open, Step(s, events[0]), Booked(s, events[0], l), events[1..]);
    }
  }

  /** Nothing that undoes or returns something fails. */
  ghost predicate UndoesWork(events: seq<Event>) {
    forall i :: 0 <= i < |events| ==> UndoWorks(events[i])
  }

  ghost predicate UndoWorks(e: Event) {
    (e.TopUp? ==> e.undoOk) && (e.GiveBack? ==> e.back == Returns(true, true, true))
  }

  /** Then nothing is ever lost or stuck: the source is short of what is reserved while the bill is open, of
      what was charged once it is settled, and of nothing once it was refunded. */
  lemma {:induction false} NothingIsLost(s: State, l: Ledger, events: seq<Event>)
    requires UndoesWork(events) && Stuck(s) == 0
    ensures LedgerOf(s, events, l).lost == l.lost && Stuck(Run(s, events)) == 0
    decreases |events|
  {
    if events == [] {
    } else {
      assert UndoWorks(events[0]);
      assert UndoesWork(events[1..]) by {
        assert forall i :: 0 <= i < |events| - 1 ==> events[1..][i] == events[i + 1];
      }
      NothingIsLost(Step(s, events[0]), Booked(s, events[0], l), events[1..]);
    }
  }

  /** When a refund of an open bill returns everything: on the source's side exactly when nothing was lost
      before, there is something the session sees as reserved or nothing is held at all, and the source (and
      for topped-up subscriptions the top-up too) takes it back; on the token's side likewise. */
  lemma RefundReturnsExactlyWhen(open: State, s: State, l: Ledger, r: Returns)
    requires Accounted(open, s, l) && !s.settled && !s.refunded && l.lost.funds >= 0 && l.lost.token >= 0
    ensures Refund(s, r).funds == open.funds <==>
            && l.lost.funds == 0
            && (Held(s) == 0 || (r.source && (s.tokenConsumed > 0 || s.source.Subscription?)
                                 && (r.extra || s.source.Wallet? || s.extraReserved == 0)))
    ensures Refund(s, r).token == open.token <==>
            s.playground || (l.lost.token == 0 && (r.token || s.preConsumed == 0))
    ensures s.preConsumed > 0 ==> Refund(s, r).refunded
  {
  }

  /** What is stuck with a wallet that has nothing reserved is never refunded, since the session looks at the
      token to see whether there is anything to refund. */
  lemma OnlyStuckIsNotRefunded(open: State, more: int)
    requires open == Fresh(Wallet, false, open.funds, open.token) && more > 0
    ensures var reserved := PreConsume(open, 0, false, Answers(true, true, 0, true, true, true));
            && reserved.Started?
            && Run(reserved.s, [TopUp(more, true, false, false), GiveBack(Returns(true, true, true))]).funds
               == open.funds - more
  {
    var s := PreConsume(open, 0, false, Answers(true, true, 0, true, true, true)).s;
    var first, last := TopUp(more, true, false, false), GiveBack(Returns(true, true, true));
    assert [first, last][1..] == [last] && [last][1..] == [];
    assert Run(s, [first, last]) == Run(Step(s, first), [last]) == Run(Step(Step(s, first), last), []);
  }

  /** So a run in which nothing that undoes or returns fails, and in which no settlement went through, ends
      with both balances as they were before the reservation once it ends in a refund. */
  lemma RunsEndingInRefund(open: State, s: State, charged: Charge, events: seq<Event>)
    requires Accounted(open, s, Ledger(charged, Charge(0, 0))) && Stuck(s) == 0 && UndoesWork(events)
    requires !Run(s, events).settled
    ensures var after := Run(s, events + [GiveBack(Returns(true, true, true))]);
            after.funds == open.funds && after.token == open.token
  {
    var l, all := Ledger(charged, Charge(0, 0)), Returns(true, true, true);
    EveryRunAccounted(open, s, l, events);
    NothingIsLost(s, l, events);
    RunAppend(s, events, GiveBack(all));
    if !Run(s, events).refunded {
      RefundReturnsExactlyWhen(open, Run(s, events), LedgerOf(s, events, l), all);
    }
  }

  lemma {:induction false} RunAppend(s: State, events: seq<Event>, e: Event)
    ensures Run(s, events + [e]) == Step(Run(s, events), e)
    decreases |events|
  {
    if events == [] {
      assert Run(s, [e]) == Run(Step(s, e), []);
    } else {
      RunAppend(Step(s, events[0]), events[1..], e);
      assert (events + [e])[1..] == events[1..] + [e];
    }
  }

  /** A top-up of an open bill that both sides accept brings the reservation to its target and takes the
      difference from both; one that a side refuses, that asks for no more, or of a trusted session, which
      reserves nothing, changes nothing, unless the token refuses and the source does not take its part back:
      then the source alone has paid. */
  lemma TopUpReachesTarget(
    open: State, s: State, l: Ledger, target: int, fundingOk: bool, tokenOk: bool, undoOk: bool)
    requires Accounted(open, s, l) && !s.settled && !s.refunded
    ensures var after := Reserve(s, target, fundingOk, tokenOk, undoOk);
            if s.trusted || target <= s.preConsumed || !fundingOk then after == s
            else if tokenOk || s.playground then
              && after.preConsumed == target && after.funds == s.funds - (target - s.preConsumed)
              && after.token == s.token - (if s.playground then 0 else target - s.preConsumed)
            else if undoOk then after == s
            else
              && after.preConsumed == s.preConsumed && after.token == s.token
              && after.funds == s.funds - (target - s.preConsumed)
  {
  }

  /** A settlement that the source accepts closes the bill and leaves the source short of exactly what was
      used and what is stuck or lost, and the token too, unless it refuses and stays short of what was
      reserved; one that the source refuses changes nothing. */
  lemma SettlementCharges(open: State, s: State, l: Ledger, actual: int, fundingOk: bool, tokenOk: bool)
    requires Accounted(open, s, l) && !s.settled && !s.refunded
    ensures var after := Settle(s, actual, fundingOk, tokenOk);
            if fundingOk || actual == s.preConsumed then
              && after.settled && after.funds == open.funds - actual - Stuck(s) - l.lost.funds
              && after.token == open.token - (if s.playground then 0
                                              else (if tokenOk then actual else s.preConsumed) + l.lost.token)
            else after == s
  {
  }

  /** A settlement makes source and token pay what was used, exactly when the session was not refunded before
      or had reserved nothing, nothing is stuck with the source, and nothing was lost. */
  lemma SettleChargesExactlyWhen(open: State, s: State, l: Ledger, actual: int)
    requires Accounted(open, s, l) && !s.settled && l.lost == Charge(0, 0)
    ensures var after := Settle(s, actual, true, true);
            && (after.funds == open.funds - actual <==> if s.refunded then s.preConsumed == 0 else Stuck(s) == 0)
            && (after.token == open.token - (if s.playground then 0 else actual) <==>
                s.playground || !s.refunded || s.preConsumed == 0)
  {
  }

  /** The failing runs, from a fresh session. Reserve, refund, settle: the source pays the reserved amount
      too little. */
  lemma SettleAfterRefund(open: State, quota: nat, actual: int)
    requires open == Fresh(Wallet, open.playground, open.funds, open.token) && quota > 0
    ensures var reserved := PreConsume(open, quota, false, Answers(true, true, 0, true, true, true));
            && reserved.Started?
            && Run(reserved.s, [GiveBack(Returns(true, true, true)), SettleUp(actual, true, true)]).funds
               == open.funds - (actual - quota)
  {
    var s := PreConsume(open, quota, false, Answers(true, true, 0, true, true, true)).s;
    var all := Returns(true, true, true);
    var first, last := GiveBack(all), SettleUp(actual, true, true);
    assert [first, last][1..] == [last] && [last][1..] == [];
    assert Run(s, [first, last]) == Run(Refund(s, all), [last]) == Run(Settle(Refund(s, all), actual, true, true), []);
  }

  /** Reserve, a top-up that the token refuses and the wallet does not take back, settle: the wallet pays the
      top-up on top of what was used. */
  lemma FailedUndoOvercharges(open: State, quota: nat, more: int, actual: int)
    requires open == Fresh(Wallet, false, open.funds, open.token) && more > 0
    ensures var reserved := PreConsume(open, quota, false, Answers(true, true, 0, true, true, true));
            && reserved.Started?
            && Run(reserved.s, [TopUp(quota + more, true, false, false), SettleUp(actual, true, true)]).funds
               == open.funds - actual - more
  {
    var s := PreConsume(open, quota, false, Answers(true, true, 0, true, true, true)).s;
    var first, last := TopUp(quota + more, true, false, false), SettleUp(actual, true, true);
    assert [first, last][1..] == [last] && [last][1..] == [];
    assert Run(s, [first, last]) == Run(Step(s, first), [last]) == Run(Step(Step(s, first), last), []);
  }

  /** A settled session never moves money again, nor does a refunded one, unless it is settled after all. */
  lemma ClosedSessionsAreFinal(open: State, s: State, l: Ledger, e: Event)
    requires Accounted(open, s, l) && (s.settled || (s.refunded && !e.SettleUp?))
    ensures Step(s, e).funds == s.funds && Step(s, e).token == s.token
  {
  }
}
