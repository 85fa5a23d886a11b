/** The expiring verification-code store (common/verification.go). Times are nanoseconds. */
module VerificationStore {
  import opened Basics

  const EMAIL_VERIFICATION_PURPOSE := "v"
  const PASSWORD_RESET_PURPOSE := "r"
  const MAX_SIZE := 10
  const VALID_MINUTES := 10
  const SECOND := 1_000_000_000

  datatype Entry = Entry(code: string, time: int)

  type Entries = map<string, Entry>

  /** Whole seconds of age have reached the validity. */
  predicate Expired(e: Entry, now: int) {
    (now - e.time) / SECOND >= VALID_MINUTES * 60
  }

  function Swept(entries: Entries, now: int): Entries {
    map id | id in entries && !Expired(entries[id], now) :: entries[id]
  }

  function AfterRegister(entries: Entries, id: string, code: string, now: int): Entries {
    var added := entries[id := Entry(code, now)];
    if |added| > MAX_SIZE then Swept(added, now) else added
  }

  predicate Accepts(entries: Entries, id: string, code: string, now: int) {
    id in entries && !Expired(entries[id], now) && code == entries[id].code
  }

  class VerificationMap {
    var entries: Entries

    constructor ()
      ensures entries == map[]
    {
      entries := map[];
    }

    /** `RegisterVerificationCodeWithKey`. */
    method Register(key: string, code: string, purpose: string, now: int)
      modifies this
      ensures entries == AfterRegister(old(entries), purpose + key, code, now)
    {
      entries := entries[purpose + key := Entry(code, now)];
      if |entries| > MAX_SIZE {
        RemoveExpiredPairs(now);
      }
    }

    /** `VerifyCodeWithKey`. */
    method Verify(key: string, code: string, purpose: string, now: int) returns (ok: bool)
      ensures ok == Accepts(entries, purpose + key, code, now)
    {
      if purpose + key !in entries {
        return false;
      }
      var value := entries[purpose + key];
      if (now - value.time) / SECOND >= VALID_MINUTES * 60 {
        return false;
      }
      return code == value.code;
    }

    /** `DeleteKey`. */
    method Delete(key: string, purpose: string)
      modifies this
      ensures entries == old(entries) - {purpose + key}
    {
      entries := entries - {purpose + key};
    }

    /** `removeExpiredPairs`. */
    method RemoveExpiredPairs(now: int)
      modifies this
      ensures entries == Swept(old(entries), now)
    {
      var ids := entries.Keys;
      while ids != {}
        invariant ids <= old(entries).Keys
        invariant entries == map id | id in old(entries) && (id in ids || !Expired(old(entries)[id], now))
                                 :: old(entries)[id]
      {
        var id :| id in ids;
        if Expired(entries[id], now) {
          entries := entries - {id};
        }
        ids := ids - {id};
      }
    }
  }

  // ----------------------------------------------------- the reference: an unbounded log

  datatype Op =
    | Registered(purpose: string, key: string, code: string, now: int)
    | Deleted(purpose: string, key: string, now: int)
    | Asked(purpose: string, key: string, code: string, now: int)

  /** The latest registration for exactly this purpose and key, if it was not deleted since. */
  function Latest(history: seq<Op>, purpose: string, key: string): Option<Entry> {
    if history == [] then None
    else
      var last := history[|history| - 1];
      if last.purpose != purpose || last.key != key || last.Asked? then
        Latest(history[..|history| - 1], purpose, key)
      else if last.Registered? then Some(Entry(last.code, last.now))
      else None
  }

  predicate LogAccepts(history: seq<Op>, purpose: string, key: string, code: string, now: int) {
    var e := Latest(history, purpose, key);
    e.Some? && !Expired(e.value, now) && code == e.value.code
  }

  // ------------------------------------------------------------------------------ runs

  function After(entries: Entries, op: Op): Entries {
    match op
    case Registered(purpose, key, code, now) => AfterRegister(entries, purpose + key, code, now)
    case Deleted(purpose, key, _) => entries - {purpose + key}
    case Asked(_, _, _, _) => entries
  }

  function Answers(entries: Entries, ops: seq<Op>): seq<bool>
    decreases |ops|
  {
    if ops == [] then []
    else
      (if ops[0].Asked? then [Accepts(entries, ops[0].purpose + ops[0].key, ops[0].code, ops[0].now)] else [])
      + Answers(After(entries, ops[0]), ops[1..])
  }

  function LogAnswers(history: seq<Op>, ops: seq<Op>): seq<bool>
    decreases |ops|
  {
    if ops == [] then []
    else
      (if ops[0].Asked? then [LogAccepts(history, ops[0].purpose, ops[0].key, ops[0].code, ops[0].now)] else [])
      + LogAnswers(history + [ops[0]], ops[1..])
  }

  /** The clock never runs backwards. */
  ghost predicate Monotone(start: int, ops: seq<Op>)
    decreases |ops|
  {
    ops == [] || (start <= ops[0].now && Monotone(ops[0].now, ops[1..]))
  }

  ghost predicate Uses(ops: seq<Op>, purposes: set<string>) {
    forall i :: 0 <= i < |ops| ==> ops[i].purpose in purposes
  }

  // --------------------------------------------------------------------- the simulation

  /** No purpose is a proper prefix of another. */
  ghost predicate PrefixFree(purposes: set<string>) {
    forall p, q :: p in purposes && q in purposes && p <= q ==> p == q
  }

  lemma IdInjective(purposes: set<string>, p: string, k: string, q: string, l: string)
    requires PrefixFree(purposes) && p in purposes && q in purposes && p + k == q + l
    ensures p == q && k == l
  {
    ConcatPrefix(p, k, q, l);
    assert k == (p + k)[|p|..] == (q + l)[|q|..] == l;
  }

  lemma ConcatPrefix(p: string, k: string, q: string, l: string)
    requires p + k == q + l
    ensures p <= q || q <= p
  {
    if |p| <= |q| {
      assert p == (p + k)[..|p|] == (q + l)[..|p|] == q[..|p|];
    } else {
      assert q == (q + l)[..|q|] == (p + k)[..|q|] == p[..|q|];
    }
  }

  /** What the store may hold for one purpose and key: the latest entry, or nothing once it expired. */
  ghost predicate Holds(entries: Entries, latest: Option<Entry>, id: string, now: int) {
    match latest
    case None => id !in entries
    case Some(e) => e.time <= now && if id in entries then entries[id] == e else Expired(e, now)
  }

  ghost predicate Simulates(entries: Entries, history: seq<Op>, purposes: set<string>, now: int) {
    forall p, k :: p in purposes ==> Holds(entries, Latest(history, p, k), p + k, now)
  }

  lemma SweepHolds(entries: Entries, latest: Option<Entry>, id: string, now: int)
    requires Holds(entries, latest, id, now)
    ensures Holds(Swept(entries, now), latest, id, now)
  {
  }

  lemma LatestAfter(history: seq<Op>, op: Op, purpose: string, key: string)
    ensures Latest(history + [op], purpose, key) ==
            if op.Asked? || op.purpose != purpose || op.key != key then Latest(history, purpose, key)
            else if op.Registered? then Some(Entry(op.code, op.now))
            else None
  {
    assert (history + [op])[..|history|] == history;
  }

  lemma StepHolds(entries: Entries, history: seq<Op>, purposes: set<string>, op: Op, p: string, k: string)
    requires Simulates(entries, history, purposes, op.now) && PrefixFree(purposes)
    requires op.purpose in purposes && p in purposes
    ensures Holds(After(entries, op), Latest(history + [op], p, k), p + k, op.now)
  {
    LatestAfter(history, op, p, k);
    assert Holds(entries, Latest(history, p, k), p + k, op.now);
    if op.purpose + op.key == p + k {
      IdInjective(purposes, op.purpose, op.key, p, k);
    }
    if op.Registered? {
      var added := entries[op.purpose + op.key := Entry(op.code, op.now)];
      assert Holds(added, Latest(history + [op], p, k), p + k, op.now);
      SweepHolds(added, Latest(history + [op], p, k), p + k, op.now);
    }
  }

  lemma {:induction false} AnswersAgree(
    entries: Entries, history: seq<Op>, purposes: set<string>, start: int, ops: seq<Op>)
    requires Simulates(entries, history, purposes, start) && PrefixFree(purposes)
    requires Monotone(start, ops) && Uses(ops, purposes)
    ensures Answers(entries, ops) == LogAnswers(history, ops)
    decreases |ops|
  {
    if ops == [] {
    } else {
      var op := ops[0];
      forall p, k | p in purposes ensures Holds(entries, Latest(history, p, k), p + k, op.now) {
        assert Holds(entries, Latest(history, p, k), p + k, start);
      }
      forall p, k | p in purposes
        ensures Holds(After(entries, op), Latest(history + [op], p, k), p + k, op.now)
      {
        StepHolds(entries, history, purposes, op, p, k);
      }
      assert Holds(entries, Latest(history, op.purpose, op.key), op.purpose + op.key, op.now);
      AnswersAgree(After(entries, op), history + [op], purposes, op.now, ops[1..]);
    }
  }

  // ------------------------------------------------------------------ how long a code lives

  /** An entry expires ten minutes after it was made. */
  lemma ExpiresAfterTenMinutes(e: Entry, now: int)
    ensures Expired(e, now) <==> now >= e.time + 600_000_000_000
  {
  }

  function AfterAll(entries: Entries, ops: seq<Op>): Entries
    decreases |ops|
  {
    if ops == [] then entries else AfterAll(After(entries, ops[0]), ops[1..])
  }

  /** Nothing in a run touches this purpose and key, except asking. */
  ghost predicate Spares(ops: seq<Op>, purpose: string, key: string) {
    forall i :: 0 <= i < |ops| ==> ops[i].Asked? || ops[i].purpose != purpose || ops[i].key != key
  }

  /** An entry survives whatever else is registered, deleted and evicted, as long as it has not expired. */
  lemma {:induction false} EntrySurvives(
    entries: Entries, purposes: set<string>, purpose: string, key: string, e: Entry, start: int, ops: seq<Op>, end: int)
    requires PrefixFree(purposes) && purpose in purposes && Uses(ops, purposes) && Spares(ops, purpose, key)
    requires purpose + key in entries ==> entries[purpose + key] == e
    requires purpose + key !in entries ==> Expired(e, start)
    requires Monotone(start, ops) && (forall i :: 0 <= i < |ops| ==> ops[i].now <= end) && start <= end
    ensures var after := AfterAll(entries, ops);
            if purpose + key in after then after[purpose + key] == e else Expired(e, end)
    decreases |ops|
  {
    if ops == [] {
    } else {
      var op, next := ops[0], After(entries, ops[0]);
      if op.purpose + op.key == purpose + key {
        IdInjective(purposes, op.purpose, op.key, purpose, key);
        assert op.Asked?;
      }
      assert forall i :: 0 <= i < |ops| - 1 ==> ops[1..][i] == ops[i + 1];
      EntrySurvives(next, purposes, purpose, key, e, op.now, ops[1..], end);
    }
  }

  /** A registered code, and no other, is accepted for ten minutes: after any run that leaves its purpose and
      key alone, whatever the store held before and evicts meanwhile. */
  lemma CodeLivesTenMinutes(
    entries: Entries, purposes: set<string>, purpose: string, key: string, code: string, start: int,
    ops: seq<Op>, asked: string, now: int)
    requires PrefixFree(purposes) && purpose in purposes && Uses(ops, purposes) && Spares(ops, purpose, key)
    requires Monotone(start, ops) && (forall i :: 0 <= i < |ops| ==> ops[i].now <= now) && start <= now
    ensures var after := AfterAll(After(entries, Registered(purpose, key, code, start)), ops);
            Accepts(after, purpose + key, asked, now) <==> asked == code && now < start + 600_000_000_000
  {
    var e := Entry(code, start);
    ExpiresAfterTenMinutes(e, start);
    ExpiresAfterTenMinutes(e, now);
    EntrySurvives(After(entries, Registered(purpose, key, code, start)), purposes, purpose, key, e, start, ops, now);
  }

  /** Registering puts the new entry in place, and only if the store then has more than ten entries the expired
      ones go; so it grows beyond that only by entries that have not expired. */
  lemma EvictionKeepsItSmall(entries: Entries, purpose: string, key: string, code: string, now: int)
    ensures var added := entries[purpose + key := Entry(code, now)];
            var after := After(entries, Registered(purpose, key, code, now));
            && (|added| <= 10 ==> after == added)
            && (|added| > 10 ==>
                  && (forall id :: id in after <==> id in added && now < added[id].time + 600_000_000_000)
                  && (forall id :: id in after ==> after[id] == added[id]))
  {
  }

  /** A purpose that is a prefix of another lets one verify with the other's code. */
  lemma PrefixCollides(p: string, q: string, code: string) returns (ops: seq<Op>)
    requires p < q
    ensures Monotone(0, ops) && Uses(ops, {p, q}) && Answers(map[], ops) != LogAnswers([], ops)
  {
    var register, ask := Registered(q, "", code, 0), Asked(p, q[|p|..], code, 0);
    ops := [register, ask];
    assert p + q[|p|..] == q + "" == q;
    assert ops[1..] == [ask] && ops[1..][1..] == [];
    var entries := After(map[], register);
    assert entries == map[q := Entry(code, 0)];
    assert Answers(entries, [ask]) == [true];
    LatestAfter([], register, p, q[|p|..]);
    assert LogAnswers([] + [register], [ask]) == [false] by {
      assert Latest([], p, q[|p|..]) == None;
    }
    assert Answers(map[], ops) == [] + Answers(entries, [ask]);
    assert LogAnswers([], ops) == [] + LogAnswers([] + [register], [ask]);
    assert Answers(map[], ops)[0] && !LogAnswers([], ops)[0];
  }

  /** Eviction is invisible and keys never collide: over every run with a monotone clock the store
      answers as the unbounded log does, exactly when no purpose is a proper prefix of another. */
  lemma StoreIsExactExactlyWhen(purposes: set<string>)
    ensures PrefixFree(purposes) <==>
            forall start, ops :: Monotone(start, ops) && Uses(ops, purposes) ==>
              Answers(map[], ops) == LogAnswers([], ops)
  {
    if PrefixFree(purposes) {
      forall start, ops | Monotone(start, ops) && Uses(ops, purposes)
        ensures Answers(map[], ops) == LogAnswers([], ops)
      {
        assert Simulates(map[], [], purposes, start);
        AnswersAgree(map[], [], purposes, start, ops);
      }
    } else {
      var p, q :| p in purposes && q in purposes && p <= q && p != q;
      var ops := PrefixCollides(p, q, "");
      assert exists start, o :: Monotone(start, o) && Uses(o, purposes) && Answers(map[], o) != LogAnswers([], o) by {
        assert Monotone(0, ops) && Uses(ops, purposes);
      }
    }
  }

  /** The two purposes the gateway uses are safe. */
  lemma GatewayPurposesNeverCollide(start: int, ops: seq<Op>)
    requires Monotone(start, ops) && Uses(ops, {EMAIL_VERIFICATION_PURPOSE, PASSWORD_RESET_PURPOSE})
    ensures EMAIL_VERIFICATION_PURPOSE == "v" && PASSWORD_RESET_PURPOSE == "r"
    ensures Answers(map[], ops) == LogAnswers([], ops)
  {
    var purposes := {EMAIL_VERIFICATION_PURPOSE, PASSWORD_RESET_PURPOSE};
    forall p, q | p in purposes && q in purposes && p <= q ensures p == q {
      assert p[0] == q[0];
    }
    assert Simulates(map[], [], purposes, start);
    AnswersAgree(map[], [], purposes, start, ops);
  }
}
