/** How a request keeps its body replayable (common/gin.go:36-155) and how the retry loop uses it
    (controller/relay.go:194-229, 577-610). Storages are the abstract bodies they stand for. */
module BodyReplay {
  import opened Basics
  import opened BodyStorage

  datatype Result<+T> = Ok(value: T) | Err(tooLarge: bool)

  /** The body as the connection delivers it: waiting to be read, behind the limiting reader that the relay
      routes install (middleware/gzip.go) or not; or read and closed. A limiting reader that met the end
      keeps reporting the end, one that met its limit keeps reporting that the body is too large, and a
      closed body without such a reader fails. */
  datatype Connection = Waiting(bytes: seq<Byte>, limited: bool) | Ended | Exceeded | Shut

  /** What the request context holds: the cached storage, the older cached bytes, the connection, and whether
      the request body is the cached storage in the wrapper that ignores closing (`io.NopCloser`). */
  datatype Context = Context(
    cached: Option<World>, legacy: Option<seq<Byte>>, incoming: Connection, wrapped: bool)

  /** How long a body may be. Without a setting the limiting reader has a default of its own. */
  function Allowance(maxMB: int, limited: bool): nat {
    MEGABYTE * if maxMB > 0 then maxMB else if limited then 32 else 128
  }

  function Stored(bytes: seq<Byte>): World {
    World(Body(bytes, 0, false), [])
  }

  /** `GetRequestBody` and `GetBodyStorage`. */
  function GetBodyStorage(c: Context, maxMB: int): (Context, Result<World>) {
    if c.cached.Some? then
      var w := c.cached.value;
      if w.body.closed then (c, Err(false))
      else
        var rewound := After(w, Op.Seek(0, SEEK_START));
        (c.(cached := Some(rewound)), Ok(rewound))
    else if c.legacy.Some? then
      (c.(cached := Some(Stored(c.legacy.value))), Ok(Stored(c.legacy.value)))
    else
      match c.incoming
      case Waiting(bytes, limited) =>
        if |bytes| > Allowance(maxMB, limited) then (c.(incoming := if limited then Exceeded else Shut), Err(true))
        else (c.(cached := Some(Stored(bytes)), incoming := if limited then Ended else Shut), Ok(Stored(bytes)))
      case Ended => (c.(cached := Some(Stored([]))), Ok(Stored([])))
      case Exceeded => (c, Err(true))
      case Shut => (c, Err(false))
  }

  /** The request context, changed in place by every use of the body. */
  class RequestContext {
    var cached: Option<World>
    var legacy: Option<seq<Byte>>
    var incoming: Connection
    var wrapped: bool

    function State(): Context
      reads this
    {
      Context(cached, legacy, incoming, wrapped)
    }

    constructor (body: seq<Byte>, limited: bool)
      ensures State() == Context(None, None, Waiting(body, limited), false)
    {
      cached, legacy, incoming, wrapped := None, None, Waiting(body, limited), false;
    }

    method GetStorage(maxMB: int) returns (r: Result<World>)
      modifies this
      ensures (State(), r) == GetBodyStorage(old(State()), maxMB)
    {
      if cached.Some? {
        var w := cached.value;
        if Observe(Memory, w, Op.Seek(0, SEEK_START)).err.Some? {
          return Err(false);
        }
        cached := Some(After(w, Op.Seek(0, SEEK_START)));
        return Ok(cached.value);
      }
      if legacy.Some? {
        cached := Some(Stored(legacy.value));
        return Ok(cached.value);
      }
      var body, err := ReadConnection(maxMB);
      if err.Some? {
        return Err(err.value);
      }
      if |body| > Allowance(maxMB, false) {
        return Err(true);
      }
      cached := Some(Stored(body));
      return Ok(cached.value);
    }

    /** Everything the connection delivers, cut off behind the size allowed, or its error: does it blame the
        length? The request body is closed afterwards. */
    method ReadConnection(maxMB: int) returns (body: seq<Byte>, err: Option<bool>)
      modifies this
      ensures State() == old(State()).(incoming := incoming)
      ensures match old(incoming)
              case Waiting(bytes, limited) =>
                var tooLong := limited && |bytes| > Allowance(maxMB, true);
                && err == (if tooLong then Some(true) else None)
                && incoming == (if tooLong then Exceeded else if limited then Ended else Shut)
                && (!tooLong ==> body == Cut(bytes, Allowance(maxMB, false) + 1))
              case Ended => incoming == Ended && err == None && body == []
              case Exceeded => incoming == Exceeded && err == Some(true)
              case Shut => incoming == Shut && err == Some(false)
    {
      match incoming {
        case Ended => return [], None;
        case Exceeded => return [], Some(true);
        case Shut => return [], Some(false);
        case Waiting(bytes, limited) =>
          if limited && |bytes| > Allowance(maxMB, true) {
            incoming := Exceeded;
            return [], Some(true);
          }
          incoming := if limited then Ended else Shut;
          return Cut(bytes, Allowance(maxMB, false) + 1), None;
      }
    }

    /** `UnmarshalBodyReusable`: `streamed` for JSON read straight from a disk storage, in which case the
        decoder reads in the given portions; `decodes` tells whether the decoder accepts the body. On success
        the request body is the rewound storage, wrapped. */
    method UnmarshalBodyReusable(maxMB: int, streamed: bool, portions: seq<nat>, decodes: bool)
      returns (ok: bool)
      modifies this
      ensures var (mid, r) := GetBodyStorage(old(State()), maxMB);
              && (r.Err? ==> !ok && State() == mid)
              && (r.Ok? ==> && ok == decodes && cached.Some? && cached.value.body.bytes == r.value.body.bytes
                            && !cached.value.body.closed && cached.value.readers == r.value.readers
                            && State() == mid.(cached := cached, wrapped := ok || mid.wrapped)
                            && (ok ==> cached == mid.cached))
    {
      var r := GetStorage(maxMB);
      if r.Err? {
        return false;
      }
      if streamed {
        ghost var start := cached.value;
        for i := 0 to |portions|
          invariant cached.Some? && State() == old(GetBodyStorage(State(), maxMB).0).(cached := cached)
          invariant cached.value == World(start.body.(cursor := cached.value.body.cursor), start.readers)
        {
          cached := Some(After(cached.value, Op.Read(portions[i])));
        }
      }
      if !decodes {
        return false;
      }
      cached := Some(After(cached.value, Op.Seek(0, SEEK_START)));
      wrapped := true;
      return true;
    }

    /** `CleanupBodyStorage`: the storage is closed and forgotten. */
    method Cleanup() returns (released: Option<World>)
      modifies this
      ensures State() == old(State()).(cached := None)
      ensures released == if old(cached).Some? then Some(After(old(cached).value, Op.Close)) else None
    {
      released := None;
      if cached.Some? {
        released := Some(After(cached.value, Op.Close));
        cached := None;
      }
    }

    /** What one attempt does with the body it was given. */
    method UseBody(ops: seq<Op>)
      requires cached.Some?
      modifies this
      ensures State() == old(State()).(cached := Some(UseAll(old(wrapped), old(cached).value, ops)))
    {
      ghost var start := cached.value;
      for i := 0 to |ops|
        invariant cached.Some? && State() == old(State()).(cached := cached)
        invariant UseAll(wrapped, cached.value, ops[i..]) == UseAll(wrapped, start, ops)
      {
        assert ops[i..][0] == ops[i] && ops[i..][1..] == ops[i + 1..];
        cached := Some(Use(wrapped, cached.value, ops[i]));
      }
    }

    /** One round of the retry loop, as far as the body goes: get the storage, wrap it, use it. */
    method Attempt(maxMB: int, ops: seq<Op>) returns (r: Result<World>)
      modifies this
      ensures r == GetBodyStorage(old(State()), maxMB).1
      ensures State() == NextContext(old(State()), maxMB, ops, true)
    {
      r := GetStorage(maxMB);
      if r.Err? {
        return;
      }
      wrapped := true;
      UseBody(ops);
    }

    /** The retry loop's dealings with the body. */
    method PlayAttempts(maxMB: int, attempts: seq<seq<Op>>) returns (handed: seq<Result<World>>)
      modifies this
      ensures handed == Handed(old(State()), maxMB, attempts, true)
    {
      handed := [];
      for i := 0 to |attempts|
        invariant Handed(old(State()), maxMB, attempts, true)
               == handed + Handed(State(), maxMB, attempts[i..], true)
      {
        HandedStep(State(), maxMB, attempts, i, handed);
        var r := Attempt(maxMB, attempts[i]);
        handed := handed + [r];
        if r.Err? {
          return;
        }
      }
    }
  }

  function Cut(bytes: seq<Byte>, n: nat): seq<Byte> {
    if |bytes| > n then bytes[..n] else bytes
  }

  // ---------------------------------------------------------------------------- replay

  /** One use of a request body: closing the wrapper leaves the storage as it is. */
  function Use(wrapped: bool, w: World, op: Op): World {
    if wrapped && op.Close? then w else After(w, op)
  }

  function UseAll(wrapped: bool, w: World, ops: seq<Op>): World
    decreases |ops|
  {
    if ops == [] then w else UseAll(wrapped, Use(wrapped, w, ops[0]), ops[1..])
  }

  /** Whatever an attempt does with the wrapped body, its bytes stay and it stays open. */
  lemma {:induction false} AttemptKeepsBytes(w: World, ops: seq<Op>)
    requires !w.body.closed
    ensures UseAll(true, w, ops).body.bytes == w.body.bytes && !UseAll(true, w, ops).body.closed
    decreases |ops|
  {
    if ops == [] {
    } else {
      AttemptKeepsBytes(Use(true, w, ops[0]), ops[1..]);
    }
  }

  /** The context after an attempt that could get the body. */
  function NextContext(c: Context, maxMB: int, ops: seq<Op>, wrapped: bool): Context {
    var (mid, r) := GetBodyStorage(c, maxMB);
    if r.Err? then mid else mid.(cached := Some(UseAll(wrapped, r.value, ops)), wrapped := wrapped)
  }

  /** The body each attempt of a retry loop is handed, with or without the wrapper. */
  function Handed(c: Context, maxMB: int, attempts: seq<seq<Op>>, wrapped: bool): seq<Result<World>>
    decreases |attempts|
  {
    if attempts == [] then []
    else
      var r := GetBodyStorage(c, maxMB).1;
      if r.Err? then [r]
      else [r] + Handed(NextContext(c, maxMB, attempts[0], wrapped), maxMB, attempts[1..], wrapped)
  }

  lemma HandedStep(c: Context, maxMB: int, attempts: seq<seq<Op>>, i: nat, before: seq<Result<World>>)
    requires i < |attempts|
    ensures var r := GetBodyStorage(c, maxMB).1;
            before + Handed(c, maxMB, attempts[i..], true) ==
            if r.Err? then before + [r]
            else before + [r] + Handed(NextContext(c, maxMB, attempts[i], true), maxMB, attempts[i + 1..], true)
  {
    var rest := attempts[i..];
    assert rest[0] == attempts[i] && rest[1..] == attempts[i + 1..];
    var r := GetBodyStorage(c, maxMB).1;
    if r.Ok? {
      var later := Handed(NextContext(c, maxMB, attempts[i], true), maxMB, attempts[i + 1..], true);
      assert before + ([r] + later) == before + [r] + later;
    }
  }

  /** The whole body of the request, if it can be had. */
  function WholeBody(c: Context, maxMB: int): Option<seq<Byte>> {
    if c.cached.Some? then (if c.cached.value.body.closed then None else Some(c.cached.value.body.bytes))
    else if c.legacy.Some? then c.legacy
    else if c.incoming.Waiting? && |c.incoming.bytes| <= Allowance(maxMB, c.incoming.limited)
    then Some(c.incoming.bytes)
    else if c.incoming.Ended? then Some([])
    else None
  }

  /** Nothing is cached, and what the connection delivers is, or was found, too long. */
  predicate TooLong(c: Context, maxMB: int) {
    c.cached.None? && c.legacy.None?
    && (c.incoming.Exceeded?
        || (c.incoming.Waiting? && |c.incoming.bytes| > Allowance(maxMB, c.incoming.limited)))
  }

  /** However much earlier attempts consumed, moved about or closed, every attempt of the retry loop is
      handed the identical whole body with the cursor at its start; and if there is no body to be had, the
      first attempt fails. */
  lemma {:induction false} EveryAttemptStartsAtZero(c: Context, maxMB: int, attempts: seq<seq<Op>>)
    ensures var handed, whole := Handed(c, maxMB, attempts, true), WholeBody(c, maxMB);
            if whole.Some? then
              |handed| == |attempts|
              && forall i :: 0 <= i < |handed| ==>
                   handed[i].Ok? && handed[i].value.body == Body(whole.value, 0, false)
            else attempts != [] ==>
              |handed| == 1 && handed[0] == Err(TooLong(c, maxMB))
    decreases |attempts|
  {
    if attempts == [] {
    } else {
      var r := GetBodyStorage(c, maxMB).1;
      if r.Ok? {
        AttemptKeepsBytes(r.value, attempts[0]);
        var next := NextContext(c, maxMB, attempts[0], true);
        EveryAttemptStartsAtZero(next, maxMB, attempts[1..]);
        var handed := Handed(c, maxMB, attempts, true);
        assert handed[1..] == Handed(next, maxMB, attempts[1..], true);
        forall i | 0 <= i < |handed|
          ensures handed[i].Ok? && handed[i].value.body == Body(WholeBody(c, maxMB).value, 0, false)
        {
          if i > 0 { assert handed[i] == handed[1..][i - 1]; }
        }
      }
    }
  }

  /** Getting the body gives the whole of it with the cursor at its start, and it is then cached; readers that
      were handed out before stay where they are. Otherwise it fails, and says whether the body is too long. */
  lemma FetchSpec(c: Context, maxMB: int)
    ensures var (next, r) := GetBodyStorage(c, maxMB);
            && (r.Ok? <==> WholeBody(c, maxMB).Some?)
            && (r.Ok? ==>
                  && next.cached == Some(r.value) && r.value.body == Body(WholeBody(c, maxMB).value, 0, false)
                  && r.value.readers == if c.cached.Some? then c.cached.value.readers else [])
            && (r.Err? ==> r == Err(TooLong(c, maxMB)) && next.cached == c.cached)
            && next.legacy == c.legacy && next.wrapped == c.wrapped
            && (c.cached.Some? || c.legacy.Some? ==> next.incoming == c.incoming)
  {
  }

  /** Asking twice: the second answer is the same body again from its start, whatever was done with it in
      between. An error stays one, and behind the limiting reader it stays the same one, so that a body found
      too large is too large in every attempt; only on a bare connection, which the first attempt closed,
      the second one no longer blames the length. */
  lemma SecondFetch(c: Context, maxMB: int, ops: seq<Op>)
    ensures var first := GetBodyStorage(c, maxMB).1;
            var second := GetBodyStorage(NextContext(c, maxMB, ops, true), maxMB).1;
            if first.Ok? then
              && GetBodyStorage(c, maxMB).0.cached == Some(first.value)
              && second.Ok? && second.value.body == first.value.body
            else if TooLong(c, maxMB) && c.incoming.Waiting? && !c.incoming.limited then
              first == Err(true) && second == Err(false)
            else second == first
  {
    var first := GetBodyStorage(c, maxMB).1;
    if first.Ok? {
      AttemptKeepsBytes(first.value, ops);
    }
  }

  /** The limiting reader never lets through more than the storage accepts, so on the relay routes it alone
      decides which bodies are too large. */
  lemma LimiterDecides(maxMB: int)
    ensures 0 < Allowance(maxMB, true) <= Allowance(maxMB, false)
    ensures maxMB > 0 ==> Allowance(maxMB, true) == Allowance(maxMB, false) == maxMB * 1024 * 1024
    ensures maxMB <= 0 ==> Allowance(maxMB, true) == 33_554_432 && Allowance(maxMB, false) == 134_217_728
  {
  }

  /** After the cleanup the storage is gone for good: behind the limiting reader the body then reads as empty,
      and without it, it cannot be had. */
  lemma AfterCleanup(bytes: seq<Byte>, limited: bool, maxMB: int)
    requires |bytes| <= Allowance(maxMB, limited)
    ensures var fetched := GetBodyStorage(Context(None, None, Waiting(bytes, limited), false), maxMB).0;
            GetBodyStorage(fetched.(cached := None), maxMB).1 == if limited then Ok(Stored([])) else Err(false)
  {
  }

  /** Without the wrapper it would be false: an attempt that closes its body leaves the next one without. */
  lemma ClosingBreaksReplay(bytes: seq<Byte>, limited: bool, maxMB: int)
    requires |bytes| <= Allowance(maxMB, limited)
    ensures var handed := Handed(Context(None, None, Waiting(bytes, limited), false), maxMB, [[Op.Close], []], false);
            |handed| == 2 && handed[0].Ok? && handed[1].Err?
  {
    var c := Context(None, None, Waiting(bytes, limited), false);
    var closes: seq<Op>, nothing: seq<Op> := [Op.Close], [];
    var w := Stored(bytes);
    assert closes[1..] == [];
    assert UseAll(false, w, closes) == UseAll(false, After(w, Op.Close), []) == After(w, Op.Close);
    var attempts := [closes, nothing];
    assert attempts[1..] == [nothing];
    assert Handed(NextContext(c, maxMB, closes, false), maxMB, [nothing], false) == [Err(false)];
  }
}
