/** Upstream model synchronisation of one channel (controller/channel_upstream_update.go): what a
    check finds, what it stores, and what a selective apply does with it. */
module UpstreamSync {
  import opened Basics
  import opened Text
  import opened ModelNames

  /** The stored part of a channel that synchronisation reads and writes. The model list is the
      comma-joined string the database holds. */
  datatype Channel = Channel(
    models: string, autoSync: bool, lastCheck: int,
    detected: Names, removed: Names, ignored: Names)

  /** What a channel's redirects, the regular-expression engine and the settings contribute. */
  datatype Env = Env(
    redirects: map<string, string>, matches: (string, string) -> bool, minInterval: int)

  const REGEX_PREFIX := "regex:"

  // ------------------------------------------------------------ the model list

  /** `GetModels` (model/channel.go:289-294). */
  function GetModels(models: string): Names {
    if models == "" then [] else Split(Trim(models, {','}), ',')
  }

  function Local(models: string): Names {
    Normalize(GetModels(models))
  }

  /** The model names that one name turns into once it is stored in the comma-joined list. */
  function Pieces(name: string): Names {
    Normalize(Split(name, ','))
  }

  lemma {:induction false} TrimLeftPieces(s: string)
    ensures TrimAll(Split(TrimLeft(s, {','}), ',')) == TrimAll(Split(s, ','))
  {
    if s != "" && s[0] == ',' {
      TrimLeftPieces(s[1..]);
      TrimAllAppend([""], Split(s[1..], ','));
      assert TrimAll([""]) == [];
    }
  }

  lemma {:induction false} TrimRightPieces(s: string)
    ensures TrimAll(Split(TrimRight(s, {','}), ',')) == TrimAll(Split(s, ','))
  {
    if s != "" && s[|s| - 1] == ',' {
      var init := s[..|s| - 1];
      TrimRightPieces(init);
      assert s == init + [','] + "";
      SplitAppend(init, ',', "");
      DropEmptyPiece(Split(init, ','));
    }
  }

  lemma DropEmptyPiece(pieces: Names)
    ensures TrimAll(pieces + [""]) == TrimAll(pieces)
  {
    assert (pieces + [""])[..|pieces|] == pieces;
  }

  /** Trimming commas off the stored string loses no model. */
  lemma LocalPieces(models: string)
    ensures Local(models) == Pieces(models)
  {
    TrimLeftPieces(models);
    TrimRightPieces(TrimLeft(models, {','}));
    assert TrimAll([""]) == [];
  }

  /** What a joined list reads back as: the pieces of its names, no more and no less. */
  lemma LocalOfJoin(names: Names, x: string)
    ensures x in Local(Join(names, ',')) <==> IsPiece(names, x)
  {
    LocalPieces(Join(names, ','));
    PiecesOfJoin(names, x);
  }

  lemma {:induction false} PiecesOfJoin(names: Names, x: string)
    ensures x in Pieces(Join(names, ',')) <==> IsPiece(names, x)
  {
    if |names| == 0 {
      PiecesOfNothing();
    } else if |names| == 1 {
      IsPieceOne(names, x);
    } else {
      var rest := names[1..];
      PiecesOfJoin(rest, x);
      assert Join(names, ',') == names[0] + [','] + Join(rest, ',');
      PiecesAppend(names[0], Join(rest, ','), x);
      IsPieceStep(names, x);
    }
  }

  lemma PiecesOfNothing()
    ensures Pieces("") == []
  {
    assert TrimAll([""]) == [];
  }

  /** A piece of some name in a list. */
  ghost predicate IsPiece(names: Names, x: string) {
    exists n :: n in names && x in Pieces(n)
  }

  lemma IsPieceOne(names: Names, x: string)
    requires |names| == 1
    ensures IsPiece(names, x) <==> x in Pieces(names[0])
  {
    assert names == [names[0]];
  }

  lemma IsPieceStep(names: Names, x: string)
    requires |names| > 1
    ensures IsPiece(names, x) <==> x in Pieces(names[0]) || IsPiece(names[1..], x)
  {
    var rest := names[1..];
    assert names == [names[0]] + rest;
    assert names[0] in names;
    if IsPiece(rest, x) {
      var n :| n in rest && x in Pieces(n);
      assert n in names;
    }
  }

  lemma PiecesAppend(a: string, b: string, x: string)
    ensures x in Pieces(a + [','] + b) <==> x in Pieces(a) || x in Pieces(b)
  {
    SplitAppend(a, ',', b);
    TrimAllAppend(Split(a, ','), Split(b, ','));
    UniqSpec(TrimAll(Split(a + [','] + b, ',')));
    UniqSpec(TrimAll(Split(a, ',')));
    UniqSpec(TrimAll(Split(b, ',')));
  }

  lemma PiecesOfClean(name: string)
    requires Clean(name) && ',' !in name
    ensures Pieces(name) == [name]
  {
    SplitWhole(name, ',');
    NormalizeFixed([name]);
  }

  ghost predicate CommaFree(names: Names) {
    forall x :: x in names ==> ',' !in x
  }

  /** Stored names never contain a comma. */
  lemma LocalCommaFree(models: string)
    ensures IsNormal(Local(models)) && CommaFree(Local(models))
  {
    var raw := GetModels(models);
    NormalizeSpec(raw);
    SplitFree(Trim(models, {','}), ',');
    forall x | x in Local(models) ensures ',' !in x {
      var i :| 0 <= i < |raw| && TrimSpace(raw[i]) == x;
      TrimSpec(raw[i], WHITESPACE);
    }
  }

  /** Storing and reading back returns the list, for normal lists of comma-free names. */
  lemma LocalRoundTrip(names: Names)
    requires IsNormal(names) && CommaFree(names)
    ensures Local(Join(names, ',')) == names
  {
    if names != [] {
      forall i | 0 <= i < |names| ensures ',' !in names[i] && names[i] != "" {
        assert names[i] in names;
      }
      SplitJoin(names, ',');
      JoinTrimmed(names, ',');
      TrimSpec(Join(names, ','), {','});
      NormalizeFixed(names);
    }
  }

  // ------------------------------------------------------------- pending changes

  /** Does an entry of the ignore list cover a model? */
  predicate Ignores(entry: string, name: string, env: Env) {
    if HasPrefix(entry, REGEX_PREFIX)
    then env.matches(TrimSpace(entry[|REGEX_PREFIX|..]), name)
    else entry == name
  }

  predicate IsIgnored(ignored: Names, name: string, env: Env) {
    exists e :: e in Normalize(ignored) && Ignores(e, name, env)
  }

  /** Upstream models that are neither stored, nor the target of a redirect, nor ignored. */
  function PendingAdds(models: string, upstream: Names, ignored: Names, env: Env): Names {
    Filter(Normalize(upstream),
           m => m !in Local(models) && m !in env.redirects.Values && !IsIgnored(ignored, m, env))
  }

  /** Stored models that upstream no longer lists, except the sources of redirects. */
  function PendingRemoves(models: string, upstream: Names, env: Env): Names {
    Filter(Local(models), m => m !in env.redirects.Keys && m !in Normalize(upstream))
  }

  lemma PendingSpec(models: string, upstream: Names, ignored: Names, env: Env)
    ensures IsNormal(PendingAdds(models, upstream, ignored, env))
    ensures IsNormal(PendingRemoves(models, upstream, env))
    ensures Disjoint(PendingAdds(models, upstream, ignored, env), Local(models))
    ensures Disjoint(PendingAdds(models, upstream, ignored, env), PendingRemoves(models, upstream, env))
  {
    NormalizeSpec(GetModels(models));
    NormalizeSpec(upstream);
  }

  /** Pending additions come in upstream's order: names that upstream lists later only extend the list. */
  lemma PendingAddsKeepOrder(models: string, upstream: Names, later: Names, ignored: Names, env: Env)
    ensures PendingAdds(models, upstream, ignored, env) <= PendingAdds(models, upstream + later, ignored, env)
  {
    NormalizePrefix(upstream, later);
    var known, all := Normalize(upstream), Normalize(upstream + later);
    assert all == known + all[|known|..];
    FilterPrefix(known, all[|known|..],
      m => m !in Local(models) && m !in env.redirects.Values && !IsIgnored(ignored, m, env));
  }

  /** `collectPendingUpstreamModelChangesFromModels`, filling its lookup sets in loops. */
  method CollectPending(models: string, upstreamModels: Names, ignored: Names, env: Env)
    returns (adds: Names, removes: Names)
    ensures adds == PendingAdds(models, upstreamModels, ignored, env)
    ensures removes == PendingRemoves(models, upstreamModels, env)
    ensures forall x :: x in adds <==>
              x in Normalize(upstreamModels) && x !in Local(models) && x !in env.redirects.Values
              && forall e :: e in Normalize(ignored) ==> !Ignores(e, x, env)
    ensures forall x :: x in removes <==>
              x in Local(models) && x !in Normalize(upstreamModels) && x !in env.redirects.Keys
  {
    var local := Normalize(GetModels(models));
    var upstream := Normalize(upstreamModels);
    var localSet := LookupSet(local);
    var upstreamSet := LookupSet(upstream);
    var sources, targets := RedirectSets(env.redirects);
    var covered := localSet + targets;

    var pendingAdd := Filter(upstream, m => m !in covered && !IsIgnored(ignored, m, env));
    var pendingRemove := Filter(local, m => m !in sources && m !in upstreamSet);
    FilterAgree(upstream, m => m !in covered && !IsIgnored(ignored, m, env),
      m => m !in Local(models) && m !in env.redirects.Values && !IsIgnored(ignored, m, env));
    FilterAgree(local, m => m !in sources && m !in upstreamSet,
      m => m !in env.redirects.Keys && m !in Normalize(upstreamModels));
    PendingSpec(models, upstreamModels, ignored, env);
    NormalizeFixed(pendingAdd);
    NormalizeFixed(pendingRemove);
    adds, removes := Normalize(pendingAdd), Normalize(pendingRemove);
  }

  /** A lookup set filled name by name. */
  method LookupSet(names: Names) returns (r: set<string>)
    ensures forall x :: x in r <==> x in names
  {
    r := {};
    for i := 0 to |names|
      invariant forall x :: x in r <==> x in names[..i]
    {
      r := r + {names[i]};
    }
    assert names[..|names|] == names;
  }

  /** The sources and the targets of the redirects. */
  method RedirectSets(redirects: map<string, string>) returns (sources: set<string>, targets: set<string>)
    ensures sources == redirects.Keys && targets == redirects.Values
  {
    sources, targets := {}, {};
    var rest := redirects.Keys;
    while rest != {}
      invariant rest <= redirects.Keys
      invariant sources == redirects.Keys - rest
      invariant forall t :: t in targets <==> exists s :: s in sources && redirects[s] == t
    {
      var source :| source in rest;
      rest := rest - {source};
      sources := sources + {source};
      targets := targets + {redirects[source]};
    }
    assert forall t :: t in targets <==> t in redirects.Values;
  }

  lemma {:induction false} FilterAgree(s: Names, p: string -> bool, q: string -> bool)
    requires forall x :: x in s ==> p(x) == q(x)
    ensures Filter(s, p) == Filter(s, q)
  {
    if s == [] {
    } else {
      FilterAgree(s[..|s| - 1], p, q);
      assert s[|s| - 1] in s;
    }
  }

  // ----------------------------------------------------------------------- steps

  /** What a check that reached upstream stores, and how many models it added by itself
      (lines 498-510). */
  function Staged(c: Channel, allowAuto: bool, now: int, adds: Names, removes: Names): (Channel, int) {
    var next := c.(lastCheck := now, removed := removes);
    if allowAuto && c.autoSync && |adds| > 0 then
      var (models, autoAdded) := AutoApplied(c.models, adds);
      (next.(models := models, detected := []), autoAdded)
    else (next.(detected := adds), 0)
  }

  /** The model list with the additions merged in, and by how many it grew. */
  function AutoApplied(models: string, adds: Names): (string, int) {
    var origin := Local(models);
    var merged := Merge(origin, adds);
    if |merged| > |origin| then (Join(merged, ','), |merged| - |origin|) else (models, 0)
  }

  function Checked(c: Channel, env: Env, allowAuto: bool, now: int, upstream: Names): (Channel, int) {
    Staged(c, allowAuto, now,
           PendingAdds(c.models, upstream, c.ignored, env), PendingRemoves(c.models, upstream, env))
  }

  predicate TooSoon(c: Channel, env: Env, force: bool, now: int) {
    !force && c.lastCheck > 0 && now - c.lastCheck < env.minInterval
  }

  function CheckStep(c: Channel, env: Env, force: bool, allowAuto: bool, now: int,
                     fetched: Option<Names>, saved: bool): Channel
  {
    if !saved || TooSoon(c, env, force, now) then c
    else if fetched.None? then c.(lastCheck := now)
    else Checked(c, env, allowAuto, now, fetched.value).0
  }

  datatype Applied = Applied(
    channel: Channel, added: Names, ignoredNow: Names, removedNow: Names, changed: bool)

  /** `applyChannelUpstreamModelUpdates` (lines 932-955). */
  function Apply(c: Channel, addInput: Names, ignoreInput: Names, removeInput: Names, now: int): Applied {
    var pendingAdd, pendingRemove := Normalize(c.detected), Normalize(c.removed);
    var add := Intersect(addInput, pendingAdd);
    var ignore := Intersect(ignoreInput, pendingAdd);
    var remove := Subtract(Intersect(removeInput, pendingRemove), add);
    var origin := Local(c.models);
    var next := ApplySelected(origin, add, remove);
    var ignored := Merge(c.ignored, ignore);
    Applied(
      Channel(
        if origin != next then Join(next, ',') else c.models,
        c.autoSync, now,
        Subtract(pendingAdd, add + ignore),
        Subtract(pendingRemove, remove),
        if |add| > 0 then Subtract(ignored, add) else ignored),
      add, ignore, remove, origin != next)
  }

  function ApplyStep(c: Channel, addInput: Names, ignoreInput: Names, removeInput: Names, now: int,
                     saved: bool): Channel
  {
    if saved then Apply(c, addInput, ignoreInput, removeInput, now).channel else c
  }

  /** The computation between the fetch and the save of a check. */
  method ComputeCheck(c: Channel, env: Env, allowAuto: bool, now: int, upstream: Names)
    returns (next: Channel, autoAdded: int)
    ensures (next, autoAdded) == Checked(c, env, allowAuto, now, upstream)
  {
    var adds, removes := CollectPending(c.models, upstream, c.ignored, env);
    next, autoAdded := Stage(c, allowAuto, now, adds, removes);
  }

  method Stage(c: Channel, allowAuto: bool, now: int, adds: Names, removes: Names)
    returns (next: Channel, autoAdded: int)
    ensures (next, autoAdded) == Staged(c, allowAuto, now, adds, removes)
  {
    next, autoAdded := c.(lastCheck := now, removed := removes), 0;
    if allowAuto && c.autoSync && |adds| > 0 {
      var models;
      models, autoAdded := AutoApply(c.models, adds);
      next := next.(models := models, detected := []);
    } else {
      next := next.(detected := adds);
    }
  }

  method AutoApply(models: string, adds: Names) returns (next: string, autoAdded: int)
    ensures (next, autoAdded) == AutoApplied(models, adds)
  {
    next, autoAdded := models, 0;
    var origin := Local(models);
    var merged := MergeModelNames(origin, adds);
    if |merged| > |origin| {
      next := Join(merged, ',');
      autoAdded := |merged| - |origin|;
    }
  }

  /** The computation before the save of an apply. */
  method ComputeApply(c: Channel, addInput: Names, ignoreInput: Names, removeInput: Names, now: int)
    returns (r: Applied)
    ensures r == Apply(c, addInput, ignoreInput, removeInput, now)
  {
    var pendingAdd, pendingRemove := Normalize(c.detected), Normalize(c.removed);
    var addModels := Intersect(addInput, pendingAdd);
    var ignoreModels := Intersect(ignoreInput, pendingAdd);
    var removeModels := Intersect(removeInput, pendingRemove);
    removeModels := Subtract(removeModels, addModels);
    var origin := Local(c.models);
    var next := ApplySelected(origin, addModels, removeModels);
    var models := c.models;
    if origin != next {
      models := Join(next, ',');
    }
    var ignored := MergeModelNames(c.ignored, ignoreModels);
    if |addModels| > 0 {
      ignored := Subtract(ignored, addModels);
    }
    var remaining := Subtract(pendingAdd, addModels + ignoreModels);
    var remainingRemove := Subtract(pendingRemove, removeModels);
    r := Applied(Channel(models, c.autoSync, now, remaining, remainingRemove, ignored),
                 addModels, ignoreModels, removeModels, origin != next);
  }

  /** The stored channel record. `saved` tells whether the database accepted the update; a failed
      update leaves the record as it was. */
  class StoredChannel {
    var models: string
    var autoSync: bool
    var lastCheck: int
    var detected: Names
    var removed: Names
    var ignored: Names

    function State(): Channel
      reads this
    {
      Channel(models, autoSync, lastCheck, detected, removed, ignored)
    }

    constructor (c: Channel)
      ensures State() == c
    {
      models, autoSync, lastCheck := c.models, c.autoSync, c.lastCheck;
      detected, removed, ignored := c.detected, c.removed, c.ignored;
    }

    method Save(c: Channel)
      modifies this
      ensures State() == c
    {
      models, autoSync, lastCheck := c.models, c.autoSync, c.lastCheck;
      detected, removed, ignored := c.detected, c.removed, c.ignored;
    }

    /** `checkAndPersistChannelUpstreamModelUpdates`; `fetched` is `None` when upstream could not be
        reached, and `refreshed` tells whether the abilities derived from a changed list were renewed. */
    method CheckAndPersist(env: Env, force: bool, allowAuto: bool, now: int, fetched: Option<Names>,
                           saved: bool, refreshed: bool)
      returns (modelsChanged: bool, autoAdded: int, ok: bool)
      modifies this
      ensures State() == CheckStep(old(State()), env, force, allowAuto, now, fetched, saved)
      ensures autoAdded == if TooSoon(old(State()), env, force, now) || fetched.None? then 0
                           else Checked(old(State()), env, allowAuto, now, fetched.value).1
      ensures modelsChanged <==> saved && autoAdded > 0
      ensures ok <==> TooSoon(old(State()), env, force, now)
                      || (fetched.Some? && saved && (autoAdded > 0 ==> refreshed))
    {
      modelsChanged, autoAdded, ok := false, 0, true;
      if TooSoon(State(), env, force, now) {
        return;
      }
      if fetched.None? {
        if saved { lastCheck := now; }
        ok := false;
        return;
      }
      var next;
      next, autoAdded := ComputeCheck(State(), env, allowAuto, now, fetched.value);
      if !saved {
        ok := false;
        return;
      }
      Save(next);
      modelsChanged := autoAdded > 0;
      if modelsChanged {
        ok := refreshed;
      }
    }

    /** `applyChannelUpstreamModelUpdates`; a failed refresh of the abilities is reported beside the
        result. */
    method ApplyUpdates(addInput: Names, ignoreInput: Names, removeInput: Names, now: int, saved: bool,
                        refreshed: bool)
      returns (r: Option<Applied>, ok: bool)
      modifies this
      ensures State() == ApplyStep(old(State()), addInput, ignoreInput, removeInput, now, saved)
      ensures r == if saved then Some(Apply(old(State()), addInput, ignoreInput, removeInput, now)) else None
      ensures ok <==> saved && (r.value.changed ==> refreshed)
    {
      var applied := ComputeApply(State(), addInput, ignoreInput, removeInput, now);
      if !saved {
        return None, false;
      }
      Save(applied.channel);
      return Some(applied), applied.changed ==> refreshed;
    }
  }
}
