/** What upstream synchronisation guarantees: pending work is conserved, detect-apply-detect
    converges, and the stored lists stay consistent over every run. */
module UpstreamSyncRuns {
  import opened Basics
  import opened Text
  import opened ModelNames
  import opened UpstreamSync

  // ------------------------------------------------------- one apply, membership by membership

  ghost predicate Selects(c: Channel, addInput: Names, ignoreInput: Names, removeInput: Names, r: Applied) {
    var adds, removes := Normalize(c.detected), Normalize(c.removed);
    && IsNormal(r.added) && IsNormal(r.ignoredNow) && IsNormal(r.removedNow)
    && (forall x :: x in r.added <==> x in Normalize(addInput) && x in adds)
    && (forall x :: x in r.ignoredNow <==> x in Normalize(ignoreInput) && x in adds)
    && (forall x :: x in r.removedNow <==> x in Normalize(removeInput) && x in removes && x !in r.added)
  }

  ghost predicate LeavesPending(c: Channel, r: Applied) {
    var adds, removes := Normalize(c.detected), Normalize(c.removed);
    && IsNormal(r.channel.detected) && IsNormal(r.channel.removed)
    && (forall x :: x in r.channel.detected <==> x in adds && x !in r.added && x !in r.ignoredNow)
    && (forall x :: x in r.channel.removed <==> x in removes && x !in r.removedNow)
  }

  ghost predicate UpdatesIgnored(c: Channel, r: Applied) {
    && IsNormal(r.channel.ignored)
    && (forall x :: x in r.channel.ignored <==> (x in Normalize(c.ignored) || x in r.ignoredNow) && x !in r.added)
  }

  /** The models after an apply: the pieces of what was added, and what was there and not removed. */
  ghost predicate UpdatesModels(c: Channel, r: Applied) {
    forall x :: x in Local(r.channel.models) <==>
      (exists a :: a in r.added && x in Pieces(a)) || (x in Local(c.models) && x !in r.removedNow)
  }

  /** All of the above about one apply, without naming how it is computed. */
  ghost predicate Effect(c: Channel, addInput: Names, ignoreInput: Names, removeInput: Names, r: Applied) {
    && Selects(c, addInput, ignoreInput, removeInput, r)
    && LeavesPending(c, r) && UpdatesIgnored(c, r) && UpdatesModels(c, r)
  }

  lemma ApplyLists(c: Channel, addInput: Names, ignoreInput: Names, removeInput: Names, now: int)
    ensures Selects(c, addInput, ignoreInput, removeInput, Apply(c, addInput, ignoreInput, removeInput, now))
  {
    var adds, removes := Normalize(c.detected), Normalize(c.removed);
    NormalizeSpec(c.detected);
    NormalizeSpec(c.removed);
    NormalizeFixed(adds);
    NormalizeFixed(removes);
    SetAlgebra(addInput, adds);
    SetAlgebra(ignoreInput, adds);
    SetAlgebra(removeInput, removes);
    var add, remove := Intersect(addInput, adds), Intersect(removeInput, removes);
    NormalizeFixed(add);
    NormalizeFixed(remove);
    SetAlgebra(remove, add);
  }

  lemma ApplyRemaining(c: Channel, addInput: Names, ignoreInput: Names, removeInput: Names, now: int)
    ensures LeavesPending(c, Apply(c, addInput, ignoreInput, removeInput, now))
  {
    var r := Apply(c, addInput, ignoreInput, removeInput, now);
    var adds, removes := Normalize(c.detected), Normalize(c.removed);
    ApplyLists(c, addInput, ignoreInput, removeInput, now);
    NormalizeSpec(c.detected);
    NormalizeSpec(c.removed);
    NormalizeFixed(adds);
    NormalizeFixed(removes);
    NormalizeOfClean(r.added + r.ignoredNow);
    SetAlgebra(adds, r.added + r.ignoredNow);
    NormalizeFixed(r.removedNow);
    SetAlgebra(removes, r.removedNow);
  }

  lemma ApplyIgnored(c: Channel, addInput: Names, ignoreInput: Names, removeInput: Names, now: int)
    ensures UpdatesIgnored(c, Apply(c, addInput, ignoreInput, removeInput, now))
  {
    var r := Apply(c, addInput, ignoreInput, removeInput, now);
    ApplyLists(c, addInput, ignoreInput, removeInput, now);
    NormalizeFixed(r.ignoredNow);
    NormalizeFixed(r.added);
    SetAlgebra(c.ignored, r.ignoredNow);
    var merged := Merge(c.ignored, r.ignoredNow);
    NormalizeFixed(merged);
    SetAlgebra(merged, r.added);
  }

  /** A list of clean names keeps its members when normalised. */
  lemma NormalizeOfClean(s: Names)
    requires forall x :: x in s ==> Clean(x)
    ensures forall x :: x in Normalize(s) <==> x in s
  {
    TrimAllFixed(s);
    UniqSpec(s);
  }

  lemma ApplyModels(c: Channel, addInput: Names, ignoreInput: Names, removeInput: Names, now: int)
    ensures UpdatesModels(c, Apply(c, addInput, ignoreInput, removeInput, now))
  {
    var r := Apply(c, addInput, ignoreInput, removeInput, now);
    var origin := Local(c.models);
    var next := ApplySelected(origin, r.added, r.removedNow);
    ApplyLists(c, addInput, ignoreInput, removeInput, now);
    LocalCommaFree(c.models);
    NormalizeFixed(origin);
    NormalizeFixed(r.added);
    NormalizeFixed(r.removedNow);
    ApplySelectedSpec(origin, r.added, r.removedNow);
    forall x ensures x in Local(r.channel.models) <==>
                     (exists a :: a in r.added && x in Pieces(a)) || (x in origin && x !in r.removedNow) {
      StoredMembers(c.models, next, r.added, r.removedNow, x);
    }
  }

  lemma StoredMembers(models: string, next: Names, added: Names, removedNow: Names, x: string)
    requires forall y :: y in next <==> y in added || (y in Local(models) && y !in removedNow)
    ensures x in Local(if Local(models) != next then Join(next, ',') else models) <==>
            (exists a :: a in added && x in Pieces(a)) || (x in Local(models) && x !in removedNow)
  {
    LocalCommaFree(models);
    forall y | y in Local(models) ensures Pieces(y) == [y] {
      PiecesOfClean(y);
    }
    if Local(models) != next {
      LocalOfJoin(next, x);
    } else {
      assert forall a :: a in added ==> a in Local(models);
    }
  }

  lemma ApplyEffect(c: Channel, addInput: Names, ignoreInput: Names, removeInput: Names, now: int)
    ensures Effect(c, addInput, ignoreInput, removeInput, Apply(c, addInput, ignoreInput, removeInput, now))
  {
    ApplyLists(c, addInput, ignoreInput, removeInput, now);
    ApplyRemaining(c, addInput, ignoreInput, removeInput, now);
    ApplyIgnored(c, addInput, ignoreInput, removeInput, now);
    ApplyModels(c, addInput, ignoreInput, removeInput, now);
  }

  // ---------------------------------------------------------------------- conservation

  /** Selective apply conserves pending work: the remaining additions and the added or ignored ones
      partition what was pending, likewise for removals, adding wins over ignoring and removing, and
      comma-free additions change the models by exactly the added and the removed names. */
  lemma SelectiveApplyConserves(c: Channel, addInput: Names, ignoreInput: Names, removeInput: Names, now: int)
    ensures var r := Apply(c, addInput, ignoreInput, removeInput, now);
            && (forall x :: x in Normalize(c.detected) <==>
                  x in r.channel.detected || x in r.added || x in r.ignoredNow)
            && Disjoint(r.channel.detected, r.added + r.ignoredNow)
            && (forall x :: x in Normalize(c.removed) ==> (x in r.channel.removed <==> x !in r.removedNow))
            && (forall x :: x in r.channel.removed || x in r.removedNow ==> x in Normalize(c.removed))
            && Disjoint(r.added, r.channel.ignored) && Disjoint(r.added, r.removedNow)
    ensures var r := Apply(c, addInput, ignoreInput, removeInput, now);
            CommaFree(r.added) ==>
              forall x :: x in Local(r.channel.models) <==>
                          x in r.added || (x in Local(c.models) && x !in r.removedNow)
  {
    ApplyEffect(c, addInput, ignoreInput, removeInput, now);
    var r := Apply(c, addInput, ignoreInput, removeInput, now);
    if CommaFree(r.added) {
      forall a | a in r.added ensures Pieces(a) == [a] { PiecesOfClean(a); }
    }
  }

  /** An apply with comma-free additions keeps the models that stay in their order and puts the new ones
      behind them in the order in which they were asked for. It reports a change exactly when an addition
      was not stored or a removal was, and leaves the automatic mode alone. */
  lemma ApplyLayout(c: Channel, addInput: Names, ignoreInput: Names, removeInput: Names, now: int)
    ensures var r, origin := Apply(c, addInput, ignoreInput, removeInput, now), Local(c.models);
            && (CommaFree(r.added) ==>
                  Local(r.channel.models) == Without(origin, r.removedNow) + Without(r.added, origin))
            && (r.changed ==>
                  r.channel.models == Join(Without(origin, r.removedNow) + Without(r.added, origin), ','))
            && (r.changed <==>
                  (exists x :: x in r.added && x !in origin) || (exists x :: x in r.removedNow && x in origin))
            && (!r.changed ==> r.channel.models == c.models)
            && r.channel.autoSync == c.autoSync && r.channel.lastCheck == now
    ensures forall x, y :: Precedes(Apply(c, addInput, ignoreInput, removeInput, now).added, x, y) <==>
                           Precedes(Normalize(addInput), x, y)
                           && x in Normalize(c.detected) && y in Normalize(c.detected)
  {
    var r, origin := Apply(c, addInput, ignoreInput, removeInput, now), Local(c.models);
    ApplyLists(c, addInput, ignoreInput, removeInput, now);
    LocalCommaFree(c.models);
    ApplySelectedLayout(origin, r.added, r.removedNow);
    var next := ApplySelected(origin, r.added, r.removedNow);
    ApplySelectedSpec(origin, r.added, r.removedNow);
    if CommaFree(r.added) { LocalRoundTrip(next); }
    UnchangedExactlyWhen(origin, r.added, r.removedNow);
    NormalizeSpec(c.detected);
    NormalizeFixed(Normalize(c.detected));
    forall x, y ensures Precedes(r.added, x, y) <==>
                        Precedes(Normalize(addInput), x, y)
                        && x in Normalize(c.detected) && y in Normalize(c.detected) {
      AlgebraKeepsOrder(addInput, Normalize(c.detected), x, y);
    }
  }

  /** A list consists of the members of another that meet a condition, in that one's order. */
  ghost predicate PartOf(part: Names, whole: Names, keep: string -> bool) {
    && NoDup(part) && (forall x :: x in part <==> x in whole && keep(x))
    && (forall x, y :: Precedes(part, x, y) <==> Precedes(whole, x, y) && keep(x) && keep(y))
  }

  lemma WithoutIsPart(s: Names, removed: Names)
    requires NoDup(s)
    ensures PartOf(Without(s, removed), s, x => x !in removed)
  {
    forall x, y ensures Precedes(Without(s, removed), x, y) <==> Precedes(s, x, y) && x !in removed && y !in removed {
      WithoutOrder(s, removed, x, y);
    }
  }

  lemma FilterIsPart(s: Names, keep: string -> bool)
    requires NoDup(s)
    ensures PartOf(Filter(s, keep), s, keep)
  {
    forall x, y ensures Precedes(Filter(s, keep), x, y) <==> Precedes(s, x, y) && keep(x) && keep(y) {
      FilterOrder(s, keep, x, y);
    }
  }

  /** The order of the other lists an apply leaves: what was ignored and removed comes as it was asked for, what
      stays pending as it was found, and the ignore list as it was, with the newly ignored names behind it. */
  lemma ApplyKeepsOrder(c: Channel, addInput: Names, ignoreInput: Names, removeInput: Names, now: int)
    ensures var r := Apply(c, addInput, ignoreInput, removeInput, now);
            var adds, removes, before := Normalize(c.detected), Normalize(c.removed), Normalize(c.ignored);
            && PartOf(r.ignoredNow, Normalize(ignoreInput), x => x in adds)
            && PartOf(r.removedNow, Normalize(removeInput), x => x in removes && x !in r.added)
            && PartOf(r.channel.detected, adds, x => x !in r.added && x !in r.ignoredNow)
            && PartOf(r.channel.removed, removes, x => x !in r.removedNow)
            && PartOf(r.channel.ignored, before + Without(r.ignoredNow, before), x => x !in r.added)
  {
    var r := Apply(c, addInput, ignoreInput, removeInput, now);
    var adds, removes := Normalize(c.detected), Normalize(c.removed);
    ApplyLists(c, addInput, ignoreInput, removeInput, now);
    NormalizeSpec(c.detected);
    NormalizeSpec(c.removed);
    NormalizeFixed(adds);
    NormalizeFixed(removes);
    IgnoredOrder(c, addInput, ignoreInput, removeInput, now);
    RemovedOrder(c, addInput, ignoreInput, removeInput, now);
    NormalizeOfClean(r.added + r.ignoredNow);
    WithoutIsPart(adds, Normalize(r.added + r.ignoredNow));
    PartAgrees(r.channel.detected, adds, x => x !in Normalize(r.added + r.ignoredNow),
               x => x !in r.added && x !in r.ignoredNow);
    NormalizeFixed(r.removedNow);
    WithoutIsPart(removes, r.removedNow);
    IgnoreListOrder(c, addInput, ignoreInput, removeInput, now);
  }

  lemma PartAgrees(part: Names, whole: Names, p: string -> bool, q: string -> bool)
    requires PartOf(part, whole, p) && forall x :: p(x) == q(x)
    ensures PartOf(part, whole, q)
  {
  }

  lemma IgnoredOrder(c: Channel, addInput: Names, ignoreInput: Names, removeInput: Names, now: int)
    ensures PartOf(Apply(c, addInput, ignoreInput, removeInput, now).ignoredNow, Normalize(ignoreInput),
                   x => x in Normalize(c.detected))
  {
    var adds := Normalize(c.detected);
    NormalizeSpec(c.detected);
    NormalizeFixed(adds);
    NormalizeSpec(ignoreInput);
    FilterIsPart(Normalize(ignoreInput), x => x in Normalize(adds));
    PartAgrees(Intersect(ignoreInput, adds), Normalize(ignoreInput), x => x in Normalize(adds), x => x in adds);
  }

  lemma RemovedOrder(c: Channel, addInput: Names, ignoreInput: Names, removeInput: Names, now: int)
    ensures var r := Apply(c, addInput, ignoreInput, removeInput, now);
            PartOf(r.removedNow, Normalize(removeInput), x => x in Normalize(c.removed) && x !in r.added)
  {
    var r, removes := Apply(c, addInput, ignoreInput, removeInput, now), Normalize(c.removed);
    ApplyLists(c, addInput, ignoreInput, removeInput, now);
    NormalizeSpec(c.removed);
    NormalizeFixed(removes);
    SelectedOrder(removeInput, removes, r.added);
  }

  lemma SelectedOrder(input: Names, pending: Names, added: Names)
    requires IsNormal(pending) && IsNormal(added)
    ensures PartOf(Subtract(Intersect(input, pending), added), Normalize(input), x => x in pending && x !in added)
  {
    var selected := Intersect(input, pending);
    NormalizeSpec(input);
    NormalizeFixed(pending);
    NormalizeFixed(added);
    SetAlgebra(input, pending);
    NormalizeFixed(selected);
    FilterIsPart(Normalize(input), x => x in Normalize(pending));
    PartAgrees(selected, Normalize(input), x => x in Normalize(pending), x => x in pending);
    WithoutIsPart(selected, added);
    PartOfPart(Normalize(input), selected, Without(selected, added), x => x in pending, x => x !in added,
               x => x in pending && x !in added);
  }

  lemma PartOfPart(
    whole: Names, part: Names, less: Names, p: string -> bool, q: string -> bool, both: string -> bool)
    requires PartOf(part, whole, p) && PartOf(less, part, q) && forall x :: both(x) == (p(x) && q(x))
    ensures PartOf(less, whole, both)
  {
  }

  lemma IgnoreListOrder(c: Channel, addInput: Names, ignoreInput: Names, removeInput: Names, now: int)
    ensures var r, before := Apply(c, addInput, ignoreInput, removeInput, now), Normalize(c.ignored);
            PartOf(r.channel.ignored, before + Without(r.ignoredNow, before), x => x !in r.added)
  {
    var r, before := Apply(c, addInput, ignoreInput, removeInput, now), Normalize(c.ignored);
    ApplyLists(c, addInput, ignoreInput, removeInput, now);
    NormalizeFixed(r.ignoredNow);
    NormalizeFixed(r.added);
    SetAlgebra(c.ignored, r.ignoredNow);
    var merged := Merge(c.ignored, r.ignoredNow);
    assert merged == before + Without(r.ignoredNow, before);
    NormalizeFixed(merged);
    WithoutIsPart(merged, r.added);
    if r.added == [] {
      WithoutDisjoint(merged, r.added);
    }
  }

  lemma UnchangedExactlyWhen(origin: Names, added: Names, removed: Names)
    ensures Without(origin, removed) + Without(added, origin) == origin <==>
            (forall x :: x in added ==> x in origin) && (forall x :: x in removed ==> x !in origin)
  {
    var next := Without(origin, removed) + Without(added, origin);
    EmptyIff(Without(added, origin));
    if forall x :: x in removed ==> x !in origin {
      WithoutDisjoint(origin, removed);
    } else {
      var x :| x in removed && x in origin;
      assert x !in next;
    }
  }

  /** In every mode, the additions a check stages and those it applies by itself number the
      additions that were pending. */
  lemma CheckCountsAdditions(c: Channel, env: Env, allowAuto: bool, now: int, upstream: Names)
    ensures var (next, autoAdded) := Checked(c, env, allowAuto, now, upstream);
            |next.detected| + autoAdded == |PendingAdds(c.models, upstream, c.ignored, env)|
  {
    PendingSpec(c.models, upstream, c.ignored, env);
    NormalizeSpec(GetModels(c.models));
    MergeDisjointLength(Local(c.models), PendingAdds(c.models, upstream, c.ignored, env));
  }

  /** A check that can be saved looks at upstream exactly when it is forced, the channel was never checked, or
      the interval since its last check has passed; one that is too early, or that cannot be saved, leaves
      the record as it was. Whoever looks is recorded as the last check. */
  lemma ChecksAreThrottled(c: Channel, env: Env, force: bool, allowAuto: bool, now: int,
                           fetched: Option<Names>, saved: bool)
    ensures var after := CheckStep(c, env, force, allowAuto, now, fetched, saved);
            if saved && (force || c.lastCheck <= 0 || now >= c.lastCheck + env.minInterval) then
              && after.lastCheck == now
              && (fetched.Some? ==> after == Checked(c, env, allowAuto, now, fetched.value).0)
              && (fetched.None? ==> after == c.(lastCheck := now))
            else after == c
  {
  }

  // ------------------------------------------------------------------------ convergence

  /** Detect, then apply everything that was found. */
  function DetectAndApplyAll(c: Channel, env: Env, upstream: Names, checkedAt: int, appliedAt: int): Channel {
    var detected := Checked(c, env, false, checkedAt, upstream).0;
    Apply(detected, detected.detected, [], detected.removed, appliedAt).channel
  }

  /** Every upstream model that only the ignore list keeps out is also kept out by an entry that is
      not itself about to be added as a model. Only entries starting with `regex:` can fail this. */
  ghost predicate StaysIgnored(c: Channel, env: Env, upstream: Names, adds: Names) {
    forall m :: m in Normalize(upstream) && m !in Local(c.models) && m !in env.redirects.Values
                && IsIgnored(c.ignored, m, env) ==>
                exists e :: e in Normalize(c.ignored) && e !in adds && Ignores(e, m, env)
  }

  ghost predicate NothingPending(c: Channel, env: Env, upstream: Names) {
    PendingAdds(c.models, upstream, c.ignored, env) == [] && PendingRemoves(c.models, upstream, env) == []
  }

  lemma EmptyIff(s: Names)
    ensures s == [] <==> forall x :: x !in s
  {
    if s != [] { assert s[0] in s; }
  }

  /** What detect-and-apply-all leaves behind. */
  lemma AllApplied(c: Channel, env: Env, upstream: Names, checkedAt: int, appliedAt: int)
    ensures var after := DetectAndApplyAll(c, env, upstream, checkedAt, appliedAt);
            var adds := PendingAdds(c.models, upstream, c.ignored, env);
            var removes := PendingRemoves(c.models, upstream, env);
            && IsNormal(after.ignored)
            && (forall x :: x in after.ignored <==> x in Normalize(c.ignored) && x !in adds)
            && (forall x :: x in Local(after.models) <==>
                  (exists a :: a in adds && x in Pieces(a)) || (x in Local(c.models) && x !in removes))
  {
    var detected := Checked(c, env, false, checkedAt, upstream).0;
    PendingSpec(c.models, upstream, c.ignored, env);
    ApplyEffect(detected, detected.detected, [], detected.removed, appliedAt);
    AllAppliedFromEffect(detected, Apply(detected, detected.detected, [], detected.removed, appliedAt));
  }

  lemma AllAppliedFromEffect(detected: Channel, r: Applied)
    requires IsNormal(detected.detected) && IsNormal(detected.removed)
    requires Disjoint(detected.detected, detected.removed)
    requires Effect(detected, detected.detected, [], detected.removed, r)
    ensures IsNormal(r.channel.ignored)
    ensures forall x :: x in r.channel.ignored <==> x in Normalize(detected.ignored) && x !in detected.detected
    ensures forall x :: x in Local(r.channel.models) <==>
                        (exists a :: a in detected.detected && x in Pieces(a))
                        || (x in Local(detected.models) && x !in detected.removed)
  {
    NormalizeFixed(detected.detected);
    NormalizeFixed(detected.removed);
    NormalizeFixed([]);
  }

  /** Does an ignore entry name a model, or does its pattern match it? */
  ghost predicate Covers(entry: string, name: string, env: Env) {
    if "regex:" <= entry then env.matches(TrimSpace(entry[6..]), name) else entry == name
  }

  lemma CoversIsIgnores(entry: string, name: string, env: Env)
    ensures Covers(entry, name, env) <==> Ignores(entry, name, env)
  {
  }

  /** Upstream offers a model that is not stored, that no redirect leads to, and that no ignore entry covers. */
  ghost predicate Wanted(c: Channel, env: Env, upstream: Names, name: string) {
    && name in Normalize(upstream) && name !in Local(c.models)
    && (forall source :: source in env.redirects ==> env.redirects[source] != name)
    && (forall e :: e in Normalize(c.ignored) ==> !Covers(e, name, env))
  }

  lemma WantedArePending(c: Channel, env: Env, upstream: Names, name: string)
    ensures Wanted(c, env, upstream, name) <==> name in PendingAdds(c.models, upstream, c.ignored, env)
  {
    forall e ensures Covers(e, name, env) <==> Ignores(e, name, env) { CoversIsIgnores(e, name, env); }
  }

  /** After detecting and applying everything the models are the pieces of the wanted ones, and of the stored
      ones those that upstream lists or that are the source of a redirect. */
  lemma ModelsAfterAll(c: Channel, env: Env, upstream: Names, checkedAt: int, appliedAt: int, x: string)
    ensures x in Local(DetectAndApplyAll(c, env, upstream, checkedAt, appliedAt).models) <==>
            || (exists a :: Wanted(c, env, upstream, a) && x in Pieces(a))
            || (x in Local(c.models) && (x in env.redirects || x in Normalize(upstream)))
  {
    AllApplied(c, env, upstream, checkedAt, appliedAt);
    forall a ensures Wanted(c, env, upstream, a) <==> a in PendingAdds(c.models, upstream, c.ignored, env) {
      WantedArePending(c, env, upstream, a);
    }
  }

  /** What a check that reached upstream leaves behind, in every mode: the stored models that upstream
      dropped, except redirect sources, are pending for removal; the wanted models are pending, or, if the
      channel synchronises by itself, stored behind the old ones in upstream's order. */
  lemma CheckStages(c: Channel, env: Env, allowAuto: bool, now: int, upstream: Names)
    ensures var after, origin := Checked(c, env, allowAuto, now, upstream).0, Local(c.models);
            && PartOf(after.removed, origin, x => x !in Normalize(upstream) && x !in env.redirects)
            && after.ignored == c.ignored && after.autoSync == c.autoSync && after.lastCheck == now
            && (!(allowAuto && c.autoSync) ==>
                  && after.models == c.models && NoDup(after.detected)
                  && (forall x :: x in after.detected <==> Wanted(c, env, upstream, x))
                  && (forall x, y :: Precedes(after.detected, x, y) <==>
                        Precedes(Normalize(upstream), x, y)
                        && Wanted(c, env, upstream, x) && Wanted(c, env, upstream, y)))
            && (allowAuto && c.autoSync ==> after.detected == [])
    ensures var after, origin := Checked(c, env, allowAuto, now, upstream).0, Local(c.models);
            allowAuto && c.autoSync && CommaFree(PendingAdds(c.models, upstream, c.ignored, env)) ==>
              && origin <= Local(after.models)
              && after.models == (if forall x :: !Wanted(c, env, upstream, x) then c.models
                                  else Join(Local(after.models), ','))
              && (forall x :: x in Local(after.models)[|origin|..] <==> Wanted(c, env, upstream, x))
              && (forall x, y :: Precedes(Local(after.models)[|origin|..], x, y) <==>
                    Precedes(Normalize(upstream), x, y) && Wanted(c, env, upstream, x) && Wanted(c, env, upstream, y))
  {
    forall x ensures Wanted(c, env, upstream, x) <==> x in PendingAdds(c.models, upstream, c.ignored, env) {
      WantedArePending(c, env, upstream, x);
    }
    PendingSpec(c.models, upstream, c.ignored, env);
    LocalCommaFree(c.models);
    FilterIsPart(Local(c.models), m => m !in env.redirects.Keys && m !in Normalize(upstream));
    PartAgrees(PendingRemoves(c.models, upstream, env), Local(c.models),
               m => m !in env.redirects.Keys && m !in Normalize(upstream),
               x => x !in Normalize(upstream) && x !in env.redirects);
    forall x, y ensures Precedes(PendingAdds(c.models, upstream, c.ignored, env), x, y) <==>
                        Precedes(Normalize(upstream), x, y)
                        && Wanted(c, env, upstream, x) && Wanted(c, env, upstream, y) {
      PendingOrder(c, env, upstream, x, y);
    }
    EmptyIff(PendingAdds(c.models, upstream, c.ignored, env));
    if allowAuto && c.autoSync && CommaFree(PendingAdds(c.models, upstream, c.ignored, env)) {
      AutoSyncAppends(c, env, now, upstream);
    }
  }

  lemma PendingOrder(c: Channel, env: Env, upstream: Names, x: string, y: string)
    ensures var adds := PendingAdds(c.models, upstream, c.ignored, env);
            Precedes(adds, x, y) <==> Precedes(Normalize(upstream), x, y) && x in adds && y in adds
  {
    FilterOrder(Normalize(upstream),
      m => m !in Local(c.models) && m !in env.redirects.Values && !IsIgnored(c.ignored, m, env), x, y);
  }

  lemma AutoSyncAppends(c: Channel, env: Env, now: int, upstream: Names)
    requires c.autoSync && CommaFree(PendingAdds(c.models, upstream, c.ignored, env))
    ensures Local(Checked(c, env, true, now, upstream).0.models)
         == Local(c.models) + PendingAdds(c.models, upstream, c.ignored, env)
    ensures var models := Checked(c, env, true, now, upstream).0.models;
            models == (if PendingAdds(c.models, upstream, c.ignored, env) == [] then c.models
                       else Join(Local(models), ','))
  {
    var origin, adds := Local(c.models), PendingAdds(c.models, upstream, c.ignored, env);
    PendingSpec(c.models, upstream, c.ignored, env);
    LocalCommaFree(c.models);
    NormalizeFixed(origin);
    NormalizeFixed(adds);
    WithoutDisjoint(adds, origin);
    SetAlgebra(origin, adds);
    LocalRoundTrip(Merge(origin, adds));
  }

  /** A check that cannot reach upstream changes nothing but its time. */
  lemma FailedFetchKeepsLists(c: Channel, env: Env, force: bool, allowAuto: bool, now: int, saved: bool)
    ensures var after := CheckStep(c, env, force, allowAuto, now, None, saved);
            after == c || after == c.(lastCheck := now)
  {
  }

  /** The alias a redirect starts from is never removed because upstream does not list it. */
  lemma RedirectSourcesStay(c: Channel, env: Env, upstream: Names, checkedAt: int, appliedAt: int, x: string)
    requires x in Local(c.models) && x in env.redirects
    ensures x in Local(DetectAndApplyAll(c, env, upstream, checkedAt, appliedAt).models)
  {
    ModelsAfterAll(c, env, upstream, checkedAt, appliedAt, x);
  }

  lemma ConvergesIf(c: Channel, env: Env, upstream: Names, checkedAt: int, appliedAt: int)
    requires var adds := PendingAdds(c.models, upstream, c.ignored, env);
             CommaFree(adds) && StaysIgnored(c, env, upstream, adds)
    ensures NothingPending(DetectAndApplyAll(c, env, upstream, checkedAt, appliedAt), env, upstream)
  {
    var after := DetectAndApplyAll(c, env, upstream, checkedAt, appliedAt);
    var adds := PendingAdds(c.models, upstream, c.ignored, env);
    AllApplied(c, env, upstream, checkedAt, appliedAt);
    PendingSpec(c.models, upstream, c.ignored, env);
    forall a | a in adds ensures Pieces(a) == [a] { PiecesOfClean(a); }
    NormalizeFixed(after.ignored);
    forall m ensures m !in PendingAdds(after.models, upstream, after.ignored, env) {
      if m in Normalize(upstream) && m !in Local(after.models) && m !in env.redirects.Values {
        assert m !in Local(c.models) && m !in adds;
        assert IsIgnored(c.ignored, m, env);
      }
    }
    EmptyIff(PendingAdds(after.models, upstream, after.ignored, env));
    EmptyIff(PendingRemoves(after.models, upstream, env));
  }

  lemma ConvergesOnlyIf(c: Channel, env: Env, upstream: Names, checkedAt: int, appliedAt: int)
    requires NothingPending(DetectAndApplyAll(c, env, upstream, checkedAt, appliedAt), env, upstream)
    ensures var adds := PendingAdds(c.models, upstream, c.ignored, env);
            CommaFree(adds) && StaysIgnored(c, env, upstream, adds)
  {
    var after := DetectAndApplyAll(c, env, upstream, checkedAt, appliedAt);
    var adds := PendingAdds(c.models, upstream, c.ignored, env);
    AllApplied(c, env, upstream, checkedAt, appliedAt);
    PendingSpec(c.models, upstream, c.ignored, env);
    LocalCommaFree(after.models);
    NormalizeFixed(after.ignored);
    EmptyIff(PendingAdds(after.models, upstream, after.ignored, env));
    forall a | a in adds ensures ',' !in a {
      assert !IsIgnored(after.ignored, a, env);
    }
    forall a | a in adds ensures Pieces(a) == [a] { PiecesOfClean(a); }
    forall m | m in Normalize(upstream) && m !in Local(c.models) && m !in env.redirects.Values
               && IsIgnored(c.ignored, m, env)
      ensures exists e :: e in Normalize(c.ignored) && e !in adds && Ignores(e, m, env)
    {
      assert m !in adds && m !in Local(after.models);
      assert IsIgnored(after.ignored, m, env);
    }
  }

  /** Detecting, applying everything and detecting again against the same upstream finds nothing,
      exactly when no pending addition contains a comma and no applied addition takes away the
      ignore entry that kept another model out. */
  lemma ConvergesExactlyWhen(c: Channel, env: Env, upstream: Names, checkedAt: int, appliedAt: int)
    ensures NothingPending(DetectAndApplyAll(c, env, upstream, checkedAt, appliedAt), env, upstream) <==>
            var adds := PendingAdds(c.models, upstream, c.ignored, env);
            CommaFree(adds) && StaysIgnored(c, env, upstream, adds)
  {
    var adds := PendingAdds(c.models, upstream, c.ignored, env);
    if CommaFree(adds) && StaysIgnored(c, env, upstream, adds) {
      ConvergesIf(c, env, upstream, checkedAt, appliedAt);
    } else if NothingPending(DetectAndApplyAll(c, env, upstream, checkedAt, appliedAt), env, upstream) {
      ConvergesOnlyIf(c, env, upstream, checkedAt, appliedAt);
    }
  }

  /** So it converges for every channel once upstream names are free of commas and none of them
      starts with the regular-expression prefix. */
  lemma OrdinaryNamesConverge(c: Channel, env: Env, upstream: Names, checkedAt: int, appliedAt: int)
    requires forall m :: m in upstream ==> ',' !in m
    requires forall m :: m in Normalize(upstream) ==> !HasPrefix(m, REGEX_PREFIX)
    ensures NothingPending(DetectAndApplyAll(c, env, upstream, checkedAt, appliedAt), env, upstream)
  {
    var adds := PendingAdds(c.models, upstream, c.ignored, env);
    forall a | a in adds ensures ',' !in a {
      NormalizeSpec(upstream);
      var i :| 0 <= i < |upstream| && TrimSpace(upstream[i]) == a;
      TrimSpec(upstream[i], WHITESPACE);
      assert upstream[i] in upstream;
    }
    forall m | m in Normalize(upstream) && m !in Local(c.models) && m !in env.redirects.Values
               && IsIgnored(c.ignored, m, env)
      ensures exists e :: e in Normalize(c.ignored) && e !in adds && Ignores(e, m, env)
    {
      var e :| e in Normalize(c.ignored) && Ignores(e, m, env);
      assert e !in adds;
    }
    ConvergesIf(c, env, upstream, checkedAt, appliedAt);
  }

  /** One time of detecting and applying everything. */
  datatype Round = Round(upstream: Names, checkedAt: int, appliedAt: int)

  function AfterRound(c: Channel, env: Env, r: Round): Channel {
    DetectAndApplyAll(c, env, r.upstream, r.checkedAt, r.appliedAt)
  }

  function AfterRounds(c: Channel, env: Env, rounds: seq<Round>): Channel
    decreases |rounds|
  {
    if rounds == [] then c else AfterRounds(AfterRound(c, env, rounds[0]), env, rounds[1..])
  }

  /** A pending name with a comma defeats convergence: it is stored as its pieces and stays pending, whatever
      upstream lists when everything is applied. */
  lemma CommaNameStaysPending(c: Channel, env: Env, upstream: Names, name: string, r: Round)
    requires name in PendingAdds(c.models, upstream, c.ignored, env) && ',' in name
    ensures var after := AfterRound(c, env, r);
            name in PendingAdds(after.models, upstream, after.ignored, env)
  {
    var after := AfterRound(c, env, r);
    AllApplied(c, env, r.upstream, r.checkedAt, r.appliedAt);
    LocalCommaFree(after.models);
    NormalizeFixed(after.ignored);
    PendingIf(after.models, upstream, after.ignored, env, name);
  }

  /** It stays so for ever: however often everything is detected and applied, a check against an upstream that
      lists the name finds it pending again. */
  lemma {:induction false} CommaNameNeverConverges(
    c: Channel, env: Env, upstream: Names, name: string, rounds: seq<Round>)
    requires name in PendingAdds(c.models, upstream, c.ignored, env) && ',' in name
    ensures var after := AfterRounds(c, env, rounds);
            name in PendingAdds(after.models, upstream, after.ignored, env)
    decreases |rounds|
  {
    if rounds == [] {
    } else {
      CommaNameStaysPending(c, env, upstream, name, rounds[0]);
      CommaNameNeverConverges(AfterRound(c, env, rounds[0]), env, upstream, name, rounds[1..]);
    }
  }

  /** Such a name is pending on a channel without models as soon as upstream lists it. */
  lemma CommaNameInstance(env: Env, name: string)
    requires Clean(name) && ',' in name && env.redirects == map[]
    ensures name in PendingAdds("", [name], [], env)
  {
    CleanStays([name], 0);
  }

  lemma CleanStays(s: Names, i: nat)
    requires i < |s| && Clean(s[i])
    ensures s[i] in Normalize(s)
  {
    NormalizeSpec(s);
  }

  /** So does a pending model whose name is itself an ignore entry: adding it drops the entry, and a
      model that only this entry kept out becomes pending, unless it is stored as a piece of an addition. */
  lemma PatternNameNeverConverges(
    c: Channel, env: Env, upstream: Names, pattern: string, kept: string, checkedAt: int, appliedAt: int)
    requires pattern in PendingAdds(c.models, upstream, c.ignored, env)
    requires kept in Normalize(upstream) && kept !in Local(c.models) && kept !in env.redirects.Values
    requires Ignores(pattern, kept, env) && pattern in Normalize(c.ignored)
    requires forall e :: e in Normalize(c.ignored) && e != pattern ==> !Ignores(e, kept, env)
    ensures var after := DetectAndApplyAll(c, env, upstream, checkedAt, appliedAt);
            && !NothingPending(after, env, upstream)
            && (kept in PendingAdds(after.models, upstream, after.ignored, env) <==>
                !IsPiece(PendingAdds(c.models, upstream, c.ignored, env), kept))
  {
    assert IsIgnored(c.ignored, kept, env);
    ConvergesExactlyWhen(c, env, upstream, checkedAt, appliedAt);
    var after := DetectAndApplyAll(c, env, upstream, checkedAt, appliedAt);
    AllApplied(c, env, upstream, checkedAt, appliedAt);
    NormalizeFixed(after.ignored);
    if !IsPiece(PendingAdds(c.models, upstream, c.ignored, env), kept) {
      PendingIf(after.models, upstream, after.ignored, env, kept);
    }
  }

  /** The two-model instance: no models stored, the pattern ignored, both listed upstream. */
  lemma PatternNameInstance(env: Env, pattern: string, kept: string)
    requires Clean(pattern) && Clean(kept) && env.redirects == map[]
    requires Ignores(pattern, kept, env) && !Ignores(pattern, pattern, env)
    ensures pattern in PendingAdds("", [pattern, kept], [pattern], env)
    ensures kept in Normalize([pattern, kept]) && Normalize([pattern]) == [pattern]
  {
    var upstream, ignored := [pattern, kept], [pattern];
    CleanStays(upstream, 0);
    CleanStays(upstream, 1);
    NormalizeFixed(ignored);
    PendingIf("", upstream, ignored, env, pattern);
  }

  lemma PendingIf(models: string, upstream: Names, ignored: Names, env: Env, m: string)
    requires m in Normalize(upstream) && m !in Local(models) && m !in env.redirects.Values
    requires !IsIgnored(ignored, m, env)
    ensures m in PendingAdds(models, upstream, ignored, env)
  {
  }

  /** Such names exist: a pattern that matches another model but not its own text. */
  lemma PatternNamesExist(env: Env, body: string, kept: string)
    requires Clean(body) && env.matches(body, kept) && !env.matches(body, REGEX_PREFIX + body)
    ensures var pattern := REGEX_PREFIX + body;
            Clean(pattern) && Ignores(pattern, kept, env) && !Ignores(pattern, pattern, env)
  {
    var pattern := REGEX_PREFIX + body;
    TrimSpec(body, WHITESPACE);
    TrimSpec(pattern, WHITESPACE);
    assert pattern[|REGEX_PREFIX|..] == body;
  }

  /** Automatic synchronisation leaves no addition pending either, exactly when the additions are
      free of commas. */
  lemma AutoSyncConvergesExactlyWhen(c: Channel, env: Env, upstream: Names, now: int)
    requires c.autoSync
    ensures var after := Checked(c, env, true, now, upstream).0;
            PendingAdds(after.models, upstream, after.ignored, env) == [] <==>
            CommaFree(PendingAdds(c.models, upstream, c.ignored, env))
  {
    AutoSyncModels(c, env, now, upstream);
    AddedAllExactlyWhen(c.models, Checked(c, env, true, now, upstream).0.models, upstream, c.ignored, env);
  }

  /** Once the pieces of all pending additions are stored, none is pending, exactly when they are free of
      commas. */
  lemma AddedAllExactlyWhen(models: string, after: string, upstream: Names, ignored: Names, env: Env)
    requires forall x :: x in Local(after) <==>
               x in Local(models) || exists a :: a in PendingAdds(models, upstream, ignored, env) && x in Pieces(a)
    ensures PendingAdds(after, upstream, ignored, env) == [] <==> CommaFree(PendingAdds(models, upstream, ignored, env))
  {
    var adds, again := PendingAdds(models, upstream, ignored, env), PendingAdds(after, upstream, ignored, env);
    PendingSpec(models, upstream, ignored, env);
    LocalCommaFree(after);
    EmptyIff(again);
    if CommaFree(adds) {
      forall a | a in adds ensures Pieces(a) == [a] { PiecesOfClean(a); }
      assert forall m :: m in again ==> m in adds;
    } else {
      var a :| a in adds && ',' in a;
      assert a in again;
    }
  }

  lemma AutoSyncModels(c: Channel, env: Env, now: int, upstream: Names)
    requires c.autoSync
    ensures var after := Checked(c, env, true, now, upstream).0;
            var adds := PendingAdds(c.models, upstream, c.ignored, env);
            forall x :: x in Local(after.models) <==>
                        x in Local(c.models) || exists a :: a in adds && x in Pieces(a)
  {
    var after := Checked(c, env, true, now, upstream).0;
    var origin, adds := Local(c.models), PendingAdds(c.models, upstream, c.ignored, env);
    PendingSpec(c.models, upstream, c.ignored, env);
    LocalCommaFree(c.models);
    NormalizeFixed(origin);
    NormalizeFixed(adds);
    SetAlgebra(origin, adds);
    MergeDisjointLength(origin, adds);
    if |adds| > 0 {
      var merged := Merge(origin, adds);
      assert after.models == Join(merged, ',');
      forall y | y in origin ensures Pieces(y) == [y] { PiecesOfClean(y); }
      forall x ensures x in Local(after.models) <==> x in origin || exists a :: a in adds && x in Pieces(a) {
        LocalOfJoin(merged, x);
      }
    }
  }

  // --------------------------------------------------------------------------- every run

  /** The consistency of the stored lists. */
  ghost predicate Consistent(c: Channel) {
    && IsNormal(c.detected) && IsNormal(c.removed)
    && Disjoint(c.detected, Local(c.models))
    && Disjoint(c.detected, c.removed)
    && (forall x :: x in c.removed ==> x in Local(c.models))
    && (forall e :: e in Normalize(c.ignored) && !HasPrefix(e, REGEX_PREFIX) ==> e !in c.detected)
  }

  lemma CheckedConsistent(c: Channel, env: Env, allowAuto: bool, now: int, upstream: Names)
    ensures Consistent(Checked(c, env, allowAuto, now, upstream).0)
  {
    var after := Checked(c, env, allowAuto, now, upstream).0;
    PendingSpec(c.models, upstream, c.ignored, env);
    NormalizeFixed([]);
    if allowAuto && c.autoSync {
      AutoSyncModels(c, env, now, upstream);
    } else {
      forall e | e in Normalize(c.ignored) && !HasPrefix(e, REGEX_PREFIX) ensures e !in after.detected {
        if e in after.detected {
          assert Ignores(e, e, env);
        }
      }
    }
  }

  /** Whatever is selected for adding, its pieces that are pending are selected too. */
  ghost predicate SelectionSafe(c: Channel, addInput: Names, ignoreInput: Names) {
    forall a, p :: a in Normalize(addInput) && a in c.detected && p in Pieces(a) && p in c.detected ==>
      p in Normalize(addInput) || p in Normalize(ignoreInput)
  }

  /** An apply keeps the lists consistent exactly when every pending piece of a name selected for adding is
      itself selected for adding or ignoring. */
  lemma ApplyConsistentExactlyWhen(
    c: Channel, addInput: Names, ignoreInput: Names, removeInput: Names, now: int)
    requires Consistent(c)
    ensures Consistent(Apply(c, addInput, ignoreInput, removeInput, now).channel) <==>
            SelectionSafe(c, addInput, ignoreInput)
  {
    ApplyEffect(c, addInput, ignoreInput, removeInput, now);
    ConsistentFromEffect(c, addInput, ignoreInput, removeInput, Apply(c, addInput, ignoreInput, removeInput, now));
  }

  lemma ConsistentFromEffect(c: Channel, addInput: Names, ignoreInput: Names, removeInput: Names, r: Applied)
    requires Consistent(c) && Effect(c, addInput, ignoreInput, removeInput, r)
    ensures Consistent(r.channel) <==> SelectionSafe(c, addInput, ignoreInput)
  {
    NormalizeFixed(c.detected);
    NormalizeFixed(c.removed);
    NormalizeFixed(r.channel.ignored);
    PiecesStayOut(c, addInput, ignoreInput, removeInput, r);
  }

  lemma PiecesStayOut(c: Channel, addInput: Names, ignoreInput: Names, removeInput: Names, r: Applied)
    requires Normalize(c.detected) == c.detected && Effect(c, addInput, ignoreInput, removeInput, r)
    ensures SelectionSafe(c, addInput, ignoreInput) <==>
            forall a, p :: a in r.added && p in Pieces(a) ==> p !in r.channel.detected
  {
    if SelectionSafe(c, addInput, ignoreInput) {
      forall a, p | a in r.added && p in Pieces(a) ensures p !in r.channel.detected {
        assert a in Normalize(addInput) && a in c.detected;
      }
    } else {
      var a, p :| a in Normalize(addInput) && a in c.detected && p in Pieces(a) && p in c.detected
                  && p !in Normalize(addInput) && p !in Normalize(ignoreInput);
      assert a in r.added && p in r.channel.detected;
    }
  }

  /** Names without a comma are their own only piece, so every selection among them is safe. */
  lemma CommaFreeSafe(c: Channel, addInput: Names, ignoreInput: Names)
    requires IsNormal(c.detected) && CommaFree(c.detected)
    ensures SelectionSafe(c, addInput, ignoreInput)
  {
    forall a | a in c.detected ensures Pieces(a) == [a] { PiecesOfClean(a); }
  }

  /** A failing input: on a channel without models, upstream lists a name and one of its pieces, and only
      the name is added. Then the piece is stored and still pending. */
  lemma PieceLeftPending(env: Env, name: string, piece: string, now: int)
    requires Clean(name) && Clean(piece) && name != piece && piece in Pieces(name) && env.redirects == map[]
    ensures var checked := Checked(Channel("", false, 0, [], [], []), env, false, now, [name, piece]).0;
            && Consistent(checked) && checked.detected == [name, piece]
            && !Consistent(Apply(checked, [name], [], [], now).channel)
  {
    var c, upstream := Channel("", false, 0, [], [], []), [name, piece];
    AllPendingAtFirst(env, upstream);
    CheckedConsistent(c, env, false, now, upstream);
    var checked := Checked(c, env, false, now, upstream).0;
    NormalizeFixed([name]);
    NormalizeFixed([]);
    NotBothSelected(checked, [name], [], name, piece);
    ApplyConsistentExactlyWhen(checked, [name], [], [], now);
  }

  /** On a channel without models everything upstream lists is pending. */
  lemma AllPendingAtFirst(env: Env, upstream: Names)
    requires IsNormal(upstream) && env.redirects == map[]
    ensures PendingAdds("", upstream, [], env) == upstream
  {
    var nothing: Names, models := [], "";
    NormalizeFixed(upstream);
    NormalizeFixed(nothing);
    FilterAll(upstream, m => m !in Local(models) && m !in env.redirects.Values && !IsIgnored(nothing, m, env));
  }

  lemma NotBothSelected(c: Channel, add: Names, ignore: Names, name: string, piece: string)
    requires piece in Pieces(name) && name in c.detected && piece in c.detected
    requires name in Normalize(add) && piece !in Normalize(add) && piece !in Normalize(ignore)
    ensures !SelectionSafe(c, add, ignore)
  {
  }

  lemma FilterLast(s: Names, keep: string -> bool)
    requires s != [] && keep(s[|s| - 1])
    ensures Filter(s, keep) == Filter(s[..|s| - 1], keep) + [s[|s| - 1]]
  {
  }

  lemma {:induction false} FilterAll(s: Names, keep: string -> bool)
    requires forall x :: x in s ==> keep(x)
    ensures Filter(s, keep) == s
  {
    if s == [] {
    } else {
      var init, last := s[..|s| - 1], s[|s| - 1];
      assert s == init + [last] && last in s;
      FilterAll(init, keep);
      FilterLast(s, keep);
    }
  }

  /** Such names exist: two comma-free names with a comma between them. */
  lemma JoinedNames(piece: string, other: string)
    requires Clean(piece) && Clean(other) && ',' !in piece && ',' !in other
    ensures var name := piece + [','] + other;
            Clean(name) && name != piece && piece in Pieces(name)
  {
    var name := piece + [','] + other;
    TrimSpec(piece, WHITESPACE);
    TrimSpec(other, WHITESPACE);
    TrimSpec(name, WHITESPACE);
    PiecesAppend(piece, other, piece);
    PiecesOfClean(piece);
    assert ',' in name;
  }

  datatype Event =
    | Check(force: bool, allowAuto: bool, now: int, fetched: Option<Names>, saved: bool)
    | Select(add: Names, ignore: Names, remove: Names, now: int, saved: bool)

  function Step(c: Channel, env: Env, e: Event): Channel {
    match e
    case Check(force, allowAuto, now, fetched, saved) => CheckStep(c, env, force, allowAuto, now, fetched, saved)
    case Select(add, ignore, remove, now, saved) => ApplyStep(c, add, ignore, remove, now, saved)
  }

  function Run(c: Channel, env: Env, events: seq<Event>): Channel
    decreases |events|
  {
    if events == [] then c else Run(Step(c, env, events[0]), env, events[1..])
  }

  /** A step that is not a saved selection is always harmless. */
  ghost predicate StepSafe(c: Channel, e: Event) {
    e.Select? && e.saved ==> SelectionSafe(c, e.add, e.ignore)
  }

  ghost predicate RunSafe(c: Channel, env: Env, events: seq<Event>)
    decreases |events|
  {
    events == [] || (StepSafe(c, events[0]) && RunSafe(Step(c, env, events[0]), env, events[1..]))
  }

  /** The lists are consistent after every step of a run. */
  ghost predicate AlwaysConsistent(c: Channel, env: Env, events: seq<Event>)
    decreases |events|
  {
    Consistent(c) && (events == [] || AlwaysConsistent(Step(c, env, events[0]), env, events[1..]))
  }

  lemma StepConsistentExactlyWhen(c: Channel, env: Env, e: Event)
    requires Consistent(c)
    ensures Consistent(Step(c, env, e)) <==> StepSafe(c, e)
  {
    match e {
      case Check(force, allowAuto, now, fetched, saved) =>
        CheckStepConsistent(c, env, force, allowAuto, now, fetched, saved);
      case Select(add, ignore, remove, now, saved) =>
        if saved {
          ApplyConsistentExactlyWhen(c, add, ignore, remove, now);
        }
    }
  }

  lemma CheckStepConsistent(c: Channel, env: Env, force: bool, allowAuto: bool, now: int,
                            fetched: Option<Names>, saved: bool)
    requires Consistent(c)
    ensures Consistent(CheckStep(c, env, force, allowAuto, now, fetched, saved))
  {
    if fetched.Some? {
      CheckedConsistent(c, env, allowAuto, now, fetched.value);
    } else {
      assert Consistent(c.(lastCheck := now));
    }
  }

  /** Over every run of checks (throttled, failed, staging or synchronising by themselves) and selective
      applies, in any order, with any saves failing and whatever names upstream reports, the stored lists
      stay consistent exactly when every saved selection is safe. */
  lemma {:induction false} EveryRunConsistentExactlyWhen(c: Channel, env: Env, events: seq<Event>)
    requires Consistent(c)
    ensures AlwaysConsistent(c, env, events) <==> RunSafe(c, env, events)
    decreases |events|
  {
    if events == [] {
    } else {
      var next := Step(c, env, events[0]);
      StepConsistentExactlyWhen(c, env, events[0]);
      if StepSafe(c, events[0]) {
        EveryRunConsistentExactlyWhen(next, env, events[1..]);
      } else {
        assert !AlwaysConsistent(next, env, events[1..]);
      }
    }
  }

  // ------------------------------------------------------------------- runs without commas

  /** Upstream never reports a name with a comma in it. */
  ghost predicate CommaFreeUpstream(events: seq<Event>) {
    forall i :: 0 <= i < |events| ==> CommaFreeStep(events[i])
  }

  ghost predicate CommaFreeStep(e: Event) {
    e.Check? && e.fetched.Some? ==> CommaFree(e.fetched.value)
  }

  lemma CheckedCommaFree(c: Channel, env: Env, allowAuto: bool, now: int, upstream: Names)
    requires CommaFree(upstream)
    ensures CommaFree(Checked(c, env, allowAuto, now, upstream).0.detected)
  {
    forall a | a in PendingAdds(c.models, upstream, c.ignored, env) ensures ',' !in a {
      NormalizeSpec(upstream);
      var i :| 0 <= i < |upstream| && TrimSpace(upstream[i]) == a;
      TrimSpec(upstream[i], WHITESPACE);
      assert upstream[i] in upstream;
    }
  }

  lemma StepCommaFree(c: Channel, env: Env, e: Event)
    requires Consistent(c) && CommaFree(c.detected) && CommaFreeStep(e)
    ensures CommaFree(Step(c, env, e).detected)
  {
    match e {
      case Check(force, allowAuto, now, fetched, saved) =>
        CheckStepCommaFree(c, env, force, allowAuto, now, fetched, saved);
      case Select(add, ignore, remove, now, saved) =>
        ApplyStepCommaFree(c, add, ignore, remove, now, saved);
    }
  }

  lemma CheckStepCommaFree(c: Channel, env: Env, force: bool, allowAuto: bool, now: int,
                           fetched: Option<Names>, saved: bool)
    requires CommaFree(c.detected) && (fetched.Some? ==> CommaFree(fetched.value))
    ensures CommaFree(CheckStep(c, env, force, allowAuto, now, fetched, saved).detected)
  {
    if fetched.Some? {
      CheckedCommaFree(c, env, allowAuto, now, fetched.value);
    }
  }

  lemma ApplyStepCommaFree(c: Channel, add: Names, ignore: Names, remove: Names, now: int, saved: bool)
    requires IsNormal(c.detected) && CommaFree(c.detected)
    ensures CommaFree(ApplyStep(c, add, ignore, remove, now, saved).detected)
  {
    ApplyRemaining(c, add, ignore, remove, now);
    LeftCommaFree(c, Apply(c, add, ignore, remove, now));
  }

  lemma LeftCommaFree(c: Channel, r: Applied)
    requires IsNormal(c.detected) && CommaFree(c.detected) && LeavesPending(c, r)
    ensures CommaFree(r.channel.detected)
  {
    NormalizeFixed(c.detected);
  }

  /** As long as no name has a comma, every run is safe, and so the lists stay consistent. */
  lemma {:induction false} CommaFreeRunsConsistent(c: Channel, env: Env, events: seq<Event>)
    requires Consistent(c) && CommaFree(c.detected) && CommaFreeUpstream(events)
    ensures RunSafe(c, env, events) && AlwaysConsistent(c, env, events)
    decreases |events|
  {
    if events == [] {
    } else {
      var e := events[0];
      if e.Select? { CommaFreeSafe(c, e.add, e.ignore); }
      StepConsistentExactlyWhen(c, env, e);
      StepCommaFree(c, env, e);
      assert CommaFreeUpstream(events[1..]) by {
        assert forall i :: 0 <= i < |events| - 1 ==> events[1..][i] == events[i + 1];
      }
      CommaFreeRunsConsistent(Step(c, env, e), env, events[1..]);
    }
  }
}
