/** Choosing one price per model from the models.dev catalogue (controller/ratio_sync.go:838-944). Prices
    are exact reals where the catalogue's numbers are finite. */
module ModelsDev {
  import opened Basics
  import opened Floats

  datatype Cost = Cost(input: Option<Float>, output: Option<Float>, cacheRead: Option<Float>)
  datatype Candidate = Candidate(provider: string, input: real, output: Option<real>, cacheRead: Option<real>)

  /** Provider, then model. */
  type Catalogue = map<string, map<string, Cost>>

  const EPSILON := 0.000000001

  function NearlyEqual(a: real, b: real): bool {
    if a > b then a - b < EPSILON else b - a < EPSILON
  }

  predicate ValidCost(f: Float) {
    f.Fin? && f.r >= 0.0
  }

  /** A cost that can be turned into a local ratio: valid numbers, and no price on the output alone. */
  ghost predicate Convertible(cost: Cost) {
    && cost.input.Some? && cost.input.value.Fin? && 0.0 <= cost.input.value.r
    && (cost.output.Some? ==>
          && cost.output.value.Fin? && 0.0 <= cost.output.value.r
          && (cost.output.value.r > 0.0 ==> cost.input.value.r > 0.0))
  }

  /** `buildModelsDevCandidate`. */
  function BuildCandidate(provider: string, cost: Cost): (r: Option<Candidate>)
    ensures r.Some? <==> Convertible(cost)
    ensures r.Some? ==>
              && r.value.provider == provider && Some(Fin(r.value.input)) == cost.input
              && (r.value.output.Some? <==> cost.output.Some?)
              && (r.value.output.Some? ==> Some(Fin(r.value.output.value)) == cost.output)
              && (r.value.cacheRead.Some? <==>
                    cost.cacheRead.Some? && cost.cacheRead.value.Fin? && 0.0 <= cost.cacheRead.value.r)
              && (r.value.cacheRead.Some? ==> Some(Fin(r.value.cacheRead.value)) == cost.cacheRead)
  {
    if cost.input.None? || !ValidCost(cost.input.value) then None
    else if cost.output.Some? && !ValidCost(cost.output.value) then None
    else
      var input := cost.input.value.r;
      var output := if cost.output.Some? then Some(cost.output.value.r) else None;
      if input == 0.0 && output.Some? && output.value > 0.0 then None
      else
        Some(Candidate(provider, input, output,
               if cost.cacheRead.Some? && ValidCost(cost.cacheRead.value) then Some(cost.cacheRead.value.r) else None))
  }

  /** The order of strings: by the first differing character, a prefix before its extensions. */
  predicate Before(a: string, b: string) {
    if b == "" then false
    else if a == "" then true
    else a[0] < b[0] || (a[0] == b[0] && Before(a[1..], b[1..]))
  }

  /** The strings agree up to a place where the first one ends, or has the smaller character. */
  ghost predicate ComesFirst(a: string, b: string) {
    exists n: nat :: PartsAt(a, b, n)
  }

  ghost predicate PartsAt(a: string, b: string, n: nat) {
    && n <= |a| && n < |b| && a[..n] == b[..n]
    && (n == |a| || a[n] < b[n])
  }

  lemma {:induction false} BeforeExactlyWhen(a: string, b: string)
    ensures Before(a, b) <==> ComesFirst(a, b)
  {
    if b == "" {
    } else if a == "" || a[0] != b[0] {
      if ComesFirst(a, b) {
        var n: nat :| PartsAt(a, b, n);
        AgreeBefore(a, b, n);
      }
      assert a == "" || a[0] < b[0] ==> PartsAt(a, b, 0);
    } else {
      BeforeExactlyWhen(a[1..], b[1..]);
      forall n: nat ensures PartsAt(a[1..], b[1..], n) <==> PartsAt(a, b, n + 1) {
        PartsNext(a, b, n);
      }
      if ComesFirst(a[1..], b[1..]) {
        var n: nat :| PartsAt(a[1..], b[1..], n);
        assert PartsAt(a, b, n + 1);
      }
      if ComesFirst(a, b) {
        var n: nat :| PartsAt(a, b, n);
        assert PartsAt(a[1..], b[1..], n - 1);
      }
    }
  }

  lemma AgreeBefore(a: string, b: string, n: nat)
    requires PartsAt(a, b, n)
    ensures n > 0 ==> a[0] == b[0]
  {
    if n > 0 {
      assert a[..n][0] == b[..n][0];
    }
  }

  lemma PartsNext(a: string, b: string, n: nat)
    requires a != "" && b != "" && a[0] == b[0]
    ensures PartsAt(a[1..], b[1..], n) <==> PartsAt(a, b, n + 1)
  {
    if n < |a| && n < |b| {
      assert a[..n + 1] == [a[0]] + a[1..][..n] && b[..n + 1] == [b[0]] + b[1..][..n];
      assert a[..n + 1] == b[..n + 1] ==> a[..n + 1][1..] == b[..n + 1][1..];
      assert a[..n + 1][1..] == a[1..][..n] && b[..n + 1][1..] == b[1..][..n];
    }
  }

  /** It is a total order. */
  lemma {:induction false} BeforeTotal(a: string, b: string)
    ensures Before(a, b) || a == b || Before(b, a)
    ensures Before(a, b) ==> !Before(b, a) && a != b
  {
    if a != "" && b != "" && a[0] == b[0] {
      BeforeTotal(a[1..], b[1..]);
      assert a == [a[0]] + a[1..] && b == [b[0]] + b[1..];
    }
  }

  lemma {:induction false} BeforeTransitive(a: string, b: string, c: string)
    requires Before(a, b) && Before(b, c)
    ensures Before(a, c)
  {
    if a != "" && a[0] == b[0] == c[0] {
      BeforeTransitive(a[1..], b[1..], c[1..]);
    }
  }

  /** `shouldReplaceModelsDevCandidate`. */
  predicate ShouldReplace(current: Candidate, next: Candidate) {
    var currentNonZero, nextNonZero := current.input > 0.0, next.input > 0.0;
    if currentNonZero != nextNonZero then nextNonZero
    else if nextNonZero && !NearlyEqual(next.input, current.input) then next.input < current.input
    else Before(next.provider, current.provider)
  }

  /** The candidate kept after seeing a list of them. */
  function Best(candidates: seq<Candidate>): Option<Candidate> {
    if candidates == [] then None
    else
      var current, next := Best(candidates[..|candidates| - 1]), candidates[|candidates| - 1];
      if current.None? || ShouldReplace(current.value, next) then Some(next) else current
  }

  /** The valid candidates for a model, in the order of the providers. */
  function CandidatesFor(data: Catalogue, providers: seq<string>, model: string): seq<Candidate> {
    if providers == [] then []
    else
      CandidatesFor(data, providers[..|providers| - 1], model) + Offer(data, providers[|providers| - 1], model)
  }

  function Offer(data: Catalogue, provider: string, model: string): seq<Candidate> {
    if provider in data && model in data[provider] then
      match BuildCandidate(provider, data[provider][model])
      case Some(c) => [c]
      case None => []
    else []
  }

  ghost predicate Ordered(providers: seq<string>) {
    forall i, j :: 0 <= i < j < |providers| ==> Before(providers[i], providers[j])
  }

  /** The names in ascending order. */
  method SortNames(names: set<string>) returns (sorted: seq<string>)
    ensures Ordered(sorted) && forall n :: n in sorted <==> n in names
  {
    sorted := [];
    var rest := names;
    while rest != {}
      invariant rest <= names && Ordered(sorted) && forall n :: n in sorted <==> n in names && n !in rest
    {
      var name :| name in rest;
      rest := rest - {name};
      sorted := InsertName(sorted, name);
    }
  }

  method InsertName(sorted: seq<string>, name: string) returns (longer: seq<string>)
    requires Ordered(sorted) && name !in sorted
    ensures Ordered(longer) && forall n :: n in longer <==> n in sorted || n == name
  {
    var i := 0;
    while i < |sorted| && Before(sorted[i], name)
      invariant i <= |sorted| && forall j :: 0 <= j < i ==> Before(sorted[j], name)
    {
      i := i + 1;
    }
    forall j | i <= j < |sorted| ensures Before(name, sorted[j]) {
      BeforeTotal(name, sorted[i]);
      if j > i { BeforeTransitive(name, sorted[i], sorted[j]); }
    }
    longer := sorted[..i] + [name] + sorted[i..];
    InsertKeepsOrder(sorted, name, i);
  }

  lemma InsertKeepsOrder(sorted: seq<string>, name: string, i: nat)
    requires Ordered(sorted) && i <= |sorted|
    requires forall j :: 0 <= j < i ==> Before(sorted[j], name)
    requires forall j :: i <= j < |sorted| ==> Before(name, sorted[j])
    ensures Ordered(sorted[..i] + [name] + sorted[i..])
    ensures forall n :: n in sorted[..i] + [name] + sorted[i..] <==> n in sorted || n == name
  {
    assert sorted == sorted[..i] + sorted[i..];
  }

  /** The selection: the catalogue's providers in order, and for every model the winner of their offers. */
  method SelectCandidates(data: Catalogue) returns (selected: map<string, Candidate>, ghost providers: seq<string>)
    ensures Ordered(providers) && forall p :: p in providers <==> p in data
    ensures forall m :: Chosen(selected, m) == Best(CandidatesFor(data, providers, m))
    ensures forall m :: m in selected <==> exists p :: Offers(data, p, m)
  {
    var sorted := SortNames(data.Keys);
    selected := SelectFrom(data, sorted);
    providers := sorted;
    forall m ensures m in selected <==> exists p :: Offers(data, p, m) {
      assert Chosen(selected, m) == Best(CandidatesFor(data, providers, m));
      SelectedExactlyWhen(data, providers, m);
    }
  }

  /** The selection loops over an ordered list of providers. */
  method SelectFrom(data: Catalogue, providers: seq<string>) returns (selected: map<string, Candidate>)
    requires forall p :: p in providers ==> p in data
    ensures forall m :: Chosen(selected, m) == Best(CandidatesFor(data, providers, m))
  {
    selected := map[];
    ghost var before: seq<string> := [];
    for i := 0 to |providers|
      invariant before == providers[..i] && Selects(selected, data, before)
    {
      assert providers[i] in providers;
      selected := AddProvider(data, before, providers[i], selected);
      before := before + [providers[i]];
    }
    assert before == providers;
    forall m ensures Chosen(selected, m) == Best(CandidatesFor(data, providers, m)) {}
  }

  ghost predicate Selects(selected: map<string, Candidate>, data: Catalogue, providers: seq<string>) {
    forall m :: Chosen(selected, m) == Best(CandidatesFor(data, providers, m))
  }

  function Chosen(selected: map<string, Candidate>, m: string): Option<Candidate> {
    if m in selected then Some(selected[m]) else None
  }

  /** One provider's models, in any order. */
  method AddProvider(data: Catalogue, ghost before: seq<string>, provider: string, chosen: map<string, Candidate>)
    returns (selected: map<string, Candidate>)
    requires provider in data && Selects(chosen, data, before)
    ensures Selects(selected, data, before + [provider])
  {
    selected := chosen;
    var rest := data[provider].Keys;
    while rest != {}
      invariant rest <= data[provider].Keys
      invariant forall m :: Chosen(selected, m) ==
                  if m in data[provider] && m !in rest then After(Chosen(chosen, m), Offer(data, provider, m))
                  else Chosen(chosen, m)
    {
      var model :| model in rest;
      rest := rest - {model};
      var candidate := BuildCandidate(provider, data[provider][model]);
      if candidate.None? {
        continue;
      }
      if model !in selected || ShouldReplace(selected[model], candidate.value) {
        selected := selected[model := candidate.value];
      }
    }
    forall m ensures Chosen(selected, m) == Best(CandidatesFor(data, before + [provider], m)) {
      ProviderStep(data, before, provider, m);
    }
  }

  /** A choice after at most one more candidate. */
  function After(current: Option<Candidate>, offer: seq<Candidate>): Option<Candidate> {
    if offer == [] then current
    else if current.None? || ShouldReplace(current.value, offer[0]) then Some(offer[0]) else current
  }

  lemma ProviderStep(data: Catalogue, before: seq<string>, provider: string, m: string)
    ensures Best(CandidatesFor(data, before + [provider], m))
         == After(Best(CandidatesFor(data, before, m)), Offer(data, provider, m))
  {
    var all, offer := CandidatesFor(data, before, m), Offer(data, provider, m);
    assert (before + [provider])[..|before|] == before;
    if offer == [] {
      assert all + offer == all;
    } else {
      assert (all + offer)[..|all|] == all;
    }
  }

  // --------------------------------------------------------------- what the choice is worth

  /** Candidates come in provider order, each provider at most once. */
  ghost predicate InProviderOrder(candidates: seq<Candidate>) {
    forall i, j :: 0 <= i < j < |candidates| ==> Before(candidates[i].provider, candidates[j].provider)
  }

  lemma {:induction false} CandidatesInOrder(data: Catalogue, providers: seq<string>, model: string)
    requires Ordered(providers)
    ensures InProviderOrder(CandidatesFor(data, providers, model))
    ensures forall i :: 0 <= i < |CandidatesFor(data, providers, model)| ==>
              CandidatesFor(data, providers, model)[i].provider in providers
              && CandidatesFor(data, providers, model)[i].input >= 0.0
  {
    if providers == [] {
    } else {
      var init, last := providers[..|providers| - 1], providers[|providers| - 1];
      assert providers == init + [last];
      CandidatesInOrder(data, init, model);
      var all := CandidatesFor(data, init, model);
      forall i | 0 <= i < |all| ensures Before(all[i].provider, last) {
        var k :| 0 <= k < |init| && init[k] == all[i].provider;
        assert Before(providers[k], providers[|init|]);
      }
      OfferInOrder(all, Offer(data, last, model), last);
    }
  }

  /** One provider's offer keeps the order of the candidates before it. */
  lemma OfferInOrder(all: seq<Candidate>, offer: seq<Candidate>, last: string)
    requires InProviderOrder(all) && forall i :: 0 <= i < |all| ==> Before(all[i].provider, last)
    requires |offer| <= 1 && forall i :: 0 <= i < |offer| ==> offer[i].provider == last
    ensures InProviderOrder(all + offer)
  {
    if offer == [] {
      assert all + offer == all;
    }
  }

  /** The candidates are exactly the convertible costs that the listed providers give for the model. */
  lemma {:induction false} CandidatesAre(data: Catalogue, providers: seq<string>, model: string, c: Candidate)
    ensures c in CandidatesFor(data, providers, model) <==>
            && c.provider in providers && c.provider in data && model in data[c.provider]
            && BuildCandidate(c.provider, data[c.provider][model]) == Some(c)
  {
    if providers == [] {
    } else {
      var init, last := providers[..|providers| - 1], providers[|providers| - 1];
      CandidatesAre(data, init, model, c);
      assert providers == init + [last];
    }
  }

  /** The provider lists the model at a price that can be turned into a local ratio. */
  ghost predicate Offers(data: Catalogue, provider: string, model: string) {
    provider in data && model in data[provider] && Convertible(data[provider][model])
  }

  lemma SelectedExactlyWhen(data: Catalogue, providers: seq<string>, model: string)
    requires forall p :: p in providers <==> p in data
    ensures Best(CandidatesFor(data, providers, model)).Some? <==> exists p :: Offers(data, p, model)
  {
    var candidates := CandidatesFor(data, providers, model);
    if candidates != [] {
      CandidatesAre(data, providers, model, candidates[0]);
      assert Offers(data, candidates[0].provider, model);
    }
    if p :| Offers(data, p, model) {
      CandidatesAre(data, providers, model, BuildCandidate(p, data[p][model]).value);
    }
  }

  /** A price that takes the place of an earlier provider's: it is positive, and that one is free or at least
      one billionth dearer. */
  ghost predicate Undercuts(current: Candidate, next: Candidate) {
    next.input > 0.0 && (current.input == 0.0 || current.input - next.input >= 0.000000001)
  }

  /** How the choice comes about: the first candidate, then each time the first later one that undercuts the
      choice so far, until none does. */
  ghost predicate Descends(candidates: seq<Candidate>, path: seq<int>) {
    && path != [] && path[0] == 0 && (forall j :: 0 <= j < |path| ==> 0 <= path[j] < |candidates|)
    && (forall j :: 0 <= j < |path| - 1 ==> NextDown(candidates, path[j], path[j + 1]))
    && NoneBelow(candidates, path[|path| - 1], |candidates|)
  }

  ghost predicate NextDown(candidates: seq<Candidate>, from: int, to: int)
    requires 0 <= from < |candidates| && 0 <= to < |candidates|
  {
    from < to && Undercuts(candidates[from], candidates[to]) && NoneBelow(candidates, from, to)
  }

  ghost predicate NoneBelow(candidates: seq<Candidate>, from: int, to: int)
    requires 0 <= from < |candidates| && to <= |candidates|
  {
    forall i :: from < i < to ==> !Undercuts(candidates[from], candidates[i])
  }

  lemma {:induction false} BestDescends(candidates: seq<Candidate>) returns (path: seq<int>)
    requires InProviderOrder(candidates) && candidates != []
    requires forall i :: 0 <= i < |candidates| ==> candidates[i].input >= 0.0
    ensures Descends(candidates, path) && Best(candidates) == Some(candidates[path[|path| - 1]])
  {
    var init, next := candidates[..|candidates| - 1], candidates[|candidates| - 1];
    if init == [] {
      path := [0];
    } else {
      path := BestDescends(init);
      DescendsStep(candidates, path);
      var last := path[|path| - 1];
      BeforeTotal(candidates[last].provider, next.provider);
      if Undercuts(candidates[last], next) {
        path := path + [|init|];
      }
    }
  }

  /** A path through all candidates but the last one goes on to that one exactly if it undercuts the end. */
  lemma DescendsStep(candidates: seq<Candidate>, path: seq<int>)
    requires candidates != [] && Descends(candidates[..|candidates| - 1], path)
    ensures var n, last := |candidates| - 1, path[|path| - 1];
            && 0 <= last < n && candidates[..n][last] == candidates[last]
            && if Undercuts(candidates[last], candidates[n]) then Descends(candidates, path + [n])
               else Descends(candidates, path)
  {
    var n, last := |candidates| - 1, path[|path| - 1];
    var init := candidates[..n];
    forall j | 0 <= j < |path| - 1 ensures NextDown(candidates, path[j], path[j + 1]) {
      assert NextDown(init, path[j], path[j + 1]);
      assert forall i :: path[j] < i < path[j + 1] ==> candidates[i] == init[i];
    }
    assert NoneBelow(candidates, last, n) by {
      assert forall i :: last < i < n ==> candidates[i] == init[i];
    }
    if Undercuts(candidates[last], candidates[n]) {
      var longer := path + [n];
      forall j | 0 <= j < |longer| - 1 ensures NextDown(candidates, longer[j], longer[j + 1]) {
        assert longer[j] == path[j] && (j < |path| - 1 ==> longer[j + 1] == path[j + 1]);
      }
    }
  }

  /** The choice for a model, on the catalogue: it comes about that way from the offers in ascending order of
      their providers' names; and no other provider with the same positive price comes first. */
  lemma SelectionDescends(data: Catalogue, providers: seq<string>, model: string) returns (path: seq<int>)
    requires Ordered(providers) && (forall p :: p in providers <==> p in data)
    requires exists p :: Offers(data, p, model)
    ensures var candidates := CandidatesFor(data, providers, model);
            && Descends(candidates, path) && Best(candidates) == Some(candidates[path[|path| - 1]])
            && (forall i, j :: 0 <= i < j < |candidates| ==>
                  ComesFirst(candidates[i].provider, candidates[j].provider))
            && (forall p :: Offers(data, p, model) && p != Best(candidates).value.provider
                            && data[p][model].input == Some(Fin(Best(candidates).value.input))
                            && Best(candidates).value.input > 0.0 ==>
                  ComesFirst(Best(candidates).value.provider, p))
  {
    var candidates := CandidatesFor(data, providers, model);
    SelectedExactlyWhen(data, providers, model);
    CandidatesInOrder(data, providers, model);
    path := BestDescends(candidates);
    forall i, j | 0 <= i < j < |candidates| ensures ComesFirst(candidates[i].provider, candidates[j].provider) {
      BeforeExactlyWhen(candidates[i].provider, candidates[j].provider);
    }
    forall p | && Offers(data, p, model) && p != Best(candidates).value.provider
               && data[p][model].input == Some(Fin(Best(candidates).value.input))
               && Best(candidates).value.input > 0.0
      ensures ComesFirst(Best(candidates).value.provider, p)
    {
      var c := BuildCandidate(p, data[p][model]).value;
      CandidatesAre(data, providers, model, c);
      EqualPricesGoFirst(candidates, c);
      BeforeExactlyWhen(Best(candidates).value.provider, p);
    }
  }

  lemma EqualPricesGoFirst(candidates: seq<Candidate>, c: Candidate)
    requires InProviderOrder(candidates) && c in candidates
    requires forall i :: 0 <= i < |candidates| ==> candidates[i].input >= 0.0
    ensures Best(candidates).Some?
    ensures var best := Best(candidates).value;
            best.input == c.input > 0.0 && best.provider != c.provider ==> Before(best.provider, c.provider)
  {
    var k := BestBeatsEarlier(candidates);
    var i :| 0 <= i < |candidates| && candidates[i] == c;
  }

  /** Being chosen: one of the candidates, with a price if any candidate has one, and less than epsilon
      above every candidate with a price. */
  ghost predicate Worthy(c: Candidate, candidates: seq<Candidate>) {
    && c in candidates
    && (c.input == 0.0 ==> forall i :: 0 <= i < |candidates| ==> candidates[i].input == 0.0)
    && (forall i :: 0 <= i < |candidates| && candidates[i].input > 0.0 ==>
          c.input < candidates[i].input + 0.000000001)
  }

  lemma {:induction false} BestIsWorthy(candidates: seq<Candidate>)
    requires InProviderOrder(candidates) && candidates != []
    requires forall i :: 0 <= i < |candidates| ==> candidates[i].input >= 0.0
    ensures Best(candidates).Some? && Worthy(Best(candidates).value, candidates)
  {
    var init, next := candidates[..|candidates| - 1], candidates[|candidates| - 1];
    assert candidates == init + [next];
    if init != [] {
      BestIsWorthy(init);
      var current := Best(init).value;
      var k :| 0 <= k < |init| && init[k] == current;
      assert candidates[k] == current;
      BeforeTotal(current.provider, next.provider);
      WorthyStep(current, init, next);
    }
  }

  /** Against a candidate from a later provider, keeping or replacing preserves the worth. */
  lemma WorthyStep(current: Candidate, init: seq<Candidate>, next: Candidate)
    requires Worthy(current, init) && !Before(next.provider, current.provider)
    requires next.input >= 0.0 && forall i :: 0 <= i < |init| ==> init[i].input >= 0.0
    ensures Worthy(if ShouldReplace(current, next) then next else current, init + [next])
  {
    var all := init + [next];
    assert all[|init|] == next;
    forall i | 0 <= i < |init| ensures all[i] == init[i] {}
    assert current in init;
  }

  /** Everything before a position is dearer than what is there, or is free while that has a price. */
  ghost predicate BeatsEarlier(candidates: seq<Candidate>, k: int) {
    0 <= k < |candidates|
    && forall i :: 0 <= i < k ==>
         if candidates[i].input == 0.0 then candidates[k].input > 0.0
         else 0.0 < candidates[k].input < candidates[i].input
  }

  /** Ties go to the first provider: what is chosen beats every candidate before it. */
  lemma {:induction false} BestBeatsEarlier(candidates: seq<Candidate>) returns (k: int)
    requires InProviderOrder(candidates) && candidates != []
    requires forall i :: 0 <= i < |candidates| ==> candidates[i].input >= 0.0
    ensures BeatsEarlier(candidates, k) && Best(candidates) == Some(candidates[k])
  {
    var init, next := candidates[..|candidates| - 1], candidates[|candidates| - 1];
    if init == [] {
      k := 0;
    } else {
      k := BestBeatsEarlier(init);
      BestIsWorthy(init);
      assert candidates[k] == init[k];
      BeforeTotal(candidates[k].provider, next.provider);
      if ShouldReplace(init[k], next) {
        forall i | 0 <= i < |init|
          ensures if candidates[i].input == 0.0 then next.input > 0.0 else 0.0 < next.input < candidates[i].input
        {
          assert candidates[i] == init[i];
        }
        k := |init|;
      } else {
        assert forall i :: 0 <= i < k ==> candidates[i] == init[i];
      }
    }
  }

  /** For every catalogue and model: a model with a valid candidate gets one of its candidates, priced if
      any is, and less than epsilon dearer than any, although near-equality is not transitive. */
  lemma SelectionIsWorthy(data: Catalogue, providers: seq<string>, model: string)
    requires Ordered(providers)
    ensures var candidates := CandidatesFor(data, providers, model);
            if candidates == [] then Best(candidates).None?
            else Best(candidates).Some? && Worthy(Best(candidates).value, candidates)
  {
    CandidatesInOrder(data, providers, model);
    if CandidatesFor(data, providers, model) != [] {
      BestIsWorthy(CandidatesFor(data, providers, model));
    }
  }

  /** The provider order carries this: seen in the opposite order, three near-equal prices drift apart. */
  lemma DriftWithoutOrder(a: Candidate, b: Candidate, c: Candidate)
    requires a.input > 0.0 && b.input == a.input + 0.9 * EPSILON && c.input == b.input + 0.9 * EPSILON
    requires Before(b.provider, a.provider) && Before(c.provider, b.provider)
    ensures Best([a, b, c]) == Some(c) && !Worthy(c, [a, b, c])
    ensures NearlyEqual(a.input, b.input) && NearlyEqual(b.input, c.input) && !NearlyEqual(a.input, c.input)
  {
    assert [a, b, c][..2] == [a, b] && [a, b][..1] == [a] && [a][..0] == [];
    assert Best([a]) == Some(a);
    assert Best([a, b]) == Some(b);
    assert [a, b, c][0] == a;
  }
}
