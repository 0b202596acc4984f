/**
 Choosing one provider's price for each model of the models.dev catalogue: the cheapest non-zero
 input cost, where costs closer than the tolerance count as equal.
 */
module ModelsDev {
  import opened Options
  import opened PricingModel
  import opened StringOrder

  datatype Cost = Cost(input: Option<real>, output: Option<real>, cacheRead: Option<real>)
  datatype Candidate = Candidate(provider: string, input: real, output: Option<real>, cacheRead: Option<real>)

  /** For each provider, its models' costs. */
  type Catalogue = map<string, map<string, Cost>>

  /** No cost is negative, and a free input has no paid output: such a cost can be turned into ratios. */
  predicate Convertible(cost: Cost) {
    && cost.input.Some? && cost.input.value >= 0.0
    && (cost.output.Some? ==> cost.output.value >= 0.0 && (cost.input.value == 0.0 ==> cost.output.value == 0.0))
  }

  /** Exactly the convertible costs give a candidate; a negative cache price is dropped, not refused. */
  function BuildCandidate(provider: string, cost: Cost): (c: Option<Candidate>)
    ensures c.Some? <==> Convertible(cost)
    ensures c.Some? ==>
              && c.value.provider == provider && Some(c.value.input) == cost.input && c.value.output == cost.output
              && (c.value.cacheRead == None <==> cost.cacheRead == None || cost.cacheRead.value < 0.0)
              && (c.value.cacheRead.Some? ==> c.value.cacheRead == cost.cacheRead)
  {
    if cost.input.None? || cost.input.value < 0.0 then None
    else if cost.output.Some? && (cost.output.value < 0.0 || (cost.input.value == 0.0 && cost.output.value > 0.0)) then None
    else
      var cacheRead := if cost.cacheRead.Some? && cost.cacheRead.value < 0.0 then None else cost.cacheRead;
      Some(Candidate(provider, cost.input.value, cost.output, cacheRead))
  }

  predicate ShouldReplace(current: Candidate, next: Candidate) {
    if (current.input > 0.0) != (next.input > 0.0) then next.input > 0.0
    else if next.input > 0.0 && !NearlyEqual(next.input, current.input) then next.input < current.input
    else Less(next.provider, current.provider)
  }

  function CandidateOf(data: Catalogue, provider: string, model: string): Option<Candidate> {
    if provider in data && model in data[provider] then BuildCandidate(provider, data[provider][model]) else None
  }

  /** The candidate selected when the providers have been visited in this order. */
  function Chosen(data: Catalogue, providers: seq<string>, model: string): Option<Candidate>
    decreases |providers|
  {
    if providers == [] then None
    else
      var before := Chosen(data, providers[..|providers| - 1], model);
      var next := CandidateOf(data, providers[|providers| - 1], model);
      if next.Some? && (before.None? || ShouldReplace(before.value, next.value)) then next else before
  }

  ghost predicate Sorted(names: seq<string>) {
    forall i, j :: 0 <= i < j < |names| ==> Less(names[i], names[j])
  }

  // ---------------------------------------------------------------------------------------
  // What is chosen
  // ---------------------------------------------------------------------------------------

  /** Position `c` holds the chosen candidate, and no candidate among the first `n` is better by the tolerance. */
  ghost predicate Best(data: Catalogue, providers: seq<string>, model: string, c: nat) {
    c < |providers| && CandidateOf(data, providers[c], model).Some? &&
    var chosen := CandidateOf(data, providers[c], model).value;
    forall i :: 0 <= i < |providers| && CandidateOf(data, providers[i], model).Some? ==>
      Beats(chosen, c, CandidateOf(data, providers[i], model).value, i)
  }

  /** The chosen candidate against another: earlier ones lose outright, later ones are at best within the tolerance. */
  ghost predicate Beats(chosen: Candidate, c: nat, other: Candidate, i: nat) {
    && (other.input > 0.0 ==> 0.0 < chosen.input < other.input + 0.000000001)
    && (other.input > 0.0 && i < c ==> chosen.input < other.input)
    && (chosen.input == 0.0 ==> c <= i)
  }

  lemma {:induction false} SomethingIsChosen(data: Catalogue, providers: seq<string>, model: string, i: nat)
    requires i < |providers| && CandidateOf(data, providers[i], model).Some?
    ensures Chosen(data, providers, model).Some?
    decreases |providers|
  {
    if i < |providers| - 1 {
      SomethingIsChosen(data, providers[..|providers| - 1], model, i);
    }
  }

  /**
   The selection is near-optimal for any number of providers, although being within the tolerance
   is not transitive: a candidate is chosen if there is any, it is free only if all are, its cost is
   below every non-zero one plus the tolerance, and below that of every earlier provider.
   */
  lemma {:induction false} ChosenIsBest(data: Catalogue, providers: seq<string>, model: string)
    requires Sorted(providers)
    ensures Chosen(data, providers, model).Some? ==>
              exists c: nat :: Best(data, providers, model, c) && CandidateOf(data, providers[c], model) == Chosen(data, providers, model)
    ensures Chosen(data, providers, model).None? ==>
              forall i :: 0 <= i < |providers| ==> CandidateOf(data, providers[i], model).None?
    decreases |providers|
  {
    forall i | 0 <= i < |providers| && CandidateOf(data, providers[i], model).Some? ensures Chosen(data, providers, model).Some? {
      SomethingIsChosen(data, providers, model, i);
    }
    if providers != [] {
      var n := |providers| - 1;
      var before := providers[..n];
      ChosenIsBest(data, before, model);
      if Chosen(data, before, model).Some? {
        var c: nat :| Best(data, before, model, c) && CandidateOf(data, before[c], model) == Chosen(data, before, model);
        ChosenStep(data, providers, model, c);
      } else if CandidateOf(data, providers[n], model).Some? {
        FirstCandidate(data, providers, model);
      }
    }
  }

  lemma FirstCandidate(data: Catalogue, providers: seq<string>, model: string)
    requires providers != [] && CandidateOf(data, providers[|providers| - 1], model).Some?
    requires var before := providers[..|providers| - 1];
             forall i :: 0 <= i < |before| ==> CandidateOf(data, before[i], model).None?
    ensures Best(data, providers, model, |providers| - 1)
  {
    var n := |providers| - 1;
    assert forall i :: 0 <= i < n ==> providers[..n][i] == providers[i];
  }

  lemma ChosenStep(data: Catalogue, providers: seq<string>, model: string, c: nat)
    requires Sorted(providers) && providers != []
    requires var before := providers[..|providers| - 1];
             Best(data, before, model, c) && CandidateOf(data, before[c], model) == Chosen(data, before, model)
    ensures exists k: nat :: Best(data, providers, model, k) && CandidateOf(data, providers[k], model) == Chosen(data, providers, model)
  {
    var n := |providers| - 1;
    var before := providers[..n];
    assert before[c] == providers[c];
    var current, next := CandidateOf(data, providers[c], model).value, CandidateOf(data, providers[n], model);
    var k := if next.Some? && ShouldReplace(current, next.value) then n else c;
    if next.Some? {
      LessIsAsymmetric(providers[c], providers[n]);
    }
    forall i | 0 <= i < |providers| && CandidateOf(data, providers[i], model).Some?
      ensures Beats(CandidateOf(data, providers[k], model).value, k, CandidateOf(data, providers[i], model).value, i)
    {
      assert i < n ==> before[i] == providers[i];
    }
    assert Best(data, providers, model, k);
  }

  // ---------------------------------------------------------------------------------------
  // Why the providers are sorted
  // ---------------------------------------------------------------------------------------

  function Name(k: nat): string {
    seq(k, i => 'a')
  }

  /** The k-th price of a series in which neighbours are within the tolerance. */
  function Price(k: int): real {
    1.0 + 0.9 * EPSILON * (k as real)
  }

  /** `n` providers named in descending order, each a little dearer than the one before it. */
  function Drifting(n: nat): Catalogue {
    map name | name in (set k | 0 <= k < n :: Name(k)) :: map["m" := Cost(Some(Price(n - |name|)), None, None)]
  }

  function Descending(n: nat, visited: nat): seq<string>
    requires visited <= n
  {
    seq(visited, i requires 0 <= i < visited => Name(n - 1 - i))
  }

  lemma {:induction false} NameOrder(j: nat, k: nat)
    requires j < k
    ensures Less(Name(j), Name(k)) && Name(j) != Name(k)
  {
    assert |Name(j)| == j && |Name(k)| == k;
    if j > 0 {
      assert Name(j)[1..] == Name(j - 1) && Name(k)[1..] == Name(k - 1);
      NameOrder(j - 1, k - 1);
    }
  }

  lemma DriftingCandidate(n: nat, k: nat)
    requires k < n
    ensures CandidateOf(Drifting(n), Name(k), "m") == Some(Candidate(Name(k), Price(n - k), None, None))
  {
    assert Name(k) in Drifting(n) && |Name(k)| == k;
  }

  /** Visited in descending order, each tie goes to the newcomer, and the dearest of them all is chosen. */
  lemma {:induction false} UnsortedDrifts(n: nat, visited: nat)
    requires 0 < visited <= n
    ensures Chosen(Drifting(n), Descending(n, visited), "m") == Some(Candidate(Name(n - visited), Price(visited), None, None))
  {
    var providers, k := Descending(n, visited), n - visited;
    assert providers[visited - 1] == Name(k);
    assert providers[..visited - 1] == Descending(n, visited - 1);
    DriftingCandidate(n, k);
    if visited > 1 {
      UnsortedDrifts(n, visited - 1);
      NameOrder(k, k + 1);
      assert NearlyEqual(Price(visited), Price(visited - 1));
    } else {
      assert Descending(n, 0) == [];
    }
  }

  // ---------------------------------------------------------------------------------------
  // The selection as it runs
  // ---------------------------------------------------------------------------------------

  /** What is selected, model by model. */
  ghost predicate Selected(selected: map<string, Candidate>, data: Catalogue, providers: seq<string>, model: string) {
    && (model in selected <==> Chosen(data, providers, model).Some?)
    && (model in selected ==> Some(selected[model]) == Chosen(data, providers, model))
  }

  /** Some provider has a valid entry for the model. */
  predicate Priced(data: Catalogue, providers: seq<string>, model: string) {
    Chosen(data, providers, model).Some?
  }

  ghost predicate AllSelected(selected: map<string, Candidate>, data: Catalogue, providers: seq<string>) {
    forall model :: Selected(selected, data, providers, model)
  }

  /** A provider without the model changes nothing about it. */
  lemma ChosenSkips(data: Catalogue, providers: seq<string>, i: nat, model: string)
    requires i < |providers|
    ensures CandidateOf(data, providers[i], model).None? ==>
              Chosen(data, providers[..i + 1], model) == Chosen(data, providers[..i], model)
    ensures CandidateOf(data, providers[i], model).Some? ==>
              (var before, next := Chosen(data, providers[..i], model), CandidateOf(data, providers[i], model);
               Chosen(data, providers[..i + 1], model) ==
               if before.None? || ShouldReplace(before.value, next.value) then next else before)
  {
    assert providers[..i + 1][..i] == providers[..i];
  }

  /** One provider's models, in any order. */
  method SelectFrom(data: Catalogue, providers: seq<string>, i: nat, before: map<string, Candidate>) returns (selected: map<string, Candidate>)
    requires i < |providers| && providers[i] in data
    requires AllSelected(before, data, providers[..i])
    ensures AllSelected(selected, data, providers[..i + 1])
  {
    var models := data[providers[i]];
    selected := before;
    var rest := models.Keys;
    while rest != {}
      invariant rest <= models.Keys
      invariant forall model :: Selected(selected, data, if model in models && model !in rest then providers[..i + 1] else providers[..i], model)
    {
      var model :| model in rest;
      rest := rest - {model};
      ChosenSkips(data, providers, i, model);
      var candidate := BuildCandidate(providers[i], models[model]);
      if candidate.Some? && (model !in selected || ShouldReplace(selected[model], candidate.value)) {
        selected := selected[model := candidate.value];
      }
    }
    ghost var after := providers[..i + 1];
    forall model ensures Selected(selected, data, after, model) {
      ChosenSkips(data, providers, i, model);
    }
  }

  /** All providers. An empty catalogue, or one without a valid entry, is an error. */
  method Select(data: Catalogue, providers: seq<string>) returns (selected: Option<map<string, Candidate>>)
    requires Sorted(providers) && (set p | p in providers) == data.Keys
    ensures selected.Some? ==> AllSelected(selected.value, data, providers)
    ensures selected.Some? <==> exists model :: Priced(data, providers, model)
  {
    var chosen: map<string, Candidate> := map[];
    var i := 0;
    while i < |providers|
      invariant 0 <= i <= |providers|
      invariant AllSelected(chosen, data, providers[..i])
    {
      assert providers[i] in data.Keys;
      chosen := SelectFrom(data, providers, i, chosen);
      i := i + 1;
    }
    assert providers[..|providers|] == providers;
    if chosen == map[] {
      forall model ensures !Priced(data, providers, model) {
        assert Selected(chosen, data, providers, model);
      }
      return None;
    }
    ghost var model :| model in chosen;
    assert Selected(chosen, data, providers, model);
    assert Priced(data, providers, model);
    return Some(chosen);
  }
}
