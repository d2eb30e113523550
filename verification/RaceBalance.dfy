/** How well the lanes are balanced: Graham's bound, stated for the plans the allocator receives. */
module RaceBalance {
  import opened Ordering
  import opened Scheduling
  import opened RaceLanes

  function WeightOf(items: seq<Item>): real {
    Sum(ItemWeights(items))
  }

  /** All items of all lanes. */
  function Pool(lanes: seq<seq<Item>>): multiset<Item> {
    if lanes == [] then multiset{} else Pool(lanes[..|lanes| - 1]) + multiset(lanes[|lanes| - 1])
  }

  ghost predicate PositiveWeights(weights: map<string, real>) {
    forall p :: p in weights ==> weights[p] > 0.0
  }

  // ---------------------------------------------------------------- weights of items

  lemma {:induction false} ShareOfPackage(packageWeight: real, share: real, total: real)
    ensures packageWeight > 0.0 && share > 0.0 && total > 0.0 ==>
              packageWeight * share / total > 0.0
  {
    if packageWeight > 0.0 && share > 0.0 && total > 0.0 {
      assert packageWeight * share > 0.0;
    }
  }

  lemma {:induction false} WorkItemsPositive(cfg: Config, plans: seq<Plan>, weights: map<string, real>)
    requires PositiveWeights(weights)
    ensures forall x :: x in WorkItems(cfg, plans, weights) ==> x.weight > 0.0
  {
    if plans != [] {
      var last := plans[|plans| - 1];
      WorkItemsPositive(cfg, plans[..|plans| - 1], weights);
      PlanItemsPositive(cfg, last, weights);
    }
  }

  lemma {:induction false} PlanItemsPositive(cfg: Config, plan: Plan, weights: map<string, real>)
    requires PositiveWeights(weights)
    ensures forall x :: x in PlanItems(cfg, plan, weights) ==> x.weight > 0.0
  {
    if !Whole(cfg, plan) {
      CommandWeightsPositive(cfg, plan.commands);
      var shares := CommandWeights(cfg, plan.commands);
      var items := PlanItems(cfg, plan, weights);
      forall i | 0 <= i < |items| ensures items[i].weight > 0.0 {
        ShareOfPackage(PackageWeight(plan, weights), shares[i], Sum(shares));
      }
    }
  }

  lemma {:induction false} SumScaled(s: seq<real>, scaled: seq<real>, factor: real)
    requires |s| == |scaled| && forall i :: 0 <= i < |s| ==> scaled[i] == factor * s[i]
    ensures Sum(scaled) == factor * Sum(s)
  {
    if s != [] { SumScaled(s[..|s| - 1], scaled[..|s| - 1], factor); }
  }

  lemma {:induction false} ScaledShare(weight: real, share: real, total: real)
    requires total > 0.0
    ensures weight * share / total == (weight / total) * share
  {
  }

  /** Splitting a package conserves its weight: its items weigh together what the package weighs:
      the weight on record, or else one for each command and at least one. */
  lemma {:induction false} PackageWeightConserved(cfg: Config, plan: Plan, weights: map<string, real>)
    ensures WeightOf(PlanItems(cfg, plan, weights)) ==
            if plan.package in weights then weights[plan.package]
            else if plan.commands == [] then 1.0 else |plan.commands| as real
  {
    var items := PlanItems(cfg, plan, weights);
    if Whole(cfg, plan) {
      assert items == [] + [items[0]] && ItemWeights([]) == [];
      WeightOfAppend([], items[0]);
    } else {
      CommandWeightsPositive(cfg, plan.commands);
      SplitConserved(items, CommandWeights(cfg, plan.commands), PackageWeight(plan, weights));
    }
  }

  lemma {:induction false} SplitConserved(items: seq<Item>, shares: seq<real>, weight: real)
    requires |items| == |shares| && Sum(shares) > 0.0
    requires forall i :: 0 <= i < |shares| ==> items[i].weight == weight * shares[i] / Sum(shares)
    ensures WeightOf(items) == weight
  {
    var factor := weight / Sum(shares);
    forall i | 0 <= i < |shares| ensures items[i].weight == factor * shares[i] {
      ScaledShare(weight, shares[i], Sum(shares));
    }
    SumScaled(shares, ItemWeights(items), factor);
  }

  /** The weights of all packages together. */
  function TotalWeight(plans: seq<Plan>, weights: map<string, real>): real {
    if plans == [] then 0.0
    else TotalWeight(plans[..|plans| - 1], weights) + PackageWeight(plans[|plans| - 1], weights)
  }

  lemma {:induction false} SumConcat(a: seq<real>, b: seq<real>)
    ensures Sum(a + b) == Sum(a) + Sum(b)
  {
    if b == [] {
      assert a + b == a;
    } else {
      assert (a + b)[..|a + b| - 1] == a + b[..|b| - 1];
      SumConcat(a, b[..|b| - 1]);
    }
  }

  /** Neither splitting nor placing changes the total. */
  lemma {:induction false} WorkConserved(cfg: Config, plans: seq<Plan>, weights: map<string, real>)
    ensures WeightOf(WorkItems(cfg, plans, weights)) == TotalWeight(plans, weights)
  {
    if plans != [] {
      var init, last := plans[..|plans| - 1], plans[|plans| - 1];
      WorkConserved(cfg, init, weights);
      PackageWeightConserved(cfg, last, weights);
      var a, b := WorkItems(cfg, init, weights), PlanItems(cfg, last, weights);
      assert ItemWeights(a + b) == ItemWeights(a) + ItemWeights(b);
      SumConcat(ItemWeights(a), ItemWeights(b));
    }
  }

  lemma {:induction false} SortedDescends(items: seq<Item>)
    requires SortedBy(items, ItemLe)
    ensures Descending(ItemWeights(items))
  {
    forall i, j | 0 <= i <= j < |items| ensures items[i].weight >= items[j].weight {
      assert i < j ==> ItemLe(items[i], items[j]);
    }
  }

  lemma {:induction false} AllPositive(items: seq<Item>)
    requires forall x :: x in items ==> x.weight > 0.0
    ensures Positive(ItemWeights(items))
  {
    forall i | 0 <= i < |items| ensures items[i].weight > 0.0 {
      assert items[i] in items;
    }
  }

  /** The allocator places its items in descending weight, all of them positive. */
  lemma {:induction false} OrderedDescends(cfg: Config, plans: seq<Plan>, weights: map<string, real>)
    requires PositiveWeights(weights)
    ensures Positive(ItemWeights(Ordered(cfg, plans, weights)))
    ensures Descending(ItemWeights(Ordered(cfg, plans, weights)))
  {
    var work := WorkItems(cfg, plans, weights);
    WorkItemsPositive(cfg, plans, weights);
    SameElements(work, Sort(work, ItemLe));
    AllPositive(Sort(work, ItemLe));
    ItemLeTotal();
    SortSorted(work, ItemLe);
    SortedDescends(Sort(work, ItemLe));
  }

  // ---------------------------------------------------------------- weights of lanes

  lemma {:induction false} WeightOfAppend(items: seq<Item>, x: Item)
    ensures WeightOf(items + [x]) == WeightOf(items) + x.weight
  {
    var w := ItemWeights(items + [x]);
    assert w[..|w| - 1] == ItemWeights(items);
  }

  lemma {:induction false} LaneWeight(items: seq<Item>, a: seq<nat>, k: nat, n: nat)
    requires n <= |items| && n <= |a|
    ensures WeightOf(LaneItems(items, a, k, n)) == Load(ItemWeights(items), a, k, n)
  {
    if n == 0 {
      assert ItemWeights([]) == [];
    } else {
      LaneWeight(items, a, k, n - 1);
      var before := LaneItems(items, a, k, n - 1);
      if a[n - 1] == k {
        WeightOfAppend(before, items[n - 1]);
      } else {
        assert before + [] == before;
      }
    }
  }

  lemma {:induction false} WeightOfWithout(items: seq<Item>, i: nat)
    requires i < |items|
    ensures WeightOf(items) == WeightOf(items[..i] + items[i + 1..]) + items[i].weight
  {
    var n := |items| - 1;
    var last := items[n];
    assert items == items[..n] + [last];
    WeightOfAppend(items[..n], last);
    if i == n {
      assert items[..i] + items[i + 1..] == items[..n];
    } else {
      WeightOfWithout(items[..n], i);
      var rest := items[..n][..i] + items[..n][i + 1..];
      WeightOfAppend(rest, last);
      assert items[..i] + items[i + 1..] == rest + [last];
    }
  }

  lemma {:induction false} Regroup(a: multiset<Item>, b: multiset<Item>, c: multiset<Item>, d: multiset<Item>,
                                   e: multiset<Item>)
    requires a + b == c + d
    ensures (a + e) + b == (c + e) + d
  {
    assert (a + e) + b == (a + b) + e;
    assert (c + e) + d == (c + d) + e;
  }

  lemma {:induction false} Cancel(a: multiset<Item>, b: multiset<Item>, c: multiset<Item>, x: Item)
    requires a + (b + multiset{x}) == (c + multiset{x}) + b
    ensures a == c
  {
    forall y ensures a[y] == c[y] {
      assert (a + (b + multiset{x}))[y] == ((c + multiset{x}) + b)[y];
    }
  }

  lemma {:induction false} PoolUpdate(lanes: seq<seq<Item>>, k: nat, lane: seq<Item>)
    requires k < |lanes|
    ensures Pool(lanes[k := lane]) + multiset(lanes[k]) == Pool(lanes) + multiset(lane)
  {
    var n := |lanes| - 1;
    var lanes' := lanes[k := lane];
    if k == n {
      assert lanes'[..n] == lanes[..n];
    } else {
      assert lanes'[..n] == lanes[..n][k := lane];
      PoolUpdate(lanes[..n], k, lane);
      assert lanes'[n] == lanes[n] && lanes[..n][k] == lanes[k];
      Regroup(Pool(lanes'[..n]), multiset(lanes[k]), Pool(lanes[..n]), multiset(lane), multiset(lanes[n]));
    }
  }

  lemma {:induction false} PoolFind(lanes: seq<seq<Item>>, x: Item) returns (k: nat, i: nat)
    requires x in Pool(lanes)
    ensures k < |lanes| && i < |lanes[k]| && lanes[k][i] == x
  {
    var n := |lanes| - 1;
    if x in multiset(lanes[n]) {
      k := n;
      i :| 0 <= i < |lanes[n]| && lanes[n][i] == x;
    } else {
      k, i := PoolFind(lanes[..n], x);
    }
  }

  lemma {:induction false} PoolEmpty(lanes: seq<seq<Item>>, k: nat)
    requires Pool(lanes) == multiset{} && k < |lanes|
    ensures lanes[k] == []
  {
    var n := |lanes| - 1;
    assert |Pool(lanes)| == |Pool(lanes[..n])| + |lanes[n]|;
    if k < n {
      PoolEmpty(lanes[..n], k);
    }
  }

  lemma {:induction false} LoadOfAppend(init: seq<Item>, x: Item, a: seq<nat>, k: nat, j: nat)
    requires |a| == |init|
    ensures Load(ItemWeights(init + [x]), a + [k], j, |init| + 1) ==
            Load(ItemWeights(init), a, j, |init|) + (if j == k then x.weight else 0.0)
  {
    LoadAgree(ItemWeights(init + [x]), ItemWeights(init), a + [k], a, j, |init|);
  }

  /** An item can be taken out of the lane that holds it. */
  lemma {:induction false} TakeOut(lanes: seq<seq<Item>>, init: seq<Item>, x: Item) returns (k: nat, rest: seq<Item>)
    requires Pool(lanes) == multiset(init + [x])
    ensures k < |lanes| && Pool(lanes[k := rest]) == multiset(init)
    ensures WeightOf(lanes[k]) == WeightOf(rest) + x.weight
  {
    assert x in multiset(init + [x]);
    var i;
    k, i := PoolFind(lanes, x);
    var lane := lanes[k];
    rest := lane[..i] + lane[i + 1..];
    assert lane == lane[..i] + [x] + lane[i + 1..];
    assert multiset(lane) == multiset(rest) + multiset{x};
    PoolUpdate(lanes, k, rest);
    Cancel(Pool(lanes[k := rest]), multiset(rest), multiset(init), x);
    WeightOfWithout(lane, i);
  }

  /** Any way of dealing the items into lanes is an assignment of the sorted items. */
  lemma {:induction false} AsAssignment(items: seq<Item>, lanes: seq<seq<Item>>) returns (b: seq<nat>)
    requires Pool(lanes) == multiset(items)
    ensures |b| == |items| && Assigns(b, |lanes|)
    ensures forall k :: 0 <= k < |lanes| ==> Load(ItemWeights(items), b, k, |items|) == WeightOf(lanes[k])
  {
    if items == [] {
      b := [];
      forall k | 0 <= k < |lanes| ensures WeightOf(lanes[k]) == 0.0 {
        PoolEmpty(lanes, k);
      }
    } else {
      var init, x := items[..|items| - 1], items[|items| - 1];
      assert items == init + [x];
      var k, rest := TakeOut(lanes, init, x);
      var b' := AsAssignment(init, lanes[k := rest]);
      b := b' + [k];
      forall j | 0 <= j < |lanes| ensures Load(ItemWeights(items), b, j, |items|) == WeightOf(lanes[j]) {
        LoadOfAppend(init, x, b', k, j);
        assert lanes[k := rest][j] == if j == k then rest else lanes[j];
      }
    }
  }

  // ---------------------------------------------------------------- the bounds

  /** `lanes` is a way of dealing out the work items in which no lane is heavier than `c`. */
  ghost predicate Dealt(cfg: Config, plans: seq<Plan>, weights: map<string, real>, lanes: seq<seq<Item>>, c: real) {
    && Pool(lanes) == multiset(WorkItems(cfg, plans, weights))
    && forall j :: 0 <= j < |lanes| ==> WeightOf(lanes[j]) <= c
  }

  lemma {:induction false} OtherLanesWithin(cfg: Config, plans: seq<Plan>, weights: map<string, real>,
                                            lanes: seq<seq<Item>>, c: real)
    returns (b: seq<nat>)
    requires Dealt(cfg, plans, weights, lanes, c)
    ensures var w := ItemWeights(Ordered(cfg, plans, weights));
            |b| == |w| && Assigns(b, |lanes|) && Within(w, b, |lanes|, |w|, c)
  {
    b := AsAssignment(Ordered(cfg, plans, weights), lanes);
  }

  lemma {:induction false} LanesWithin(ordered: seq<Item>, m: nat, bound: real, k: nat)
    requires k < m
    requires var w := ItemWeights(ordered); Within(w, Targets(w, m, |w|), m, |w|, bound)
    ensures var w := ItemWeights(ordered);
            WeightOf(LaneItems(ordered, Targets(w, m, |w|), k, |ordered|)) <= bound
  {
    var w := ItemWeights(ordered);
    LaneWeight(ordered, Targets(w, m, |w|), k, |ordered|);
  }

  /** What a bound must admit: `c` itself, and an item of at most a third of `c` on top of the least lane. */
  ghost predicate Admits(bound: real, m: nat, c: real) {
    && (0.0 <= c ==> c <= bound)
    && forall low, p :: Roomy(m, low, c, p) ==> low + p <= bound
  }

  lemma {:induction false} GrahamAdmits(m: nat, c: real)
    requires m > 0
    ensures Admits(Graham(m) * c, m, c)
  {
    if 0.0 <= c { GrahamFactor(m, c); }
    forall low, p | Roomy(m, low, c, p) ensures low + p <= Graham(m) * c {
      GrahamArithmetic(m, low, c, p);
    }
  }

  lemma {:induction false} GreedyWithin(ordered: seq<Item>, m: nat, b: seq<nat>, c: real, bound: real)
    requires m > 0 && Admits(bound, m, c)
    requires var w := ItemWeights(ordered);
             Positive(w) && Descending(w) && |b| == |w| && Assigns(b, m) && Within(w, b, m, |w|, c)
    ensures var w := ItemWeights(ordered); Within(w, Targets(w, m, |w|), m, |w|, bound)
  {
    var w := ItemWeights(ordered);
    LoadNonNegative(w, b, 0, |w|);
    LptWithin(w, m, b, c, bound);
  }

  lemma {:induction false} HeaviestWithin(cfg: Config, plans: seq<Plan>, weights: map<string, real>,
                                          lanes: seq<seq<Item>>, c: real, k: nat, bound: real)
    requires k < |lanes| && PositiveWeights(weights) && Dealt(cfg, plans, weights, lanes, c)
    requires Admits(bound, |lanes|, c)
    ensures var ordered := Ordered(cfg, plans, weights);
            WeightOf(LaneItems(ordered, Lanes(cfg, plans, |lanes|, weights), k, |ordered|)) <= bound
  {
    var ordered := Ordered(cfg, plans, weights);
    OrderedDescends(cfg, plans, weights);
    var b := OtherLanesWithin(cfg, plans, weights, lanes, c);
    GreedyWithin(ordered, |lanes|, b, c, bound);
    LanesWithin(ordered, |lanes|, bound, k);
  }

  /** No lane of the allocator is heavier than 4/3 - 1/(3m) times the heaviest lane of any other way of
      dealing the same work items into `m` lanes. */
  lemma {:induction false} HeaviestLane(cfg: Config, plans: seq<Plan>, weights: map<string, real>,
                                        lanes: seq<seq<Item>>, c: real, k: nat)
    requires k < |lanes| && PositiveWeights(weights) && Dealt(cfg, plans, weights, lanes, c)
    ensures var ordered := Ordered(cfg, plans, weights);
            WeightOf(LaneItems(ordered, Lanes(cfg, plans, |lanes|, weights), k, |ordered|))
            <= Graham(|lanes|) * c
  {
    GrahamAdmits(|lanes|, c);
    HeaviestWithin(cfg, plans, weights, lanes, c, k, Graham(|lanes|) * c);
  }

  /** The heaviest lane is at most the average plus (1 - 1/m) times the largest item. */
  lemma {:induction false} AverageLane(cfg: Config, plans: seq<Plan>, weights: map<string, real>, m: nat,
                                       k: nat, largest: real)
    requires k < m && PositiveWeights(weights)
    requires forall x :: x in WorkItems(cfg, plans, weights) ==> x.weight <= largest
    requires 0.0 <= largest
    ensures var ordered := Ordered(cfg, plans, weights);
            WeightOf(LaneItems(ordered, Lanes(cfg, plans, m, weights), k, |ordered|))
            <= WeightOf(ordered) / m as real + (1.0 - 1.0 / m as real) * largest
  {
    var ordered := Ordered(cfg, plans, weights);
    var w := ItemWeights(ordered);
    OrderedDescends(cfg, plans, weights);
    SameElements(WorkItems(cfg, plans, weights), ordered);
    forall i | 0 <= i < |w| ensures 0.0 <= w[i] <= largest {
      assert ordered[i] in ordered;
    }
    assert w[..|w|] == w;
    ListBound(w, m, |w|, largest, k);
    LaneWeight(ordered, Targets(w, m, |w|), k, |ordered|);
  }
}
