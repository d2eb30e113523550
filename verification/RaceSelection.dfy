/** `_select_race_package_plans` as it runs: work items are appended, totals and assignments are
    updated in place, groups are filled in a dictionary, and one lane's slice is rendered. */
module RaceSelection {
  import opened Common
  import opened Ordering
  import opened Scheduling
  import opened RaceLanes
  import opened RaceWeights

  lemma {:induction false} LaneItemsAgree(items: seq<Item>, a: seq<nat>, b: seq<nat>, k: nat, n: nat)
    requires n <= |items| && n <= |a| && n <= |b| && a[..n] == b[..n]
    ensures LaneItems(items, a, k, n) == LaneItems(items, b, k, n)
  {
    if n > 0 {
      assert a[n - 1] == a[..n][n - 1] == b[..n][n - 1];
      assert a[..n - 1] == a[..n][..n - 1] == b[..n][..n - 1] == b[..n - 1];
      LaneItemsAgree(items, a, b, k, n - 1);
    }
  }

  method CommandShares(cfg: Config, commands: seq<Command>) returns (shares: seq<real>)
    ensures shares == CommandWeights(cfg, commands)
  {
    shares := [];
    for i := 0 to |commands|
      invariant shares == CommandWeights(cfg, commands)[..i]
    {
      shares := shares + [if TestName(commands[i].arguments) in cfg.longTests then RACE_LONG_TEST_WEIGHT else 1.0];
    }
  }

  method TotalOf(shares: seq<real>) returns (total: real)
    ensures total == Sum(shares)
  {
    total := 0.0;
    for c := 0 to |shares|
      invariant total == Sum(shares[..c])
    {
      assert shares[..c + 1][..c] == shares[..c];
      total := total + shares[c];
    }
    assert shares[..|shares|] == shares;
  }

  method SplitWork(cfg: Config, plan: Plan, weights: map<string, real>) returns (items: seq<Item>)
    requires !Whole(cfg, plan)
    ensures items == PlanItems(cfg, plan, weights)
  {
    var packageWeight := PackageWeight(plan, weights);
    var shares := CommandShares(cfg, plan.commands);
    var total := TotalOf(shares);
    CommandWeightsPositive(cfg, plan.commands);
    ghost var all := PlanItems(cfg, plan, weights);
    items := [];
    for c := 0 to |shares|
      invariant items == all[..c]
    {
      var item := Item(packageWeight * shares[c] / total, plan.package, Some(c), plan);
      assert item == all[c];
      items := items + [item];
    }
  }

  method CollectWork(cfg: Config, plans: seq<Plan>, weights: map<string, real>) returns (work: seq<Item>)
    ensures work == WorkItems(cfg, plans, weights) && AllTenToOne(cfg, work)
  {
    work := [];
    for p := 0 to |plans|
      invariant work == WorkItems(cfg, plans[..p], weights)
    {
      var plan := plans[p];
      assert plans[..p + 1][..p] == plans[..p];
      if plan.package !in cfg.splitPackages || |plan.commands| < 2 {
        work := work + [Item(PackageWeight(plan, weights), plan.package, None, plan)];
      } else {
        var items := SplitWork(cfg, plan, weights);
        work := work + items;
      }
    }
    assert plans[..|plans|] == plans;
    WorkTenToOne(cfg, plans, weights);
  }

  method LeastLoaded(totals: array<real>) returns (target: nat)
    requires totals.Length > 0
    ensures target == ArgMin(totals[..])
  {
    target := 0;
    for k := 1 to totals.Length
      invariant target < k
      invariant forall j :: 0 <= j < k ==> totals[target] <= totals[j]
      invariant forall j :: 0 <= j < target ==> totals[target] < totals[j]
    {
      if totals[k] < totals[target] {
        target := k;
      }
    }
    var best := ArgMin(totals[..]);
    assert totals[..][best] <= totals[..][target];
  }

  /** Every lane's items once the first `n` are placed. */
  function AllLanes(ordered: seq<Item>, a: seq<nat>, m: nat, n: nat): (lanes: seq<seq<Item>>)
    requires n <= |ordered| && n <= |a|
    ensures |lanes| == m
  {
    seq(m, k requires 0 <= k < m => LaneItems(ordered, a, k, n))
  }

  /** The lanes and totals of the greedy assignment once the first `n` items are placed. */
  ghost predicate Placed(ordered: seq<Item>, m: nat, n: nat, lanes: seq<seq<Item>>, totals: seq<real>)
    requires m > 0 && n <= |ordered|
  {
    var w := ItemWeights(ordered);
    && lanes == AllLanes(ordered, Targets(w, m, n), m, n)
    && totals == Totals(w, Targets(w, m, n), m, n)
  }

  lemma {:induction false} TotalsStep(w: seq<real>, m: nat, n: nat)
    requires m > 0 && n < |w|
    ensures var totals := Totals(w, Targets(w, m, n), m, n);
            var t := ArgMin(totals);
            Totals(w, Targets(w, m, n + 1), m, n + 1) == totals[t := totals[t] + w[n]]
  {
    GreedyStep(w, m, n + 1);
  }

  lemma {:induction false} LanesStep(ordered: seq<Item>, a: seq<nat>, t: nat, m: nat, n: nat)
    requires n < |ordered| && n == |a| && t < m
    ensures var lanes := AllLanes(ordered, a, m, n);
            AllLanes(ordered, a + [t], m, n + 1) == lanes[t := lanes[t] + [ordered[n]]]
  {
    var a', lanes := a + [t], AllLanes(ordered, a, m, n);
    var lanes' := lanes[t := lanes[t] + [ordered[n]]];
    forall k | 0 <= k < m ensures AllLanes(ordered, a', m, n + 1)[k] == lanes'[k] {
      LaneItemsAgree(ordered, a', a, k, n);
    }
  }

  lemma {:induction false} PlacedStep(ordered: seq<Item>, m: nat, n: nat, lanes: seq<seq<Item>>, totals: seq<real>)
    requires m > 0 && n < |ordered| && |lanes| == |totals| == m && Placed(ordered, m, n, lanes, totals)
    ensures var t := ArgMin(totals);
            Placed(ordered, m, n + 1, lanes[t := lanes[t] + [ordered[n]]],
                   totals[t := totals[t] + ordered[n].weight])
  {
    var w := ItemWeights(ordered);
    TotalsStep(w, m, n);
    LanesStep(ordered, Targets(w, m, n), ArgMin(totals), m, n);
  }

  lemma {:induction false} PlacedNone(ordered: seq<Item>, m: nat, lanes: seq<seq<Item>>, totals: seq<real>)
    ensures (m > 0 && |lanes| == |totals| == m && (forall k :: 0 <= k < m ==> lanes[k] == [] && totals[k] == 0.0)) ==>
              Placed(ordered, m, 0, lanes, totals)
  {
  }

  /** One turn of the greedy loop. */
  method Place(assignments: array<seq<Item>>, totals: array<real>, item: Item)
    requires assignments.Length == totals.Length > 0
    modifies assignments, totals
    ensures var t := ArgMin(old(totals[..]));
            && totals[..] == old(totals[..])[t := old(totals[..])[t] + item.weight]
            && assignments[..] == old(assignments[..])[t := old(assignments[..])[t] + [item]]
  {
    var target := LeastLoaded(totals);
    assignments[target] := assignments[target] + [item];
    totals[target] := totals[target] + item.weight;
  }

  method PlaceNext(ordered: seq<Item>, n: nat, assignments: array<seq<Item>>, totals: array<real>)
    requires assignments.Length == totals.Length > 0 && n < |ordered|
    requires Placed(ordered, totals.Length, n, assignments[..], totals[..])
    modifies assignments, totals
    ensures Placed(ordered, totals.Length, n + 1, assignments[..], totals[..])
  {
    PlacedStep(ordered, totals.Length, n, assignments[..], totals[..]);
    Place(assignments, totals, ordered[n]);
  }

  method Distribute(ordered: seq<Item>, m: nat) returns (assignments: array<seq<Item>>, totals: array<real>)
    requires m > 0
    ensures fresh(assignments) && fresh(totals) && assignments.Length == m
    ensures Placed(ordered, m, |ordered|, assignments[..], totals[..])
  {
    assignments := new seq<Item>[m](_ => []);
    totals := new real[m](_ => 0.0);
    PlacedNone(ordered, m, assignments[..], totals[..]);
    for n := 0 to |ordered|
      invariant Placed(ordered, m, n, assignments[..], totals[..])
    {
      PlaceNext(ordered, n, assignments, totals);
    }
  }

  method GroupLane(items: seq<Item>) returns (grouped: seq<Group>)
    ensures grouped == GroupItems(items)
  {
    grouped := [];
    for i := 0 to |items|
      invariant grouped == GroupItems(items[..i])
    {
      var item := items[i];
      assert items[..i + 1][..i] == items[..i];
      if item.index.None? {
        grouped := Put(grouped, Group(item.package, item.plan, None));
      } else {
        var at := Find(grouped, item.package);
        var indexes := if at == |grouped| || grouped[at].indexes.None? then [] else grouped[at].indexes.value;
        grouped := Put(grouped, Group(item.package, item.plan, Some(indexes + [item.index.value])));
      }
    }
    assert items[..|items|] == items;
  }

  /** Refuses exactly the invalid coordinates and, where a repeated package mixes the indexes of two plans, an
      index beyond the plan's commands. With distinct packages the second cannot happen. */
  method SelectRacePackagePlans(cfg: Config, plans: seq<Plan>, shardIndex: int, shardCount: int,
                                weights: map<string, real>)
    returns (r: Result<seq<Plan>>)
    ensures !(0 <= shardIndex < shardCount) ==> r.Failure?
    ensures 0 <= shardIndex < shardCount ==>
              var groups := Grouped(cfg, plans, shardIndex, shardCount, weights);
              && (r.Success? <==> AllInRange(groups))
              && (r.Success? ==> Renders(r.value, groups))
    ensures 0 <= shardIndex < shardCount && DistinctPackages(plans) ==>
              r == Success(Selected(cfg, plans, shardIndex, shardCount, weights))
  {
    if shardCount < 1 || !(0 <= shardIndex < shardCount) {
      return Failure("invalid race shard coordinates");
    }
    var work := CollectWork(cfg, plans, weights);
    var ordered := Sort(work, ItemLe);
    var assignments, totals := Distribute(ordered, shardCount);
    assert assignments[shardIndex] == assignments[..][shardIndex];
    var grouped := GroupLane(assignments[shardIndex]);
    assert grouped == Grouped(cfg, plans, shardIndex, shardCount, weights);
    r := RenderGroups(grouped);
    if DistinctPackages(plans) {
      assert grouped == LaneGroups(cfg, plans, shardIndex, shardCount, weights);
    }
  }

  ghost predicate AllInRange(groups: seq<Group>) {
    forall g :: g in groups ==> InRange(g)
  }

  /** The plans are the groups in the order of their packages. */
  ghost predicate Renders(plans: seq<Plan>, groups: seq<Group>)
    requires AllInRange(groups)
  {
    SameElements(groups, Sort(groups, GroupLe));
    plans == RenderAll(Sort(groups, GroupLe))
  }

  lemma {:induction false} RenderStep(groups: seq<Group>, g: Group)
    ensures AllInRange(groups) && InRange(g) ==>
              AllInRange(groups + [g]) && RenderAll(groups + [g]) == RenderAll(groups) + [Render(g)]
  {
  }

  method RenderSorted(sorted: seq<Group>) returns (r: Result<seq<Plan>>)
    ensures r.Success? <==> AllInRange(sorted)
    ensures r.Success? ==> r.value == RenderAll(sorted)
  {
    var selected := [];
    for i := 0 to |sorted|
      invariant AllInRange(sorted[..i]) && selected == RenderAll(sorted[..i])
    {
      if !InRange(sorted[i]) {
        assert sorted[i] in sorted;
        return Failure("list index out of range");
      }
      RenderStep(sorted[..i], sorted[i]);
      assert sorted[..i + 1] == sorted[..i] + [sorted[i]];
      selected := selected + [Render(sorted[i])];
    }
    assert sorted[..|sorted|] == sorted;
    return Success(selected);
  }

  method RenderGroups(grouped: seq<Group>) returns (r: Result<seq<Plan>>)
    ensures r.Success? <==> AllInRange(grouped)
    ensures r.Success? ==> Renders(r.value, grouped)
  {
    SameElements(grouped, Sort(grouped, GroupLe));
    r := RenderSorted(Sort(grouped, GroupLe));
  }
}
