/** What the lanes do together: every test of every package runs in exactly one lane. */
module RaceCoverage {
  import opened Common
  import opened Ordering
  import opened RaceLanes

  lemma {:induction false} OrderedDistinct(cfg: Config, plans: seq<Plan>, weights: map<string, real>)
    requires DistinctPackages(plans)
    ensures NoDuplicates(Ordered(cfg, plans, weights))
  {
    WorkItemsDistinct(cfg, plans, weights);
    PermutationDistinct(WorkItems(cfg, plans, weights), Ordered(cfg, plans, weights));
  }

  // ---------------------------------------------------------------- one lane per item

  /** Item `x` is assigned to `lane`. */
  ghost predicate Lands(cfg: Config, plans: seq<Plan>, weights: map<string, real>, m: nat, lane: nat, x: Item)
    requires m > 0
  {
    var ordered := Ordered(cfg, plans, weights);
    exists t :: 0 <= t < |ordered| && ordered[t] == x && Lanes(cfg, plans, m, weights)[t] == lane
  }

  /** Every work item is assigned to exactly one lane. */
  lemma {:induction false} OneLane(cfg: Config, plans: seq<Plan>, weights: map<string, real>, m: nat, x: Item)
    returns (lane: nat)
    requires m > 0 && DistinctPackages(plans) && x in WorkItems(cfg, plans, weights)
    ensures lane < m && Lands(cfg, plans, weights, m, lane, x)
    ensures forall other: nat :: Lands(cfg, plans, weights, m, other, x) ==> other == lane
  {
    var ordered := Ordered(cfg, plans, weights);
    SameElements(WorkItems(cfg, plans, weights), ordered);
    OrderedDistinct(cfg, plans, weights);
    var t :| 0 <= t < |ordered| && ordered[t] == x;
    lane := Lanes(cfg, plans, m, weights)[t];
    forall other: nat | Lands(cfg, plans, weights, m, other, x) ensures other == lane {
      var u :| 0 <= u < |ordered| && ordered[u] == x && Lanes(cfg, plans, m, weights)[u] == other;
      assert u == t;
    }
  }

  /** The unit that carries command `c` of `plan`. */
  function UnitFor(cfg: Config, plan: Plan, c: nat, weights: map<string, real>): Item
    requires c < |plan.commands|
  {
    PlanItems(cfg, plan, weights)[if Whole(cfg, plan) then 0 else c]
  }

  // ---------------------------------------------------------------- one lane's slice

  ghost predicate Ascending(s: seq<nat>) {
    forall i, j :: 0 <= i < j < |s| ==> s[i] < s[j]
  }

  /** `s` lists the members of `kept` in ascending order. */
  ghost predicate Lists(s: seq<nat>, kept: set<nat>) {
    Ascending(s) && forall c :: c in s <==> c in kept
  }

  /** `e` is `plan` cut down to the commands at `kept`, in the plan's own order. */
  ghost predicate CutTo(e: Plan, plan: Plan, kept: set<nat>)
    requires forall c :: c in kept ==> c < |plan.commands|
  {
    && e.package == plan.package && e.compileCommand == plan.compileCommand && e.binary == plan.binary
    && exists s {:trigger Lists(s, kept)} :: Lists(s, kept) && e.commands == Pick(plan.commands, s)
  }

  /** The command positions of `plan` whose unit is assigned to `lane`. */
  ghost function Kept(cfg: Config, plans: seq<Plan>, weights: map<string, real>, m: nat, lane: nat,
                      plan: Plan): set<nat>
    requires m > 0
  {
    set c | 0 <= c < |plan.commands| && Lands(cfg, plans, weights, m, lane, UnitFor(cfg, plan, c, weights))
  }

  /** Some unit of `plan` is assigned to `lane`. */
  ghost predicate Touches(cfg: Config, plans: seq<Plan>, weights: map<string, real>, m: nat, lane: nat, plan: Plan)
    requires m > 0
  {
    exists x :: x in PlanItems(cfg, plan, weights) && Lands(cfg, plans, weights, m, lane, x)
  }

  lemma {:induction false} LaneItemsDistinct(items: seq<Item>, a: seq<nat>, k: nat, n: nat)
    requires n <= |items| && n <= |a| && NoDuplicates(items)
    ensures NoDuplicates(LaneItems(items, a, k, n))
  {
    if n > 0 {
      LaneItemsDistinct(items, a, k, n - 1);
      LaneItemsMember(items, a, k, n - 1, items[n - 1]);
    }
  }

  lemma {:induction false} IndexesDistinct(items: seq<Item>, package: string)
    requires forall i, j :: 0 <= i < j < |items| && items[i].package == items[j].package == package ==>
               items[i].index != items[j].index
    ensures NoDuplicates(IndexesOf(items, package))
  {
    if items != [] {
      var init, x := items[..|items| - 1], items[|items| - 1];
      IndexesDistinct(init, package);
      if x.package == package && x.index.Some? {
        IndexesMember(init, package, x.index.value);
      }
    }
  }

  lemma {:induction false} SortedIndexesAscend(indexes: seq<nat>)
    requires NoDuplicates(indexes)
    ensures Ascending(Sort(indexes, NatLe))
    ensures forall c :: c in Sort(indexes, NatLe) <==> c in indexes
  {
    SortSorted(indexes, NatLe);
    PermutationDistinct(indexes, Sort(indexes, NatLe));
    SameElements(indexes, Sort(indexes, NatLe));
  }

  /** The items of a lane, and what is known of each. */
  lemma {:induction false} LaneItemFacts(cfg: Config, plans: seq<Plan>, weights: map<string, real>, m: nat, lane: nat)
    requires lane < m && DistinctPackages(plans)
    ensures var ordered := Ordered(cfg, plans, weights);
            var items := LaneItems(ordered, Lanes(cfg, plans, m, weights), lane, |ordered|);
            && NoDuplicates(items)
            && (forall x :: x in items <==> Lands(cfg, plans, weights, m, lane, x))
            && (forall x :: x in items ==>
                  x.plan in plans && UnitOf(cfg, x, x.plan) && x in PlanItems(cfg, x.plan, weights))
  {
    var ordered := Ordered(cfg, plans, weights);
    var a := Lanes(cfg, plans, m, weights);
    OrderedDistinct(cfg, plans, weights);
    LaneItemsDistinct(ordered, a, lane, |ordered|);
    WorkItemsUnits(cfg, plans, weights);
    SameElements(WorkItems(cfg, plans, weights), ordered);
    forall x ensures x in LaneItems(ordered, a, lane, |ordered|) <==> Lands(cfg, plans, weights, m, lane, x) {
      LaneItemsMember(ordered, a, lane, |ordered|, x);
    }
  }

  function Range(n: nat): (s: seq<nat>)
    ensures |s| == n
    ensures forall c :: c in s <==> 0 <= c < n
  {
    if n == 0 then [] else Range(n - 1) + [n - 1]
  }

  lemma {:induction false} RangeAt(n: nat, i: nat)
    requires i < n
    ensures Range(n)[i] == i
  {
    if i < n - 1 { RangeAt(n - 1, i); }
  }

  /** The full range picks everything. */
  lemma {:induction false} RangePicks(commands: seq<Command>)
    ensures Ascending(Range(|commands|))
    ensures Pick(commands, Range(|commands|)) == commands
  {
    forall i | 0 <= i < |commands| ensures Range(|commands|)[i] == i {
      RangeAt(|commands|, i);
    }
  }

  lemma {:induction false} WholeCut(plan: Plan, kept: set<nat>)
    requires forall c :: c in kept <==> 0 <= c < |plan.commands|
    ensures CutTo(plan, plan, kept)
  {
    RangePicks(plan.commands);
    assert Lists(Range(|plan.commands|), kept);
  }

  lemma {:induction false} SplitCut(plan: Plan, indexes: seq<nat>, kept: set<nat>)
    requires NoDuplicates(indexes)
    requires forall c :: c in kept ==> c < |plan.commands|
    requires forall c :: c in indexes <==> c in kept
    ensures CutTo(plan.(commands := Slice(plan, indexes)), plan, kept)
  {
    SortedIndexesAscend(indexes);
    assert Lists(Sort(indexes, NatLe), kept);
  }

  lemma {:induction false} GroupFacts(cfg: Config, plans: seq<Plan>, weights: map<string, real>, m: nat,
                                      lane: nat, g: Group, plan: Plan)
    requires lane < m && DistinctPackages(plans) && plan in plans
    requires g in LaneGroups(cfg, plans, lane, m, weights) && g.package == plan.package
    ensures g.plan == plan
    ensures var ordered := Ordered(cfg, plans, weights);
            var items := LaneItems(ordered, Lanes(cfg, plans, m, weights), lane, |ordered|);
            g.indexes == (if Whole(cfg, plan) then None else Some(IndexesOf(items, plan.package)))
    ensures Whole(cfg, plan) ==> Lands(cfg, plans, weights, m, lane, PlanItems(cfg, plan, weights)[0])
  {
    var ordered := Ordered(cfg, plans, weights);
    var items := LaneItems(ordered, Lanes(cfg, plans, m, weights), lane, |ordered|);
    LaneItemsCoherent(cfg, plans, lane, m, weights);
    GroupsCharacterized(cfg, items);
    LaneItemFacts(cfg, plans, weights, m, lane);
    assert FromItems(cfg, g, items);
    var x :| x in items && x.package == g.package && x.plan == g.plan;
  }

  /** Every group of a lane is its package's plan, cut to what the lane keeps. */
  lemma {:induction false} GroupCut(cfg: Config, plans: seq<Plan>, weights: map<string, real>, m: nat,
                                    lane: nat, g: Group, plan: Plan)
    requires lane < m && DistinctPackages(plans) && plan in plans
    requires g in LaneGroups(cfg, plans, lane, m, weights) && g.package == plan.package
    ensures CutTo(Render(g), plan, Kept(cfg, plans, weights, m, lane, plan))
  {
    GroupFacts(cfg, plans, weights, m, lane, g, plan);
    var kept := Kept(cfg, plans, weights, m, lane, plan);
    if Whole(cfg, plan) {
      WholeCut(plan, kept);
    } else {
      var ordered := Ordered(cfg, plans, weights);
      var items := LaneItems(ordered, Lanes(cfg, plans, m, weights), lane, |ordered|);
      LaneItemFacts(cfg, plans, weights, m, lane);
      KeptIndexes(cfg, plans, weights, m, lane, plan, items);
      SplitCut(plan, IndexesOf(items, plan.package), kept);
    }
  }

  lemma {:induction false} KeptIndexes(cfg: Config, plans: seq<Plan>, weights: map<string, real>, m: nat,
                                       lane: nat, plan: Plan,
                    items: seq<Item>)
    requires m > 0 && DistinctPackages(plans) && plan in plans && !Whole(cfg, plan)
    requires NoDuplicates(items)
    requires forall x :: x in items <==> Lands(cfg, plans, weights, m, lane, x)
    requires forall x :: x in items ==>
               x.plan in plans && UnitOf(cfg, x, x.plan) && x in PlanItems(cfg, x.plan, weights)
    ensures NoDuplicates(IndexesOf(items, plan.package))
    ensures forall c :: c in IndexesOf(items, plan.package) <==> c in Kept(cfg, plans, weights, m, lane, plan)
  {
    forall x | x in items && x.package == plan.package
      ensures x.plan == plan && x.index.Some? && x == UnitFor(cfg, plan, x.index.value, weights)
    {
    }
    forall i, j | 0 <= i < j < |items| && items[i].package == items[j].package == plan.package
      ensures items[i].index != items[j].index
    {
      assert items[i] in items && items[j] in items;
    }
    IndexesDistinct(items, plan.package);
    forall c ensures c in IndexesOf(items, plan.package) <==> c in Kept(cfg, plans, weights, m, lane, plan) {
      IndexesMember(items, plan.package, c);
      if c in Kept(cfg, plans, weights, m, lane, plan) {
        var x := UnitFor(cfg, plan, c, weights);
        assert x in items && x.package == plan.package && x.index == Some(c);
      }
    }
  }

  /** A lane's selection: each entry is one of the plans cut to the units assigned to the lane. */
  lemma {:induction false} SelectedCut(cfg: Config, plans: seq<Plan>, weights: map<string, real>, m: nat,
                                       lane: nat, e: Plan, plan: Plan)
    requires lane < m && DistinctPackages(plans) && plan in plans
    requires e in Selected(cfg, plans, lane, m, weights) && e.package == plan.package
    ensures CutTo(e, plan, Kept(cfg, plans, weights, m, lane, plan))
  {
    var g := GroupBehind(cfg, plans, weights, m, lane, e);
    GroupCut(cfg, plans, weights, m, lane, g, plan);
  }

  lemma {:induction false} GroupBehind(cfg: Config, plans: seq<Plan>, weights: map<string, real>, m: nat,
                                       lane: nat, e: Plan)
    returns (g: Group)
    requires lane < m && DistinctPackages(plans) && e in Selected(cfg, plans, lane, m, weights)
    ensures g in LaneGroups(cfg, plans, lane, m, weights) && InRange(g) && e == Render(g)
    ensures g.package == g.plan.package == e.package && g.plan in plans
  {
    var groups := LaneGroups(cfg, plans, lane, m, weights);
    var sorted := Sort(groups, GroupLe);
    SameElements(groups, sorted);
    var i :| 0 <= i < |sorted| && e == Selected(cfg, plans, lane, m, weights)[i];
    g := sorted[i];
    GroupPlan(cfg, plans, weights, m, lane, g);
  }

  lemma {:induction false} GroupPlan(cfg: Config, plans: seq<Plan>, weights: map<string, real>, m: nat,
                                     lane: nat, g: Group)
    requires lane < m && DistinctPackages(plans) && g in LaneGroups(cfg, plans, lane, m, weights)
    ensures g.package == g.plan.package && g.plan in plans
    ensures Touches(cfg, plans, weights, m, lane, g.plan)
  {
    var ordered := Ordered(cfg, plans, weights);
    var items := LaneItems(ordered, Lanes(cfg, plans, m, weights), lane, |ordered|);
    LaneItemsCoherent(cfg, plans, lane, m, weights);
    GroupsCharacterized(cfg, items);
    LaneItemFacts(cfg, plans, weights, m, lane);
    assert FromItems(cfg, g, items);
  }

  /** A package has an entry in a lane's selection exactly when one of its units is assigned there. */
  lemma {:induction false} SelectedPresent(cfg: Config, plans: seq<Plan>, weights: map<string, real>, m: nat,
                                           lane: nat, plan: Plan)
    requires lane < m && DistinctPackages(plans) && plan in plans
    ensures (exists e :: e in Selected(cfg, plans, lane, m, weights) && e.package == plan.package)
            <==> Touches(cfg, plans, weights, m, lane, plan)
  {
    if e :| e in Selected(cfg, plans, lane, m, weights) && e.package == plan.package {
      var g := GroupBehind(cfg, plans, weights, m, lane, e);
      GroupPlan(cfg, plans, weights, m, lane, g);
    }
    if Touches(cfg, plans, weights, m, lane, plan) {
      var x :| x in PlanItems(cfg, plan, weights) && Lands(cfg, plans, weights, m, lane, x);
      var g := GroupFor(cfg, plans, weights, m, lane, x);
      var e := EntryOf(cfg, plans, weights, m, lane, g);
    }
  }

  lemma {:induction false} EntryOf(cfg: Config, plans: seq<Plan>, weights: map<string, real>, m: nat,
                                   lane: nat, g: Group)
    returns (e: Plan)
    requires lane < m && DistinctPackages(plans) && g in LaneGroups(cfg, plans, lane, m, weights)
    ensures e in Selected(cfg, plans, lane, m, weights) && e.package == g.package
  {
    GroupPlan(cfg, plans, weights, m, lane, g);
    var groups := LaneGroups(cfg, plans, lane, m, weights);
    var sorted := Sort(groups, GroupLe);
    SameElements(groups, sorted);
    var i :| 0 <= i < |sorted| && sorted[i] == g;
    e := Selected(cfg, plans, lane, m, weights)[i];
  }

  lemma {:induction false} GroupFor(cfg: Config, plans: seq<Plan>, weights: map<string, real>, m: nat,
                                    lane: nat, x: Item)
    returns (g: Group)
    requires lane < m && DistinctPackages(plans) && Lands(cfg, plans, weights, m, lane, x)
    ensures g in LaneGroups(cfg, plans, lane, m, weights) && g.package == x.package
  {
    var ordered := Ordered(cfg, plans, weights);
    var items := LaneItems(ordered, Lanes(cfg, plans, m, weights), lane, |ordered|);
    LaneItemsCoherent(cfg, plans, lane, m, weights);
    GroupsCharacterized(cfg, items);
    LaneItemFacts(cfg, plans, weights, m, lane);
    var groups := LaneGroups(cfg, plans, lane, m, weights);
    assert Covered(x, groups);
    var i :| 0 <= i < |groups| && groups[i].package == x.package;
    g := groups[i];
  }

  /** A lane lists its packages in strictly ascending order, so each at most once. */
  lemma {:induction false} SelectedAscends(cfg: Config, plans: seq<Plan>, weights: map<string, real>, m: nat,
                                           lane: nat, i: nat, j: nat)
    requires lane < m && DistinctPackages(plans)
    requires i < j < |Selected(cfg, plans, lane, m, weights)|
    ensures var r := Selected(cfg, plans, lane, m, weights);
            StringLe(r[i].package, r[j].package) && r[i].package != r[j].package
  {
    var ordered := Ordered(cfg, plans, weights);
    var items := LaneItems(ordered, Lanes(cfg, plans, m, weights), lane, |ordered|);
    LaneItemsCoherent(cfg, plans, lane, m, weights);
    GroupsCharacterized(cfg, items);
    var groups := LaneGroups(cfg, plans, lane, m, weights);
    var sorted := Sort(groups, GroupLe);
    SameElements(groups, sorted);
    GroupLeTotal();
    SortSorted(groups, GroupLe);
    assert NoDuplicates(groups);
    PermutationDistinct(groups, sorted);
    assert sorted[i] in groups && sorted[j] in groups;
    GroupPlan(cfg, plans, weights, m, lane, sorted[i]);
    GroupPlan(cfg, plans, weights, m, lane, sorted[j]);
  }

  lemma {:induction false} GroupLeTotal()
    ensures TotalPreorder(GroupLe)
  {
    forall x: Group, y: Group ensures GroupLe(x, y) || GroupLe(y, x) {
      StringLeTotal(x.package, y.package);
    }
    forall x: Group, y: Group, z: Group | GroupLe(x, y) && GroupLe(y, z) ensures GroupLe(x, z) {
      StringLeTransitive(x.package, y.package, z.package);
    }
  }

  // ---------------------------------------------------------------- all lanes together

  /** The plans a lane assigns before it has discovered any test. */
  function Ordinary(cfg: Config, plans: seq<Plan>): seq<Plan> {
    if plans == [] then []
    else
      var last := plans[|plans| - 1];
      Ordinary(cfg, plans[..|plans| - 1]) + (if last.package in cfg.splitPackages then [] else [last])
  }

  lemma {:induction false} OrdinaryMembers(cfg: Config, plans: seq<Plan>)
    requires DistinctPackages(plans)
    ensures DistinctPackages(Ordinary(cfg, plans))
    ensures forall p :: p in Ordinary(cfg, plans) <==> p in plans && p.package !in cfg.splitPackages
  {
    if plans != [] {
      var init, last := plans[..|plans| - 1], plans[|plans| - 1];
      assert plans == init + [last];
      OrdinaryMembers(cfg, init);
      forall p | p in Ordinary(cfg, init) ensures p.package != last.package {
        assert p in init;
      }
    }
  }

  /** A discovered package as a lane passes it to the allocator. */
  function Discovered(plan: Plan, tests: seq<Command>): Plan {
    Plan(plan.package, tests, None, plan.binary)
  }

  /** The commands one lane runs for one package. Ordinary packages are assigned before their tests are
      known; a split package is assigned test by test once they are. */
  function LaneCommands(cfg: Config, plans: seq<Plan>, weights: map<string, real>, m: nat, lane: nat,
                        plan: Plan, tests: seq<Command>): seq<Command>
    requires lane < m && DistinctPackages(plans) && plan in plans
  {
    OrdinaryMembers(cfg, plans);
    if plan.package in cfg.splitPackages then
      var selected := Selected(cfg, [Discovered(plan, tests)], lane, m, weights);
      if selected == [] then [] else selected[0].commands
    else if exists e :: e in Selected(cfg, Ordinary(cfg, plans), lane, m, weights) && e.package == plan.package
    then tests
    else []
  }

  /** The positions in `tests` that a lane runs. */
  ghost function LanePositions(cfg: Config, plans: seq<Plan>, weights: map<string, real>, m: nat, lane: nat,
                               plan: Plan, tests: seq<Command>): set<nat>
    requires m > 0
  {
    if plan.package in cfg.splitPackages then
      Kept(cfg, [Discovered(plan, tests)], weights, m, lane, Discovered(plan, tests))
    else if Touches(cfg, Ordinary(cfg, plans), weights, m, lane, plan) then
      set c | c in Range(|tests|)
    else {}
  }

  lemma {:induction false} SplitLaneCommands(cfg: Config, plans: seq<Plan>, weights: map<string, real>, m: nat,
                                             lane: nat,
                          plan: Plan, tests: seq<Command>)
    returns (s: seq<nat>)
    requires lane < m && DistinctPackages(plans) && plan in plans && plan.package in cfg.splitPackages
    ensures Lists(s, LanePositions(cfg, plans, weights, m, lane, plan, tests))
    ensures LaneCommands(cfg, plans, weights, m, lane, plan, tests) == Pick(tests, s)
  {
    var whole := Discovered(plan, tests);
    var selected := Selected(cfg, [whole], lane, m, weights);
    SelectedPresent(cfg, [whole], weights, m, lane, whole);
    var kept := Kept(cfg, [whole], weights, m, lane, whole);
    forall c | c in kept ensures Touches(cfg, [whole], weights, m, lane, whole) {
      assert UnitFor(cfg, whole, c, weights) in PlanItems(cfg, whole, weights);
    }
    if selected == [] {
      s := [];
    } else {
      var g := GroupBehind(cfg, [whole], weights, m, lane, selected[0]);
      assert selected[0].package == whole.package;
      SelectedCut(cfg, [whole], weights, m, lane, selected[0], whole);
      s :| Lists(s, kept) && selected[0].commands == Pick(tests, s);
    }
  }

  /** A lane runs the tests at its positions, in the package's own order, with their commands unchanged. */
  lemma {:induction false} LaneRunsPositions(cfg: Config, plans: seq<Plan>, weights: map<string, real>, m: nat,
                                             lane: nat,
                          plan: Plan, tests: seq<Command>)
    returns (s: seq<nat>)
    requires lane < m && DistinctPackages(plans) && plan in plans
    ensures Lists(s, LanePositions(cfg, plans, weights, m, lane, plan, tests))
    ensures LaneCommands(cfg, plans, weights, m, lane, plan, tests) == Pick(tests, s)
  {
    if plan.package in cfg.splitPackages {
      s := SplitLaneCommands(cfg, plans, weights, m, lane, plan, tests);
    } else {
      OrdinaryMembers(cfg, plans);
      SelectedPresent(cfg, Ordinary(cfg, plans), weights, m, lane, plan);
      if Touches(cfg, Ordinary(cfg, plans), weights, m, lane, plan) {
        RangePicks(tests);
        s := Range(|tests|);
      } else {
        s := [];
      }
    }
  }

  lemma {:induction false} OrdinaryOnce(cfg: Config, plans: seq<Plan>, weights: map<string, real>, m: nat, plan: Plan)
    returns (lane: nat)
    requires m > 0 && DistinctPackages(plans) && plan in plans && plan.package !in cfg.splitPackages
    ensures lane < m && Touches(cfg, plans, weights, m, lane, plan)
    ensures forall other: nat :: Touches(cfg, plans, weights, m, other, plan) ==> other == lane
  {
    var x := PlanItems(cfg, plan, weights)[0];
    WorkItemsUnits(cfg, plans, weights);
    assert x in PlanItems(cfg, plan, weights);
    lane := OneLane(cfg, plans, weights, m, x);
    forall other: nat | Touches(cfg, plans, weights, m, other, plan) ensures other == lane {
      var y :| y in PlanItems(cfg, plan, weights) && Lands(cfg, plans, weights, m, other, y);
      assert y == x;
    }
  }

  lemma {:induction false} SplitOnce(cfg: Config, weights: map<string, real>, m: nat, whole: Plan, c: nat)
    returns (lane: nat)
    requires m > 0 && c < |whole.commands|
    ensures lane < m && c in Kept(cfg, [whole], weights, m, lane, whole)
    ensures forall other: nat :: c in Kept(cfg, [whole], weights, m, other, whole) ==> other == lane
  {
    var x := UnitFor(cfg, whole, c, weights);
    WorkItemsUnits(cfg, [whole], weights);
    assert x in PlanItems(cfg, whole, weights);
    lane := OneLane(cfg, [whole], weights, m, x);
  }

  /** Over all lanes together, every discovered test of every package runs in exactly one lane. */
  lemma {:induction false} EveryTestOnce(cfg: Config, plans: seq<Plan>, weights: map<string, real>, m: nat,
                      plan: Plan, tests: seq<Command>, c: nat)
    returns (lane: nat)
    requires m > 0 && DistinctPackages(plans) && plan in plans && c < |tests|
    ensures lane < m && c in LanePositions(cfg, plans, weights, m, lane, plan, tests)
    ensures forall other: nat :: c in LanePositions(cfg, plans, weights, m, other, plan, tests) ==> other == lane
  {
    if plan.package in cfg.splitPackages {
      lane := SplitOnce(cfg, weights, m, Discovered(plan, tests), c);
    } else {
      OrdinaryMembers(cfg, plans);
      lane := OrdinaryOnce(cfg, Ordinary(cfg, plans), weights, m, plan);
    }
  }
}
