/** The race-lane allocator of `qa/next.py`: every lane computes the whole assignment of packages and
    tests to lanes and keeps its own slice. */
module RaceLanes {
  import opened Common
  import opened Ordering
  import opened Scheduling

  datatype Command = Command(arguments: seq<string>, timeout: int, cwd: string)

  datatype Plan = Plan(package: string, commands: seq<Command>,
                       compileCommand: Option<seq<string>>, binary: Option<string>)

  /** One schedulable unit: a whole package (no index) or one command of a split package. */
  datatype Item = Item(weight: real, package: string, index: Option<nat>, plan: Plan)

  /** The slice of one package a lane keeps; no indexes means all of its commands. */
  datatype Group = Group(package: string, plan: Plan, indexes: Option<seq<nat>>)

  /** Which packages are split test by test, and which tests count as long ones. Nothing below
      depends on the particular names. */
  datatype Config = Config(splitPackages: set<string>, longTests: set<string>)

  const RACE_LONG_TEST_WEIGHT := 10.0
  const RUN_FLAG := "-test.run=^"

  // ---------------------------------------------------------------- work items

  /** The test a command runs: its first `-test.run=^...` argument without the anchors, or "". */
  function TestName(arguments: seq<string>): string {
    if arguments == [] then ""
    else if RUN_FLAG <= arguments[0] then
      var name := arguments[0][|RUN_FLAG|..];
      if name != "" && name[|name| - 1] == '$' then name[..|name| - 1] else name
    else TestName(arguments[1..])
  }

  function CommandWeight(cfg: Config, c: Command): (w: real)
    ensures w > 0.0
  {
    if TestName(c.arguments) in cfg.longTests then RACE_LONG_TEST_WEIGHT else 1.0
  }

  function CommandWeights(cfg: Config, commands: seq<Command>): (w: seq<real>)
    ensures |w| == |commands|
  {
    seq(|commands|, i requires 0 <= i < |commands| => CommandWeight(cfg, commands[i]))
  }

  function PackageWeight(plan: Plan, weights: map<string, real>): real {
    if plan.package in weights then weights[plan.package]
    else if |plan.commands| < 1 then 1.0
    else |plan.commands| as real
  }

  /** Packages that are scheduled as one unit. */
  predicate Whole(cfg: Config, plan: Plan) {
    plan.package !in cfg.splitPackages || |plan.commands| < 2
  }

  function PlanItems(cfg: Config, plan: Plan, weights: map<string, real>): (items: seq<Item>)
    ensures |items| == if Whole(cfg, plan) then 1 else |plan.commands|
  {
    if Whole(cfg, plan) then [Item(PackageWeight(plan, weights), plan.package, None, plan)]
    else
      var shares := CommandWeights(cfg, plan.commands);
      CommandWeightsPositive(cfg, plan.commands);
      seq(|shares|, i requires 0 <= i < |shares| =>
        Item(PackageWeight(plan, weights) * shares[i] / Sum(shares), plan.package, Some(i), plan))
  }

  function WorkItems(cfg: Config, plans: seq<Plan>, weights: map<string, real>): seq<Item> {
    if plans == [] then []
    else WorkItems(cfg, plans[..|plans| - 1], weights) + PlanItems(cfg, plans[|plans| - 1], weights)
  }

  lemma {:induction false} SumPositive(s: seq<real>)
    requires s != [] && Positive(s)
    ensures Sum(s) > 0.0
  {
    if |s| > 1 { SumPositive(s[..|s| - 1]); }
  }

  lemma {:induction false} CommandWeightsPositive(cfg: Config, commands: seq<Command>)
    ensures commands != [] ==> Sum(CommandWeights(cfg, commands)) > 0.0
  {
    if commands != [] { SumPositive(CommandWeights(cfg, commands)); }
  }

  // ---------------------------------------------------------------- ordering

  function Rank(index: Option<nat>): int {
    match index case None => -1 case Some(i) => i
  }

  /** The sort key (-weight, package, index or -1). */
  predicate ItemLe(x: Item, y: Item) {
    || x.weight > y.weight
    || (x.weight == y.weight
        && StringLe(x.package, y.package)
        && (x.package == y.package ==> Rank(x.index) <= Rank(y.index)))
  }

  lemma {:induction false} ItemLeTotal()
    ensures TotalPreorder(ItemLe)
  {
    forall x, y ensures ItemLe(x, y) || ItemLe(y, x) {
      StringLeTotal(x.package, y.package);
    }
    forall x, y, z | ItemLe(x, y) && ItemLe(y, z) ensures ItemLe(x, z) {
      if x.weight == y.weight == z.weight {
        StringLeTransitive(x.package, y.package, z.package);
        StringLeTotal(x.package, y.package);
      }
    }
  }

  function Ordered(cfg: Config, plans: seq<Plan>, weights: map<string, real>): seq<Item> {
    Sort(WorkItems(cfg, plans, weights), ItemLe)
  }

  function ItemWeights(items: seq<Item>): (w: seq<real>)
    ensures |w| == |items|
  {
    seq(|items|, i requires 0 <= i < |items| => items[i].weight)
  }

  // ---------------------------------------------------------------- assignment

  /** The lane of every item of `Ordered`, as the greedy loop chooses it. */
  function Lanes(cfg: Config, plans: seq<Plan>, m: nat, weights: map<string, real>): (a: seq<nat>)
    requires m > 0
    ensures |a| == |Ordered(cfg, plans, weights)|
    ensures Assigns(a, m)
  {
    var w := ItemWeights(Ordered(cfg, plans, weights));
    Targets(w, m, |w|)
  }

  /** The items of the first `n` that assignment `a` puts in lane `k`, in order. */
  function LaneItems(items: seq<Item>, a: seq<nat>, k: nat, n: nat): seq<Item>
    requires n <= |items| && n <= |a|
  {
    if n == 0 then []
    else LaneItems(items, a, k, n - 1) + (if a[n - 1] == k then [items[n - 1]] else [])
  }

  // ---------------------------------------------------------------- grouping

  /** The position of `package` among the groups, or their number. */
  function Find(groups: seq<Group>, package: string): (r: nat)
    ensures r <= |groups|
    ensures r < |groups| ==> groups[r].package == package
    ensures forall i :: 0 <= i < r ==> groups[i].package != package
  {
    if groups == [] then 0
    else if groups[0].package == package then 0
    else 1 + Find(groups[1..], package)
  }

  function Put(groups: seq<Group>, g: Group): seq<Group> {
    var i := Find(groups, g.package);
    if i < |groups| then groups[i := g] else groups + [g]
  }

  /** The entry for the item's package once the item is added. */
  function Joined(groups: seq<Group>, item: Item): (g: Group)
    ensures g.package == item.package && g.plan == item.plan
  {
    match item.index
    case None => Group(item.package, item.plan, None)
    case Some(c) =>
      var i := Find(groups, item.package);
      var indexes := if i == |groups| || groups[i].indexes.None? then [] else groups[i].indexes.value;
      Group(item.package, item.plan, Some(indexes + [c]))
  }

  function GroupItems(items: seq<Item>): seq<Group> {
    if items == [] then []
    else
      var groups := GroupItems(items[..|items| - 1]);
      Put(groups, Joined(groups, items[|items| - 1]))
  }

  predicate GroupLe(x: Group, y: Group) {
    StringLe(x.package, y.package)
  }

  predicate NatLe(x: nat, y: nat) { x <= y }

  function Pick(commands: seq<Command>, indexes: seq<nat>): (r: seq<Command>)
    requires forall c :: c in indexes ==> c < |commands|
    ensures |r| == |indexes|
  {
    seq(|indexes|, i requires 0 <= i < |indexes| => assert indexes[i] in indexes; commands[indexes[i]])
  }

  predicate InRange(g: Group) {
    g.indexes.Some? ==> forall c :: c in g.indexes.value ==> c < |g.plan.commands|
  }

  function Slice(plan: Plan, indexes: seq<nat>): seq<Command>
    requires forall c :: c in indexes ==> c < |plan.commands|
  {
    SameElements(indexes, Sort(indexes, NatLe));
    Pick(plan.commands, Sort(indexes, NatLe))
  }

  function Render(g: Group): Plan
    requires InRange(g)
  {
    Plan(g.plan.package, if g.indexes.None? then g.plan.commands else Slice(g.plan, g.indexes.value),
         g.plan.compileCommand, g.plan.binary)
  }

  function RenderAll(groups: seq<Group>): (r: seq<Plan>)
    requires forall g :: g in groups ==> InRange(g)
    ensures |r| == |groups|
  {
    seq(|groups|, i requires 0 <= i < |groups| => Render(groups[i]))
  }

  /** The groups of a lane. */
  function Grouped(cfg: Config, plans: seq<Plan>, k: nat, m: nat, weights: map<string, real>): seq<Group>
    requires k < m
  {
    var ordered := Ordered(cfg, plans, weights);
    GroupItems(LaneItems(ordered, Lanes(cfg, plans, m, weights), k, |ordered|))
  }

  /** With distinct packages every index is one of the plan's own. */
  function LaneGroups(cfg: Config, plans: seq<Plan>, k: nat, m: nat, weights: map<string, real>): (groups: seq<Group>)
    requires k < m && DistinctPackages(plans)
    ensures forall g :: g in groups ==> InRange(g)
  {
    var ordered := Ordered(cfg, plans, weights);
    var items := LaneItems(ordered, Lanes(cfg, plans, m, weights), k, |ordered|);
    LaneItemsCoherent(cfg, plans, k, m, weights);
    GroupsCharacterized(cfg, items);
    Grouped(cfg, plans, k, m, weights)
  }

  /** What a lane runs, for plans whose packages are distinct. */
  function Selected(cfg: Config, plans: seq<Plan>, k: nat, m: nat, weights: map<string, real>): seq<Plan>
    requires k < m && DistinctPackages(plans)
  {
    var groups := LaneGroups(cfg, plans, k, m, weights);
    SameElements(groups, Sort(groups, GroupLe));
    RenderAll(Sort(groups, GroupLe))
  }

  ghost predicate DistinctPackages(plans: seq<Plan>) {
    forall i, j :: 0 <= i < j < |plans| ==> plans[i].package != plans[j].package
  }

  // ---------------------------------------------------------------- facts about items and groups

  /** `item` is one of the units `plan` is scheduled as. */
  ghost predicate UnitOf(cfg: Config, item: Item, plan: Plan) {
    && item.plan == plan && item.package == plan.package
    && (item.index.None? <==> Whole(cfg, plan))
    && (item.index.Some? ==> item.index.value < |plan.commands|)
  }

  /** Items of one package come from one plan. */
  ghost predicate Coherent(cfg: Config, items: seq<Item>) {
    && (forall x :: x in items ==> UnitOf(cfg, x, x.plan))
    && (forall x, y :: x in items && y in items && x.package == y.package ==> x.plan == y.plan)
  }

  lemma {:induction false} WorkItemsUnits(cfg: Config, plans: seq<Plan>, weights: map<string, real>)
    ensures forall x :: x in WorkItems(cfg, plans, weights) ==>
              x.plan in plans && UnitOf(cfg, x, x.plan) && x in PlanItems(cfg, x.plan, weights)
    ensures forall p, x :: p in plans && x in PlanItems(cfg, p, weights) ==> x in WorkItems(cfg, plans, weights)
  {
    if plans != [] {
      var init, last := plans[..|plans| - 1], plans[|plans| - 1];
      WorkItemsUnits(cfg, init, weights);
      assert plans == init + [last];
      forall x | x in PlanItems(cfg, last, weights)
        ensures x.plan == last && UnitOf(cfg, x, last)
      {
      }
    }
  }

  lemma {:induction false} WorkItemsDistinct(cfg: Config, plans: seq<Plan>, weights: map<string, real>)
    requires DistinctPackages(plans)
    ensures NoDuplicates(WorkItems(cfg, plans, weights))
  {
    if plans != [] {
      var init, last := plans[..|plans| - 1], plans[|plans| - 1];
      WorkItemsDistinct(cfg, init, weights);
      WorkItemsUnits(cfg, init, weights);
      var before, added := WorkItems(cfg, init, weights), PlanItems(cfg, last, weights);
      forall i, j | 0 <= i < |before| && 0 <= j < |added| ensures before[i] != added[j] {
        assert before[i] in before && before[i].plan in init;
      }
      assert NoDuplicates(added);
    }
  }

  lemma {:induction false} LaneItemsMember(items: seq<Item>, a: seq<nat>, k: nat, n: nat, x: Item)
    requires n <= |items| && n <= |a|
    ensures x in LaneItems(items, a, k, n) <==> exists t :: 0 <= t < n && items[t] == x && a[t] == k
  {
    if n > 0 { LaneItemsMember(items, a, k, n - 1, x); }
  }

  lemma {:induction false} LaneItemsCoherent(cfg: Config, plans: seq<Plan>, k: nat, m: nat, weights: map<string, real>)
    requires k < m && DistinctPackages(plans)
    ensures var ordered := Ordered(cfg, plans, weights);
            Coherent(cfg, LaneItems(ordered, Lanes(cfg, plans, m, weights), k, |ordered|))
  {
    var work, ordered := WorkItems(cfg, plans, weights), Ordered(cfg, plans, weights);
    var items := LaneItems(ordered, Lanes(cfg, plans, m, weights), k, |ordered|);
    SameElements(work, ordered);
    WorkItemsUnits(cfg, plans, weights);
    forall x | x in items ensures x in work {
      LaneItemsMember(ordered, Lanes(cfg, plans, m, weights), k, |ordered|, x);
    }
  }

  /** The command indexes of `package` among the items, in item order. */
  function IndexesOf(items: seq<Item>, package: string): seq<nat> {
    if items == [] then []
    else
      var x := items[|items| - 1];
      IndexesOf(items[..|items| - 1], package) +
      (if x.package == package && x.index.Some? then [x.index.value] else [])
  }

  lemma {:induction false} IndexesMember(items: seq<Item>, package: string, c: nat)
    ensures c in IndexesOf(items, package) <==>
            exists x :: x in items && x.package == package && x.index == Some(c)
  {
    if items != [] {
      var init, last := items[..|items| - 1], items[|items| - 1];
      IndexesMember(init, package, c);
      assert items == init + [last];
    }
  }

  lemma {:induction false} IndexesAbsent(items: seq<Item>, package: string)
    requires forall x :: x in items ==> x.package != package
    ensures IndexesOf(items, package) == []
  {
    if items != [] { IndexesAbsent(items[..|items| - 1], package); }
  }

  ghost predicate FromItems(cfg: Config, g: Group, items: seq<Item>) {
    && InRange(g)
    && (exists x :: x in items && x.package == g.package && x.plan == g.plan)
    && g.indexes == (if Whole(cfg, g.plan) then None else Some(IndexesOf(items, g.package)))
  }

  ghost predicate Covered(x: Item, groups: seq<Group>) {
    exists i :: 0 <= i < |groups| && groups[i].package == x.package
  }

  ghost predicate OnePerPackage(groups: seq<Group>) {
    forall i, j :: 0 <= i < j < |groups| ==> groups[i].package != groups[j].package
  }

  /** One group per package present, holding that package's plan and exactly its indexes. */
  ghost predicate Describes(cfg: Config, groups: seq<Group>, items: seq<Item>) {
    && OnePerPackage(groups)
    && (forall i :: 0 <= i < |groups| ==> FromItems(cfg, groups[i], items))
    && (forall x :: x in items ==> Covered(x, groups))
  }

  lemma {:induction false} GroupsCharacterized(cfg: Config, items: seq<Item>)
    requires Coherent(cfg, items)
    ensures Describes(cfg, GroupItems(items), items)
  {
    if items != [] {
      var init, x := items[..|items| - 1], items[|items| - 1];
      assert items == init + [x];
      var groups := GroupItems(init);
      GroupsCharacterized(cfg, init);
      JoinedCharacterized(cfg, groups, init, x);
      PutCharacterized(cfg, groups, init, x, Joined(groups, x));
    }
  }

  lemma {:induction false} OtherPackageUnchanged(cfg: Config, g: Group, init: seq<Item>, x: Item)
    requires FromItems(cfg, g, init) && g.package != x.package
    ensures FromItems(cfg, g, init + [x])
  {
    assert (init + [x])[..|init + [x]| - 1] == init;
    assert IndexesOf(init + [x], g.package) == IndexesOf(init, g.package) + [] == IndexesOf(init, g.package);
    var y :| y in init && y.package == g.package && y.plan == g.plan;
    assert y in init + [x];
  }

  lemma {:induction false} PutCovers(groups: seq<Group>, g: Group, y: Item)
    requires Covered(y, groups) || y.package == g.package
    ensures Covered(y, Put(groups, g))
  {
    var after := Put(groups, g);
    if y.package == g.package {
      assert after[Find(groups, g.package)].package == y.package;
    } else {
      var j :| 0 <= j < |groups| && groups[j].package == y.package;
      assert after[j].package == y.package;
    }
  }

  lemma {:induction false} PutOnePerPackage(groups: seq<Group>, g: Group)
    ensures OnePerPackage(groups) ==>
              OnePerPackage(Put(groups, g))
  {
  }

  /** A group of another package stays where it is. */
  lemma {:induction false} PutOther(groups: seq<Group>, g: Group, j: nat)
    requires OnePerPackage(groups) && j < |Put(groups, g)| && j != Find(groups, g.package)
    ensures j < |groups| && Put(groups, g)[j] == groups[j] && groups[j].package != g.package
  {
    assert Find(groups, g.package) < |groups| ==> groups[Find(groups, g.package)].package == g.package;
  }

  lemma {:induction false} PutCharacterized(cfg: Config, groups: seq<Group>, init: seq<Item>, x: Item, g: Group)
    requires Describes(cfg, groups, init)
    requires g.package == x.package && FromItems(cfg, g, init + [x])
    ensures Describes(cfg, Put(groups, g), init + [x])
  {
    var items, after := init + [x], Put(groups, g);
    PutOnePerPackage(groups, g);
    forall j | 0 <= j < |after| ensures FromItems(cfg, after[j], items) {
      if j != Find(groups, g.package) {
        PutOther(groups, g, j);
        OtherPackageUnchanged(cfg, groups[j], init, x);
      }
    }
    forall y | y in items ensures Covered(y, after) {
      PutCovers(groups, g, y);
    }
  }

  lemma {:induction false} IndexesOfAppend(init: seq<Item>, x: Item, package: string)
    ensures IndexesOf(init + [x], package) == IndexesOf(init, package) +
            (if x.package == package && x.index.Some? then [x.index.value] else [])
  {
    assert (init + [x])[..|init + [x]| - 1] == init;
  }

  /** The indexes of coherent items are positions of the plan's commands. */
  lemma {:induction false} IndexesInRange(cfg: Config, items: seq<Item>, x: Item)
    requires Coherent(cfg, items) && x in items
    ensures forall c :: c in IndexesOf(items, x.package) ==> c < |x.plan.commands|
  {
    forall c | c in IndexesOf(items, x.package) ensures c < |x.plan.commands| {
      IndexesMember(items, x.package, c);
      var y :| y in items && y.package == x.package && y.index == Some(c);
      assert UnitOf(cfg, y, y.plan) && y.plan == x.plan;
    }
  }

  /** The first item of its package starts the indexes. */
  lemma {:induction false} JoinedFirst(groups: seq<Group>, init: seq<Item>, x: Item)
    requires Find(groups, x.package) == |groups| && forall y :: y in init ==> y.package != x.package
    ensures Joined(groups, x).indexes == if x.index.None? then None else Some(IndexesOf(init + [x], x.package))
  {
    IndexesAbsent(init, x.package);
    IndexesOfAppend(init, x, x.package);
  }

  /** A later one adds its own to those of its group. */
  lemma {:induction false} JoinedLater(groups: seq<Group>, init: seq<Item>, x: Item)
    requires Find(groups, x.package) < |groups|
    requires x.index.Some? ==> groups[Find(groups, x.package)].indexes == Some(IndexesOf(init, x.package))
    ensures Joined(groups, x).indexes == if x.index.None? then None else Some(IndexesOf(init + [x], x.package))
  {
    IndexesOfAppend(init, x, x.package);
  }

  lemma {:induction false} JoinedCharacterized(cfg: Config, groups: seq<Group>, init: seq<Item>, x: Item)
    requires Coherent(cfg, init + [x]) && Describes(cfg, groups, init)
    ensures FromItems(cfg, Joined(groups, x), init + [x])
  {
    var items := init + [x];
    assert x in items && UnitOf(cfg, x, x.plan);
    var i := Find(groups, x.package);
    if i == |groups| {
      forall y | y in init ensures y.package != x.package {
        assert Covered(y, groups);
      }
      JoinedFirst(groups, init, x);
    } else {
      assert FromItems(cfg, groups[i], init);
      var y :| y in init && y.package == x.package && y.plan == groups[i].plan;
      assert y in items && groups[i].plan == x.plan;
      JoinedLater(groups, init, x);
    }
    IndexesInRange(cfg, items, x);
  }
}
