/** What each work item stands for and weighs, in terms of the commands alone. */
module RaceWeights {
  import opened Common
  import opened Ordering
  import opened Scheduling
  import opened RaceLanes

  // ---------------------------------------------------------------- long tests

  /** Argument `i` is the first that selects a test. */
  ghost predicate Selects(arguments: seq<string>, i: nat) {
    i < |arguments| && "-test.run=^" <= arguments[i] && forall j :: 0 <= j < i ==> !("-test.run=^" <= arguments[j])
  }

  /** The argument selects the test called `name`, with or without the closing anchor. */
  ghost predicate Anchors(argument: string, name: string) {
    || argument == "-test.run=^" + name + "$"
    || (argument == "-test.run=^" + name && (name == "" || name[|name| - 1] != '$'))
  }

  /** The command runs one of the long tests. A command that selects no test counts under the empty name. */
  ghost predicate Long(cfg: Config, c: Command) {
    || (exists i: nat, name :: Selects(c.arguments, i) && Anchors(c.arguments[i], name) && name in cfg.longTests)
    || ((forall i: nat :: !Selects(c.arguments, i)) && "" in cfg.longTests)
  }

  lemma {:induction false} AnchorsUnique(argument: string, a: string, b: string)
    requires Anchors(argument, a) && Anchors(argument, b)
    ensures a == b
  {
    var flag := "-test.run=^";
    var rest := argument[|flag|..];
    assert rest == a || rest == a + "$";
    assert rest == b || rest == b + "$";
    assert rest == a + "$" ==> rest[..|rest| - 1] == a && rest[|rest| - 1] == '$';
    assert rest == b + "$" ==> rest[..|rest| - 1] == b && rest[|rest| - 1] == '$';
  }

  lemma {:induction false} SelectsUnique(arguments: seq<string>, i: nat, j: nat)
    ensures Selects(arguments, i) && Selects(arguments, j) ==>
              i == j
  {
  }

  lemma {:induction false} AnchorsName(argument: string)
    ensures RUN_FLAG <= argument ==>
              (var name := argument[|RUN_FLAG|..];
              Anchors(argument, if name != "" && name[|name| - 1] == '$' then name[..|name| - 1] else name))
  {
    if RUN_FLAG <= argument {
      var name := argument[|RUN_FLAG|..];
      assert argument == RUN_FLAG + name;
      if name != "" && name[|name| - 1] == '$' {
        assert name == name[..|name| - 1] + "$";
        assert argument == RUN_FLAG + name[..|name| - 1] + "$";
      }
    }
  }

  lemma {:induction false} TestNameMeans(arguments: seq<string>)
    ensures forall i: nat :: Selects(arguments, i) ==> Anchors(arguments[i], TestName(arguments))
    ensures (forall i: nat :: !Selects(arguments, i)) ==> TestName(arguments) == ""
  {
    if arguments != [] {
      var rest := arguments[1..];
      if RUN_FLAG <= arguments[0] {
        AnchorsName(arguments[0]);
        assert Selects(arguments, 0);
      } else {
        TestNameMeans(rest);
        forall i: nat | Selects(arguments, i) ensures Anchors(arguments[i], TestName(arguments)) {
          SelectsEarlier(arguments, i);
          assert rest[i - 1] == arguments[i];
        }
        if forall i: nat :: !Selects(arguments, i) {
          forall i: nat ensures !Selects(rest, i) {
            if Selects(rest, i) { SelectsLater(arguments, i); }
          }
        }
      }
    }
  }

  lemma {:induction false} SelectsEarlier(arguments: seq<string>, i: nat)
    requires arguments != [] && !(RUN_FLAG <= arguments[0]) && Selects(arguments, i)
    ensures i > 0 && Selects(arguments[1..], i - 1)
  {
    forall j | 0 <= j < i - 1 ensures !("-test.run=^" <= arguments[1..][j]) {
      assert arguments[1..][j] == arguments[j + 1];
    }
  }

  lemma {:induction false} SelectsLater(arguments: seq<string>, i: nat)
    requires arguments != [] && !(RUN_FLAG <= arguments[0]) && Selects(arguments[1..], i)
    ensures Selects(arguments, i + 1)
  {
    forall j | 0 <= j < i + 1 ensures !("-test.run=^" <= arguments[j]) {
      if j > 0 { assert arguments[j] == arguments[1..][j - 1]; }
    }
  }

  lemma {:induction false} LongByName(cfg: Config, c: Command)
    ensures Long(cfg, c) <==> TestName(c.arguments) in cfg.longTests
  {
    var name := TestName(c.arguments);
    TestNameMeans(c.arguments);
    if i: nat :| Selects(c.arguments, i) {
      assert Anchors(c.arguments[i], name);
      forall j: nat, other | Selects(c.arguments, j) && Anchors(c.arguments[j], other) ensures other == name {
        SelectsUnique(c.arguments, i, j);
        AnchorsUnique(c.arguments[i], other, name);
      }
    }
  }

  // ---------------------------------------------------------------- items

  /** The package is scheduled test by test. */
  ghost predicate Splits(cfg: Config, plan: Plan) {
    plan.package in cfg.splitPackages && |plan.commands| >= 2
  }

  /** Item `x` carries one command. */
  ghost predicate Carries(x: Item, c: Command) {
    x.index.Some? && x.index.value < |x.plan.commands| && x.plan.commands[x.index.value] == c
  }

  /** Two items of one split package weigh the same if both or neither run a long test, and ten to one otherwise. */
  ghost predicate TenToOne(cfg: Config, x: Item, y: Item) {
    forall c, d :: x.plan == y.plan && Carries(x, c) && Carries(y, d) ==>
      && (Long(cfg, c) && !Long(cfg, d) ==> x.weight == 10.0 * y.weight)
      && (Long(cfg, c) == Long(cfg, d) ==> x.weight == y.weight)
  }

  /** What a plan's items are: one for the whole package, or one for each of its commands in order. */
  lemma {:induction false} PlanItemsMean(cfg: Config, plan: Plan, weights: map<string, real>)
    ensures var items := PlanItems(cfg, plan, weights);
            && |items| == (if Splits(cfg, plan) then |plan.commands| else 1)
            && forall i :: 0 <= i < |items| ==>
                 && items[i].package == plan.package && items[i].plan == plan
                 && items[i].index == if Splits(cfg, plan) then Some(i) else None
  {
  }

  lemma {:induction false} Tenfold(weight: real, total: real)
    ensures total > 0.0 ==>
              weight * 10.0 / total == 10.0 * (weight * 1.0 / total)
  {
  }

  lemma {:induction false} CommandShare(cfg: Config, plan: Plan, weights: map<string, real>, i: nat)
    requires Splits(cfg, plan) && i < |plan.commands|
    ensures var total := Sum(CommandWeights(cfg, plan.commands));
            && total > 0.0
            && PlanItems(cfg, plan, weights)[i].weight ==
               PackageWeight(plan, weights) * (if Long(cfg, plan.commands[i]) then 10.0 else 1.0) / total
  {
    CommandWeightsPositive(cfg, plan.commands);
    LongByName(cfg, plan.commands[i]);
    var shares := CommandWeights(cfg, plan.commands);
    assert shares[i] == CommandWeight(cfg, plan.commands[i]);
  }

  lemma {:induction false} PlanItemsTenToOne(cfg: Config, plan: Plan, weights: map<string, real>, x: Item, y: Item)
    requires x in PlanItems(cfg, plan, weights) && y in PlanItems(cfg, plan, weights)
    ensures TenToOne(cfg, x, y)
  {
    var items := PlanItems(cfg, plan, weights);
    PlanItemsMean(cfg, plan, weights);
    if Splits(cfg, plan) {
      var i :| 0 <= i < |items| && items[i] == x;
      var j :| 0 <= j < |items| && items[j] == y;
      CommandShare(cfg, plan, weights, i);
      CommandShare(cfg, plan, weights, j);
      Tenfold(PackageWeight(plan, weights), Sum(CommandWeights(cfg, plan.commands)));
    }
  }

  ghost predicate AllTenToOne(cfg: Config, work: seq<Item>) {
    forall x, y :: x in work && y in work ==> TenToOne(cfg, x, y)
  }

  /** Of all work items: a long test weighs ten times an ordinary one of its package. */
  lemma {:induction false} WorkTenToOne(cfg: Config, plans: seq<Plan>, weights: map<string, real>)
    ensures AllTenToOne(cfg, WorkItems(cfg, plans, weights))
  {
    WorkItemsUnits(cfg, plans, weights);
    var work := WorkItems(cfg, plans, weights);
    forall x, y | x in work && y in work ensures TenToOne(cfg, x, y) {
      if x.plan == y.plan {
        PlanItemsTenToOne(cfg, x.plan, weights, x, y);
      }
    }
  }

  // ---------------------------------------------------------------- the placing order

  /** Heavier first; equally heavy ones by package, and within a package by command. */
  ghost predicate Precedes(x: Item, y: Item) {
    || x.weight > y.weight
    || (x.weight == y.weight && x.package != y.package && StringLe(x.package, y.package))
    || (x.weight == y.weight && x.package == y.package
        && (x.index.None? || (y.index.Some? && x.index.value <= y.index.value)))
  }

  lemma {:induction false} OrderedPrecedes(cfg: Config, plans: seq<Plan>, weights: map<string, real>)
    ensures var ordered := Ordered(cfg, plans, weights);
            && multiset(ordered) == multiset(WorkItems(cfg, plans, weights))
            && forall i, j :: 0 <= i < j < |ordered| ==> Precedes(ordered[i], ordered[j])
  {
    var work := WorkItems(cfg, plans, weights);
    ItemLeTotal();
    SortSorted(work, ItemLe);
    var ordered := Sort(work, ItemLe);
    forall i, j | 0 <= i < j < |ordered| ensures Precedes(ordered[i], ordered[j]) {
      assert ItemLe(ordered[i], ordered[j]);
    }
  }
}
