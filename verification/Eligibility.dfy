/** Release eligibility (`qa/release_eligibility.py`): the partition of the product scenarios over the E2E
    stages, and what an accepted set of lane reports proves. */
module Eligibility {
  import opened Common

  /** A dedicated E2E stage and the scenarios it takes. The default stage takes the rest. */
  datatype Lane = Lane(stage: string, ids: seq<string>)

  const DEFAULT_STAGE := "product-e2e"

  /** The members of `s` that are in `chosen`, or the others, in order. */
  function Keep(s: seq<string>, chosen: set<string>, inside: bool): seq<string> {
    if s == [] then []
    else
      var last := s[|s| - 1];
      Keep(s[..|s| - 1], chosen, inside) + (if (last in chosen) == inside then [last] else [])
  }

  function Members(ids: seq<string>): set<string> {
    set x | x in ids
  }

  function Claimed(lanes: seq<Lane>): set<string> {
    if lanes == [] then {} else Claimed(lanes[..|lanes| - 1]) + Members(lanes[|lanes| - 1].ids)
  }

  /** The configuration fits the manifest: scenarios are unique, every lane's scenarios exist, no two lanes
      share one. */
  ghost predicate Fits(manifest: seq<string>, lanes: seq<Lane>) {
    && NoDuplicates(manifest)
    && (forall i :: 0 <= i < |lanes| ==> Members(lanes[i].ids) <= Members(manifest))
    && (forall i, j :: 0 <= i < j < |lanes| ==> Members(lanes[i].ids) !! Members(lanes[j].ids))
  }

  /** What a stage runs. */
  function Selection(manifest: seq<string>, lanes: seq<Lane>, stage: Option<nat>): seq<string>
    requires stage.Some? ==> stage.value < |lanes|
  {
    match stage
    case None => Keep(manifest, Claimed(lanes), false)
    case Some(i) => Keep(manifest, Members(lanes[i].ids), true)
  }

  lemma {:induction false} ClaimedMember(lanes: seq<Lane>, x: string)
    ensures x in Claimed(lanes) <==> exists i :: 0 <= i < |lanes| && x in Members(lanes[i].ids)
  {
    if lanes != [] {
      ClaimedMember(lanes[..|lanes| - 1], x);
    }
  }

  lemma {:induction false} KeepFacts(s: seq<string>, chosen: set<string>, inside: bool)
    ensures forall x :: x in Keep(s, chosen, inside) <==> x in s && (x in chosen) == inside
    ensures NoDuplicates(s) ==> NoDuplicates(Keep(s, chosen, inside))
  {
    if s != [] {
      var init, last := s[..|s| - 1], s[|s| - 1];
      assert s == init + [last];
      KeepFacts(init, chosen, inside);
      if NoDuplicates(s) { assert last !in init; }
    }
  }

  /** What is kept stands in the order of the manifest. */
  lemma {:induction false} KeepOrder(s: seq<string>, chosen: set<string>, inside: bool) returns (at: seq<nat>)
    ensures |at| == |Keep(s, chosen, inside)|
    ensures forall i, j :: 0 <= i < j < |at| ==> at[i] < at[j]
    ensures forall i :: 0 <= i < |at| ==> at[i] < |s| && Keep(s, chosen, inside)[i] == s[at[i]]
  {
    if s == [] {
      at := [];
    } else {
      at := KeepOrder(s[..|s| - 1], chosen, inside);
      if (s[|s| - 1] in chosen) == inside {
        at := at + [|s| - 1];
      }
    }
  }

  /** `product_e2e_partition`: refuses a configuration that does not fit, and otherwise answers with the
      stage's scenarios. */
  method ProductPartition(manifest: seq<string>, lanes: seq<Lane>, stage: Option<nat>) returns (r: Result<seq<string>>)
    requires stage.Some? ==> stage.value < |lanes|
    ensures r.Success? <==> Fits(manifest, lanes)
    ensures r.Success? ==> r.value == Selection(manifest, lanes, stage)
  {
    var repeats := HasRepeats(manifest);
    if repeats {
      return Failure("product E2E manifest contains duplicate scenario ids");
    }
    var claimed: set<string> := {};
    for i := 0 to |lanes|
      invariant claimed == Claimed(lanes[..i])
      invariant forall j :: 0 <= j < i ==> Members(lanes[j].ids) <= Members(manifest)
      invariant forall j, k :: 0 <= j < k < i ==> Members(lanes[j].ids) !! Members(lanes[k].ids)
    {
      var ids := Members(lanes[i].ids);
      assert lanes[..i + 1][..i] == lanes[..i];
      if !(ids <= Members(manifest)) {
        return Failure("missing scenario from product E2E manifest");
      }
      if claimed * ids != {} {
        var x :| x in claimed * ids;
        ClaimedMember(lanes[..i], x);
        var j :| 0 <= j < i && x in Members(lanes[j].ids);
        assert x in Members(lanes[j].ids) * ids;
        return Failure("scenario overlaps another product E2E lane");
      }
      forall j | 0 <= j < i ensures Members(lanes[j].ids) !! ids {
        forall x | x in Members(lanes[j].ids) ensures x !in ids {
          assert x in Members(lanes[..i][j].ids);
          ClaimedMember(lanes[..i], x);
          assert x in ids ==> x in claimed * ids;
        }
      }
      claimed := claimed + ids;
    }
    assert lanes[..|lanes|] == lanes;
    return Success(Selection(manifest, lanes, stage));
  }

  /** Stage `None` is the default one; `Some(i)` the lane at `i`. */
  ghost predicate StageOf(lanes: seq<Lane>, stage: Option<nat>) {
    stage.Some? ==> stage.value < |lanes|
  }

  /** Every scenario of the manifest is selected by exactly one stage, at most once there. */
  lemma {:induction false} SelectedOnce(manifest: seq<string>, lanes: seq<Lane>, x: string) returns (stage: Option<nat>)
    requires Fits(manifest, lanes) && x in manifest
    ensures StageOf(lanes, stage) && x in Selection(manifest, lanes, stage)
    ensures forall other :: StageOf(lanes, other) && x in Selection(manifest, lanes, other) ==> other == stage
    ensures NoDuplicates(Selection(manifest, lanes, stage))
  {
    ClaimedMember(lanes, x);
    KeepFacts(manifest, Claimed(lanes), false);
    forall i | 0 <= i < |lanes|
      ensures x in Selection(manifest, lanes, Some(i)) <==> x in Members(lanes[i].ids)
      ensures NoDuplicates(Selection(manifest, lanes, Some(i)))
    {
      KeepFacts(manifest, Members(lanes[i].ids), true);
    }
    if i :| 0 <= i < |lanes| && x in Members(lanes[i].ids) {
      stage := Some(i);
      forall j | 0 <= j < |lanes| && x in Members(lanes[j].ids) ensures j == i {
        assert x in Members(lanes[i].ids) * Members(lanes[j].ids);
      }
    } else {
      stage := None;
    }
  }

  /** A lane's stage selects exactly the lane's own scenarios, the default stage those of no lane. */
  lemma {:induction false} SelectionMeans(manifest: seq<string>, lanes: seq<Lane>, stage: Option<nat>, x: string)
    requires StageOf(lanes, stage)
    ensures x in Selection(manifest, lanes, stage) <==>
            && x in manifest
            && if stage.Some? then x in lanes[stage.value].ids else forall i :: 0 <= i < |lanes| ==> x !in lanes[i].ids
  {
    match stage
    case None =>
      KeepFacts(manifest, Claimed(lanes), false);
      ClaimedMember(lanes, x);
      assert forall i :: 0 <= i < |lanes| ==> (x in Members(lanes[i].ids) <==> x in lanes[i].ids);
    case Some(i) => KeepFacts(manifest, Members(lanes[i].ids), true);
  }

  /** And nothing else is selected. */
  lemma {:induction false} SelectedIsListed(manifest: seq<string>, lanes: seq<Lane>, stage: Option<nat>, x: string)
    requires StageOf(lanes, stage) && x in Selection(manifest, lanes, stage)
    ensures x in manifest
  {
    match stage
    case None => KeepFacts(manifest, Claimed(lanes), false);
    case Some(i) => KeepFacts(manifest, Members(lanes[i].ids), true);
  }

  // ---------------------------------------------------------------- aggregating lane reports

  datatype StageResult = StageResult(stage: string, returncode: int, command: Option<seq<string>>, webview2: string)

  /** A lane report; `wellFormed` stands for its schema version and kind. */
  datatype Report = Report(lane: string, wellFormed: bool, ok: bool, releaseEligible: bool, identity: string,
                           results: seq<StageResult>)

  /** Which lanes run which stages, and which of them are required. */
  datatype Gate = Gate(laneStages: map<string, seq<string>>, requiredLanes: seq<string>, raceLanes: seq<string>,
                       requiredStages: set<string>, productLanes: seq<Lane>, manifest: seq<string>)

  const RACE_STAGE := "go-race"
  const SMOKE_STAGE := "smoke"

  datatype Run = Run(lane: string, result: StageResult)

  function StagesOf(results: seq<StageResult>): (stages: seq<string>)
    ensures |stages| == |results| && forall i :: 0 <= i < |results| ==> stages[i] == results[i].stage
  {
    seq(|results|, i requires 0 <= i < |results| => results[i].stage)
  }

  /** The runs of one stage within a report. */
  function RunsIn(lane: string, results: seq<StageResult>, stage: string): seq<Run> {
    if results == [] then []
    else
      var last := results[|results| - 1];
      RunsIn(lane, results[..|results| - 1], stage) + (if last.stage == stage then [Run(lane, last)] else [])
  }

  /** The runs of one stage over all reports, in order. */
  function Runs(reports: seq<Report>, stage: string): seq<Run> {
    if reports == [] then []
    else
      var last := reports[|reports| - 1];
      Runs(reports[..|reports| - 1], stage) + RunsIn(last.lane, last.results, stage)
  }

  function LanesOf(runs: seq<Run>): (lanes: seq<string>)
    ensures |lanes| == |runs| && forall i :: 0 <= i < |runs| ==> lanes[i] == runs[i].lane
  {
    seq(|runs|, i requires 0 <= i < |runs| => runs[i].lane)
  }

  /** No lane reported twice. */
  ghost predicate OneReportPerLane(reports: seq<Report>) {
    forall i, j :: 0 <= i < j < |reports| ==> reports[i].lane != reports[j].lane
  }

  ghost predicate ReportsFrom(lanes: set<string>, reports: seq<Report>) {
    && (forall i :: 0 <= i < |reports| ==> reports[i].lane in lanes)
    && (forall lane :: lane in lanes ==> exists i :: 0 <= i < |reports| && reports[i].lane == lane)
  }

  /** What follows each `flag` from position `n` on, if every one is followed by something. */
  function Following(command: seq<string>, flag: string, n: nat): Option<seq<string>>
    decreases |command| - n
  {
    if n >= |command| then Some([])
    else if command[n] != flag then Following(command, flag, n + 1)
    else if n + 1 == |command| then None
    else
      var rest := Following(command, flag, n + 1);
      if rest.None? then None else Some([command[n + 1]] + rest.value)
  }

  /** The scenarios a command line selects, if every `--scenario` is followed by one. */
  function Reported(command: seq<string>): Option<seq<string>> {
    Following(command, "--scenario", 0)
  }

  /** The positions of `flag` from position `n` on. */
  function Positions(command: seq<string>, flag: string, n: nat): seq<nat>
    decreases |command| - n
  {
    if n >= |command| then []
    else (if command[n] == flag then [n] else []) + Positions(command, flag, n + 1)
  }

  /** Each holds the flag, and they ascend. */
  lemma {:induction false} PositionAt(command: seq<string>, flag: string, n: nat, i: nat)
    requires i < |Positions(command, flag, n)|
    ensures n <= Positions(command, flag, n)[i] < |command| && command[Positions(command, flag, n)[i]] == flag
    decreases |command| - n
  {
    if command[n] != flag {
      PositionAt(command, flag, n + 1, i);
    } else if i > 0 {
      PositionAt(command, flag, n + 1, i - 1);
    }
  }

  lemma {:induction false} PositionsAscend(command: seq<string>, flag: string, n: nat, i: nat, j: nat)
    requires i < j < |Positions(command, flag, n)|
    ensures Positions(command, flag, n)[i] < Positions(command, flag, n)[j]
    decreases |command| - n
  {
    if command[n] != flag {
      PositionsAscend(command, flag, n + 1, i, j);
    } else if i > 0 {
      PositionsAscend(command, flag, n + 1, i - 1, j - 1);
    } else {
      PositionAt(command, flag, n + 1, j - 1);
    }
  }

  /** And every position that holds the flag is listed. */
  lemma {:induction false} PositionFound(command: seq<string>, flag: string, n: nat, k: nat) returns (i: nat)
    requires n <= k < |command| && command[k] == flag
    ensures i < |Positions(command, flag, n)| && Positions(command, flag, n)[i] == k
    decreases |command| - n
  {
    if n == k {
      i := 0;
    } else {
      i := PositionFound(command, flag, n + 1, k);
      if command[n] == flag {
        i := i + 1;
      }
    }
  }

  lemma {:induction false} FollowingExactly(command: seq<string>, flag: string, n: nat)
    ensures Following(command, flag, n).None? <==> n < |command| && command[|command| - 1] == flag
    ensures Following(command, flag, n).Some? ==>
              |Following(command, flag, n).value| == |Positions(command, flag, n)|
    decreases |command| - n
  {
    if n < |command| { FollowingExactly(command, flag, n + 1); }
  }

  lemma {:induction false} FollowingAt(command: seq<string>, flag: string, n: nat, i: nat)
    requires Following(command, flag, n).Some? && i < |Positions(command, flag, n)|
    requires |Following(command, flag, n).value| == |Positions(command, flag, n)|
    ensures Positions(command, flag, n)[i] + 1 < |command|
    ensures Following(command, flag, n).value[i] == command[Positions(command, flag, n)[i] + 1]
    decreases |command| - n
  {
    if command[n] != flag {
      FollowingAt(command, flag, n + 1, i);
    } else if i > 0 {
      FollowingAt(command, flag, n + 1, i - 1);
    }
  }

  /** A command selects nothing readable exactly if a `--scenario` ends it; otherwise it selects what follows each
      `--scenario`, in order. */
  lemma {:induction false} ReportedMeans(command: seq<string>) returns (at: seq<nat>)
    ensures forall i, j :: 0 <= i < j < |at| ==> at[i] < at[j]
    ensures forall i :: 0 <= i < |at| ==> at[i] < |command| && command[at[i]] == "--scenario"
    ensures forall n: nat :: n < |command| && command[n] == "--scenario" ==> n in at
    ensures Reported(command).None? <==> command != [] && command[|command| - 1] == "--scenario"
    ensures Reported(command).Some? ==>
              && |Reported(command).value| == |at|
              && forall i :: 0 <= i < |at| ==>
                   at[i] + 1 < |command| && Reported(command).value[i] == command[at[i] + 1]
  {
    at := FollowingMeans(command, "--scenario");
  }

  lemma {:induction false} FollowingMeans(command: seq<string>, flag: string) returns (at: seq<nat>)
    ensures forall i, j :: 0 <= i < j < |at| ==> at[i] < at[j]
    ensures forall i :: 0 <= i < |at| ==> at[i] < |command| && command[at[i]] == flag
    ensures forall n: nat :: n < |command| && command[n] == flag ==> n in at
    ensures Following(command, flag, 0).None? <==> command != [] && command[|command| - 1] == flag
    ensures Following(command, flag, 0).Some? ==>
              && |Following(command, flag, 0).value| == |at|
              && forall i :: 0 <= i < |at| ==>
                   at[i] + 1 < |command| && Following(command, flag, 0).value[i] == command[at[i] + 1]
  {
    at := Positions(command, flag, 0);
    FollowingExactly(command, flag, 0);
    forall i, j | 0 <= i < j < |at| ensures at[i] < at[j] { PositionsAscend(command, flag, 0, i, j); }
    forall i | 0 <= i < |at| ensures at[i] < |command| && command[at[i]] == flag { PositionAt(command, flag, 0, i); }
    forall n: nat | n < |command| && command[n] == flag ensures n in at {
      var i := PositionFound(command, flag, 0, n);
    }
    if Following(command, flag, 0).Some? {
      forall i | 0 <= i < |at|
        ensures at[i] + 1 < |command| && Following(command, flag, 0).value[i] == command[at[i] + 1]
      {
        FollowingAt(command, flag, 0, i);
      }
    }
  }

  /** A report passes on its own. */
  ghost predicate Passes(gate: Gate, identity: string, report: Report) {
    && report.lane in gate.laneStages && report.wellFormed && report.ok && !report.releaseEligible
    && report.identity == identity && StagesOf(report.results) == gate.laneStages[report.lane]
    && forall i :: 0 <= i < |report.results| ==> report.results[i].returncode == 0
  }

  method CheckReport(gate: Gate, identity: string, report: Report) returns (ok: bool)
    ensures ok <==> Passes(gate, identity, report)
  {
    if report.lane !in gate.laneStages || !report.wellFormed || !report.ok || report.releaseEligible
       || report.identity != identity || StagesOf(report.results) != gate.laneStages[report.lane] {
      return false;
    }
    for i := 0 to |report.results|
      invariant forall j :: 0 <= j < i ==> report.results[j].returncode == 0
    {
      if report.results[i].returncode != 0 {
        return false;
      }
    }
    return true;
  }

  /** The stage a product lane index stands for. */
  function StageName(gate: Gate, stage: Option<nat>): string
    requires StageOf(gate.productLanes, stage)
  {
    match stage case None => DEFAULT_STAGE case Some(i) => gate.productLanes[i].stage
  }

  /** The run of a product stage selected exactly the scenarios the partition gives it. */
  ghost predicate CoversProduct(gate: Gate, reports: seq<Report>, stage: Option<nat>)
    requires StageOf(gate.productLanes, stage)
  {
    var runs := Runs(reports, StageName(gate, stage));
    && |runs| > 0 && runs[0].result.command.Some?
    && Reported(runs[0].result.command.value) == Some(Selection(gate.manifest, gate.productLanes, stage))
  }

  /** What acceptance proves. */
  ghost predicate Proven(gate: Gate, identity: string, reports: seq<Report>) {
    && OneReportPerLane(reports)
    && ReportsFrom(Members(gate.requiredLanes), reports)
    && (forall i :: 0 <= i < |reports| ==> Passes(gate, identity, reports[i]))
    && StagesKnown(gate, reports)
    && StagesRan(gate, reports)
    && LanesOf(Runs(reports, RACE_STAGE)) == gate.raceLanes
    && ProductProven(gate, reports)
  }

  /** No report carries a stage nobody requires. */
  ghost predicate StagesKnown(gate: Gate, reports: seq<Report>) {
    forall i :: 0 <= i < |reports| ==> Members(StagesOf(reports[i].results)) <= gate.requiredStages
  }

  /** Every required stage ran, and ran exactly once unless it is the race. */
  ghost predicate StagesRan(gate: Gate, reports: seq<Report>) {
    forall stage :: stage in gate.requiredStages ==> RanAsRequired(reports, stage)
  }

  predicate RanAsRequired(reports: seq<Report>, stage: string) {
    var runs := Runs(reports, stage);
    |runs| > 0 && (stage != RACE_STAGE ==> |runs| == 1)
  }

  /** The product stages in order: the default one, then the lanes. */
  function StageAt(j: nat): Option<nat> {
    if j == 0 then None else Some(j - 1)
  }

  /** The run of every product stage selected what it should. */
  ghost predicate AllCovered(gate: Gate, reports: seq<Report>) {
    forall j :: 0 <= j <= |gate.productLanes| ==> CoversProduct(gate, reports, StageAt(j))
  }

  ghost predicate ProductProven(gate: Gate, reports: seq<Report>) {
    Fits(gate.manifest, gate.productLanes) && AllCovered(gate, reports)
  }

  /** Reads the reports one by one; a lane may report only once. */
  method ReadReports(gate: Gate, identity: string, reports: seq<Report>) returns (ok: bool, lanes: set<string>)
    ensures ok <==> OneReportPerLane(reports) && forall i :: 0 <= i < |reports| ==> Passes(gate, identity, reports[i])
    ensures ok ==> ReportsFrom(lanes, reports)
  {
    lanes := {};
    for i := 0 to |reports|
      invariant OneReportPerLane(reports[..i]) && ReportsFrom(lanes, reports[..i])
      invariant forall j :: 0 <= j < i ==> Passes(gate, identity, reports[j])
    {
      if reports[i].lane in lanes {
        var j :| 0 <= j < i && reports[..i][j].lane == reports[i].lane;
        assert reports[j].lane == reports[i].lane;
        return false, lanes;
      }
      var passes := CheckReport(gate, identity, reports[i]);
      if !passes {
        return false, lanes;
      }
      Joined(lanes, reports[..i], reports[i]);
      assert reports[..i + 1] == reports[..i] + [reports[i]];
      lanes := lanes + {reports[i].lane};
    }
    assert reports[..|reports|] == reports;
    return true, lanes;
  }

  lemma {:induction false} Joined(lanes: set<string>, reports: seq<Report>, next: Report)
    requires OneReportPerLane(reports) && ReportsFrom(lanes, reports) && next.lane !in lanes
    ensures OneReportPerLane(reports + [next]) && ReportsFrom(lanes + {next.lane}, reports + [next])
  {
    var all := reports + [next];
    forall lane | lane in lanes + {next.lane} ensures exists i :: 0 <= i < |all| && all[i].lane == lane {
      if lane in lanes {
        var i :| 0 <= i < |reports| && reports[i].lane == lane;
        assert all[i].lane == lane;
      } else {
        assert all[|reports|].lane == lane;
      }
    }
  }

  /** Only one set of lanes describes the reports. */
  lemma {:induction false} SameLanes(a: set<string>, b: set<string>, reports: seq<Report>)
    requires ReportsFrom(a, reports) && ReportsFrom(b, reports)
    ensures a == b
  {
    forall lane | lane in a || lane in b ensures lane in a && lane in b {
      var i :| 0 <= i < |reports| && reports[i].lane == lane;
    }
  }

  /** The stages seen are the required ones. */
  method StagesMatch(gate: Gate, reports: seq<Report>) returns (ok: bool)
    ensures ok <==> StagesKnown(gate, reports) && StagesRan(gate, reports)
  {
    for i := 0 to |reports|
      invariant forall j :: 0 <= j < i ==> Members(StagesOf(reports[j].results)) <= gate.requiredStages
    {
      if !(Members(StagesOf(reports[i].results)) <= gate.requiredStages) {
        return false;
      }
    }
    var pending := gate.requiredStages;
    while pending != {}
      invariant pending <= gate.requiredStages
      invariant forall stage :: stage in gate.requiredStages && stage !in pending ==> RanAsRequired(reports, stage)
      decreases pending
    {
      var stage :| stage in pending;
      if !RanAsRequired(reports, stage) {
        return false;
      }
      pending := pending - {stage};
    }
    return true;
  }

  /** The comparison for one stage, once its scenarios are known. */
  method StageCompared(gate: Gate, reports: seq<Report>, stage: Option<nat>, expected: seq<string>) returns (ok: bool)
    requires StageOf(gate.productLanes, stage) && expected == Selection(gate.manifest, gate.productLanes, stage)
    ensures ok <==> CoversProduct(gate, reports, stage)
  {
    var runs := Runs(reports, StageName(gate, stage));
    if |runs| == 0 || runs[0].result.command.None? {
      return false;
    }
    return Reported(runs[0].result.command.value) == Some(expected);
  }

  /** Whether the configuration fits is the same for every stage. */
  method ProductCovered(gate: Gate, reports: seq<Report>, stage: Option<nat>, ghost fits: bool, ghost covers: bool)
    returns (ok: bool)
    requires StageOf(gate.productLanes, stage) && fits == Fits(gate.manifest, gate.productLanes)
    requires covers == CoversProduct(gate, reports, stage)
    ensures ok == (fits && covers)
  {
    var expected := ProductPartition(gate.manifest, gate.productLanes, stage);
    if expected.Failure? {
      return false;
    }
    ok := StageCompared(gate, reports, stage, expected.value);
  }

  /** `fits` and `covers` stand for the two halves of what is compared. */
  ghost predicate Stands(gate: Gate, reports: seq<Report>, fits: bool, covers: nat -> bool) {
    && fits == Fits(gate.manifest, gate.productLanes)
    && forall j: nat {:trigger StageAt(j)} :: j <= |gate.productLanes| ==>
         covers(j) == CoversProduct(gate, reports, StageAt(j))
  }

  method StageChecked(gate: Gate, reports: seq<Report>, j: nat, ghost fits: bool, ghost covers: nat -> bool)
    returns (ok: bool)
    requires j <= |gate.productLanes| && Stands(gate, reports, fits, covers)
    ensures ok == (fits && covers(j))
  {
    ok := ProductCovered(gate, reports, StageAt(j), fits, covers(j));
  }

  method ProductsCovered(gate: Gate, reports: seq<Report>) returns (ok: bool)
    ensures ok <==> ProductProven(gate, reports)
  {
    ghost var fits := Fits(gate.manifest, gate.productLanes);
    ghost var covers := (j: nat) => j <= |gate.productLanes| && CoversProduct(gate, reports, StageAt(j));
    ok := StagesCovered(gate, reports, fits, covers);
    assert AllCovered(gate, reports) <==> forall j: nat :: j <= |gate.productLanes| ==> covers(j);
  }

  method StagesCovered(gate: Gate, reports: seq<Report>, ghost fits: bool, ghost covers: nat -> bool) returns (ok: bool)
    requires Stands(gate, reports, fits, covers)
    ensures ok <==> fits && forall j: nat :: j <= |gate.productLanes| ==> covers(j)
  {
    for i := 0 to |gate.productLanes| + 1
      invariant i > 0 ==> fits
      invariant forall j: nat :: j < i ==> covers(j)
    {
      ok := StageChecked(gate, reports, i, fits, covers);
      if !ok {
        return;
      }
    }
    return true;
  }

  /** `aggregate_reports`: accepts exactly the report sets that prove eligibility. */
  method AggregateReports(gate: Gate, identity: string, reports: seq<Report>) returns (accepted: bool)
    ensures accepted <==>
              && |reports| == |gate.requiredLanes| && Proven(gate, identity, reports)
              && |Runs(reports, SMOKE_STAGE)| > 0 && Runs(reports, SMOKE_STAGE)[0].result.webview2 == "required-passed"
  {
    if |reports| != |gate.requiredLanes| {
      return false;
    }
    var ok, lanes := ReadReports(gate, identity, reports);
    if ok && ReportsFrom(Members(gate.requiredLanes), reports) {
      SameLanes(lanes, Members(gate.requiredLanes), reports);
    }
    if !ok || lanes != Members(gate.requiredLanes) {
      return false;
    }
    ok := StagesMatch(gate, reports);
    if !ok {
      return false;
    }
    ok := ProductsCovered(gate, reports);
    if !ok {
      return false;
    }
    if LanesOf(Runs(reports, RACE_STAGE)) != gate.raceLanes {
      return false;
    }
    var smoke := Runs(reports, SMOKE_STAGE);
    return |smoke| > 0 && smoke[0].result.webview2 == "required-passed";
  }

  /** The product stages are required ones and none is the race, as the constants of the gate have it. */
  ghost predicate ProductStagesRequired(gate: Gate) {
    forall stage :: StageOf(gate.productLanes, stage) ==>
      StageName(gate, stage) in gate.requiredStages && StageName(gate, stage) != RACE_STAGE
  }

  /** Run `r` selected scenario `x`. */
  ghost predicate Names(r: Run, x: string) {
    && r.result.command.Some? && Reported(r.result.command.value).Some?
    && x in Reported(r.result.command.value).value
  }

  lemma {:induction false} StageCovered(gate: Gate, reports: seq<Report>, stage: Option<nat>)
    requires AllCovered(gate, reports) && StageOf(gate.productLanes, stage)
    ensures CoversProduct(gate, reports, stage)
  {
    var j: nat := if stage.None? then 0 else stage.value + 1;
    assert StageAt(j) == stage;
  }

  /** The one run of a product stage names exactly what the partition gives the stage. */
  lemma {:induction false} StageRunsOnce(gate: Gate, reports: seq<Report>, stage: Option<nat>) returns (run: Run)
    requires StagesRan(gate, reports) && ProductProven(gate, reports) && ProductStagesRequired(gate)
    requires StageOf(gate.productLanes, stage)
    ensures Runs(reports, StageName(gate, stage)) == [run]
    ensures run.result.command.Some?
    ensures Reported(run.result.command.value) == Some(Selection(gate.manifest, gate.productLanes, stage))
  {
    StageCovered(gate, reports, stage);
    assert RanAsRequired(reports, StageName(gate, stage));
    run := Runs(reports, StageName(gate, stage))[0];
  }

  lemma {:induction false} OnlyRun(gate: Gate, reports: seq<Report>, x: string, stage: Option<nat>, run: Run,
                                   other: Option<nat>, r: Run)
    requires StagesRan(gate, reports) && ProductProven(gate, reports) && ProductStagesRequired(gate)
    requires StageOf(gate.productLanes, stage) && Runs(reports, StageName(gate, stage)) == [run]
    requires StageOf(gate.productLanes, other) && r in Runs(reports, StageName(gate, other)) && Names(r, x)
    requires x in Selection(gate.manifest, gate.productLanes, other) ==> other == stage
    ensures other == stage && r == run
  {
    var only := StageRunsOnce(gate, reports, other);
    assert r == only;
  }

  /** So in an accepted release every scenario of the manifest was selected by exactly one of all reported E2E
      runs, once there, and that run passed. */
  lemma {:induction false} EveryScenarioRan(gate: Gate, identity: string, reports: seq<Report>, x: string)
    returns (stage: Option<nat>, run: Run)
    requires Proven(gate, identity, reports) && ProductStagesRequired(gate) && x in gate.manifest
    ensures StageOf(gate.productLanes, stage) && run in Runs(reports, StageName(gate, stage))
    ensures Names(run, x) && NoDuplicates(Reported(run.result.command.value).value)
    ensures run.result.returncode == 0
    ensures forall other, r ::
              && StageOf(gate.productLanes, other) && r in Runs(reports, StageName(gate, other)) && Names(r, x)
              ==> other == stage && r == run
  {
    stage := SelectedOnce(gate.manifest, gate.productLanes, x);
    run := StageRunsOnce(gate, reports, stage);
    RunsPassed(gate, identity, reports, StageName(gate, stage), run);
    forall other, r | StageOf(gate.productLanes, other) && r in Runs(reports, StageName(gate, other)) && Names(r, x)
      ensures other == stage && r == run
    {
      OnlyRun(gate, reports, x, stage, run, other, r);
    }
  }

  /** One result of one report. */
  datatype Place = Place(report: nat, result: nat)

  ghost predicate Before(a: Place, b: Place) {
    a.report < b.report || (a.report == b.report && a.result < b.result)
  }

  /** The place holds a result of the stage. */
  ghost predicate Holds(reports: seq<Report>, stage: string, p: Place) {
    && p.report < |reports| && p.result < |reports[p.report].results|
    && reports[p.report].results[p.result].stage == stage
  }

  /** Where the runs of a stage stand within report `r`, and over all reports. */
  function PlacesIn(r: nat, lane: string, results: seq<StageResult>, stage: string): (at: seq<Place>)
    ensures |at| == |RunsIn(lane, results, stage)|
  {
    if results == [] then []
    else
      var n := |results| - 1;
      PlacesIn(r, lane, results[..n], stage) + (if results[n].stage == stage then [Place(r, n)] else [])
  }

  function PlacesOf(reports: seq<Report>, stage: string): (at: seq<Place>)
    ensures |at| == |Runs(reports, stage)|
  {
    if reports == [] then []
    else
      var n := |reports| - 1;
      PlacesOf(reports[..n], stage) + PlacesIn(n, reports[n].lane, reports[n].results, stage)
  }

  lemma {:induction false} PlaceInAt(r: nat, lane: string, results: seq<StageResult>, stage: string, i: nat)
    requires i < |PlacesIn(r, lane, results, stage)|
    ensures var p := PlacesIn(r, lane, results, stage)[i];
            && p.report == r && p.result < |results| && results[p.result].stage == stage
            && RunsIn(lane, results, stage)[i] == Run(lane, results[p.result])
  {
    var init := results[..|results| - 1];
    if i < |PlacesIn(r, lane, init, stage)| { PlaceInAt(r, lane, init, stage, i); }
  }

  lemma {:induction false} PlacesInAscend(r: nat, lane: string, results: seq<StageResult>, stage: string,
                                          i: nat, j: nat)
    requires i < j < |PlacesIn(r, lane, results, stage)|
    ensures PlacesIn(r, lane, results, stage)[i].result < PlacesIn(r, lane, results, stage)[j].result
  {
    var init := results[..|results| - 1];
    if j < |PlacesIn(r, lane, init, stage)| {
      PlacesInAscend(r, lane, init, stage, i, j);
    } else {
      PlaceInAt(r, lane, init, stage, i);
    }
  }

  lemma {:induction false} PlaceInFound(r: nat, lane: string, results: seq<StageResult>, stage: string, k: nat)
    returns (i: nat)
    requires k < |results| && results[k].stage == stage
    ensures i < |PlacesIn(r, lane, results, stage)| && PlacesIn(r, lane, results, stage)[i] == Place(r, k)
  {
    var init := results[..|results| - 1];
    if k < |results| - 1 {
      i := PlaceInFound(r, lane, init, stage, k);
    } else {
      i := |PlacesIn(r, lane, init, stage)|;
    }
  }

  lemma {:induction false} PlaceAt(reports: seq<Report>, stage: string, i: nat)
    requires i < |PlacesOf(reports, stage)|
    ensures var p := PlacesOf(reports, stage)[i];
            && Holds(reports, stage, p)
            && Runs(reports, stage)[i] == Run(reports[p.report].lane, reports[p.report].results[p.result])
  {
    var n := |reports| - 1;
    var before := |PlacesOf(reports[..n], stage)|;
    if i < before {
      PlaceAt(reports[..n], stage, i);
    } else {
      PlaceInAt(n, reports[n].lane, reports[n].results, stage, i - before);
    }
  }

  lemma {:induction false} PlacesAscend(reports: seq<Report>, stage: string, i: nat, j: nat)
    requires i < j < |PlacesOf(reports, stage)|
    ensures Before(PlacesOf(reports, stage)[i], PlacesOf(reports, stage)[j])
  {
    var n := |reports| - 1;
    var before := |PlacesOf(reports[..n], stage)|;
    if j < before {
      PlacesAscend(reports[..n], stage, i, j);
    } else {
      PlaceInAt(n, reports[n].lane, reports[n].results, stage, j - before);
      if i < before {
        PlaceAt(reports[..n], stage, i);
      } else {
        PlaceInAt(n, reports[n].lane, reports[n].results, stage, i - before);
        PlacesInAscend(n, reports[n].lane, reports[n].results, stage, i - before, j - before);
      }
    }
  }

  lemma {:induction false} PlaceFound(reports: seq<Report>, stage: string, p: Place) returns (i: nat)
    requires Holds(reports, stage, p)
    ensures i < |PlacesOf(reports, stage)| && PlacesOf(reports, stage)[i] == p
  {
    var n := |reports| - 1;
    if p.report < n {
      i := PlaceFound(reports[..n], stage, p);
    } else {
      i := PlaceInFound(n, reports[n].lane, reports[n].results, stage, p.result);
      i := i + |PlacesOf(reports[..n], stage)|;
    }
  }

  /** The runs of a stage are its results in all reports, each once and in order. */
  lemma {:induction false} RunsMean(reports: seq<Report>, stage: string) returns (at: seq<Place>)
    ensures at == PlacesOf(reports, stage) && |at| == |Runs(reports, stage)|
    ensures forall i, j :: 0 <= i < j < |at| ==> Before(at[i], at[j])
    ensures forall i :: 0 <= i < |at| ==>
              && Holds(reports, stage, at[i])
              && Runs(reports, stage)[i] == Run(reports[at[i].report].lane, reports[at[i].report].results[at[i].result])
    ensures forall p :: Holds(reports, stage, p) ==> p in at
  {
    at := PlacesOf(reports, stage);
    forall i, j | 0 <= i < j < |at| ensures Before(at[i], at[j]) {
      PlacesAscend(reports, stage, i, j);
    }
    forall i | 0 <= i < |at|
      ensures Holds(reports, stage, at[i])
      ensures Runs(reports, stage)[i] == Run(reports[at[i].report].lane, reports[at[i].report].results[at[i].result])
    {
      PlaceAt(reports, stage, i);
    }
    forall p | Holds(reports, stage, p) ensures p in at {
      var i := PlaceFound(reports, stage, p);
    }
  }

  /** In terms of the reports alone: in an accepted release every required stage but the race has exactly one result,
      which passed under the one identity. */
  lemma {:induction false} EveryStageOnce(gate: Gate, identity: string, reports: seq<Report>, stage: string)
    returns (p: Place)
    requires Proven(gate, identity, reports) && stage in gate.requiredStages && stage != "go-race"
    ensures Holds(reports, stage, p) && forall other :: Holds(reports, stage, other) ==> other == p
    ensures reports[p.report].identity == identity && reports[p.report].results[p.result].returncode == 0
  {
    assert RanAsRequired(reports, stage);
    var at := RunsMean(reports, stage);
    p := at[0];
    assert Passes(gate, identity, reports[p.report]);
  }

  /** And the race has exactly one result for each race lane, in order. */
  lemma {:induction false} EveryRaceLane(gate: Gate, identity: string, reports: seq<Report>) returns (at: seq<Place>)
    requires Proven(gate, identity, reports)
    ensures |at| == |gate.raceLanes| && forall p :: Holds(reports, "go-race", p) ==> p in at
    ensures forall i :: 0 <= i < |at| ==>
              Holds(reports, "go-race", at[i]) && reports[at[i].report].lane == gate.raceLanes[i]
  {
    at := RunsMean(reports, "go-race");
    var lanes := LanesOf(Runs(reports, RACE_STAGE));
    assert lanes == gate.raceLanes;
  }

  /** The place holds a result of a product stage: the default one, or one of the lanes'. */
  ghost predicate IsProduct(gate: Gate, reports: seq<Report>, p: Place) {
    && p.report < |reports| && p.result < |reports[p.report].results|
    && var stage := reports[p.report].results[p.result].stage;
       stage == "product-e2e" || exists i :: 0 <= i < |gate.productLanes| && gate.productLanes[i].stage == stage
  }

  ghost predicate NamedAt(reports: seq<Report>, p: Place, x: string)
    requires p.report < |reports| && p.result < |reports[p.report].results|
  {
    Names(Run("", reports[p.report].results[p.result]), x)
  }

  /** In terms of the reports alone: in an accepted release each scenario is named by exactly one result of a product
      stage, which passed. */
  lemma {:induction false} EveryScenarioOnce(gate: Gate, identity: string, reports: seq<Report>, x: string)
    returns (p: Place)
    requires Proven(gate, identity, reports) && ProductStagesRequired(gate) && x in gate.manifest
    ensures IsProduct(gate, reports, p) && NamedAt(reports, p, x)
    ensures reports[p.report].identity == identity && reports[p.report].results[p.result].returncode == 0
    ensures forall other :: IsProduct(gate, reports, other) && NamedAt(reports, other, x) ==> other == p
  {
    var stage, run := EveryScenarioRan(gate, identity, reports, x);
    var at := RunsMean(reports, StageName(gate, stage));
    var _ := StageRunsOnce(gate, reports, stage);
    p := at[0];
    assert Passes(gate, identity, reports[p.report]);
    forall other | IsProduct(gate, reports, other) && NamedAt(reports, other, x) ensures other == p {
      OnlyPlace(gate, reports, x, stage, run, at, other);
    }
  }

  /** The run of a product result is among the runs of its stage. */
  lemma {:induction false} ProductRun(gate: Gate, reports: seq<Report>, p: Place) returns (o: Option<nat>, r: Run)
    requires IsProduct(gate, reports, p)
    ensures StageOf(gate.productLanes, o) && Holds(reports, StageName(gate, o), p)
    ensures r in Runs(reports, StageName(gate, o)) && r.result == reports[p.report].results[p.result]
  {
    var name := reports[p.report].results[p.result].stage;
    o := None;
    if name != "product-e2e" {
      var i :| 0 <= i < |gate.productLanes| && gate.productLanes[i].stage == name;
      o := Some(i);
    }
    assert StageName(gate, o) == name;
    var i := PlaceFound(reports, name, p);
    PlaceAt(reports, name, i);
    r := Runs(reports, name)[i];
  }

  lemma {:induction false} OnlyPlace(gate: Gate, reports: seq<Report>, x: string, stage: Option<nat>, run: Run,
                                     at: seq<Place>, other: Place)
    requires IsProduct(gate, reports, other) && NamedAt(reports, other, x)
    requires StageOf(gate.productLanes, stage) && |at| == 1
    requires forall p :: Holds(reports, StageName(gate, stage), p) ==> p in at
    requires forall o, r ::
               && StageOf(gate.productLanes, o) && r in Runs(reports, StageName(gate, o)) && Names(r, x)
               ==> o == stage
    ensures other == at[0]
  {
    var o, r := ProductRun(gate, reports, other);
    assert Names(r, x);
    assert o == stage && other in at;
  }

  lemma {:induction false} RunsPassed(gate: Gate, identity: string, reports: seq<Report>, stage: string, run: Run)
    requires forall i :: 0 <= i < |reports| ==> Passes(gate, identity, reports[i])
    requires run in Runs(reports, stage)
    ensures run.result.returncode == 0 && run.result.stage == stage
  {
    var last := reports[|reports| - 1];
    if run in RunsIn(last.lane, last.results, stage) {
      RunsInMember(last.lane, last.results, stage, run);
    } else {
      RunsPassed(gate, identity, reports[..|reports| - 1], stage, run);
    }
  }

  lemma {:induction false} RunsInMember(lane: string, results: seq<StageResult>, stage: string, run: Run)
    requires run in RunsIn(lane, results, stage)
    ensures run.lane == lane && run.result in results && run.result.stage == stage
  {
    var init := results[..|results| - 1];
    if run in RunsIn(lane, init, stage) {
      RunsInMember(lane, init, stage, run);
    }
  }
}
