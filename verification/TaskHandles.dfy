/** The table of running executions (`HostExecutionRuntime` in `backend/application/task_runtime.py`) as a
    state machine: `start`, the life of each execution and any number of concurrent `settle_export_grant`
    calls interleave freely.

    Executions are numbered in the order in which they are started. `terminals[n]` counts the terminal
    statuses reported for execution `n`. */
module TaskHandles {
  import opened Common

  /** An execution: its coroutine has not begun; is running; has handed its terminal status to the sink
      but not yet removed its handle; is over. */
  datatype Phase = NotBegun | Executing | Reporting | Ended

  datatype Start = Start(task: string, grant: Option<string>)

  /** What a settling call still has to join: task ids with the executions it saw under them. */
  datatype Captured = Captured(task: string, execution: nat)

  datatype State = State(starts: seq<Start>, phases: seq<Phase>, terminals: seq<nat>,
                         handles: map<string, nat>, settlers: seq<seq<Captured>>)

  datatype Event =
    | Starts(start: Start)
    | Begins(n: nat)
    | Reports(n: nat)
    | Finishes(n: nat)
    | Crashes(n: nat)
    | EndsUnbegun(n: nat)
    | Settles(grant: string, captured: seq<Captured>)
    | Resumes(k: nat)
    | Abandons(k: nat)

  const INITIAL: State := State([], [], [], map[], [])

  ghost predicate WellFormed(s: State) {
    && |s.starts| == |s.phases| == |s.terminals|
    && (forall t :: t in s.handles ==> s.handles[t] < |s.starts|)
    && (forall k, i :: 0 <= k < |s.settlers| && 0 <= i < |s.settlers[k]| ==> s.settlers[k][i].execution < |s.starts|)
  }

  /** The captured list names exactly the handles of the grant, each once. */
  ghost predicate Matches(s: State, grant: string, captured: seq<Captured>)
    requires WellFormed(s)
  {
    && NoDuplicates(captured)
    && forall c :: c in captured <==>
         c.task in s.handles && c.execution == s.handles[c.task] && s.starts[c.execution].grant == Some(grant)
  }

  ghost predicate Enabled(s: State, e: Event)
    requires WellFormed(s)
  {
    match e
    case Starts(start) => start.task !in s.handles
    case Begins(n) => n < |s.phases| && s.phases[n] == NotBegun
    case Reports(n) => n < |s.phases| && s.phases[n] == Executing
    case Finishes(n) => n < |s.phases| && s.phases[n] == Reporting
    case Crashes(n) => n < |s.phases| && s.phases[n] == Executing
    case EndsUnbegun(n) => n < |s.phases| && s.phases[n] == NotBegun
    case Settles(grant, captured) => Matches(s, grant, captured)
    case Resumes(k) => k < |s.settlers| && s.settlers[k] != [] && s.phases[s.settlers[k][0].execution] == Ended
    case Abandons(k) => k < |s.settlers|
  }

  function Without(m: map<string, nat>, t: string): map<string, nat> {
    m - {t}
  }

  /** Every removal of a handle is by task id, whichever execution it belongs to. */
  ghost function Apply(s: State, e: Event): State
    requires WellFormed(s) && Enabled(s, e)
  {
    match e
    case Starts(start) =>
      State(s.starts + [start], s.phases + [NotBegun], s.terminals + [0],
            s.handles[start.task := |s.starts|], s.settlers)
    case Begins(n) => s.(phases := s.phases[n := Executing])
    case Reports(n) =>
      s.(phases := s.phases[n := Reporting], terminals := s.terminals[n := s.terminals[n] + 1])
    case Finishes(n) =>
      s.(phases := s.phases[n := Ended], handles := Without(s.handles, s.starts[n].task))
    case Crashes(n) => s.(phases := s.phases[n := Ended])
    case EndsUnbegun(n) => s.(phases := s.phases[n := Ended])
    case Settles(grant, captured) => s.(settlers := s.settlers + [captured])
    case Resumes(k) =>
      var task := s.settlers[k][0].task;
      var rest := s.settlers[k := s.settlers[k][1..]];
      if task in s.handles then
        var n := s.handles[task];
        s.(handles := Without(s.handles, task), terminals := s.terminals[n := s.terminals[n] + 1], settlers := rest)
      else s.(settlers := rest)
    case Abandons(k) => s.(settlers := s.settlers[k := []])
  }

  lemma ApplyWellFormed(s: State, e: Event)
    requires WellFormed(s) && Enabled(s, e)
    ensures WellFormed(Apply(s, e))
  {
  }

  /** Some settling call still has to join an execution it saw under `task`. */
  ghost predicate IsCaptured(s: State, task: string) {
    exists k, i :: 0 <= k < |s.settlers| && 0 <= i < |s.settlers[k]| && s.settlers[k][i].task == task
  }

  /** The caller's side of the bargain: an id is not reused while a settling call still holds it. */
  ghost predicate Fresh(s: State, e: Event) {
    e.Starts? ==> !IsCaptured(s, e.start.task)
  }

  // ---------------------------------------------------------------- at most one terminal status

  ghost predicate Inv(s: State) {
    && WellFormed(s)
    && (forall t :: t in s.handles ==> s.starts[s.handles[t]].task == t)
    && (forall n :: 0 <= n < |s.starts| ==> Accounted(s, n))
    && (forall k, i :: 0 <= k < |s.settlers| && 0 <= i < |s.settlers[k]| ==> HoldsOwn(s, s.settlers[k][i]))
  }

  /** A live execution owns its handle, and only an unreported one still has it. */
  ghost predicate Accounted(s: State, n: nat)
    requires WellFormed(s) && n < |s.starts|
  {
    var owns := s.starts[n].task in s.handles && s.handles[s.starts[n].task] == n;
    match s.phases[n]
    case NotBegun => owns && s.terminals[n] == 0
    case Executing => owns && s.terminals[n] == 0
    case Reporting => owns && s.terminals[n] == 1
    case Ended => if owns then s.terminals[n] == 0 else s.terminals[n] == 1
  }

  ghost predicate HoldsOwn(s: State, c: Captured)
    requires WellFormed(s) && c.execution < |s.starts|
  {
    && s.starts[c.execution].task == c.task
    && (c.task in s.handles ==> s.handles[c.task] == c.execution)
  }

  lemma StepAccounts(s: State, e: Event, n: nat)
    requires Inv(s) && Enabled(s, e) && WellFormed(Apply(s, e)) && n < |Apply(s, e).starts|
    ensures Accounted(Apply(s, e), n)
  {
    if n < |s.starts| {
      assert Accounted(s, n);
      if e.Resumes? {
        assert HoldsOwn(s, s.settlers[e.k][0]);
      } else if e.Finishes? {
        assert Accounted(s, e.n);
      }
    }
  }

  lemma StepHolds(s: State, e: Event, k: nat, i: nat)
    requires Inv(s) && Enabled(s, e) && Fresh(s, e) && WellFormed(Apply(s, e))
    requires k < |Apply(s, e).settlers| && i < |Apply(s, e).settlers[k]|
    ensures HoldsOwn(Apply(s, e), Apply(s, e).settlers[k][i])
  {
    if e.Settles? && k == |s.settlers| {
      assert e.captured[i] in e.captured;
    } else {
      assert HoldsOwn(s, s.settlers[k][if e.Resumes? && e.k == k then i + 1 else i]);
    }
  }

  lemma StepKeepsInv(s: State, e: Event)
    requires Inv(s) && Enabled(s, e) && Fresh(s, e)
    ensures Inv(Apply(s, e))
  {
    ApplyWellFormed(s, e);
    var s' := Apply(s, e);
    forall n | 0 <= n < |s'.starts| ensures Accounted(s', n) {
      StepAccounts(s, e, n);
    }
    forall k, i | 0 <= k < |s'.settlers| && 0 <= i < |s'.settlers[k]| ensures HoldsOwn(s', s'.settlers[k][i]) {
      StepHolds(s, e, k, i);
    }
  }

  // ---------------------------------------------------------------- runs

  /** The events can happen one after the other, starting in `s`. */
  ghost predicate Possible(s: State, events: seq<Event>)
    decreases |events|
  {
    && WellFormed(s)
    && (events != [] ==>
          Enabled(s, events[0]) && Possible(Apply(s, events[0]), events[1..]))
  }

  ghost function After(s: State, events: seq<Event>): State
    requires Possible(s, events)
    decreases |events|
  {
    if events == [] then s else After(Apply(s, events[0]), events[1..])
  }

  /** Every start finds its task id held by no settling call. */
  ghost predicate AllFresh(s: State, events: seq<Event>)
    requires Possible(s, events)
    decreases |events|
  {
    events != [] ==> Fresh(s, events[0]) && AllFresh(Apply(s, events[0]), events[1..])
  }

  lemma {:induction false} RunKeepsInv(s: State, events: seq<Event>)
    requires Inv(s) && Possible(s, events) && AllFresh(s, events)
    ensures Inv(After(s, events))
    decreases |events|
  {
    if events != [] {
      StepKeepsInv(s, events[0]);
      RunKeepsInv(Apply(s, events[0]), events[1..]);
    }
  }

  /** Over every run that reuses no id a settling call still holds, no execution gets two terminal
      statuses; one that has ended and released its handle has exactly one. */
  lemma AtMostOneTerminal(events: seq<Event>, n: nat)
    requires Possible(INITIAL, events) && AllFresh(INITIAL, events)
    requires n < |After(INITIAL, events).starts|
    ensures Inv(After(INITIAL, events))
    ensures var s := After(INITIAL, events);
            && s.terminals[n] <= 1
            && (s.phases[n].Ended? && s.starts[n].task !in s.handles ==> s.terminals[n] == 1)
  {
    assert Inv(INITIAL);
    RunKeepsInv(INITIAL, events);
    assert Accounted(After(INITIAL, events), n);
  }

  // ---------------------------------------------------------------- the condition is necessary

  /** A freshly started execution `n` whose id a settling call `k` will reach after `i` other joins. */
  ghost predicate Doomed(s: State, n: nat, k: nat, i: nat) {
    && WellFormed(s) && n < |s.starts| && k < |s.settlers| && i < |s.settlers[k]|
    && s.phases[n].NotBegun? && s.terminals[n] == 0
    && s.starts[n].task in s.handles && s.handles[s.starts[n].task] == n
    && s.settlers[k][i].task == s.starts[n].task && s.phases[s.settlers[k][i].execution].Ended?
    && (forall t :: t in s.handles ==> s.starts[s.handles[t]].task == t)
    && (forall j :: 0 <= j < i ==>
          && s.starts[s.settlers[k][j].execution].task == s.settlers[k][j].task
          && s.settlers[k][j].task != s.starts[n].task)
  }

  ghost predicate NoStarts(events: seq<Event>) {
    forall e :: e in events ==> !e.Starts?
  }

  lemma {:induction false} NoStartsFresh(s: State, events: seq<Event>)
    requires Possible(s, events) && NoStarts(events)
    ensures AllFresh(s, events)
    decreases |events|
  {
    if events != [] {
      assert events[0] in events;
      NoStartsFresh(Apply(s, events[0]), events[1..]);
    }
  }

  lemma OneEvent(s: State, e: Event, rest: seq<Event>)
    requires WellFormed(s) && Enabled(s, e) && Possible(Apply(s, e), rest)
    ensures Possible(s, [e] + rest) && After(s, [e] + rest) == After(Apply(s, e), rest)
  {
    assert ([e] + rest)[1..] == rest;
  }

  /** The next event of an execution the settling call has cancelled and is waiting for. */
  function EndingEvent(phase: Phase, n: nat): Event {
    match phase
    case NotBegun => EndsUnbegun(n)
    case Executing => Reports(n)
    case _ => Finishes(n)
  }

  /** How many events it is away from its end. */
  function Distance(phase: Phase): nat {
    match phase
    case NotBegun => 1
    case Executing => 2
    case Reporting => 1
    case Ended => 0
  }

  lemma {:induction false} DoomedGetsTwo(s: State, n: nat, k: nat, i: nat) returns (events: seq<Event>)
    requires Doomed(s, n, k, i)
    ensures Possible(s, events)
    ensures n < |After(s, events).terminals| && After(s, events).terminals[n] == 2
    ensures NoStarts(events)
    decreases i, Distance(s.phases[s.settlers[k][0].execution])
  {
    if i == 0 {
      var s1 := Apply(s, Resumes(k));
      var s2 := Apply(s1, Begins(n));
      OneEvent(s2, Reports(n), []);
      OneEvent(s1, Begins(n), [Reports(n)]);
      OneEvent(s, Resumes(k), [Begins(n)] + [Reports(n)]);
      events := [Resumes(k)] + ([Begins(n)] + [Reports(n)]);
    } else {
      var c := s.settlers[k][0];
      var e := if s.phases[c.execution].Ended? then Resumes(k) else EndingEvent(s.phases[c.execution], c.execution);
      ApplyWellFormed(s, e);
      var i' := if e.Resumes? then i - 1 else i;
      DoomedStep(s, n, k, i, e);
      var rest := DoomedGetsTwo(Apply(s, e), n, k, i');
      OneEvent(s, e, rest);
      events := [e] + rest;
    }
  }

  lemma DoomedStep(s: State, n: nat, k: nat, i: nat, e: Event)
    requires Doomed(s, n, k, i) && i > 0
    requires var c := s.settlers[k][0];
             e == if s.phases[c.execution].Ended? then Resumes(k) else EndingEvent(s.phases[c.execution], c.execution)
    ensures Enabled(s, e)
    ensures Doomed(Apply(s, e), n, k, if e.Resumes? then i - 1 else i)
  {
    var c, s' := s.settlers[k][0], Apply(s, e);
    ApplyWellFormed(s, e);
    assert c.task != s.starts[n].task;
    forall j | 0 <= j < (if e.Resumes? then i - 1 else i)
      ensures s'.starts[s'.settlers[k][j].execution].task == s'.settlers[k][j].task
      ensures s'.settlers[k][j].task != s'.starts[n].task
    {
      assert s'.settlers[k][j] == s.settlers[k][if e.Resumes? then j + 1 else j];
    }
  }

  lemma {:induction false} FirstHeld(captured: seq<Captured>, task: string, i: nat) returns (j: nat)
    requires i < |captured| && captured[i].task == task
    ensures j <= i && captured[j].task == task
    ensures forall h :: 0 <= h < j ==> captured[h].task != task
  {
    if h :| 0 <= h < i && captured[h].task == task {
      j := FirstHeld(captured, task, h);
    } else {
      j := i;
    }
  }

  lemma StartIsDoomed(s: State, start: Start, k: nat, i: nat)
    requires Inv(s) && Enabled(s, Starts(start)) && k < |s.settlers| && i < |s.settlers[k]|
    requires s.settlers[k][i].task == start.task
    requires forall h :: 0 <= h < i ==> s.settlers[k][h].task != start.task
    ensures Doomed(Apply(s, Starts(start)), |s.starts|, k, i)
  {
    ApplyWellFormed(s, Starts(start));
    assert HoldsOwn(s, s.settlers[k][i]) && Accounted(s, s.settlers[k][i].execution);
    forall j | 0 <= j < i ensures HoldsOwn(s, s.settlers[k][j]) {
    }
  }

  /** The converse: from any reachable state, starting an id that some settling call still holds can end
      in two terminal statuses for the execution just started. */
  lemma ReuseGetsTwo(s: State, start: Start) returns (events: seq<Event>)
    requires Inv(s) && Enabled(s, Starts(start)) && IsCaptured(s, start.task)
    ensures Possible(s, [Starts(start)] + events)
    ensures |s.starts| < |After(s, [Starts(start)] + events).terminals|
    ensures After(s, [Starts(start)] + events).terminals[|s.starts|] == 2
    ensures Possible(Apply(s, Starts(start)), events) && NoStarts(events)
    ensures After(s, [Starts(start)] + events) == After(Apply(s, Starts(start)), events)
  {
    var k, i :| 0 <= k < |s.settlers| && 0 <= i < |s.settlers[k]| && s.settlers[k][i].task == start.task;
    var j := FirstHeld(s.settlers[k], start.task, i);
    StartIsDoomed(s, start, k, j);
    events := DoomedGetsTwo(Apply(s, Starts(start)), |s.starts|, k, j);
    OneEvent(s, Starts(start), events);
  }

  /** After starting `start` in `s`, no later events give that execution two terminal statuses, as long as
      they reuse no id that is still held. */
  ghost predicate SafeToStart(s: State, start: Start)
    requires WellFormed(s) && Enabled(s, Starts(start))
  {
    forall events :: Possible(Apply(s, Starts(start)), events) && AllFresh(Apply(s, Starts(start)), events) ==>
      var s' := After(Apply(s, Starts(start)), events);
      |s.starts| < |s'.terminals| && s'.terminals[|s.starts|] <= 1
  }

  lemma {:induction false} RunKeepsStarts(s: State, events: seq<Event>)
    requires Possible(s, events)
    ensures |s.starts| <= |After(s, events).starts|
    decreases |events|
  {
    if events != [] {
      RunKeepsStarts(Apply(s, events[0]), events[1..]);
    }
  }

  /** Exactly when `start` keeps its promise of one terminal status: when no settling call still holds the
      task id. */
  lemma SafeToStartExactly(s: State, start: Start)
    requires Inv(s) && Enabled(s, Starts(start))
    ensures SafeToStart(s, start) <==> !IsCaptured(s, start.task)
  {
    var s1 := Apply(s, Starts(start));
    if IsCaptured(s, start.task) {
      var events := ReuseGetsTwo(s, start);
      NoStartsFresh(s1, events);
    } else {
      StepKeepsInv(s, Starts(start));
      forall events | Possible(s1, events) && AllFresh(s1, events)
        ensures |s.starts| < |After(s1, events).terminals| && After(s1, events).terminals[|s.starts|] <= 1
      {
        RunKeepsInv(s1, events);
        RunKeepsStarts(s1, events);
        assert Accounted(After(s1, events), |s.starts|);
      }
    }
  }
}
