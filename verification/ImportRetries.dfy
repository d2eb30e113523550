/** Any number of apply attempts on one import token: the idempotency prefix the plan owner binds on first
    use (`bind` in `sidecar/internal/app/import_plan_rpc.go`) makes every submission carry one key, so an
    authority that deduplicates by key writes the rows at most once. */
module ImportRetries {
  import opened Common
  import opened ImportApply

  /** The owner's bound prefix, every key submitted so far, and one entry per time rows were written. */
  datatype State = State(bound: Option<string>, submitted: seq<string>, written: seq<string>)

  /** An attempt ends, or the authority works off a request it received earlier, however late. In an
      attempt, `bindLands` and `submitLands` say whether those requests took effect, whatever came back. */
  datatype Event =
    | Attempts(p: Params, w: World, bindLands: bool, submitLands: bool)
    | Delivers(key: string)

  const INITIAL: State := State(None, [], [])

  /** The owner binds on first use and never swaps the prefix. */
  function BoundAfter(s: State, e: Event): Option<string>
    requires e.Attempts?
  {
    if e.bindLands && s.bound.None? && BindPrefix(Prefix(e.p)) in Applied(e.p, e.w).calls then Some(Prefix(e.p))
    else s.bound
  }

  /** The authority writes the rows of a key at most once. */
  function Write(written: seq<string>, key: string): seq<string> {
    if key in written then written else written + [key]
  }

  function Apply(s: State, e: Event): State {
    match e
    case Attempts(p, w, _, submitLands) =>
      if Submit(Key(p)) in Applied(p, w).calls then
        State(BoundAfter(s, e), s.submitted + [Key(p)], if submitLands then Write(s.written, Key(p)) else s.written)
      else s.(bound := BoundAfter(s, e))
    case Delivers(key) => s.(written := Write(s.written, key))
  }

  /** What the owner and the authority promise: a successful bind means the plan is bound to that very
      prefix; a confirmed commit means the rows are written. */
  ghost predicate Enabled(s: State, e: Event) {
    match e
    case Attempts(p, w, _, _) =>
      && (BindPrefix(Prefix(p)) in Applied(p, w).calls && w.bind.Returned? ==> BoundAfter(s, e) == Some(Prefix(p)))
      && (Confirmed(p, w) ==> Key(p) in Apply(s, e).written)
    case Delivers(key) => key in s.submitted
  }

  ghost predicate Possible(s: State, events: seq<Event>)
    decreases |events|
  {
    events != [] ==> Enabled(s, events[0]) && Possible(Apply(s, events[0]), events[1..])
  }

  function After(s: State, events: seq<Event>): State
    decreases |events|
  {
    if events == [] then s else After(Apply(s, events[0]), events[1..])
  }

  /** Every submission carries the key of the bound prefix. */
  ghost predicate OneKey(s: State) {
    forall i :: 0 <= i < |s.submitted| ==> s.bound.Some? && s.submitted[i] == KeyOf(s.bound.value)
  }

  ghost predicate Inv(s: State) {
    && OneKey(s)
    && (forall i :: 0 <= i < |s.written| ==> s.written[i] in s.submitted)
    && NoDuplicates(s.written)
  }

  lemma {:induction false} StepKeepsInv(s: State, e: Event)
    requires Inv(s) && Enabled(s, e)
    ensures Inv(Apply(s, e))
    ensures s.bound.Some? ==> Apply(s, e).bound == s.bound
    ensures forall key :: key in s.written ==> key in Apply(s, e).written
  {
    if e.Attempts? {
      KeysAreBound(e.p, e.w);
      var calls := Applied(e.p, e.w).calls;
      if Submit(Key(e.p)) in calls {
        assert calls[1] == calls[1..3][0] == BindPrefix(Prefix(e.p));
        assert BoundAfter(s, e) == Some(Prefix(e.p));
      }
    }
  }

  lemma {:induction false} RunKeepsInv(s: State, events: seq<Event>)
    requires Inv(s) && Possible(s, events)
    ensures Inv(After(s, events))
    ensures s.bound.Some? ==> After(s, events).bound == s.bound
    ensures forall key :: key in s.written ==> key in After(s, events).written
    decreases |events|
  {
    if events != [] {
      StepKeepsInv(s, events[0]);
      RunKeepsInv(Apply(s, events[0]), events[1..]);
    }
  }

  lemma {:induction false} OneKeyOneWrite(s: State)
    requires Inv(s)
    ensures |s.written| <= 1
  {
    assert |s.written| > 1 ==> s.written[0] != s.written[1];
    forall i, j | 0 <= i < |s.written| && 0 <= j < |s.written| ensures s.written[i] == s.written[j] {
      assert s.written[i] in s.submitted && s.written[j] in s.submitted;
    }
  }

  /** Over any sequence of attempts and late deliveries, all submissions carry the one key of the bound
      prefix, and the rows are written at most once. */
  lemma {:induction false} AppliedAtMostOnce(events: seq<Event>)
    requires Possible(INITIAL, events)
    ensures var s := After(INITIAL, events);
            OneKey(s) && |s.written| <= 1
  {
    assert Inv(INITIAL);
    RunKeepsInv(INITIAL, events);
    OneKeyOneWrite(After(INITIAL, events));
  }

  lemma {:induction false} ConfirmedIsWritten(s: State, events: seq<Event>, i: nat)
    requires Inv(s) && Possible(s, events) && i < |events|
    requires events[i].Attempts? && Confirmed(events[i].p, events[i].w)
    ensures After(s, events).written != []
    decreases |events|
  {
    var s' := Apply(s, events[0]);
    StepKeepsInv(s, events[0]);
    if i == 0 {
      RunKeepsInv(s', events[1..]);
      assert Key(events[0].p) in After(s', events[1..]).written;
    } else {
      ConfirmedIsWritten(s', events[1..], i - 1);
    }
  }

  /** If some attempt was confirmed, the rows are written exactly once, however often it was retried. */
  lemma {:induction false} ConfirmedExactlyOnce(events: seq<Event>, i: nat)
    requires Possible(INITIAL, events) && i < |events|
    requires events[i].Attempts? && Confirmed(events[i].p, events[i].w)
    ensures |After(INITIAL, events).written| == 1
  {
    AppliedAtMostOnce(events);
    ConfirmedIsWritten(INITIAL, events, i);
  }
}
