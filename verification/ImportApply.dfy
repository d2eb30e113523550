/** Applying an import plan (`_apply_serialized` and `_apply_reserved` in
    `backend/application/import_service.py`, `reserve_import` in `backend/application/host_files.py`),
    from the moment staging has returned.

    `World` holds what the plan owner, the Host and the mutation authority answer, and where
    cancellations land, during one attempt; every claim is for all of them. */
module ImportApply {
  import opened Common
  import opened FileWork

  datatype Settlement = Committed | Rejected | Unknown

  /** The remote requests of one attempt, in order. */
  datatype Call =
    | ReserveImport
    | BindPrefix(prefix: string)
    | Submit(key: string)
    | SettlePlan(outcome: Settlement)
    | SettleGrant(consumed: bool)

  /** What the authority answers when it answers at all. */
  datatype Verdict = VCommitted(created: nat, updated: nat) | VPending | VOther

  datatype ApplyResult = ApplyResult(created: nat, updated: nat, failedRows: nat)

  datatype Params = Params(idempotencyPrefix: string, tokenDigest: string, crossTable: bool, hasProvider: bool,
                           validRows: nat, hasProgress: bool)

  /** `reserve` carries the reservation id, when the reply had one. */
  datatype World = World(reserve: Outcome<Option<string>>, cancelledFirst: bool, bind: Outcome<()>,
                         cancelledSecond: bool, submit: Outcome<Verdict>, settle: Outcome<()>,
                         notify: Outcome<()>, settleGrant: Outcome<()>)

  datatype Attempt = Attempt(calls: seq<Call>, result: Outcome<ApplyResult>)

  /** The longest idempotency key a chunk result accepts. */
  const MAX_KEY: nat := 128

  function Prefix(p: Params): string {
    if p.idempotencyPrefix != "" then p.idempotencyPrefix else "imp-" + p.tokenDigest
  }

  function KeyOf(prefix: string): string {
    prefix + "-0"
  }

  function Key(p: Params): string {
    KeyOf(Prefix(p))
  }

  /** The four failures that prove nothing was applied. */
  predicate DefiniteRejection(code: string) {
    || code == "import_conflict" || code == "import_upsert_key_missing"
    || code == "import_upsert_key_not_unique" || code == "mutation.validation.failed"
  }

  function Lost<T, U>(o: Outcome<T>): (r: Outcome<U>)
    requires !o.Returned?
    ensures !r.Returned? && (r.Cancelled? <==> o.Cancelled?)
    ensures o.Raised? ==> r.code == o.code && r.text == o.text
  {
    match o case Raised(code, text) => Raised(code, text) case Cancelled => Cancelled
  }

  const OUTCOME_UNKNOWN: Outcome<ApplyResult> := Raised("import_outcome_unknown", "")

  /** A quiet settlement swallows errors but not a cancellation. */
  function Quietly(w: World, otherwise: Outcome<ApplyResult>): Outcome<ApplyResult> {
    if w.settle.Cancelled? then Cancelled else otherwise
  }

  /** What the submission amounts to: a bulk reply that is not a commit is an error of its own; the relation
      provider returns only once it has committed. */
  function Submission(p: Params, w: World): Outcome<Verdict> {
    if w.submit.Returned? && !p.crossTable && w.submit.value.VPending? then Raised("import_pending", "")
    else if w.submit.Returned? && !p.crossTable && w.submit.value.VOther? then Raised("import_conflict", "")
    else w.submit
  }

  /** The failure path once the submission is known to have failed with `code`. */
  function FailedApply(p: Params, w: World, submitted: bool, code: string): (Settlement, Outcome<ApplyResult>) {
    var unknown := submitted && !DefiniteRejection(code);
    var told := if p.hasProgress then w.notify else Returned(());
    (if unknown then Unknown else Rejected,
     Quietly(w, if !told.Returned? then Lost(told)
                else if unknown then OUTCOME_UNKNOWN
                else Returned(ApplyResult(0, 0, p.validRows))))
  }

  /** `_apply_reserved`: the calls it makes, its result, and whether it marked the grant as consumed. */
  datatype Body = Body(calls: seq<Call>, result: Outcome<ApplyResult>, marked: bool)

  function Reserved(p: Params, w: World): Body {
    if w.cancelledFirst then Body([SettlePlan(Rejected)], Cancelled, false)
    else if !w.bind.Returned? then
      Body([BindPrefix(Prefix(p)), SettlePlan(Rejected)], Quietly(w, Lost(w.bind)), false)
    else if w.cancelledSecond then
      Body([BindPrefix(Prefix(p)), SettlePlan(Rejected)], Cancelled, false)
    else if p.crossTable && !p.hasProvider then
      var (settlement, result) := FailedApply(p, w, false, "relation_provider_unavailable");
      Body([BindPrefix(Prefix(p)), SettlePlan(settlement)], result, false)
    else
      var calls := [BindPrefix(Prefix(p)), Submit(Key(p))];
      match Submission(p, w)
      case Cancelled => Body(calls + [SettlePlan(Unknown)], Quietly(w, OUTCOME_UNKNOWN), false)
      case Raised(code, _) =>
        var (settlement, result) := FailedApply(p, w, true, code);
        Body(calls + [SettlePlan(settlement)], result, false)
      case Returned(verdict) =>
        if |Key(p)| > MAX_KEY then Body(calls, Raised("", "chunk result is invalid"), false)
        else
          var created := if verdict.VCommitted? then verdict.created else 0;
          var updated := if verdict.VCommitted? then verdict.updated else 0;
          Body(calls + [SettlePlan(Committed)], Returned(ApplyResult(created, updated, 0)), true)
  }

  /** One attempt, from reservation to grant settlement. */
  function Applied(p: Params, w: World): Attempt {
    if !w.reserve.Returned? then
      Attempt([ReserveImport, SettlePlan(Rejected)], Quietly(w, Lost(w.reserve)))
    else
      var body := Reserved(p, w);
      var named := w.reserve.value.Some?;
      var calls := [ReserveImport] + body.calls + (if named then [SettleGrant(body.marked)] else []);
      var settled := if named then w.settleGrant else Raised("", "Invalid Host file reservationId acknowledgement");
      Attempt(calls, if settled.Returned? || body.marked then body.result else Lost(settled))
  }

  // ---------------------------------------------------------------- one attempt

  /** The attempt got as far as submitting the rows. */
  predicate Submits(p: Params, w: World) {
    && w.reserve.Returned? && !w.cancelledFirst && w.bind.Returned? && !w.cancelledSecond
    && (p.crossTable ==> p.hasProvider)
  }

  /** The authority confirmed the commit. */
  predicate Confirmed(p: Params, w: World) {
    Submits(p, w) && w.submit.Returned? && (p.crossTable || w.submit.value.VCommitted?)
  }

  function Settlements(calls: seq<Call>): seq<Settlement> {
    if calls == [] then []
    else (if calls[0].SettlePlan? then [calls[0].outcome] else []) + Settlements(calls[1..])
  }

  lemma {:induction false} SettlementsConcat(a: seq<Call>, b: seq<Call>)
    ensures Settlements(a + b) == Settlements(a) + Settlements(b)
  {
    if a == [] {
      assert a + b == b;
    } else {
      assert (a + b)[1..] == a[1..] + b && (a + b)[0] == a[0];
      SettlementsConcat(a[1..], b);
      var head := if a[0].SettlePlan? then [a[0].outcome] else [];
      assert head + (Settlements(a[1..]) + Settlements(b)) == (head + Settlements(a[1..])) + Settlements(b);
    }
  }

  /** The caller's prefix, or that of the token if there is none. */
  ghost function GivenPrefix(p: Params): string {
    if p.idempotencyPrefix == "" then "imp-" + p.tokenDigest else p.idempotencyPrefix
  }

  /** The key of an attempt is longer than a chunk result accepts. */
  ghost predicate KeyTooLong(p: Params) {
    |GivenPrefix(p)| > 126
  }

  /** The failures that prove nothing was applied. */
  ghost predicate Definite(code: string) {
    code in {"import_conflict", "import_upsert_key_missing", "import_upsert_key_not_unique",
             "mutation.validation.failed"}
  }

  /** Which settlement an attempt ends with: none when the commit was confirmed under a key too long for the
      chunk result, and exactly one otherwise. */
  ghost function Settled(p: Params, w: World): seq<Settlement> {
    if !Submits(p, w) then [Rejected]
    else match w.submit
      case Cancelled => [Unknown]
      case Raised(code, _) => [if Definite(code) then Rejected else Unknown]
      case Returned(verdict) =>
        if !p.crossTable && verdict.VPending? then [Unknown]
        else if !p.crossTable && verdict.VOther? then [Rejected]
        else if KeyTooLong(p) then []
        else [Committed]
  }

  lemma {:induction false} SettlesAs(p: Params, w: World)
    ensures Settlements(Applied(p, w).calls) == Settled(p, w)
  {
    if w.reserve.Returned? {
      var body := Reserved(p, w);
      var tail := if w.reserve.value.Some? then [SettleGrant(body.marked)] else [];
      SettlementsConcat([ReserveImport] + body.calls, tail);
      SettlementsConcat([ReserveImport], body.calls);
      BodySettles(p, w);
      assert Settlements(tail) == [];
    } else {
      SettlementsConcat([ReserveImport], [SettlePlan(Rejected)]);
      assert [ReserveImport] + [SettlePlan(Rejected)] == [ReserveImport, SettlePlan(Rejected)];
    }
  }

  /** The requests before the settlement, and the settlement as a request. */
  function Opening(p: Params, w: World): seq<Call> {
    if w.cancelledFirst then []
    else if !Submits(p, w) then [BindPrefix(Prefix(p))]
    else [BindPrefix(Prefix(p)), Submit(Key(p))]
  }

  function Closing(settled: seq<Settlement>): seq<Call> {
    if settled == [] then [] else [SettlePlan(settled[0])]
  }

  lemma {:induction false} BodyShapeUnsubmitted(p: Params, w: World)
    requires w.reserve.Returned? && !Submits(p, w)
    ensures Reserved(p, w).calls == Opening(p, w) + Closing(Settled(p, w))
  {
  }

  lemma {:induction false} BodyShapeSubmitted(p: Params, w: World)
    requires Submits(p, w)
    ensures Reserved(p, w).calls == Opening(p, w) + Closing(Settled(p, w))
  {
  }

  lemma {:induction false} ClosingSettles(settled: seq<Settlement>)
    requires |settled| <= 1
    ensures Settlements(Closing(settled)) == settled
  {
    if settled != [] {
      assert [SettlePlan(settled[0])][1..] == [];
    }
  }

  lemma {:induction false} OpeningSettles(p: Params, w: World)
    ensures Settlements(Opening(p, w)) == []
  {
    NoSettlements(Opening(p, w));
  }

  lemma {:induction false} NoSettlements(calls: seq<Call>)
    requires forall c :: c in calls ==> !c.SettlePlan?
    ensures Settlements(calls) == []
  {
    if calls != [] {
      assert calls[0] in calls;
      NoSettlements(calls[1..]);
    }
  }

  lemma {:induction false} BodySettles(p: Params, w: World)
    requires w.reserve.Returned?
    ensures Settlements(Reserved(p, w).calls) == Settled(p, w)
  {
    if Submits(p, w) {
      BodyShapeSubmitted(p, w);
    } else {
      BodyShapeUnsubmitted(p, w);
    }
    SettlementsConcat(Opening(p, w), Closing(Settled(p, w)));
    OpeningSettles(p, w);
    ClosingSettles(Settled(p, w));
  }

  /** What the body's calls can be, and when. */
  lemma {:induction false} BodyCalls(p: Params, w: World)
    ensures var body := Reserved(p, w);
            var submits := Submits(p, w.(reserve := Returned(None)));
            && (SettlePlan(Committed) in body.calls <==> body.marked)
            && (body.marked ==> submits && Submission(p, w).Returned? && |Key(p)| <= MAX_KEY)
            && (body.marked ==> |body.calls| > 0 && body.calls[|body.calls| - 1] == SettlePlan(Committed))
            && (submits && Submission(p, w).Returned? && |Key(p)| <= MAX_KEY ==> body.marked)
            && (forall c :: c in body.calls ==> !c.SettleGrant? && !c.ReserveImport?)
  {
  }

  lemma {:induction false} BodySubmissions(p: Params, w: World)
    ensures var body := Reserved(p, w);
            && (forall key :: Submit(key) in body.calls ==>
                  key == Key(p) && w.bind.Returned? && |body.calls| >= 2
                  && body.calls[..2] == [BindPrefix(Prefix(p)), Submit(key)])
            && (forall bound :: BindPrefix(bound) in body.calls ==> bound == Prefix(p))
            && (SettlePlan(Rejected) in body.calls && Submit(Key(p)) in body.calls ==>
                  Submission(p, w).Raised? && DefiniteRejection(Submission(p, w).code))
  {
  }

  /** `rejected` only if nothing was submitted or the failure is a definite rejection. */
  lemma {:induction false} RejectionsAreHonest(p: Params, w: World)
    ensures var calls := Applied(p, w).calls;
            SettlePlan(Rejected) in calls ==>
              Submit(Key(p)) !in calls || (Submission(p, w).Raised? && Definite(Submission(p, w).code))
  {
    if w.reserve.Returned? {
      BodySubmissions(p, w);
    }
  }

  /** Every bind offers the caller's prefix, or the one of the token if there is none; whatever is submitted
      carries the key of the prefix the plan owner has just accepted. */
  lemma {:induction false} KeysAreBound(p: Params, w: World)
    ensures Prefix(p) == GivenPrefix(p) && Key(p) == GivenPrefix(p) + "-0"
    ensures forall bound :: BindPrefix(bound) in Applied(p, w).calls ==> bound == GivenPrefix(p)
    ensures forall key :: Submit(key) in Applied(p, w).calls ==>
              && key == GivenPrefix(p) + "-0" && w.bind.Returned? && |Applied(p, w).calls| >= 3
              && Applied(p, w).calls[1..3] == [BindPrefix(GivenPrefix(p)), Submit(key)]
  {
    if w.reserve.Returned? {
      BodySubmissions(p, w);
      var body := Reserved(p, w);
      assert |body.calls| >= 2 ==> Applied(p, w).calls[1..3] == body.calls[..2];
    }
  }

  function GrantSettlements(calls: seq<Call>): seq<bool> {
    if calls == [] then []
    else (if calls[0].SettleGrant? then [calls[0].consumed] else []) + GrantSettlements(calls[1..])
  }

  lemma {:induction false} GrantSettlementsConcat(a: seq<Call>, b: seq<Call>)
    ensures GrantSettlements(a + b) == GrantSettlements(a) + GrantSettlements(b)
  {
    if a == [] {
      assert a + b == b;
    } else {
      assert (a + b)[1..] == a[1..] + b && (a + b)[0] == a[0];
      GrantSettlementsConcat(a[1..], b);
      var head := if a[0].SettleGrant? then [a[0].consumed] else [];
      assert head + (GrantSettlements(a[1..]) + GrantSettlements(b)) ==
             (head + GrantSettlements(a[1..])) + GrantSettlements(b);
    }
  }

  lemma {:induction false} NoGrantSettlements(calls: seq<Call>)
    requires forall c :: c in calls ==> !c.SettleGrant?
    ensures GrantSettlements(calls) == []
  {
    if calls != [] {
      assert calls[0] in calls;
      NoGrantSettlements(calls[1..]);
    }
  }

  /** The Host grant is settled exactly once, as the last call, if the reservation returned with a name, and never
      otherwise. It is settled as consumed exactly after a confirmed commit that was settled as committed. */
  lemma {:induction false} GrantSettled(p: Params, w: World)
    ensures var calls, consumed := Applied(p, w).calls, Confirmed(p, w) && !KeyTooLong(p);
            if w.reserve.Returned? && w.reserve.value.Some?
            then GrantSettlements(calls) == [consumed] && calls[|calls| - 1] == SettleGrant(consumed)
            else GrantSettlements(calls) == []
  {
    if w.reserve.Returned? {
      MarkedExactly(p, w);
      Closed([ReserveImport] + Reserved(p, w).calls, Reserved(p, w).marked);
    } else {
      NoGrantSettlements(Applied(p, w).calls);
    }
  }

  lemma {:induction false} MarkedExactly(p: Params, w: World)
    requires w.reserve.Returned?
    ensures Reserved(p, w).marked <==> Confirmed(p, w) && !KeyTooLong(p)
    ensures forall c :: c in [ReserveImport] + Reserved(p, w).calls ==> !c.SettleGrant?
  {
    BodyCalls(p, w);
  }

  lemma {:induction false} Closed(calls: seq<Call>, consumed: bool)
    requires forall c :: c in calls ==> !c.SettleGrant?
    ensures GrantSettlements(calls + [SettleGrant(consumed)]) == [consumed]
    ensures GrantSettlements(calls + []) == []
  {
    NoGrantSettlements(calls);
    GrantSettlementsConcat(calls, [SettleGrant(consumed)]);
    assert [SettleGrant(consumed)][1..] == [] && calls + [] == calls;
  }

  /** `committed` exactly after a confirmed commit whose key fits the chunk result; the Host grant is consumed
      exactly then if the reservation has a name, right after the plan was settled as committed. */
  lemma {:induction false} CommitsAreHonest(p: Params, w: World)
    ensures var calls := Applied(p, w).calls;
            && (SettlePlan(Committed) in calls <==> Confirmed(p, w) && !KeyTooLong(p))
            && (SettleGrant(true) in calls <==> Confirmed(p, w) && !KeyTooLong(p) && w.reserve.value.Some?)
            && (SettleGrant(true) in calls ==>
                  |calls| >= 2 && calls[|calls| - 2..] == [SettlePlan(Committed), SettleGrant(true)])
  {
    if w.reserve.Returned? {
      BodyCalls(p, w);
    }
  }

  /** Exactly when an attempt settles its claim once whatever the outside world does: when the idempotency
      key fits the chunk result, i.e. the prefix has at most 126 characters. */
  lemma {:induction false} OneSettlementExactly(p: Params)
    ensures (forall w :: |Settlements(Applied(p, w).calls)| == 1)
            <==> !KeyTooLong(p) || (p.crossTable && !p.hasProvider)
  {
    forall w ensures |Settlements(Applied(p, w).calls)| == |Settled(p, w)| {
      SettlesAs(p, w);
    }
    if KeyTooLong(p) && !(p.crossTable && !p.hasProvider) {
      var w := World(Returned(Some("r")), false, Returned(()), false, Returned(VCommitted(1, 0)),
                     Returned(()), Returned(()), Returned(()));
      assert |Settled(p, w)| == 0;
    }
  }

  /** A concrete loss: the request contract admits a prefix of 128 characters, the rows are committed, and
      yet no settlement is issued and the Host grant is released for another import. */
  lemma {:induction false} LongPrefixLosesSettlement(p: Params) returns (w: World)
    requires |p.idempotencyPrefix| == 128 && !p.crossTable
    ensures Confirmed(p, w)
    ensures Settlements(Applied(p, w).calls) == []
    ensures SettleGrant(false) in Applied(p, w).calls
    ensures Applied(p, w).result.Raised?
  {
    w := World(Returned(Some("r")), false, Returned(()), false, Returned(VCommitted(1, 0)),
               Returned(()), Returned(()), Returned(()));
    SettlesAs(p, w);
  }

  /** A normal result tells the truth: rows are counted only after a confirmed commit, and a result that
      lists every row as failed means nothing was submitted or the authority definitely rejected it. */
  lemma {:induction false} ResultsAreHonest(p: Params, w: World)
    requires Applied(p, w).result.Returned?
    ensures var r := Applied(p, w).result.value;
            || (Confirmed(p, w) && r.failedRows == 0 && SettlePlan(Committed) in Applied(p, w).calls)
            || (r == ApplyResult(0, 0, p.validRows) && !Confirmed(p, w)
                && (Submit(Key(p)) in Applied(p, w).calls ==>
                      Submission(p, w).Raised? && Definite(Submission(p, w).code)))
  {
  }

  /** How a failing release of the Host grant replaces a result. */
  ghost function Released(w: World, result: Outcome<ApplyResult>): Outcome<ApplyResult> {
    if w.reserve == Returned(None) then Raised("", "Invalid Host file reservationId acknowledgement")
    else if !w.settleGrant.Returned? then Lost(w.settleGrant)
    else result
  }

  /** How the settlement and then the notification replace a result. */
  ghost function Told(p: Params, w: World, result: Outcome<ApplyResult>): Outcome<ApplyResult> {
    if w.settle.Cancelled? then Cancelled
    else if p.hasProgress && !w.notify.Returned? then Lost(w.notify)
    else result
  }

  /** A confirmed commit whose key fits always comes back with the authority's counts, whatever goes wrong
      afterwards. */
  lemma {:induction false} CommittedSurfaces(p: Params, w: World)
    requires Confirmed(p, w) && !KeyTooLong(p) && w.submit.value.VCommitted?
    ensures Applied(p, w).result == Returned(ApplyResult(w.submit.value.created, w.submit.value.updated, 0))
  {
  }

  /** What an attempt that submitted nothing comes back with. */
  lemma {:induction false} UnsubmittedSurfaces(p: Params, w: World)
    requires !Submits(p, w)
    ensures Applied(p, w).result ==
            if !w.reserve.Returned? then (if w.settle.Cancelled? then Cancelled else Lost(w.reserve))
            else Released(w,
              if w.cancelledFirst then Cancelled
              else if !w.bind.Returned? then (if w.settle.Cancelled? then Cancelled else Lost(w.bind))
              else if w.cancelledSecond then Cancelled
              else Told(p, w, Returned(ApplyResult(0, 0, p.validRows))))
  {
  }

  /** And one that was definitely rejected: every valid row as failed. */
  lemma {:induction false} RejectedSurfaces(p: Params, w: World)
    requires Submits(p, w) && Settled(p, w) == [Rejected]
    ensures Applied(p, w).result == Released(w, Told(p, w, Returned(ApplyResult(0, 0, p.validRows))))
  {
  }

  /** An undecided submission never comes back as a normal result. It surfaces as `import_outcome_unknown`
      unless something on the way out replaces that error: a failing release of the Host grant, a
      cancellation that lands in the settlement, or a failing progress notification, in this order. */
  lemma {:induction false} UndecidedSurfaces(p: Params, w: World)
    requires Settled(p, w) == [Unknown]
    ensures Applied(p, w).result == Released(w,
              if w.settle.Cancelled? then Cancelled
              else if w.submit.Cancelled? then Raised("import_outcome_unknown", "")
              else Told(p, w, Raised("import_outcome_unknown", "")))
    ensures !Applied(p, w).result.Returned?
  {
  }

  // ---------------------------------------------------------------- the attempt as it runs

  /** The remote side of one attempt: it records every request and answers from `World`. */
  class Remote {
    const world: World
    var calls: seq<Call>

    constructor (world: World)
      ensures this.world == world && calls == []
    {
      this.world := world;
      calls := [];
    }

    method Issue(call: Call)
      modifies this
      ensures calls == old(calls) + [call]
    {
      calls := calls + [call];
    }

    /** `_settle_quietly`: returns whether a cancellation broke out of it. */
    method SettleQuietly(outcome: Settlement) returns (cancelled: bool)
      modifies this
      ensures calls == old(calls) + [SettlePlan(outcome)]
      ensures cancelled <==> world.settle.Cancelled?
    {
      Issue(SettlePlan(outcome));
      cancelled := world.settle.Cancelled?;
    }
  }

  /** The failure handler of `_apply_reserved`: settle first, then notify. */
  method HandleFailure(remote: Remote, p: Params, submitted: bool, code: string) returns (result: Outcome<ApplyResult>)
    modifies remote
    ensures var (settlement, r) := FailedApply(p, remote.world, submitted, code);
            remote.calls == old(remote.calls) + [SettlePlan(settlement)] && result == r
  {
    var known := DefiniteRejection(code);
    var broken := remote.SettleQuietly(if submitted && !known then Unknown else Rejected);
    if broken {
      return Cancelled;
    }
    if p.hasProgress && !remote.world.notify.Returned? {
      return Lost(remote.world.notify);
    }
    if submitted && !known {
      return OUTCOME_UNKNOWN;
    }
    return Returned(ApplyResult(0, 0, p.validRows));
  }

  /** `_apply_reserved`, driving the `submitted` flag and the commit mark through the remote calls. */
  method ApplyReserved(remote: Remote, p: Params) returns (result: Outcome<ApplyResult>, committed: bool)
    modifies remote
    ensures var body := Reserved(p, remote.world);
            remote.calls == old(remote.calls) + body.calls && result == body.result && committed == body.marked
  {
    var w := remote.world;
    committed := false;
    if w.cancelledFirst {
      var _ := remote.SettleQuietly(Rejected);
      return Cancelled, committed;
    }
    remote.Issue(BindPrefix(Prefix(p)));
    if !w.bind.Returned? {
      var broken := remote.SettleQuietly(Rejected);
      return (if broken then Cancelled else Lost(w.bind)), committed;
    }
    var submitted := false;
    var outcome: Outcome<Verdict>;
    if w.cancelledSecond {
      outcome := Cancelled;
    } else if p.crossTable && !p.hasProvider {
      outcome := Raised("relation_provider_unavailable", "");
    } else {
      submitted := true;
      remote.Issue(Submit(Key(p)));
      outcome := w.submit;
      if outcome.Returned? && !p.crossTable {
        if outcome.value.VPending? {
          outcome := Raised("import_pending", "");
        } else if outcome.value.VOther? {
          outcome := Raised("import_conflict", "");
        }
      }
    }
    match outcome {
      case Cancelled =>
        var broken := remote.SettleQuietly(if submitted then Unknown else Rejected);
        result := if submitted && !broken then OUTCOME_UNKNOWN else Cancelled;
      case Raised(code, _) =>
        result := HandleFailure(remote, p, submitted, code);
      case Returned(verdict) =>
        if |Key(p)| > MAX_KEY {
          return Raised("", "chunk result is invalid"), committed;
        }
        committed := true;
        remote.Issue(SettlePlan(Committed));
        result := Returned(ApplyResult(if verdict.VCommitted? then verdict.created else 0,
                                       if verdict.VCommitted? then verdict.updated else 0, 0));
    }
  }

  /** `_apply_serialized` after staging: reserve, apply, settle the grant on the way out. */
  method ApplySerialized(remote: Remote, p: Params) returns (result: Outcome<ApplyResult>)
    requires remote.calls == []
    modifies remote
    ensures remote.calls == Applied(p, remote.world).calls
    ensures result == Applied(p, remote.world).result
  {
    var w := remote.world;
    remote.Issue(ReserveImport);
    if !w.reserve.Returned? {
      var broken := remote.SettleQuietly(Rejected);
      return if broken then Cancelled else Lost(w.reserve);
    }
    var committed;
    result, committed := ApplyReserved(remote, p);
    var settled: Outcome<()> := Raised("", "Invalid Host file reservationId acknowledgement");
    if w.reserve.value.Some? {
      remote.Issue(SettleGrant(committed));
      settled := w.settleGrant;
    }
    if !settled.Returned? && !committed {
      result := Lost(settled);
    }
  }
}
