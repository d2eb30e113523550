/** One execution of an export task (`HostExecutionRuntime.start.execute` in
    `backend/application/task_runtime.py`): run the handler, classify how it ended, report it once. */
module TaskRuntime {
  import opened Common
  import opened FileWork
  import opened HostFiles
  import opened Paging
  import opened TaskStatus
  import opened ExportService

  /** `Reported`: the terminal status was handed to the sink and the handle removed. `Crashed`: building the
      status itself failed, so nothing was reported and the handle stays. */
  datatype Ending = Reported(final: Status) | Crashed

  /** Failure codes that already say the outcome is unknown. */
  predicate OutcomeUnknown(code: string) {
    code == "import_outcome_unknown" || code == "export_outcome_unknown"
  }

  /** How `execute` classifies the end of the handler. `entered` says that the write phase was
      established, `submitted` that a native commit was submitted. */
  function Classify(outcome: Outcome<ExportResult>, entered: bool, submitted: bool, cancelled: bool,
                    done: nat, total: nat): Ending
  {
    match outcome
    case Returned(result) => Reported(Status(Succeeded, done, total, Some(result), None, false))
    case Cancelled =>
      if entered && submitted then Reported(Status(Failed, done, total, None, Some(UNKNOWN_TEXT), false))
      else Reported(Status(TaskCancelled, done, total, None, None, false))
    case Raised(code, text) =>
      if cancelled && !OutcomeUnknown(code) && !(entered && submitted) then
        Reported(Status(TaskCancelled, done, total, None, None, false))
      else if |text| > MAX_ERROR then Crashed
      else Reported(Status(Failed, done, total, None, Some(text), entered && !submitted))
  }

  /** Exactly when building the terminal status fails: the handler raised, the task does not count as
      cancelled, and the error text is longer than a status accepts. */
  predicate TooLongToReport(outcome: Outcome<ExportResult>, submitted: bool, cancelled: bool) {
    && outcome.Raised? && |outcome.text| > MAX_ERROR
    && !(cancelled && !submitted && outcome.code !in {"import_outcome_unknown", "export_outcome_unknown"})
  }

  lemma CrashesExactly(outcome: Outcome<ExportResult>, entered: bool, submitted: bool, cancelled: bool,
                       done: nat, total: nat)
    ensures Classify(outcome, entered, submitted, cancelled, done, total).Crashed? <==>
            TooLongToReport(outcome, entered && submitted, cancelled)
  {
  }

  /** A concrete one: an export whose query is rejected with a text of 1025 characters before anything was
      submitted. */
  lemma LongTextCrashes() returns (outcome: Outcome<ExportResult>)
    ensures outcome.Raised? && |outcome.text| == MAX_ERROR + 1
    ensures Classify(outcome, true, false, false, 0, 0).Crashed?
  {
    outcome := Raised("", seq(MAX_ERROR + 1, _ => 'x'));
  }

  /** The rows of one view, all of them. */
  ghost predicate ExportsView(target: seq<Byte>, rowsWritten: nat, full: Identity -> seq<Row>, encode: Encoder,
                              columns: seq<string>, id: Identity)
  {
    target == encode(columns, full(id)) && rowsWritten == |full(id)|
  }

  /** A complete fetch of the record plane is one full view. */
  lemma CompleteIsOneView(pages: seq<Page>, full: Identity -> seq<Row>) returns (id: Identity)
    requires Complete(pages, full) && pages[0].snapshot.Some?
    ensures RowsOf(pages) == full(id)
    ensures SnapshotIdentity(pages[0].snapshot.value) == Success(id)
  {
    OneView(pages, full);
    id := BindAll(pages).value.value;
  }

  /** How the handler ended, and what `execute` saw when it classified that. */
  datatype Handling = Handling(outcome: Outcome<ExportResult>, entered: bool, cancelled: bool)

  /** What the reported status says about how the handler ended: succeeded exactly for a returned value, which it
      carries; cancelled exactly for a cancellation, or an error while the token is set that does not say itself
      that the outcome is unknown, both only without a submitted commit; otherwise failed, with the handler's own
      text unless a cancellation hit a submitted commit. The receipt of no commit stands exactly on a failure after
      the write phase was entered and before a commit. */
  ghost predicate Classifies(final: Status, seen: Handling, commit: bool) {
    && Terminal(final)
    && (final.state.Succeeded? <==> seen.outcome.Returned?)
    && (final.result.Some? <==> seen.outcome.Returned?)
    && (seen.outcome.Returned? ==> final.result.value == seen.outcome.value)
    && (final.state.TaskCancelled? <==>
          || (seen.outcome.Cancelled? && !commit)
          || (seen.outcome.Raised? && seen.cancelled && !commit
              && seen.outcome.code !in {"import_outcome_unknown", "export_outcome_unknown"}))
    && (final.error.Some? <==> final.state.Failed?)
    && (final.state.Failed? ==>
          final.error.value == if seen.outcome.Raised? then seen.outcome.text else
            "Export submission outcome is unknown; verify the target file.")
    && (final.notCommitted <==> final.state.Failed? && seen.entered && !commit)
  }

  /** The classification says what it should, whatever the handler did. */
  lemma ClassifyMeans(seen: Handling, submitted: bool, done: nat, total: nat)
    ensures (submitted ==> seen.entered) ==>
              (var ending := Classify(seen.outcome, seen.entered, submitted, seen.cancelled, done, total);
              && (ending.Crashed? <==> TooLongToReport(seen.outcome, submitted, seen.cancelled))
              && (ending.Reported? ==>
                    && Classifies(ending.final, seen, submitted)
                    && ending.final.done == done && ending.final.total == total))
  {
  }

  /** For every interleaving of cancellations, failures and lost replies: at most one terminal status is
      reported, and none exactly when its error text is too long; a cancelled status or a not-committed
      receipt means no commit was ever submitted; a succeeded status means the Host replaced the target by
      every row of one view. */
  method Execute(host: Host, port: QueryPort, sink: StatusSink, reporter: ProgressReporter, token: CancellationToken,
                 request: Request, profile: Option<set<string>>, hasProvider: bool, checks: Checks, encode: Encoder)
    returns (ending: Ending, ghost columns: seq<string>, ghost seen: Handling)
    requires port.pages == [] && port.replies == [] && sink.emitted == [] && host.calls == []
    requires reporter.done == 0 && reporter.total == 0
    modifies host, port, sink, reporter, token
    ensures Forward(sink.emitted)
    ensures forall i :: 0 <= i < |sink.emitted| ==>
              (Terminal(sink.emitted[i]) <==> ending.Reported? && i == |sink.emitted| - 1)
    ensures ending.Reported? ==> sink.emitted != [] && sink.emitted[|sink.emitted| - 1] == ending.final
    ensures seen.cancelled ==> token.cancelled
    ensures ending.Reported? ==> Classifies(ending.final, seen, CommitIssued(host.calls))
    ensures ending.Reported? ==> ending.final.done == reporter.done && ending.final.total == reporter.total
    ensures !seen.entered ==> host.calls == [] && !seen.outcome.Returned?
    ensures seen.entered && !Authorized(request, profile) ==>
              host.calls == [] &&
              seen.outcome == Raised(if profile.None? then "schema_unknown" else "plugin_read_denied", "")
    ensures Authorized(request, profile) && token.Quiet(old(token.failures)) ==>
              (seen.outcome.Returned? <==> BodyAccepts(request, hasProvider, checks, port.replies, port.pages))
    ensures ending.Crashed? <==> TooLongToReport(seen.outcome, CommitIssued(host.calls), seen.cancelled)
    ensures ending.Crashed? || ending.final.state.TaskCancelled? || ending.final.notCommitted ==>
              !CommitIssued(host.calls) && host.target == old(host.target)
    ensures ending.Reported? && ending.final.state.Failed? && !ending.final.notCommitted && CommitIssued(host.calls) ==>
              ending.final.error == Some(UNKNOWN_TEXT)
    ensures ending.Reported? && ending.final.state.Succeeded? ==>
              && CommitIssued(host.calls) && ending.final.result.Some?
              && Complete(port.pages, port.full)
              && host.target == encode(columns, RowsOf(port.pages))
              && ending.final.result.value.rowsWritten == |RowsOf(port.pages)|
              && (port.pages[0].snapshot.Some? ==>
                    exists id :: ExportsView(host.target, ending.final.result.value.rowsWritten, port.full, encode,
                                             columns, id))
              && (request.lookupIds == {} ==> port.pages[0].snapshot.Some? && columns == request.baseColumns)
              && (request.lookupIds != {} ==> HeaderOf(request, port.pages, columns))
  {
    columns := [];
    var entered := false;
    var outcome: Outcome<ExportResult>;
    var phase := new NativeWritePhase();
    var started := sink.Emit(Status(Running, 0, 0, None, None, false), token);
    if started.Returned? {
      entered := true;
      outcome, columns := Export(host, port, phase, sink, reporter, token, request, profile, hasProvider,
                                 checks, encode);
    } else {
      outcome := Failing(started);
    }
    if outcome.Returned? {
      if port.pages[0].snapshot.Some? {
        ghost var id := CompleteIsOneView(port.pages, port.full);
        assert ExportsView(host.target, outcome.value.rowsWritten, port.full, encode, columns, id);
      }
    }
    seen := Handling(outcome, entered, token.cancelled);
    ending := Conclude(sink, reporter, token, outcome, entered, phase.submitted);
  }

  /** Classifies how the handler ended and reports it. */
  method Conclude(sink: StatusSink, reporter: ProgressReporter, token: CancellationToken,
                  outcome: Outcome<ExportResult>, entered: bool, submitted: bool) returns (ending: Ending)
    requires RunningUpTo(sink.emitted, reporter.done) && (submitted ==> entered)
    modifies sink, token
    ensures token.Since(old(token.cancelled), old(token.failures))
    ensures ending.Crashed? <==> TooLongToReport(outcome, submitted, old(token.cancelled))
    ensures ending.Crashed? ==> sink.emitted == old(sink.emitted)
    ensures ending.Reported? ==> sink.emitted == old(sink.emitted) + [ending.final]
    ensures ending.Reported? ==> Classifies(ending.final, Handling(outcome, entered, old(token.cancelled)), submitted)
    ensures ending.Reported? ==> ending.final.done == reporter.done && ending.final.total == reporter.total
    ensures Forward(sink.emitted)
  {
    ClassifyMeans(Handling(outcome, entered, token.cancelled), submitted, reporter.done, reporter.total);
    ending := Classify(outcome, entered, submitted, token.cancelled, reporter.done, reporter.total);
    if ending.Reported? {
      var _ := sink.Emit(ending.final, token);
    }
  }
}
