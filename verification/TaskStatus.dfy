/** Task statuses and the progress reporter (`backend/application/task_runtime.py`). */
module TaskStatus {
  import opened Common
  import opened FileWork

  datatype TaskState = Running | Succeeded | Failed | TaskCancelled

  datatype ExportResult = ExportResult(rowsWritten: nat, displayName: string)

  /** `notCommitted` is the positive receipt that no native commit was ever submitted. */
  datatype Status = Status(state: TaskState, done: nat, total: nat, result: Option<ExportResult>,
                           error: Option<string>, notCommitted: bool)

  predicate Terminal(s: Status) { !s.state.Running? }

  /** The longest error text a status accepts. */
  const MAX_ERROR: nat := 1024

  /** The connection to the Host: a notification may fail or be interrupted after it was sent. */
  class StatusSink {
    ghost var emitted: seq<Status>

    constructor ()
      ensures emitted == []
    {
      emitted := [];
    }

    method Emit(s: Status, token: CancellationToken) returns (r: Outcome<()>)
      modifies this, token
      ensures emitted == old(emitted) + [s]
      ensures token.failures == old(token.failures) ==> r.Returned?
      ensures token.Since(old(token.cancelled), old(token.failures))
    {
      emitted := emitted + [s];
      token.Elsewhere();
      r := *;
      if !r.Returned? {
        token.Fail();
      }
    }
  }

  /** The statuses never show progress moving backwards. */
  ghost predicate Forward(s: seq<Status>) {
    forall i, j :: 0 <= i < j < |s| ==> s[i].done <= s[j].done
  }

  /** Only running statuses so far, none ahead of `done`. */
  ghost predicate RunningUpTo(s: seq<Status>, done: nat) {
    Forward(s) && forall i :: 0 <= i < |s| ==> s[i].state.Running? && s[i].done <= done
  }

  class ProgressReporter {
    var done: nat
    var total: nat

    constructor ()
      ensures done == 0 && total == 0
    {
      done := 0;
      total := 0;
    }

    method Report(sink: StatusSink, token: CancellationToken, done: Option<nat>, total: Option<nat>)
      returns (r: Outcome<()>)
      requires RunningUpTo(sink.emitted, this.done)
      modifies this, sink, token
      ensures this.done == (if done.Some? && done.value > old(this.done) then done.value else old(this.done))
      ensures this.total == (if total.Some? then total.value else old(this.total))
      ensures sink.emitted == old(sink.emitted) + [Status(Running, this.done, this.total, None, None, false)]
      ensures RunningUpTo(sink.emitted, this.done)
      ensures token.failures == old(token.failures) ==> r.Returned?
      ensures token.Since(old(token.cancelled), old(token.failures))
    {
      if done.Some? {
        this.done := if done.value < this.done then this.done else done.value;
      }
      if total.Some? {
        this.total := total.value;
      }
      r := sink.Emit(Status(Running, this.done, this.total, None, None, false), token);
    }
  }
}
