/** Awaiting work that cancellation must not abandon (`backend/application/file_work.py`), and the
    awaiting primitives the other protocols share.

    An `await` may return, raise, or be interrupted by a cancellation; which of these happens is chosen
    by the environment, so every contract below holds for every interleaving. */
module FileWork {

  datatype Outcome<+T> = Returned(value: T) | Raised(code: string, text: string) | Cancelled

  /** The cooperative flag of a running task; once set it stays set. `failures` counts, for the specification,
      the awaits of that task that were interrupted, raised or returned something else than they should. */
  class CancellationToken {
    var cancelled: bool
    ghost var failures: nat

    constructor ()
      ensures !cancelled && failures == 0
    {
      cancelled := false;
      failures := 0;
    }

    /** What may have happened since: the flag is never cleared, and failures are not forgotten. */
    ghost predicate Since(cancelledThen: bool, failuresThen: nat)
      reads this
    {
      (cancelledThen ==> cancelled) && failuresThen <= failures
    }

    /** No cancellation was requested, and nothing failed since. */
    ghost predicate Quiet(failuresThen: nat)
      reads this
    {
      !cancelled && failures == failuresThen
    }

    method Cancel()
      modifies this`cancelled
      ensures cancelled
    {
      cancelled := true;
    }

    /** Whatever runs while a coroutine waits may set the flag; nothing clears it. */
    method Elsewhere()
      modifies this`cancelled
      ensures old(cancelled) ==> cancelled
    {
      if * {
        Cancel();
      }
    }

    method Fail()
      modifies this`failures
      ensures failures == old(failures) + 1
    {
      failures := failures + 1;
    }
  }

  /** Work that runs beside the coroutine that awaits it. `interruptions` bounds how many
      cancellations reach the waiter before the work ends; it is arbitrary. */
  class Job<T(==)> {
    const outcome: Outcome<T>
    var done: bool
    var stopRequested: bool
    var interruptions: nat

    constructor (outcome: Outcome<T>, interruptions: nat)
      ensures !done && !stopRequested && this.outcome == outcome
      ensures this.interruptions == interruptions
    {
      this.outcome := outcome;
      done := false;
      stopRequested := false;
      this.interruptions := interruptions;
    }

    /** `await asyncio.shield(job)`: either the job ends, or a cancellation reaches the waiter while the
        job goes on (it may also end at that very moment). */
    method AwaitShielded() returns (interrupted: bool)
      requires !done
      modifies this`done, this`interruptions
      ensures !interrupted ==> done
      ensures !done ==> interruptions < old(interruptions)
      ensures interruptions <= old(interruptions)
    {
      if interruptions == 0 {
        done := true;
        interrupted := false;
      } else if * {
        interruptions := interruptions - 1;
        if * {
          done := true;
        }
        interrupted := true;
      } else {
        done := true;
        interrupted := false;
      }
    }
  }

  /** Waits for the job to end, swallowing every cancellation that arrives meanwhile. */
  method Join<T>(job: Job<T>)
    modifies job`done, job`interruptions
    ensures job.done
  {
    while !job.done
      decreases !job.done, job.interruptions
    {
      var _ := job.AwaitShielded();
    }
  }

  /** `run_file_work`: never returns, raises or passes on a cancellation while its worker is running.
      When it is cancelled, a worker's own error surfaces; otherwise the cancellation does. */
  method RunFileWork<T>(worker: Job<T>) returns (r: Outcome<T>, interrupted: bool)
    requires !worker.done && !worker.stopRequested
    modifies worker
    ensures worker.done
    ensures worker.stopRequested <==> interrupted || worker.outcome.Cancelled?
    ensures !interrupted ==> r == worker.outcome
    ensures interrupted ==> r == (if worker.outcome.Raised? then worker.outcome else Cancelled)
  {
    interrupted := worker.AwaitShielded();
    if !interrupted && !worker.outcome.Cancelled? {
      return worker.outcome, false;
    }
    worker.stopRequested := true;
    Join(worker);
    if worker.outcome.Raised? {
      return worker.outcome, interrupted;
    }
    return Cancelled, interrupted;
  }
}
