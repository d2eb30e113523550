/** Byte transfer to the native file broker (`HostFiles.write` in `backend/application/host_files.py`).

    The broker is an environment: any call may fail before or after taking effect, replies may be lost or
    malformed, and a cancellation may land at any await. */
module HostFiles {
  import opened Common
  import opened FileWork

  type Byte = b: int | 0 <= b < 256

  const BLOCK_BYTES: nat := 256 * 1024
  const UNKNOWN_TEXT := "Export submission outcome is unknown; verify the target file."

  /** The requests `write` issues once a transfer is open. */
  datatype Call =
    | OpenWrite
    | WriteBlock(transfer: string, offset: nat, content: seq<Byte>)
    | FinishWrite(transfer: string, commit: bool)

  datatype Opened = Opened(transferId: Option<string>, displayName: Option<string>)
  datatype Receipt = Receipt(committed: bool, bytes: nat)

  /** Whether a native commit was ever submitted for this task. */
  class NativeWritePhase {
    var submitted: bool

    constructor ()
      ensures !submitted
    {
      submitted := false;
    }
  }

  /** The broker. `staged` is what it holds for the open transfer, `target` the file the user selected.
      Its contract is what the Python side relies on: acknowledgements and receipts are truthful. */
  class Host {
    ghost var calls: seq<Call>
    var staged: seq<Byte>
    var target: seq<Byte>

    constructor (target: seq<Byte>)
      ensures calls == [] && this.target == target
    {
      calls := [];
      staged := [];
      this.target := target;
    }

    method Open(token: CancellationToken) returns (r: Outcome<Opened>)
      modifies this, token
      ensures calls == old(calls) + [OpenWrite]
      ensures target == old(target)
      ensures r.Returned? && r.value.transferId.Some? ==> staged == []
      ensures token.failures == old(token.failures) ==>
                r.Returned? && r.value.transferId.Some? && r.value.displayName.Some?
      ensures token.Since(old(token.cancelled), old(token.failures))
    {
      calls := calls + [OpenWrite];
      token.Elsewhere();
      staged := [];
      r := *;
      if !(r.Returned? && r.value.transferId.Some? && r.value.displayName.Some?) {
        token.Fail();
      }
    }

    /** Appends the block if it continues what is staged, or does nothing; reports the staged length. */
    method Write(transfer: string, offset: nat, content: seq<Byte>, token: CancellationToken)
      returns (r: Outcome<nat>)
      modifies this, token
      ensures calls == old(calls) + [WriteBlock(transfer, offset, content)]
      ensures target == old(target)
      ensures staged == old(staged) || (offset == |old(staged)| && staged == old(staged) + content)
      ensures r.Returned? ==> r.value == |staged|
      ensures token.failures == old(token.failures) ==>
                r.Returned? && (offset == |old(staged)| ==> staged == old(staged) + content)
      ensures token.Since(old(token.cancelled), old(token.failures))
    {
      calls := calls + [WriteBlock(transfer, offset, content)];
      token.Elsewhere();
      var taken: bool := *;
      var missed := offset == |staged| && !taken;
      if offset == |staged| && taken {
        staged := staged + content;
      }
      r := *;
      if r.Returned? {
        r := Returned(|staged|);
      }
      if !r.Returned? || missed {
        token.Fail();
      }
    }

    /** Ends the transfer. Only a committing finish can replace the target, and a confirming receipt means
        that it did. */
    method Finish(transfer: string, commit: bool, token: CancellationToken) returns (r: Outcome<Receipt>)
      modifies this, token
      ensures calls == old(calls) + [FinishWrite(transfer, commit)]
      ensures target == old(target) || (commit && target == old(staged))
      ensures r.Returned? && r.value.committed && commit ==>
                target == old(staged) && r.value.bytes == |old(staged)|
      ensures token.failures == old(token.failures) ==> r.Returned? && (commit ==> r.value.committed)
      ensures token.Since(old(token.cancelled), old(token.failures))
    {
      calls := calls + [FinishWrite(transfer, commit)];
      token.Elsewhere();
      r := *;
      if commit {
        if r.Returned? && r.value.committed {
          target := staged;
          r := Returned(Receipt(true, |staged|));
        } else if * {
          target := staged;
        }
      }
      if !r.Returned? || (commit && !r.value.committed) {
        token.Fail();
      }
    }
  }

  // ---------------------------------------------------------------- specification

  /** Where the read cursor stands after one block. */
  function NextOffset(spool: seq<Byte>, offset: nat): nat {
    if offset + BLOCK_BYTES <= |spool| then offset + BLOCK_BYTES else |spool|
  }

  /** The block requests for everything from `offset` on. */
  function Blocks(transfer: string, spool: seq<Byte>, offset: nat): seq<Call>
    requires offset <= |spool|
    decreases |spool| - offset
  {
    if offset == |spool| then []
    else
      var next := NextOffset(spool, offset);
      [WriteBlock(transfer, offset, spool[offset..next])] + Blocks(transfer, spool, next)
  }

  /** The bytes a sequence of block requests carries. */
  function Carried(calls: seq<Call>): seq<Byte> {
    if calls == [] then []
    else (if calls[0].WriteBlock? then calls[0].content else []) + Carried(calls[1..])
  }

  /** The blocks concatenate to the spool, each starting where the previous one ended; all but the
      last are full. */
  lemma {:induction false} BlocksCarrySpool(transfer: string, spool: seq<Byte>, offset: nat)
    requires offset <= |spool|
    ensures Carried(Blocks(transfer, spool, offset)) == spool[offset..]
    ensures forall i :: 0 <= i < |Blocks(transfer, spool, offset)| ==>
              var c := Blocks(transfer, spool, offset)[i];
              && c.WriteBlock? && c.transfer == transfer && 0 < |c.content| <= BLOCK_BYTES
              && c.offset == offset + |Carried(Blocks(transfer, spool, offset)[..i])|
              && (i < |Blocks(transfer, spool, offset)| - 1 ==> |c.content| == 262144)
    decreases |spool| - offset
  {
    if offset < |spool| {
      var next := NextOffset(spool, offset);
      var all, rest := Blocks(transfer, spool, offset), Blocks(transfer, spool, next);
      BlocksCarrySpool(transfer, spool, next);
      assert all[1..] == rest;
      assert spool[offset..] == spool[offset..next] + spool[next..];
      forall i | 0 <= i < |all|
        ensures all[i].WriteBlock? && all[i].transfer == transfer && 0 < |all[i].content| <= BLOCK_BYTES
        ensures all[i].offset == offset + |Carried(all[..i])|
        ensures i < |all| - 1 ==> |all[i].content| == 262144
      {
        if i > 0 {
          assert all[..i][1..] == rest[..i - 1];
          assert all[i] == rest[i - 1];
        }
      }
    }
  }

  /** The requests of one transfer: some of the spool's blocks in order, then a single finish and nothing
      after it. A commit is issued only after every block. */
  ghost predicate TransferRequests(calls: seq<Call>, transfer: string, spool: seq<Byte>, commit: bool) {
    exists sent :: Requests(calls, transfer, spool, commit, sent)
  }

  ghost predicate Requests(calls: seq<Call>, transfer: string, spool: seq<Byte>, commit: bool, sent: nat) {
    var all := Blocks(transfer, spool, 0);
    && sent <= |all|
    && (commit ==> sent == |all|)
    && calls == all[..sent] + [FinishWrite(transfer, commit)]
  }

  /** A native commit was submitted. */
  ghost predicate CommitIssued(calls: seq<Call>) {
    exists c :: c in calls && c.FinishWrite? && c.commit
  }

  ghost predicate FinishIssued(calls: seq<Call>) {
    exists c :: c in calls && c.FinishWrite?
  }

  lemma {:induction false} BlocksWrite(transfer: string, spool: seq<Byte>, offset: nat)
    requires offset <= |spool|
    ensures forall c :: c in Blocks(transfer, spool, offset) ==> c.WriteBlock?
    decreases |spool| - offset
  {
    if offset < |spool| { BlocksWrite(transfer, spool, NextOffset(spool, offset)); }
  }

  lemma {:induction false} RequestsCommit(calls: seq<Call>, transfer: string, spool: seq<Byte>, commit: bool)
    requires TransferRequests(calls, transfer, spool, commit)
    ensures CommitIssued(calls) <==> commit
    ensures FinishIssued(calls) && !FinishIssued(calls[..|calls| - 1])
  {
    BlocksWrite(transfer, spool, 0);
    var sent: nat :| Requests(calls, transfer, spool, commit, sent);
    var sentBlocks := Blocks(transfer, spool, 0)[..sent];
    var last := FinishWrite(transfer, commit);
    assert calls == sentBlocks + [last] && calls[..|calls| - 1] == sentBlocks;
    assert forall c :: c in sentBlocks ==> c in Blocks(transfer, spool, 0);
    assert last in calls;
    assert forall c :: c in calls ==> c == last || c in calls[..|calls| - 1];
  }

  // ---------------------------------------------------------------- the protocol

  /** Sends the spool block by block until it is drained, a call fails or a cancellation is seen. */
  method SendBlocks(host: Host, token: CancellationToken, observed: bool, transfer: string, spool: seq<Byte>)
    returns (r: Outcome<nat>, ghost sent: nat)
    requires host.staged == []
    modifies host, token
    ensures sent <= |Blocks(transfer, spool, 0)|
    ensures host.calls == old(host.calls) + Blocks(transfer, spool, 0)[..sent]
    ensures host.target == old(host.target)
    ensures token.Since(old(token.cancelled), old(token.failures))
    ensures r.Returned? ==>
              sent == |Blocks(transfer, spool, 0)| && r.value == |spool| && host.staged == spool
    ensures observed && old(token.cancelled) ==> spool != [] ==> r.Cancelled?
    ensures token.Quiet(old(token.failures)) ==> r.Returned?
  {
    ghost var all := Blocks(transfer, spool, 0);
    var offset: nat := 0;
    sent := 0;
    while offset < |spool|
      invariant offset <= |spool| && sent <= |all|
      invariant all[sent..] == Blocks(transfer, spool, offset)
      invariant host.calls == old(host.calls) + all[..sent]
      invariant host.staged == spool[..offset] && host.target == old(host.target)
      invariant token.Since(old(token.cancelled), old(token.failures))
      invariant observed && old(token.cancelled) ==> offset == 0
      decreases |spool| - offset
    {
      var next := NextOffset(spool, offset);
      if observed && token.cancelled {
        return Cancelled, sent;
      }
      ghost var rest := all[sent..];
      assert all[sent] == rest[0] == WriteBlock(transfer, offset, spool[offset..next]);
      assert all[sent + 1..] == rest[1..];
      assert all[..sent + 1] == all[..sent] + [all[sent]];
      var receipt := host.Write(transfer, offset, spool[offset..next], token);
      sent := sent + 1;
      if !receipt.Returned? {
        return (if receipt.Cancelled? then Cancelled else Raised(receipt.code, receipt.text)), sent;
      }
      assert spool[..offset] + spool[offset..next] == spool[..next];
      offset := next;
      if receipt.value != offset {
        return Raised("", "Host file write acknowledgement mismatch"), sent;
      }
    }
    assert all[sent..] == [];
    assert spool[..|spool|] == spool;
    return Returned(offset), sent;
  }

  /** Submits the commit and waits for its outcome; cancellations meanwhile are swallowed. */
  method Commit(host: Host, phase: NativeWritePhase, token: CancellationToken, transfer: string, offset: nat)
    returns (r: Outcome<()>)
    modifies host, phase, token
    ensures phase.submitted
    ensures host.calls == old(host.calls) + [FinishWrite(transfer, true)]
    ensures host.target == old(host.target) || host.target == old(host.staged)
    ensures r.Returned? ==> host.target == old(host.staged) && offset == |host.target|
    ensures r.Raised? ==> r == Raised("export_outcome_unknown", UNKNOWN_TEXT)
    ensures offset == |old(host.staged)| && token.failures == old(token.failures) ==> r.Returned?
    ensures token.Since(old(token.cancelled), old(token.failures))
  {
    phase.submitted := true;
    var outcome := host.Finish(transfer, true, token);
    var interruptions: nat := *;
    var commit := new Job<Receipt>(outcome, interruptions);
    Join(commit);
    match commit.outcome {
      case Returned(receipt) =>
        if receipt.committed && receipt.bytes == offset {
          return Returned(());
        }
        return Raised("export_outcome_unknown", UNKNOWN_TEXT);
      case Raised(_, _) =>
        return Raised("export_outcome_unknown", UNKNOWN_TEXT);
      case Cancelled =>
        return Cancelled;
    }
  }

  /** Everything `write` does once its body has ended: `body` holds the spooled bytes, or how the body
      failed. Exactly one finish is issued; only a fully acknowledged spool is committed. */
  method EndWrite(host: Host, phase: NativeWritePhase, token: CancellationToken, observed: bool,
                  transfer: string, body: Outcome<seq<Byte>>)
    returns (r: Outcome<()>, ghost commit: bool)
    requires host.staged == []
    modifies host, phase, token
    ensures var spool := if body.Returned? then body.value else [];
            exists requests :: host.calls == old(host.calls) + requests
                               && TransferRequests(requests, transfer, spool, commit)
    ensures phase.submitted == (old(phase.submitted) || commit)
    ensures commit ==> body.Returned? && (host.target == old(host.target) || host.target == body.value)
    ensures !commit ==> host.target == old(host.target) && !r.Returned?
    ensures r.Returned? ==> host.target == body.value
    ensures commit && r.Raised? ==> r == Raised("export_outcome_unknown", UNKNOWN_TEXT)
    ensures observed && old(token.cancelled) ==> !commit
    ensures body.Returned? && token.Quiet(old(token.failures)) ==> commit && r.Returned?
    ensures !body.Returned? && token.failures == old(token.failures) ==>
              r == if body.Cancelled? then Cancelled else Raised(body.code, body.text)
    ensures token.Since(old(token.cancelled), old(token.failures))
  {
    ghost var spool := if body.Returned? then body.value else [];
    ghost var all := Blocks(transfer, spool, 0);
    ghost var sent: nat := 0;
    r := Cancelled;
    commit := false;
    var finishing := false;
    if body.Returned? {
      var drained, n := SendBlocks(host, token, observed, transfer, body.value);
      sent := n;
      var closed: bool := *;
      if !closed {
        token.Fail();
      }
      if !drained.Returned? {
        r := if drained.Cancelled? then Cancelled else Raised(drained.code, drained.text);
      } else if observed && token.cancelled {
        r := Cancelled;
      } else if !closed {
        r := Raised("", "closing the spool failed");
      } else {
        finishing := true;
        commit := true;
        ghost var before := host.calls;
        r := Commit(host, phase, token, transfer, drained.value);
        assert host.calls == old(host.calls) + (all[..sent] + [FinishWrite(transfer, true)]);
      }
    } else {
      r := if body.Cancelled? then Cancelled else Raised(body.code, body.text);
    }
    if !finishing {
      var aborted := host.Finish(transfer, false, token);
      assert host.calls == old(host.calls) + (all[..sent] + [FinishWrite(transfer, false)]);
      if !aborted.Returned? {
        r := if aborted.Cancelled? then Cancelled else Raised(aborted.code, aborted.text);
      }
    }
    ghost var requests := all[..sent] + [FinishWrite(transfer, commit)];
    assert Requests(requests, transfer, spool, commit, sent);
  }
}
