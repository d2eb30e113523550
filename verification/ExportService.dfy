/** The export itself: page through the query, encode the rows into the spool, hand the spool to the Host
    (`export`, `_export_csv`, `_export_xlsx`, `_export_with_lookups` in
    `backend/application/export_service.py`). */
module ExportService {
  import opened Common
  import opened FileWork
  import opened HostFiles
  import opened Paging
  import opened TaskStatus

  datatype LookupColumn = LookupColumn(lookupId: string, fieldKey: string)
  datatype LookupPage = LookupPage(page: Page, columns: seq<LookupColumn>, lookupRevision: string)

  datatype Request = Request(lookupIds: set<string>, lookupRevision: string, xlsx: bool, baseColumns: seq<string>)

  /** The query port and the Lookup provider. Tables may change between any two pages; all that is promised
      is that a page which names an identity holds that view's window. `fullPages` bounds how many full
      pages a Lookup provider goes on to return; it is arbitrary. */
  class QueryPort {
    const full: Identity -> seq<Row>
    ghost var pages: seq<Page>
    ghost var replies: seq<LookupPage>
    var fullPages: nat

    constructor (full: Identity -> seq<Row>, fullPages: nat)
      ensures pages == [] && replies == [] && this.full == full
    {
      this.full := full;
      pages := [];
      replies := [];
      this.fullPages := fullPages;
    }

    method QueryPage(offset: nat, token: CancellationToken) returns (r: Outcome<Page>)
      modifies this, token
      ensures token.failures == old(token.failures) ==> r.Returned?
      ensures r.Returned? ==> pages == old(pages) + [r.value] && Answers(r.value, full, offset)
      ensures r.Returned? ==> r.value.snapshot.Some?
      ensures !r.Returned? ==> pages == old(pages)
      ensures token.Since(old(token.cancelled), old(token.failures))
    {
      token.Elsewhere();
      r := *;
      if r.Returned? {
        var snapshot: Snapshot := *;
        r := Returned(Honest(r.value.(snapshot := Some(snapshot)), offset));
        pages := pages + [r.value];
      } else {
        token.Fail();
      }
    }

    method QueryLookupPage(offset: nat, token: CancellationToken) returns (r: Outcome<LookupPage>)
      modifies this, token
      ensures r.Returned? ==> pages == old(pages) + [r.value.page] && Answers(r.value.page, full, offset)
      ensures r.Returned? ==> replies == old(replies) + [r.value]
      ensures !r.Returned? ==> pages == old(pages) && replies == old(replies)
      ensures fullPages <= old(fullPages)
      ensures r.Returned? && |r.value.page.rows| >= EXPORT_PAGE_SIZE ==> fullPages < old(fullPages)
      ensures token.failures == old(token.failures) ==> r.Returned?
      ensures token.Since(old(token.cancelled), old(token.failures))
    {
      token.Elsewhere();
      r := *;
      if r.Returned? {
        var page := Honest(r.value.page, offset);
        var long := |page.rows| >= EXPORT_PAGE_SIZE;
        if long && fullPages == 0 {
          r := Raised("", "no more pages");
        } else {
          if long {
            fullPages := fullPages - 1;
          }
          r := Returned(r.value.(page := page));
          pages := pages + [page];
          replies := replies + [r.value];
        }
      }
      if !r.Returned? {
        token.Fail();
      }
    }

    function Honest(page: Page, offset: nat): (p: Page)
      ensures Answers(p, full, offset) && p.snapshot == page.snapshot
    {
      if page.snapshot.Some? && SnapshotIdentity(page.snapshot.value).Success? then
        page.(rows := Window(full(SnapshotIdentity(page.snapshot.value).value), offset, EXPORT_PAGE_SIZE))
      else page
    }
  }

  /** Encoding one page, or saving the workbook, in a worker thread: it finishes, fails or is cancelled. */
  method RunWork(count: nat, token: CancellationToken) returns (r: Outcome<nat>)
    modifies token
    ensures r.Returned? ==> r.value == count
    ensures token.failures == old(token.failures) ==> r.Returned?
    ensures token.Since(old(token.cancelled), old(token.failures))
  {
    token.Elsewhere();
    var outcome: Outcome<nat> := *;
    if outcome.Returned? {
      outcome := Returned(count);
    }
    var interruptions: nat := *;
    var worker := new Job<nat>(outcome, interruptions);
    var interrupted;
    r, interrupted := RunFileWork(worker);
    if !r.Returned? {
      token.Fail();
    }
  }

  function Failing<T, U>(o: Outcome<T>): (r: Outcome<U>)
    requires !o.Returned?
    ensures r == if o.Cancelled? then Cancelled else Raised(o.code, o.text)
  {
    match o case Raised(code, text) => Raised(code, text) case Cancelled => Cancelled
  }

  /** Every page so far was full and accepted, and its rows are written. */
  ghost predicate Underway(pages: seq<Page>, full: Identity -> seq<Row>, rows: seq<Row>, binding: Option<Identity>) {
    && Fetched(pages, full) && BindAll(pages) == Success(binding) && rows == RowsOf(pages)
    && (forall i :: 0 <= i < |pages| ==> |pages[i].rows| >= EXPORT_PAGE_SIZE)
  }

  lemma {:induction false} PageAccepted(pages: seq<Page>, full: Identity -> seq<Row>, rows: seq<Row>,
                                        binding: Option<Identity>, page: Page)
    requires Underway(pages, full, rows, binding) && BindSnapshot(binding, page).Success?
    requires Answers(page, full, |pages| * EXPORT_PAGE_SIZE)
    ensures var all, bound := pages + [page], BindSnapshot(binding, page).value;
            && BindAll(all) == Success(bound) && RowsOf(all) == rows + page.rows
            && (|page.rows| < EXPORT_PAGE_SIZE ==> Complete(all, full))
            && (|page.rows| >= EXPORT_PAGE_SIZE ==> Underway(all, full, rows + page.rows, bound))
  {
    var all := pages + [page];
    assert all[..|all| - 1] == pages;
    assert Fetched(all, full);
  }

  /** The record plane so far: every page full, and the bound view long enough to hold them. */
  ghost predicate Bound(pages: seq<Page>, full: Identity -> seq<Row>, rows: seq<Row>, binding: Option<Identity>) {
    && Underway(pages, full, rows, binding)
    && (pages == [] ==> binding.None?)
    && (pages != [] ==>
          pages[0].snapshot.Some? && binding.Some? && |pages| * EXPORT_PAGE_SIZE <= |full(binding.value)|)
  }

  /** Where the next page starts. */
  function Offset(pages: seq<Page>): nat {
    |pages| * EXPORT_PAGE_SIZE
  }

  /** How much of the bound view is left. */
  ghost function Remaining(full: Identity -> seq<Row>, binding: Option<Identity>, pages: seq<Page>): int {
    if binding.Some? then |full(binding.value)| - Offset(pages) else 0
  }

  /** A full page binds the fetch, and then leaves fewer rows to fetch. */
  ghost predicate Nears(full: Identity -> seq<Row>, before: seq<Page>, binding: Option<Identity>,
                        after: seq<Page>, bound: Option<Identity>)
  {
    && bound.Some? && 0 <= Remaining(full, bound, after)
    && (binding.Some? ==> Remaining(full, bound, after) < Remaining(full, binding, before))
  }

  /** One more page: a short one completes the fetch, a full one leaves fewer rows to fetch. */
  ghost predicate Grown(pages: seq<Page>, full: Identity -> seq<Row>, rows: seq<Row>, page: Page,
                        bound: Option<Identity>)
  {
    && pages != [] && pages[0].snapshot.Some? && RowsOf(pages) == rows + page.rows
    && (|page.rows| < EXPORT_PAGE_SIZE ==> Complete(pages, full))
    && (|page.rows| >= EXPORT_PAGE_SIZE ==> Bound(pages, full, rows + page.rows, bound))
  }

  lemma {:induction false} RecordPageAccepted(pages: seq<Page>, full: Identity -> seq<Row>, rows: seq<Row>,
                                              binding: Option<Identity>, page: Page)
    requires Bound(pages, full, rows, binding) && BindSnapshot(binding, page).Success? && page.snapshot.Some?
    requires Answers(page, full, |pages| * EXPORT_PAGE_SIZE)
    ensures var bound := BindSnapshot(binding, page).value;
            && Grown(pages + [page], full, rows, page, bound)
            && (|page.rows| >= EXPORT_PAGE_SIZE ==> Nears(full, pages, binding, pages + [page], bound))
  {
    PageAccepted(pages, full, rows, binding, page);
    var all, bound := pages + [page], BindSnapshot(binding, page).value;
    if |page.rows| >= EXPORT_PAGE_SIZE {
      BoundPagesCarrySnapshots(all, |pages|);
      WindowFits(full(bound.value), |pages| * EXPORT_PAGE_SIZE);
    }
  }

  /** Fetches the next page of the record plane and binds it. */
  method NextPage(port: QueryPort, offset: nat, binding: Option<Identity>, token: CancellationToken)
    returns (r: Outcome<Page>, bound: Option<Identity>)
    modifies port, token
    ensures token.Since(old(token.cancelled), old(token.failures))
    ensures r.Returned? ==>
              && port.pages == old(port.pages) + [r.value] && r.value.snapshot.Some?
              && Answers(r.value, port.full, offset) && BindSnapshot(binding, r.value) == Success(bound)
    ensures !r.Returned? && token.failures == old(token.failures) ==>
              exists page :: port.pages == old(port.pages) + [page] && BindSnapshot(binding, page).Failure?
                             && r == Raised(BindSnapshot(binding, page).error, "")
  {
    bound := None;
    r := port.QueryPage(offset, token);
    if r.Returned? {
      var b := BindSnapshot(binding, r.value);
      if b.Failure? {
        r := Raised(b.error, "");
      } else {
        bound := b.value;
      }
    }
  }

  /** Encodes one page between two progress reports. */
  method EncodePage(sink: StatusSink, reporter: ProgressReporter, token: CancellationToken,
                    written: nat, rows: seq<Row>, before: nat, after: nat)
    returns (r: Outcome<nat>)
    requires RunningUpTo(sink.emitted, reporter.done)
    modifies sink, reporter, token
    ensures RunningUpTo(sink.emitted, reporter.done)
    ensures token.Since(old(token.cancelled), old(token.failures))
    ensures r.Returned? ==> r.value == written + |rows|
    ensures token.failures == old(token.failures) ==> r.Returned?
  {
    var told := reporter.Report(sink, token, Some(written), Some(before));
    if !told.Returned? {
      return Failing(told);
    }
    var encoded := RunWork(|rows|, token);
    if !encoded.Returned? {
      return Failing(encoded);
    }
    told := reporter.Report(sink, token, Some(written + encoded.value), Some(after));
    if !told.Returned? {
      return Failing(told);
    }
    return Returned(written + encoded.value);
  }

  /** Binding fails at the last page. */
  lemma {:induction false} BindFails(pages: seq<Page>, page: Page)
    requires BindAll(pages).Success? && BindSnapshot(BindAll(pages).value, page).Failure?
    ensures BindAll(pages + [page]) == Failure(BindSnapshot(BindAll(pages).value, page).error)
  {
    assert (pages + [page])[..|pages|] == pages;
  }

  /** The pages fetched so far cannot be bound together, and this is the error. */
  ghost predicate Unbindable<T>(pages: seq<Page>, r: Outcome<T>) {
    BindAll(pages).Failure? && r == Raised(BindAll(pages).error, "")
  }

  /** One turn of the loop: fetch, bind, encode. */
  method RecordPage(port: QueryPort, sink: StatusSink, reporter: ProgressReporter, token: CancellationToken,
                    ghost rows: seq<Row>, binding: Option<Identity>, offset: nat, written: nat, estimate: nat)
    returns (r: Outcome<Page>, bound: Option<Identity>, total: nat)
    requires Bound(port.pages, port.full, rows, binding) && offset == Offset(port.pages)
    requires RunningUpTo(sink.emitted, reporter.done)
    modifies port, sink, reporter, token
    ensures RunningUpTo(sink.emitted, reporter.done)
    ensures token.Since(old(token.cancelled), old(token.failures))
    ensures r.Returned? ==> Grown(port.pages, port.full, rows, r.value, bound)
    ensures r.Returned? && |r.value.rows| >= EXPORT_PAGE_SIZE ==>
              && Offset(port.pages) == offset + EXPORT_PAGE_SIZE
              && Nears(port.full, old(port.pages), binding, port.pages, bound)
    ensures !r.Returned? && token.failures == old(token.failures) ==> Unbindable(port.pages, r)
  {
    total := estimate;
    ghost var pages := port.pages;
    r, bound := NextPage(port, offset, binding, token);
    if !r.Returned? {
      if page :| port.pages == pages + [page] && BindSnapshot(binding, page).Failure? {
        BindFails(pages, page);
      }
      return;
    }
    RecordPageAccepted(pages, port.full, rows, binding, r.value);
    if offset == 0 {
      total := r.value.filteredRows;
    }
    var encoded := EncodePage(sink, reporter, token, written, r.value.rows, r.value.filteredRows, total);
    if !encoded.Returned? {
      r := Failing(encoded);
    }
  }

  /** The paging loop of `_export_csv` and `_export_xlsx`. It ends normally after a short page, or early
      because the token was set. */
  method RecordPages(port: QueryPort, sink: StatusSink, reporter: ProgressReporter, token: CancellationToken)
    returns (r: Outcome<nat>, rows: seq<Row>)
    requires port.pages == [] && RunningUpTo(sink.emitted, reporter.done)
    modifies port, sink, reporter, token
    ensures RunningUpTo(sink.emitted, reporter.done)
    ensures token.Since(old(token.cancelled), old(token.failures))
    ensures r.Returned? ==> r.value == |rows|
    ensures r.Returned? && !token.cancelled ==>
              Complete(port.pages, port.full) && port.pages[0].snapshot.Some? && rows == RowsOf(port.pages)
    ensures !r.Returned? && token.failures == old(token.failures) ==> Unbindable(port.pages, r)
  {
    var written, offset, estimate := 0, 0, 0;
    var binding: Option<Identity> := None;
    rows := [];
    while !token.cancelled
      invariant offset == Offset(port.pages) && written == |rows|
      invariant Bound(port.pages, port.full, rows, binding)
      invariant RunningUpTo(sink.emitted, reporter.done)
      invariant token.Since(old(token.cancelled), old(token.failures))
      decreases binding.None?, Remaining(port.full, binding, port.pages)
    {
      var reply, bound, total := RecordPage(port, sink, reporter, token, rows, binding, offset, written, estimate);
      if !reply.Returned? {
        return Failing(reply), rows;
      }
      rows := rows + reply.value.rows;
      written := written + |reply.value.rows|;
      if |reply.value.rows| < EXPORT_PAGE_SIZE {
        return Returned(written), rows;
      }
      binding, estimate := bound, total;
      offset := offset + EXPORT_PAGE_SIZE;
    }
    return Returned(written), rows;
  }

  /** The checks on the first Lookup page; a failing one aborts the export. */
  function LookupHeader(request: Request, reply: LookupPage): Result<seq<string>> {
    var ids := set i | 0 <= i < |reply.columns| :: reply.columns[i].lookupId;
    var keys := seq(|reply.columns|, i requires 0 <= i < |reply.columns| => reply.columns[i].fieldKey);
    if ids != request.lookupIds then Failure("lookup_export_columns_mismatch")
    else if reply.lookupRevision != request.lookupRevision then Failure("lookup_revision_mismatch")
    else
      var bound := BindSnapshot(None, reply.page);
      if bound.Failure? then Failure(bound.error)
      else if |keys| != |set k | k in keys| then Failure("lookup_export_columns_invalid")
      else Success(request.baseColumns + Absent(keys, request.baseColumns))
  }

  function Absent(keys: seq<string>, present: seq<string>): seq<string> {
    if keys == [] then []
    else (if keys[0] in present then [] else [keys[0]]) + Absent(keys[1..], present)
  }

  /** The columns come from the first page of the fetch. */
  ghost predicate HeaderOf(request: Request, pages: seq<Page>, columns: seq<string>) {
    pages != [] && exists first :: HeaderFrom(request, first, pages[0], columns)
  }

  ghost predicate HeaderFrom(request: Request, first: LookupPage, page: Page, columns: seq<string>) {
    first.page == page && LookupHeader(request, first) == Success(columns)
  }

  lemma {:induction false} SetOfDistinct(s: seq<string>)
    ensures |set k | k in s| <= |s|
    ensures |set k | k in s| == |s| <==> NoDuplicates(s)
  {
    if s != [] {
      var init, last := s[..|s| - 1], s[|s| - 1];
      SetOfDistinct(init);
      assert s == init + [last];
      assert (set k | k in s) == (set k | k in init) + {last};
    }
  }

  lemma {:induction false} AbsentFacts(keys: seq<string>, present: seq<string>)
    ensures forall c :: c in Absent(keys, present) <==> c in keys && c !in present
    ensures NoDuplicates(keys) ==> NoDuplicates(Absent(keys, present))
  {
    if keys != [] {
      AbsentFacts(keys[1..], present);
      assert keys == [keys[0]] + keys[1..];
    }
  }

  ghost predicate HasKey(first: LookupPage, c: string) {
    exists i :: 0 <= i < |first.columns| && first.columns[i].fieldKey == c
  }

  /** An accepted first Lookup page yields the base columns followed by exactly the provider's keys that are
      new, none of them twice. */
  lemma {:induction false} HeaderComplete(request: Request, first: LookupPage, columns: seq<string>)
    requires LookupHeader(request, first) == Success(columns)
    ensures request.baseColumns <= columns
    ensures forall c :: c in columns <==> c in request.baseColumns || HasKey(first, c)
    ensures NoDuplicates(request.baseColumns) ==> NoDuplicates(columns)
    ensures first.lookupRevision == request.lookupRevision
    ensures forall id :: id in request.lookupIds <==>
              exists i :: 0 <= i < |first.columns| && first.columns[i].lookupId == id
  {
    var keys := seq(|first.columns|, i requires 0 <= i < |first.columns| => first.columns[i].fieldKey);
    SetOfDistinct(keys);
    AbsentFacts(keys, request.baseColumns);
    var added := Absent(keys, request.baseColumns);
    forall i, j | 0 <= i < j < |columns| && NoDuplicates(request.baseColumns) ensures columns[i] != columns[j] {
      if j >= |request.baseColumns| {
        assert columns[j] == added[j - |request.baseColumns|] && columns[j] in added;
      }
    }
    forall c ensures c in keys <==> HasKey(first, c) {
      if i :| 0 <= i < |first.columns| && first.columns[i].fieldKey == c {
        assert keys[i] == c;
      }
    }
  }

  /** The provider's columns carry different keys. */
  ghost predicate KeysDiffer(reply: LookupPage) {
    forall i, j :: 0 <= i < j < |reply.columns| ==> reply.columns[i].fieldKey != reply.columns[j].fieldKey
  }

  ghost predicate Describes(reply: LookupPage, lookupIds: set<string>) {
    forall id :: id in lookupIds <==> exists i :: 0 <= i < |reply.columns| && reply.columns[i].lookupId == id
  }

  lemma {:induction false} IdsDescribed(reply: LookupPage, lookupIds: set<string>)
    ensures (set i | 0 <= i < |reply.columns| :: reply.columns[i].lookupId) == lookupIds <==>
            Describes(reply, lookupIds)
  {
    var ids := set i | 0 <= i < |reply.columns| :: reply.columns[i].lookupId;
    assert forall id :: id in ids <==> exists i :: 0 <= i < |reply.columns| && reply.columns[i].lookupId == id;
  }

  lemma {:induction false} KeysDistinct(reply: LookupPage)
    ensures var keys := seq(|reply.columns|, i requires 0 <= i < |reply.columns| => reply.columns[i].fieldKey);
            |keys| == |set k | k in keys| <==> KeysDiffer(reply)
  {
    var keys := seq(|reply.columns|, i requires 0 <= i < |reply.columns| => reply.columns[i].fieldKey);
    SetOfDistinct(keys);
    assert NoDuplicates(keys) ==> KeysDiffer(reply) by {
      assert forall i :: 0 <= i < |keys| ==> keys[i] == reply.columns[i].fieldKey;
    }
  }

  /** Exactly when a first Lookup page is accepted. */
  lemma {:induction false} HeaderAccepted(request: Request, reply: LookupPage)
    ensures LookupHeader(request, reply).Success? <==>
              && Describes(reply, request.lookupIds) && reply.lookupRevision == request.lookupRevision
              && Acceptable(reply.page) && KeysDiffer(reply)
  {
    IdsDescribed(reply, request.lookupIds);
    KeysDistinct(reply);
    assert BindSnapshot(None, reply.page).Success? <==> Acceptable(reply.page);
  }

  ghost predicate RevisionsHold(request: Request, replies: seq<LookupPage>) {
    forall i :: 0 <= i < |replies| ==> replies[i].lookupRevision == request.lookupRevision
  }

  /** Nothing the provider answered is a reason to refuse the export. */
  ghost predicate LookupsGood(request: Request, replies: seq<LookupPage>, pages: seq<Page>) {
    && replies != [] && LookupHeader(request, replies[0]).Success? && RevisionsHold(request, replies)
    && BindAll(pages).Success?
  }

  /** The first Lookup page, its checks and the columns it gives the export. */
  method FirstLookupPage(port: QueryPort, token: CancellationToken, request: Request)
    returns (r: Outcome<Page>, columns: seq<string>)
    requires port.pages == [] && port.replies == []
    modifies port, token
    ensures token.Since(old(token.cancelled), old(token.failures))
    ensures r.Returned? ==>
              && port.pages == [r.value] && Answers(r.value, port.full, 0) && BindSnapshot(None, r.value).Success?
              && HeaderOf(request, [r.value], columns)
              && |port.replies| == 1 && LookupHeader(request, port.replies[0]).Success?
              && RevisionsHold(request, port.replies)
    ensures !r.Returned? && token.failures == old(token.failures) ==>
              |port.replies| == 1 && LookupHeader(request, port.replies[0]).Failure?
              && r == Raised(LookupHeader(request, port.replies[0]).error, "")
  {
    columns := [];
    var reply := port.QueryLookupPage(0, token);
    if !reply.Returned? {
      return Failing(reply), columns;
    }
    var header := LookupHeader(request, reply.value);
    if header.Failure? {
      return Raised(header.error, ""), columns;
    }
    columns := header.value;
    assert HeaderFrom(request, reply.value, [reply.value.page][0], columns);
    return Returned(reply.value.page), columns;
  }

  /** Fetches the next Lookup page, checks its revision and binds it. */
  method NextLookupPage(port: QueryPort, offset: nat, binding: Option<Identity>, token: CancellationToken,
                        request: Request)
    returns (r: Outcome<Page>, bound: Option<Identity>)
    requires RevisionsHold(request, port.replies) && BindAll(port.pages) == Success(binding)
    modifies port, token
    ensures token.Since(old(token.cancelled), old(token.failures))
    ensures port.fullPages <= old(port.fullPages)
    ensures r.Returned? && |r.value.rows| >= EXPORT_PAGE_SIZE ==> port.fullPages < old(port.fullPages)
    ensures old(port.replies) <= port.replies
    ensures r.Returned? ==>
              && port.pages == old(port.pages) + [r.value] && RevisionsHold(request, port.replies)
              && Answers(r.value, port.full, offset) && BindSnapshot(binding, r.value) == Success(bound)
    ensures !r.Returned? && token.failures == old(token.failures) ==>
              !RevisionsHold(request, port.replies) || BindAll(port.pages).Failure?
  {
    bound := None;
    var reply := port.QueryLookupPage(offset, token);
    if !reply.Returned? {
      return Failing(reply), bound;
    }
    if reply.value.lookupRevision != request.lookupRevision {
      assert port.replies[|port.replies| - 1] == reply.value;
      return Raised("lookup_revision_mismatch", ""), bound;
    }
    var b := BindSnapshot(binding, reply.value.page);
    if b.Failure? {
      BindFails(old(port.pages), reply.value.page);
      return Raised(b.error, ""), bound;
    }
    return Returned(reply.value.page), b.value;
  }

  /** The page just fetched is accepted but its rows are not written yet. */
  ghost predicate Pending(pages: seq<Page>, full: Identity -> seq<Row>, rows: seq<Row>, page: Page,
                          binding: Option<Identity>)
  {
    && pages != [] && pages[|pages| - 1] == page
    && BindAll(pages) == Success(binding) && RowsOf(pages) == rows + page.rows
    && (|page.rows| < EXPORT_PAGE_SIZE ==> Complete(pages, full))
    && (|page.rows| >= EXPORT_PAGE_SIZE ==> Underway(pages, full, rows + page.rows, binding))
  }

  /** The loop of `_export_with_lookups`, from an accepted first page on. */
  method LookupLoop(port: QueryPort, sink: StatusSink, reporter: ProgressReporter, token: CancellationToken,
                    request: Request, first: Page)
    returns (r: Outcome<nat>, rows: seq<Row>)
    requires port.pages == [first] && Answers(first, port.full, 0) && BindSnapshot(None, first).Success?
    requires |port.replies| == 1 && LookupHeader(request, port.replies[0]).Success?
    requires RevisionsHold(request, port.replies) && RunningUpTo(sink.emitted, reporter.done)
    modifies port, sink, reporter, token
    ensures RunningUpTo(sink.emitted, reporter.done)
    ensures token.Since(old(token.cancelled), old(token.failures))
    ensures r.Returned? ==> r.value == |rows| && port.pages != [] && port.pages[0] == first
    ensures r.Returned? ==> LookupsGood(request, port.replies, port.pages)
    ensures !r.Returned? && token.failures == old(token.failures) ==>
              !LookupsGood(request, port.replies, port.pages)
    ensures r.Returned? && !token.cancelled ==> Complete(port.pages, port.full) && rows == RowsOf(port.pages)
  {
    rows := [];
    var page, binding := first, BindSnapshot(None, first).value;
    var written, offset := 0, 0;
    PageAccepted([], port.full, rows, None, page);
    assert [] + [page] == [page];
    while true
      invariant Pending(port.pages, port.full, rows, page, binding)
      invariant port.replies != [] && LookupHeader(request, port.replies[0]).Success?
      invariant RevisionsHold(request, port.replies)
      invariant port.pages[0] == first && offset == (|port.pages| - 1) * EXPORT_PAGE_SIZE && written == |rows|
      invariant RunningUpTo(sink.emitted, reporter.done)
      invariant token.Since(old(token.cancelled), old(token.failures))
      decreases port.fullPages, |page.rows| >= EXPORT_PAGE_SIZE
    {
      var encoded := EncodePage(sink, reporter, token, written, page.rows, page.filteredRows, page.filteredRows);
      if !encoded.Returned? {
        return Failing(encoded), rows;
      }
      rows := rows + page.rows;
      written := encoded.value;
      if |page.rows| < EXPORT_PAGE_SIZE || token.cancelled {
        break;
      }
      offset := offset + EXPORT_PAGE_SIZE;
      ghost var pages := port.pages;
      var reply, bound := NextLookupPage(port, offset, binding, token, request);
      if !reply.Returned? {
        return Failing(reply), rows;
      }
      page := reply.value;
      PageAccepted(pages, port.full, rows, binding, page);
      binding := bound;
    }
    return Returned(written), rows;
  }

  /** `_export_with_lookups`, whose provider may leave the snapshot out. */
  method LookupPages(port: QueryPort, sink: StatusSink, reporter: ProgressReporter, token: CancellationToken,
                     request: Request)
    returns (r: Outcome<nat>, rows: seq<Row>, columns: seq<string>)
    requires port.pages == [] && port.replies == [] && RunningUpTo(sink.emitted, reporter.done)
    modifies port, sink, reporter, token
    ensures RunningUpTo(sink.emitted, reporter.done)
    ensures token.Since(old(token.cancelled), old(token.failures))
    ensures r.Returned? ==> r.value == |rows| && HeaderOf(request, port.pages, columns)
    ensures r.Returned? ==> LookupsGood(request, port.replies, port.pages)
    ensures !r.Returned? && token.failures == old(token.failures) ==>
              !LookupsGood(request, port.replies, port.pages)
    ensures r.Returned? && !token.cancelled ==> Complete(port.pages, port.full) && rows == RowsOf(port.pages)
  {
    var first;
    first, columns := FirstLookupPage(port, token, request);
    if !first.Returned? {
      return Failing(first), [], columns;
    }
    r, rows := LookupLoop(port, sink, reporter, token, request, first.value);
  }

  /** What a successful body leaves behind: how many rows it wrote, and the bytes in the spool. */
  datatype Spooled = Spooled(rowsWritten: nat, bytes: seq<Byte>)

  type Encoder = (seq<string>, seq<Row>) -> seq<Byte>

  /** What the validation of the query and of the result object says: nothing, or an error text. */
  datatype Checks = Checks(query: Option<string>, result: Option<string>)

  /** Nothing the port answered, and no check, is a reason to refuse the export. */
  ghost predicate BodyAccepts(request: Request, hasProvider: bool, checks: Checks,
                              replies: seq<LookupPage>, pages: seq<Page>)
  {
    && checks.result.None?
    && (request.lookupIds != {} ==> hasProvider && LookupsGood(request, replies, pages))
    && (request.lookupIds == {} ==> checks.query.None? && BindAll(pages).Success?)
  }

  /** Pages through the plane that the request asks for. */
  method PageThrough(port: QueryPort, sink: StatusSink, reporter: ProgressReporter, token: CancellationToken,
                     request: Request, hasProvider: bool, checks: Checks)
    returns (r: Outcome<nat>, rows: seq<Row>, columns: seq<string>)
    requires port.pages == [] && port.replies == [] && RunningUpTo(sink.emitted, reporter.done)
    modifies port, sink, reporter, token
    ensures RunningUpTo(sink.emitted, reporter.done)
    ensures token.Since(old(token.cancelled), old(token.failures))
    ensures r.Returned? ==> r.value == |rows|
    ensures r.Returned? && !token.cancelled ==>
              && Complete(port.pages, port.full) && rows == RowsOf(port.pages)
              && (request.lookupIds == {} ==> port.pages[0].snapshot.Some? && columns == request.baseColumns)
              && (request.lookupIds != {} ==> HeaderOf(request, port.pages, columns))
              && BodyAccepts(request, hasProvider, checks.(result := None), port.replies, port.pages)
    ensures !r.Returned? && token.failures == old(token.failures) ==>
              !BodyAccepts(request, hasProvider, checks, port.replies, port.pages)
  {
    rows, columns := [], request.baseColumns;
    if request.lookupIds != {} {
      if !hasProvider {
        return Raised("lookup_export_provider_missing", ""), rows, columns;
      }
      r, rows, columns := LookupPages(port, sink, reporter, token, request);
    } else {
      if checks.query.Some? {
        return Raised("", checks.query.value), rows, columns;
      }
      r, rows := RecordPages(port, sink, reporter, token);
    }
  }

  /** Saves the workbook, if the rows went into one. */
  method SaveWorkbook(sink: StatusSink, reporter: ProgressReporter, token: CancellationToken, xlsx: bool, written: nat)
    returns (r: Outcome<()>)
    requires RunningUpTo(sink.emitted, reporter.done)
    modifies sink, reporter, token
    ensures RunningUpTo(sink.emitted, reporter.done)
    ensures token.Since(old(token.cancelled), old(token.failures))
    ensures token.failures == old(token.failures) ==> r.Returned?
  {
    if xlsx {
      var told := reporter.Report(sink, token, Some(written), Some(0));
      if !told.Returned? {
        return Failing(told);
      }
      var saved := RunWork(0, token);
      if !saved.Returned? {
        return Failing(saved);
      }
    }
    return Returned(());
  }

  /** The body of the export's write: page, encode, and stop if the task was cancelled meanwhile. If nothing
      failed and no cancellation came, it ends normally exactly when there is no reason to refuse. */
  method ExportBody(port: QueryPort, sink: StatusSink, reporter: ProgressReporter, token: CancellationToken,
                    request: Request, hasProvider: bool, checks: Checks, encode: Encoder)
    returns (r: Outcome<Spooled>, ghost columns: seq<string>)
    requires port.pages == [] && port.replies == [] && RunningUpTo(sink.emitted, reporter.done)
    modifies port, sink, reporter, token
    ensures RunningUpTo(sink.emitted, reporter.done)
    ensures token.Since(old(token.cancelled), old(token.failures))
    ensures old(token.cancelled) ==> !r.Returned?
    ensures r.Returned? ==>
              && Complete(port.pages, port.full)
              && r.value == Spooled(|RowsOf(port.pages)|, encode(columns, RowsOf(port.pages)))
              && (request.lookupIds == {} ==> port.pages[0].snapshot.Some? && columns == request.baseColumns)
              && (request.lookupIds != {} ==> HeaderOf(request, port.pages, columns))
    ensures token.Quiet(old(token.failures)) ==>
              (r.Returned? <==> BodyAccepts(request, hasProvider, checks, port.replies, port.pages))
  {
    var paged, rows, header := PageThrough(port, sink, reporter, token, request, hasProvider, checks);
    columns := header;
    if !paged.Returned? {
      return Failing(paged), columns;
    }
    var saved := SaveWorkbook(sink, reporter, token, request.xlsx, paged.value);
    if !saved.Returned? {
      return Failing(saved), columns;
    }
    if token.cancelled {
      return Cancelled, columns;
    }
    var told := reporter.Report(sink, token, Some(paged.value), Some(0));
    if !told.Returned? {
      return Failing(told), columns;
    }
    if checks.result.Some? {
      return Raised("", checks.result.value), columns;
    }
    return Returned(Spooled(paged.value, encode(header, rows))), columns;
  }

  /** The collection is known and all of the request's columns may be read. */
  ghost predicate Authorized(request: Request, profile: Option<set<string>>) {
    profile.Some? && request.baseColumns != [] && forall c :: c in request.baseColumns ==> c in profile.value
  }

  /** One export. A normal return means the Host confirmed the commit and the target is the encoding of
      every row of the accepted pages. An unauthorized one never reaches the Host; and if nothing failed and no
      cancellation came, an authorized one returns normally exactly when there is no reason to refuse. */
  method Export(host: Host, port: QueryPort, phase: NativeWritePhase, sink: StatusSink, reporter: ProgressReporter,
                token: CancellationToken, request: Request, profile: Option<set<string>>, hasProvider: bool,
                checks: Checks, encode: Encoder)
    returns (r: Outcome<ExportResult>, ghost columns: seq<string>)
    requires port.pages == [] && port.replies == [] && RunningUpTo(sink.emitted, reporter.done)
    requires host.calls == [] && !phase.submitted
    modifies host, port, phase, sink, reporter, token
    ensures RunningUpTo(sink.emitted, reporter.done)
    ensures phase.submitted <==> CommitIssued(host.calls)
    ensures !phase.submitted ==> host.target == old(host.target) && !r.Returned?
    ensures phase.submitted && r.Raised? ==> r == Raised("export_outcome_unknown", UNKNOWN_TEXT)
    ensures old(token.cancelled) ==> !phase.submitted
    ensures token.Since(old(token.cancelled), old(token.failures))
    ensures r.Returned? ==>
              && Complete(port.pages, port.full) && r.value.rowsWritten == |RowsOf(port.pages)|
              && host.target == encode(columns, RowsOf(port.pages))
              && (request.lookupIds == {} ==> port.pages[0].snapshot.Some? && columns == request.baseColumns)
              && (request.lookupIds != {} ==> HeaderOf(request, port.pages, columns))
    ensures !Authorized(request, profile) ==>
              && host.calls == [] && port.pages == []
              && r == Raised(if profile.None? then "schema_unknown" else "plugin_read_denied", "")
    ensures Authorized(request, profile) && token.Quiet(old(token.failures)) ==>
              (r.Returned? <==> BodyAccepts(request, hasProvider, checks, port.replies, port.pages))
  {
    columns := [];
    if profile.None? {
      return Raised("schema_unknown", ""), columns;
    }
    if request.baseColumns == [] || !((set c | c in request.baseColumns) <= profile.value) {
      return Raised("plugin_read_denied", ""), columns;
    }
    var grant := host.Open(token);
    if !grant.Returned? {
      return Failing(grant), columns;
    }
    if grant.value.transferId.None? {
      return Raised("", "Invalid Host file transferId acknowledgement"), columns;
    }
    r, columns := ExportOpened(host, port, phase, sink, reporter, token, request, hasProvider, checks, encode,
                               grant.value.transferId.value, grant.value.displayName);
  }

  /** The rest of an export, once a transfer is open. */
  method ExportOpened(host: Host, port: QueryPort, phase: NativeWritePhase, sink: StatusSink,
                      reporter: ProgressReporter, token: CancellationToken, request: Request, hasProvider: bool,
                      checks: Checks, encode: Encoder, transfer: string, displayName: Option<string>)
    returns (r: Outcome<ExportResult>, ghost columns: seq<string>)
    requires port.pages == [] && port.replies == [] && RunningUpTo(sink.emitted, reporter.done)
    requires host.calls == [OpenWrite] && host.staged == [] && !phase.submitted
    modifies host, port, phase, sink, reporter, token
    ensures RunningUpTo(sink.emitted, reporter.done)
    ensures phase.submitted <==> CommitIssued(host.calls)
    ensures !phase.submitted ==> host.target == old(host.target) && !r.Returned?
    ensures phase.submitted && r.Raised? ==> r == Raised("export_outcome_unknown", UNKNOWN_TEXT)
    ensures old(token.cancelled) ==> !phase.submitted
    ensures token.Since(old(token.cancelled), old(token.failures))
    ensures r.Returned? ==>
              && Complete(port.pages, port.full) && r.value.rowsWritten == |RowsOf(port.pages)|
              && host.target == encode(columns, RowsOf(port.pages))
              && (request.lookupIds == {} ==> port.pages[0].snapshot.Some? && columns == request.baseColumns)
              && (request.lookupIds != {} ==> HeaderOf(request, port.pages, columns))
    ensures displayName.Some? && token.Quiet(old(token.failures)) ==>
              (r.Returned? <==> BodyAccepts(request, hasProvider, checks, port.replies, port.pages))
  {
    columns := [];
    var body: Outcome<Spooled> := Raised("", "Invalid Host file displayName acknowledgement");
    if displayName.Some? {
      body, columns := ExportBody(port, sink, reporter, token, request, hasProvider, checks, encode);
    }
    var spool: Outcome<seq<Byte>> := if body.Returned? then Returned(body.value.bytes) else Failing(body);
    ghost var before := host.calls;
    var ended; ghost var commit;
    ended, commit := EndWrite(host, phase, token, true, transfer, spool);
    CommitSeen(before, host.calls, transfer, if spool.Returned? then spool.value else [], commit);
    if !ended.Returned? {
      return Failing(ended), columns;
    }
    return Returned(ExportResult(body.value.rowsWritten, displayName.value)), columns;
  }

  lemma CommitSeen(before: seq<Call>, calls: seq<Call>, transfer: string, spool: seq<Byte>, commit: bool)
    requires before == [OpenWrite]
    requires exists requests :: calls == before + requests && TransferRequests(requests, transfer, spool, commit)
    ensures CommitIssued(calls) <==> commit
  {
    var requests: seq<Call> :| calls == before + requests && TransferRequests(requests, transfer, spool, commit);
    RequestsCommit(requests, transfer, spool, commit);
    assert forall c :: c in calls <==> c in before || c in requests;
  }
}
