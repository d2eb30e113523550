/** Binding a paged export to one snapshot (`_bind_snapshot` and `_snapshot_identity` in
    `backend/application/export_service.py`), and what a sequence of accepted pages adds up to. */
module Paging {
  import opened Common

  const EXPORT_PAGE_SIZE: nat := 100

  /** A JSON value, as far as a snapshot field is inspected. */
  datatype Field = Null | Text(text: string) | Number(number: int) | Flag(flag: bool) | Other

  datatype Snapshot = Snapshot(schemaRevision: Field, dataRevision: Field, clockPeriod: Field)

  /** The logical view an export must stay bound to. */
  datatype Identity = Identity(schemaRevision: string, dataRevision: int, clockPeriod: Option<string>)

  datatype Row = Row(cells: map<string, string>)

  datatype Page = Page(rows: seq<Row>, filteredRows: nat, snapshot: Option<Snapshot>, computedPending: bool)

  function SnapshotIdentity(s: Snapshot): Result<Identity> {
    if s.schemaRevision.Text? && s.dataRevision.Number? && (s.clockPeriod.Null? || s.clockPeriod.Text?) then
      Success(Identity(s.schemaRevision.text, s.dataRevision.number,
                       if s.clockPeriod.Null? then None else Some(s.clockPeriod.text)))
    else Failure("export_snapshot_invalid")
  }

  function BindSnapshot(binding: Option<Identity>, page: Page): Result<Option<Identity>> {
    if page.computedPending then Failure("export_computed_cell_not_ready")
    else if page.snapshot.None? then
      if binding.Some? then Failure("export_snapshot_changed") else Success(None)
    else
      var identity := SnapshotIdentity(page.snapshot.value);
      if identity.Failure? then Failure(identity.error)
      else if binding.Some? && identity.value != binding.value then Failure("export_snapshot_changed")
      else Success(Some(identity.value))
  }

  /** Binding the pages one after the other. */
  function BindAll(pages: seq<Page>): Result<Option<Identity>> {
    if pages == [] then Success(None)
    else
      var before := BindAll(pages[..|pages| - 1]);
      if before.Failure? then before else BindSnapshot(before.value, pages[|pages| - 1])
  }

  /** The fields have the types a view is named by. */
  ghost predicate NamesView(s: Snapshot) {
    s.schemaRevision.Text? && s.dataRevision.Number? && (s.clockPeriod.Null? || s.clockPeriod.Text?)
  }

  /** A snapshot has an identity exactly if its fields name a view, and different snapshots name different views. */
  lemma {:induction false} IdentityExactly(a: Snapshot, b: Snapshot)
    ensures SnapshotIdentity(a).Success? <==> NamesView(a)
    ensures NamesView(a) && NamesView(b) ==> (SnapshotIdentity(a) == SnapshotIdentity(b) <==> a == b)
  {
  }

  /** The page is ready, and its snapshot names a view if it has one. */
  ghost predicate Usable(page: Page) {
    !page.computedPending && (page.snapshot.Some? ==> NamesView(page.snapshot.value))
  }

  /** Once a page has carried a snapshot, every later one carries the same. */
  ghost predicate SameSnapshot(pages: seq<Page>) {
    forall i, j :: 0 <= i < j < |pages| && pages[i].snapshot.Some? ==> pages[j].snapshot == pages[i].snapshot
  }

  /** Exactly which pages can be bound together. */
  lemma {:induction false} BindAllExactly(pages: seq<Page>)
    ensures BindAll(pages).Success? <==> (forall i :: 0 <= i < |pages| ==> Usable(pages[i])) && SameSnapshot(pages)
    ensures BindAll(pages).Success? ==>
              if pages == [] || pages[|pages| - 1].snapshot.None? then BindAll(pages).value == None
              else BindAll(pages).value == Some(SnapshotIdentity(pages[|pages| - 1].snapshot.value).value)
  {
    if pages != [] {
      var n := |pages| - 1;
      BindAllExactly(pages[..n]);
      assert pages == pages[..n] + [pages[n]];
      if n > 0 && pages[n - 1].snapshot.Some? && pages[n].snapshot.Some? {
        IdentityExactly(pages[n - 1].snapshot.value, pages[n].snapshot.value);
      }
      LastDecides(pages);
    }
  }

  ghost predicate StaysSame(pages: seq<Page>)
    requires pages != []
  {
    var n := |pages| - 1;
    n > 0 && pages[n - 1].snapshot.Some? ==> pages[n].snapshot == pages[n - 1].snapshot
  }

  /** For the snapshots to stay the same it is enough to look at the last two pages. */
  lemma {:induction false} LastDecides(pages: seq<Page>)
    requires pages != []
    ensures var n := |pages| - 1;
            SameSnapshot(pages) <==>
              SameSnapshot(pages[..n]) && StaysSame(pages)
  {
    var n := |pages| - 1;
    assert pages == pages[..n] + [pages[n]];
    if SameSnapshot(pages[..n]) && StaysSame(pages) {
      forall i, j | 0 <= i < j < |pages| && pages[i].snapshot.Some? ensures pages[j].snapshot == pages[i].snapshot {
        if j == n && i < n - 1 {
          assert pages[..n][n - 1].snapshot == pages[..n][i].snapshot;
        } else if j < n {
          assert pages[..n][j].snapshot == pages[..n][i].snapshot;
        }
      }
    }
  }

  /** The rows of a window of the full result. */
  function Window(all: seq<Row>, offset: nat, limit: nat): seq<Row> {
    if offset >= |all| then []
    else if offset + limit <= |all| then all[offset..offset + limit]
    else all[offset..]
  }

  /** What the query port promises of one page: rows that carry an identity are that view's window. */
  ghost predicate Answers(page: Page, full: Identity -> seq<Row>, offset: nat) {
    page.snapshot.Some? && SnapshotIdentity(page.snapshot.value).Success? ==>
      page.rows == Window(full(SnapshotIdentity(page.snapshot.value).value), offset, EXPORT_PAGE_SIZE)
  }

  /** The pages were fetched one after the other, each a page further on, and only the last may be short. */
  ghost predicate Fetched(pages: seq<Page>, full: Identity -> seq<Row>) {
    && (forall i :: 0 <= i < |pages| ==> Answers(pages[i], full, i * EXPORT_PAGE_SIZE))
    && (forall i :: 0 <= i < |pages| - 1 ==> |pages[i].rows| >= EXPORT_PAGE_SIZE)
  }

  function RowsOf(pages: seq<Page>): seq<Row> {
    if pages == [] then [] else RowsOf(pages[..|pages| - 1]) + pages[|pages| - 1].rows
  }

  /** All pages were accepted and the last one was short. */
  ghost predicate Complete(pages: seq<Page>, full: Identity -> seq<Row>) {
    && pages != [] && Fetched(pages, full) && BindAll(pages).Success?
    && |pages[|pages| - 1].rows| < EXPORT_PAGE_SIZE
  }

  /** While pages keep being accepted after a first page with a snapshot, what has been written is a
      prefix of that one view, and all of it once a page is short. */
  lemma {:induction false} OneView(pages: seq<Page>, full: Identity -> seq<Row>)
    requires pages != [] && pages[0].snapshot.Some?
    requires Fetched(pages, full) && BindAll(pages).Success?
    ensures BindAll(pages).value.Some?
    ensures SnapshotIdentity(pages[0].snapshot.value) == Success(BindAll(pages).value.value)
    ensures var view := full(BindAll(pages).value.value);
            && RowsOf(pages) ==
               (if |pages| * EXPORT_PAGE_SIZE <= |view| then view[..|pages| * EXPORT_PAGE_SIZE] else view)
            && (|pages[|pages| - 1].rows| < EXPORT_PAGE_SIZE ==> RowsOf(pages) == view)
  {
    var n := |pages| - 1;
    var init, last := pages[..n], pages[n];
    if n == 0 {
      assert init == [] && RowsOf(init) == [];
    } else {
      assert Fetched(init, full);
      OneView(init, full);
      var view := full(BindAll(init).value.value);
      assert |pages[n - 1].rows| >= EXPORT_PAGE_SIZE && pages[n - 1] == init[n - 1];
      assert init[n - 1].snapshot.Some? by { BoundPagesCarrySnapshots(init, n - 1); }
      BoundPagesCarrySnapshots(init, n - 1);
      WindowFits(view, (n - 1) * EXPORT_PAGE_SIZE);
      assert last.rows == Window(view, n * EXPORT_PAGE_SIZE, EXPORT_PAGE_SIZE);
      assert view[..n * EXPORT_PAGE_SIZE] + view[n * EXPORT_PAGE_SIZE..] == view;
    }
  }

  lemma WindowFits(view: seq<Row>, offset: nat)
    requires |Window(view, offset, EXPORT_PAGE_SIZE)| >= EXPORT_PAGE_SIZE
    ensures offset + EXPORT_PAGE_SIZE <= |view|
  {
  }

  /** Once bound, every accepted page carries the bound identity. */
  lemma {:induction false} BoundPagesCarrySnapshots(pages: seq<Page>, i: nat)
    requires pages != [] && pages[0].snapshot.Some? && BindAll(pages).Success? && i < |pages|
    ensures BindAll(pages).value.Some? && pages[i].snapshot.Some?
    ensures SnapshotIdentity(pages[i].snapshot.value) == Success(BindAll(pages).value.value)
  {
    var n := |pages| - 1;
    if n > 0 {
      BoundPagesCarrySnapshots(pages[..n], if i < n then i else 0);
    }
  }

  // ---------------------------------------------------------------- without a snapshot

  /** A first page that binding accepts. */
  predicate Acceptable(page: Page) {
    !page.computedPending && (page.snapshot.Some? ==> SnapshotIdentity(page.snapshot.value).Success?)
  }

  /** Whatever the views are, any fetch that starts with this page and completes holds all of one view. */
  ghost predicate AlwaysOneView(page: Page) {
    forall full: Identity -> seq<Row>, pages: seq<Page> ::
      pages != [] && pages[0] == page && Complete(pages, full) ==> IsView(RowsOf(pages), full)
  }

  ghost predicate IsView(rows: seq<Row>, full: Identity -> seq<Row>) {
    exists id :: rows == full(id)
  }

  lemma SinglePage(page: Page)
    ensures BindAll([page]) == BindSnapshot(None, page)
    ensures RowsOf([page]) == page.rows
  {
    assert [page][..0] == [];
  }

  function EmptyPage(id: Identity): (page: Page)
    ensures page.rows == [] && page.snapshot.Some? && SnapshotIdentity(page.snapshot.value) == Success(id)
    ensures BindSnapshot(None, page) == Success(Some(id))
  {
    Page([], 0, Some(Snapshot(Text(id.schemaRevision), Number(id.dataRevision),
                              if id.clockPeriod.None? then Null else Text(id.clockPeriod.value))), false)
  }

  /** After any acceptable first page without a snapshot a fetch can complete with rows that are no view: here
      all views are the same, and empty if the page is not. */
  lemma {:induction false} UnboundFetch(page: Page) returns (full: Identity -> seq<Row>, pages: seq<Page>)
    requires !page.computedPending && page.snapshot.None?
    ensures pages != [] && pages[0] == page && Complete(pages, full)
    ensures RowsOf(pages) == page.rows && !IsView(RowsOf(pages), full)
  {
    SinglePage(page);
    if |page.rows| < EXPORT_PAGE_SIZE {
      full := (_: Identity) => page.rows + [Row(map[])];
      pages := [page];
    } else {
      full := (_: Identity) => [];
      var last := EmptyPage(Identity("", 0, None));
      pages := [page, last];
      assert pages[..1] == [page];
      assert page.rows + [] == page.rows;
    }
  }

  /** Exactly when a first page makes an export one view: when it carries a snapshot. */
  lemma {:induction false} OneViewExactly(page: Page)
    requires Acceptable(page)
    ensures AlwaysOneView(page) <==> page.snapshot.Some?
  {
    if page.snapshot.Some? {
      forall full: Identity -> seq<Row>, pages: seq<Page> | pages != [] && pages[0] == page && Complete(pages, full)
        ensures IsView(RowsOf(pages), full)
      {
        OneView(pages, full);
      }
    } else {
      var full, pages := UnboundFetch(page);
    }
  }
}
