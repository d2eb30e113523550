/** The transactional upgrade (`prepare_upgrade`, `_replace_tree`, `_replace_file` and `activate_upgrade` in
    `scripts/release.py`). Every file step, the validator included, may fail. */
module Upgrade {
  import opened Common
  import opened FileSystem
  import opened TreeHash

  /** The two disks agree outside `touched`, temporary names aside. */
  ghost predicate Spares(a: Disk, b: Disk, touched: set<Location>) {
    forall l: Location :: !l.Temp? && l !in touched ==> (l in a <==> l in b) && (l in a ==> a[l] == b[l])
  }

  /** Every disk state recorded between `before` and `after` agrees with `disk` outside `touched`. */
  ghost predicate AllSpare(before: seq<Disk>, after: seq<Disk>, disk: Disk, touched: set<Location>) {
    before <= after && forall i :: |before| <= i < |after| ==> Spares(after[i], disk, touched)
  }

  lemma SpareChain(h0: seq<Disk>, h1: seq<Disk>, h2: seq<Disk>, d0: Disk, d1: Disk, touched: set<Location>)
    requires AllSpare(h0, h1, d0, touched) && Spares(d1, d0, touched) && AllSpare(h1, h2, d1, touched)
    ensures AllSpare(h0, h2, d0, touched)
  {
    forall i | |h0| <= i < |h2| ensures Spares(h2[i], d0, touched) {
      if i < |h1| { assert h2[i] == h1[i]; }
    }
  }

  // ---------------------------------------------------------------- replacing a tree: what it does

  /** How the steps of a tree replacement end, as far as they are reached: the copy, moving the old tree aside,
      installing the new one, then in the handler clearing the destination and moving the old tree back, and
      dropping the staged copy and the old tree. */
  datatype TreeSteps = TreeSteps(copy: Step, aside: Step, install: Step, clear: Step, back: Step,
                                 dropStaged: Step, dropPrevious: Step)

  /** The destination is out of the way for the new tree. */
  predicate MovedAside(before: Option<Node>, s: TreeSteps) {
    before.None? || s.aside.Works?
  }

  /** The replacement returns normally. */
  predicate Replaces(before: Option<Node>, s: TreeSteps) {
    s.copy.Works? && MovedAside(before, s) && s.install.Works? && (before.Some? ==> s.dropPrevious.Works?)
  }

  /** What is at the destination afterwards. */
  function TreeAfter(before: Option<Node>, tree: Node, s: TreeSteps): Option<Node> {
    if !s.copy.Works? then before
    else if !MovedAside(before, s) then Leaves(before, s.clear, None)
    else if s.install.Works? then Some(tree)
    else if before.Some? && !s.back.Works? then None
    else before
  }

  /** Exactly which failures keep the old tree: the copy failed; it was moved aside, or there was none, and it
      was moved back after the new one could not be installed; or it could not be moved aside and clearing it
      away failed as well, before anything was gone. What remains is a new tree that equals the old one. */
  lemma OldTreeKept(before: Option<Node>, tree: Node, s: TreeSteps)
    requires !Replaces(before, s)
    ensures TreeAfter(before, tree, s) == before <==>
            || !s.copy.Works?
            || (MovedAside(before, s) && !s.install.Works? && (before.None? || s.back.Works?))
            || (!MovedAside(before, s) && (s.clear.Untouched? || s.clear == Partly(before.value)))
            || (MovedAside(before, s) && s.install.Works? && before == Some(tree))
  {
  }

  /** With every step but the first rename working, the old tree is lost and nothing takes its place. */
  lemma FirstRenameLosesTree(held: Node, tree: Node) returns (s: TreeSteps)
    requires held.Tree?
    ensures s == TreeSteps(Works, Untouched, Works, Works, Works, Works, Works)
    ensures !Replaces(Some(held), s) && TreeAfter(Some(held), tree, s) == None
  {
    s := TreeSteps(Works, Untouched, Works, Works, Works, Works, Works);
  }

  // ---------------------------------------------------------------- replacing a tree, a file

  /** The place is as it was. */
  ghost predicate Unchanged(a: Disk, b: Disk, l: Location) {
    At(a, l) == At(b, l)
  }

  ghost predicate IsAt(disk: Disk, l: Location, node: Node) {
    At(disk, l) == Some(node)
  }

  /** The handler of `_replace_tree`: clear the destination, then move the old tree back. */
  method Undo(fs: Storage, destination: Location, previous: Location, movedPrevious: bool, clear: Step, back: Step)
    requires fs.Valid() && !destination.Temp? && previous.Temp? && previous.n < fs.nextTemp
    modifies fs`disk, fs`history
    ensures fs.Valid() && SameBut(fs.disk, old(fs.disk), {destination, previous})
    ensures AllSpare(old(fs.history), fs.history, old(fs.disk), {destination})
    ensures At(fs.disk, destination) ==
              if destination in old(fs.disk) && !clear.Works? then Leaves(At(old(fs.disk), destination), clear, None)
              else if movedPrevious && back.Works? then At(old(fs.disk), previous)
              else None
  {
    var ok := true;
    if destination in fs.disk {
      ok := fs.Remove(destination, clear);
    }
    if ok && movedPrevious && previous in fs.disk {
      var _ := fs.Rename(previous, destination, back);
    }
  }

  /** The guarded part of `_replace_tree`: move the old tree aside and install the staged one. */
  method Swap(fs: Storage, staged: Location, previous: Location, destination: Location, s: TreeSteps)
    returns (installed: bool)
    requires fs.Valid() && !destination.Temp? && staged != previous && s.copy.Works?
    requires staged.Temp? && staged.n < fs.nextTemp && previous.Temp? && previous.n < fs.nextTemp
    requires staged in fs.disk && previous !in fs.disk
    modifies fs`disk, fs`history
    ensures fs.Valid() && SameBut(fs.disk, old(fs.disk), {destination, staged, previous})
    ensures AllSpare(old(fs.history), fs.history, old(fs.disk), {destination})
    ensures installed <==> MovedAside(At(old(fs.disk), destination), s) && s.install.Works?
    ensures At(fs.disk, destination) == TreeAfter(At(old(fs.disk), destination), old(fs.disk)[staged], s)
    ensures installed ==> staged !in fs.disk && (previous in fs.disk <==> destination in old(fs.disk))
  {
    var movedPrevious := false;
    if destination in fs.disk {
      movedPrevious := fs.Rename(destination, previous, s.aside);
      if !movedPrevious {
        ghost var h, d := fs.history, fs.disk;
        Undo(fs, destination, previous, movedPrevious, s.clear, s.back);
        SpareChain(old(fs.history), h, fs.history, old(fs.disk), d, {destination});
        return false;
      }
    }
    installed := fs.Rename(staged, destination, s.install);
    ghost var h, d := fs.history, fs.disk;
    if !installed {
      Undo(fs, destination, previous, movedPrevious, s.clear, s.back);
      SpareChain(old(fs.history), h, fs.history, old(fs.disk), d, {destination});
    }
  }

  /** Removes the staged tree if it is still there and, once the new tree is installed, the old one. */
  method CleanUp(fs: Storage, staged: Location, previous: Location, installed: bool, s: TreeSteps)
    returns (cleaned: bool)
    requires fs.Valid() && staged.Temp? && previous.Temp? && (installed ==> staged !in fs.disk)
    modifies fs`disk, fs`history
    ensures fs.Valid() && Spares(fs.disk, old(fs.disk), {})
    ensures forall touched :: AllSpare(old(fs.history), fs.history, old(fs.disk), touched)
    ensures installed ==> (cleaned <==> (previous in old(fs.disk) ==> s.dropPrevious.Works?))
  {
    cleaned := true;
    if staged in fs.disk {
      cleaned := fs.Remove(staged, s.dropStaged);
    }
    if installed && previous in fs.disk {
      cleaned := fs.Remove(previous, s.dropPrevious);
    }
  }

  /** `_replace_tree`, for every choice of failing steps. On its own it is not failure-atomic. */
  method ReplaceTree(fs: Storage, source: Location, destination: Location, s: TreeSteps) returns (ok: bool)
    requires fs.Valid() && !destination.Temp? && !source.Temp? && source != destination
    modifies fs
    ensures fs.Valid() && Spares(fs.disk, old(fs.disk), {destination})
    ensures AllSpare(old(fs.history), fs.history, old(fs.disk), {destination})
    ensures ok <==> Replaces(At(old(fs.disk), destination), s)
    ensures At(fs.disk, destination) ==
            TreeAfter(At(old(fs.disk), destination), Copied(old(fs.disk), source, fs.transient), s)
  {
    var staged := fs.FreshName();
    var previous := fs.FreshName();
    ok := fs.CopyTree(source, staged, s.copy);
    if !ok {
      return;
    }
    ghost var h, d := fs.history, fs.disk;
    var installed := Swap(fs, staged, previous, destination, s);
    SpareChain(old(fs.history), h, fs.history, old(fs.disk), d, {destination});
    h, d := fs.history, fs.disk;
    var cleaned := CleanUp(fs, staged, previous, installed, s);
    SpareChain(old(fs.history), h, fs.history, old(fs.disk), d, {destination});
    ok := installed && cleaned;
  }

  /** The staged file takes the destination's place, all or nothing, and is gone from its own. */
  method MoveFile(fs: Storage, staged: Location, destination: Location, install: Step, drop: Step) returns (ok: bool)
    requires fs.Valid() && !destination.Temp? && staged.Temp? && staged in fs.disk
    modifies fs`disk, fs`history
    ensures fs.Valid() && Spares(fs.disk, old(fs.disk), {destination})
    ensures AllSpare(old(fs.history), fs.history, old(fs.disk), {destination})
    ensures ok <==> install.Works?
    ensures At(fs.disk, destination) == if ok then Some(old(fs.disk)[staged]) else At(old(fs.disk), destination)
  {
    ok := fs.Rename(staged, destination, install);
    if staged in fs.disk {
      var _ := fs.Remove(staged, drop);
    }
  }

  /** How the steps of a file replacement end. */
  datatype FileSteps = FileSteps(copy: Step, install: Step, drop: Step)

  /** `_replace_file` is failure-atomic: the destination is the new file if it returns normally and the old one
      otherwise. */
  method ReplaceFile(fs: Storage, source: Location, destination: Location, s: FileSteps) returns (ok: bool)
    requires fs.Valid() && !destination.Temp? && !source.Temp? && source != destination
    modifies fs
    ensures fs.Valid() && Spares(fs.disk, old(fs.disk), {destination})
    ensures AllSpare(old(fs.history), fs.history, old(fs.disk), {destination})
    ensures ok <==> source in old(fs.disk) && s.copy.Works? && s.install.Works?
    ensures At(fs.disk, destination) == if ok then Some(old(fs.disk)[source]) else At(old(fs.disk), destination)
  {
    var staged := fs.FreshName();
    ok := fs.CopyFile(source, staged, s.copy);
    if !ok {
      return;
    }
    ghost var h, d := fs.history, fs.disk;
    ok := MoveFile(fs, staged, destination, s.install, s.drop);
    SpareChain(old(fs.history), h, fs.history, old(fs.disk), d, {destination});
  }

  // ---------------------------------------------------------------- preparing and verifying a backup

  /** The files of a directory; a place that is not a directory hashes like an empty one. */
  function FilesAt(disk: Disk, l: Location): Files {
    if l in disk && disk[l].Tree? then disk[l].files else map[]
  }

  /** The digests a backup manifest records, as the streams they stand for. */
  datatype Record = Record(backupData: Option<seq<int>>, binary: Node)

  /** `verify_upgrade_backup`. */
  predicate Verified(disk: Disk, record: Record, listing: set<Path> -> seq<Path>) {
    && TreeStream(FilesAt(disk, BackupData), listing) == record.backupData
    && At(disk, BackupBinary) == Some(record.binary)
  }

  /** How the steps of a preparation end. */
  datatype PrepareSteps = PrepareSteps(copyData: Step, copyBinary: Step, note: Step)

  /** The checks before a preparation, and its steps. */
  predicate Preparable(disk: Disk, separate: bool, s: PrepareSteps) {
    && Binary in disk && separate && s.copyBinary.Works? && s.note.Works?
    && (Data in disk && disk[Data].Tree? ==> s.copyData.Works?)
  }

  /** `prepare_upgrade`: a verified backup of both sides, or a failure; the installation is untouched. It fails
      exactly when a precondition does not hold or a step fails. */
  method PrepareUpgrade(fs: Storage, separate: bool, s: PrepareSteps) returns (r: Result<Record>)
    requires fs.Valid() && BackupData !in fs.disk && BackupBinary !in fs.disk
    modifies fs
    ensures fs.Valid() && Spares(fs.disk, old(fs.disk), {BackupData, BackupBinary, Manifest})
    ensures r.Success? <==> Preparable(old(fs.disk), separate, s)
    ensures r.Success? ==>
              && Verified(fs.disk, r.value, fs.listing) && Binary in fs.disk && fs.disk[BackupBinary] == fs.disk[Binary]
              && FilesAt(fs.disk, BackupData) == Kept(FilesAt(fs.disk, Data), fs.transient)
  {
    if Binary !in fs.disk || !separate {
      return Failure("precondition");
    }
    if Data in fs.disk && fs.disk[Data].Tree? {
      var copied := fs.CopyTree(Data, BackupData, s.copyData);
      if !copied {
        return Failure("copying the data failed");
      }
    }
    var copied := fs.CopyFile(Binary, BackupBinary, s.copyBinary);
    if !copied {
      return Failure("copying the binary failed");
    }
    var record := Record(TreeStream(FilesAt(fs.disk, BackupData), fs.listing), fs.disk[Binary]);
    var written := fs.Put(Manifest, File([]), s.note);
    if !written {
      return Failure("writing the manifest failed");
    }
    return Success(record);
  }

  // ---------------------------------------------------------------- activating

  /** `Refused`: nothing was activated. `Activated`: both sides are new; the last manifest write may still
      have failed. `RolledBack`: which restorations of the handler succeeded. */
  datatype Ending = Refused | Activated(recorded: bool) | RolledBack(dataRestored: bool, binaryRestored: bool)

  /** How the steps end: staging the copy, the validator with what it leaves behind, the two replacements, the
      handler's two restorations and each manifest update. */
  datatype StageSteps = StageSteps(clear: Step, copy: Step, note: Step)
  datatype ValidateSteps = ValidateSteps(validate: Step, migrated: Files, note: Step)
  datatype RestoreSteps = RestoreSteps(trees: TreeSteps, files: FileSteps, note: Step)
  datatype ActivateSteps = ActivateSteps(stage: StageSteps, validation: ValidateSteps, trees: TreeSteps,
                                         files: FileSteps, restore: RestoreSteps, note: Step)

  predicate AllTreeSteps(s: TreeSteps) {
    s.copy.Works? && s.aside.Works? && s.install.Works? && s.dropPrevious.Works?
  }

  predicate FileReplaced(s: FileSteps) {
    s.copy.Works? && s.install.Works?
  }

  predicate Validated(s: ValidateSteps) {
    s.validate.Works? && s.note.Works?
  }

  /** Everything the upgrade may write. */
  const TOUCHED: set<Location> := {Data, Binary, Migrated, Manifest}

  ghost predicate IsTree(disk: Disk, l: Location) {
    l in disk && disk[l].Tree?
  }

  /** The live pair. */
  ghost predicate Pair(disk: Disk, data: Node, binary: Node) {
    IsAt(disk, Data, data) && IsAt(disk, Binary, binary)
  }

  lemma Widen(before: seq<Disk>, after: seq<Disk>, disk: Disk, narrow: set<Location>)
    ensures AllSpare(before, after, disk, narrow) && narrow <= TOUCHED ==>
              AllSpare(before, after, disk, TOUCHED)
  {
  }

  /** A copy of the backup to validate on, and the first manifest update. */
  method Stage(fs: Storage, s: StageSteps) returns (ok: bool)
    requires fs.Valid()
    modifies fs
    ensures fs.Valid() && Spares(fs.disk, old(fs.disk), {Migrated, Manifest})
    ensures AllSpare(old(fs.history), fs.history, old(fs.disk), {Migrated, Manifest})
    ensures ok <==> (Migrated in old(fs.disk) ==> s.clear.Works?) && s.copy.Works? && s.note.Works?
    ensures ok ==> IsAt(fs.disk, Migrated, Copied(old(fs.disk), BackupData, fs.transient))
  {
    if Migrated in fs.disk {
      ok := fs.Remove(Migrated, s.clear);
      if !ok {
        return;
      }
    }
    ok := fs.CopyTree(BackupData, Migrated, s.copy);
    if ok {
      ok := fs.Put(Manifest, File([]), s.note);
    }
  }

  /** Runs the validator on the copy, which it may change at will, and updates the manifest. */
  method Validate(fs: Storage, s: ValidateSteps) returns (ok: bool)
    requires fs.Valid() && IsTree(fs.disk, Migrated)
    modifies fs
    ensures fs.Valid() && Spares(fs.disk, old(fs.disk), {Migrated, Manifest})
    ensures AllSpare(old(fs.history), fs.history, old(fs.disk), {Migrated, Manifest})
    ensures ok == Validated(s)
    ensures ok ==> IsAt(fs.disk, Migrated, Tree(s.migrated))
  {
    ok := fs.Put(Migrated, Tree(s.migrated), s.validate);
    if ok {
      ok := fs.Put(Manifest, File([]), s.note);
    }
  }

  /** The migrated data as it is installed. */
  function NewData(fs: Storage, s: ValidateSteps): Node {
    Tree(Kept(s.migrated, fs.transient))
  }

  /** The data directory once the guarded part is over. */
  function DataAfter(before: Option<Node>, tree: Node, v: ValidateSteps, trees: TreeSteps): Option<Node> {
    if Validated(v) then TreeAfter(before, tree, trees) else before
  }

  /** The guarded part of `activate_upgrade`: it succeeds exactly when every step of it works. */
  method Install(fs: Storage, v: ValidateSteps, trees: TreeSteps, files: FileSteps) returns (ok: bool)
    requires fs.Valid() && Candidate in fs.disk && IsTree(fs.disk, Migrated)
    modifies fs
    ensures fs.Valid() && Spares(fs.disk, old(fs.disk), TOUCHED)
    ensures AllSpare(old(fs.history), fs.history, old(fs.disk), TOUCHED)
    ensures ok <==> Validated(v) && Replaces(At(old(fs.disk), Data), trees) && FileReplaced(files)
    ensures At(fs.disk, Data) == DataAfter(At(old(fs.disk), Data), NewData(fs, v), v, trees)
    ensures At(fs.disk, Binary) == if ok then Some(old(fs.disk)[Candidate]) else At(old(fs.disk), Binary)
    ensures ok ==> Pair(fs.disk, NewData(fs, v), old(fs.disk)[Candidate])
  {
    ok := Validate(fs, v);
    Widen(old(fs.history), fs.history, old(fs.disk), {Migrated, Manifest});
    if !ok {
      return;
    }
    ghost var h, d := fs.history, fs.disk;
    ok := ReplaceTree(fs, Migrated, Data, trees);
    Widen(h, fs.history, d, {Data});
    SpareChain(old(fs.history), h, fs.history, old(fs.disk), d, TOUCHED);
    if !ok {
      return;
    }
    h, d := fs.history, fs.disk;
    ok := ReplaceFile(fs, Candidate, Binary, files);
    Widen(h, fs.history, d, {Binary});
    SpareChain(old(fs.history), h, fs.history, old(fs.disk), d, TOUCHED);
  }

  /** The failure handler: restore each side independently, then update the manifest. Each side is restored
      exactly when the steps of its own replacement work. */
  method Restore(fs: Storage, s: RestoreSteps) returns (dataRestored: bool, binaryRestored: bool)
    requires fs.Valid() && BackupBinary in fs.disk
    modifies fs
    ensures fs.Valid() && Spares(fs.disk, old(fs.disk), {Data, Binary, Manifest})
    ensures AllSpare(old(fs.history), fs.history, old(fs.disk), TOUCHED)
    ensures dataRestored <==> Replaces(At(old(fs.disk), Data), s.trees)
    ensures binaryRestored <==> FileReplaced(s.files)
    ensures At(fs.disk, Data) ==
            TreeAfter(At(old(fs.disk), Data), Copied(old(fs.disk), BackupData, fs.transient), s.trees)
    ensures At(fs.disk, Binary) ==
            if binaryRestored then Some(old(fs.disk)[BackupBinary]) else At(old(fs.disk), Binary)
  {
    dataRestored := ReplaceTree(fs, BackupData, Data, s.trees);
    Widen(old(fs.history), fs.history, old(fs.disk), {Data});
    ghost var h, d := fs.history, fs.disk;
    binaryRestored := ReplaceFile(fs, BackupBinary, Binary, s.files);
    Widen(h, fs.history, d, {Binary});
    SpareChain(old(fs.history), h, fs.history, old(fs.disk), d, TOUCHED);
    h, d := fs.history, fs.disk;
    var _ := fs.Put(Manifest, File([]), s.note);
    assert AllSpare(h, fs.history, d, TOUCHED);
    SpareChain(old(fs.history), h, fs.history, old(fs.disk), d, TOUCHED);
  }

  /** How an activation ends that was not refused, from what was in the data directory. */
  function EndingOf(before: Option<Node>, tree: Node, s: ActivateSteps): Ending {
    if Validated(s.validation) && Replaces(before, s.trees) && FileReplaced(s.files) then Activated(s.note.Works?)
    else
      RolledBack(Replaces(DataAfter(before, tree, s.validation, s.trees), s.restore.trees),
                 FileReplaced(s.restore.files))
  }

  /** What the ending says about the live pair, given the backup. */
  ghost predicate EndsAs(fs: Storage, before: Disk, after: Disk, end: Ending, s: ActivateSteps)
    requires Candidate in before && BackupBinary in before
    reads fs
  {
    var backup := Copied(before, BackupData, fs.transient);
    && (end.Activated? ==> Pair(after, NewData(fs, s.validation), before[Candidate]))
    && (end.RolledBack? && end.dataRestored ==> IsAt(after, Data, backup))
    && (end.RolledBack? && end.binaryRestored ==> IsAt(after, Binary, before[BackupBinary]))
    && (end.RolledBack? && !end.binaryRestored ==> Unchanged(after, before, Binary))
  }

  /** A restoration whose steps all work succeeds, whatever it finds. */
  lemma WorkingRestoration(before: Option<Node>, tree: Node, s: ActivateSteps)
    ensures AllTreeSteps(s.restore.trees) && FileReplaced(s.restore.files) ==>
              EndingOf(before, tree, s).Activated? || EndingOf(before, tree, s) == RolledBack(true, true)
  {
  }

  /** Installs both sides, or restores both. */
  method InstallOrRestore(fs: Storage, s: ActivateSteps) returns (end: Ending)
    requires fs.Valid() && Candidate in fs.disk && BackupBinary in fs.disk && IsTree(fs.disk, Migrated)
    modifies fs
    ensures fs.Valid() && Spares(fs.disk, old(fs.disk), TOUCHED)
    ensures AllSpare(old(fs.history), fs.history, old(fs.disk), TOUCHED)
    ensures end == EndingOf(At(old(fs.disk), Data), NewData(fs, s.validation), s)
    ensures EndsAs(fs, old(fs.disk), fs.disk, end, s)
  {
    var ok := Install(fs, s.validation, s.trees, s.files);
    ghost var h, d := fs.history, fs.disk;
    if !ok {
      var dataRestored, binaryRestored := Restore(fs, s.restore);
      SpareChain(old(fs.history), h, fs.history, old(fs.disk), d, TOUCHED);
      return RolledBack(dataRestored, binaryRestored);
    }
    var recorded := fs.Put(Manifest, File([]), s.note);
    assert AllSpare(h, fs.history, d, TOUCHED);
    SpareChain(old(fs.history), h, fs.history, old(fs.disk), d, TOUCHED);
    return Activated(recorded);
  }

  /** The checks before anything is activated, and the staging. */
  predicate Admitted(disk: Disk, record: Record, separate: bool, listing: set<Path> -> seq<Path>, s: StageSteps) {
    && Verified(disk, record, listing) && Candidate in disk && Binary in disk && separate
    && (Migrated in disk ==> s.clear.Works?) && s.copy.Works? && s.note.Works?
  }

  /** `activate_upgrade`, for every choice of failing steps: it is refused exactly when a check or the staging
      fails; the backup of both sides and the candidate are never written at any step; and the live pair is the
      new one, the untouched one, or what the two restorations made of it. */
  method ActivateUpgrade(fs: Storage, record: Record, separate: bool, s: ActivateSteps) returns (end: Ending)
    requires fs.Valid()
    modifies fs
    ensures fs.Valid() && Spares(fs.disk, old(fs.disk), TOUCHED)
    ensures AllSpare(old(fs.history), fs.history, old(fs.disk), TOUCHED)
    ensures !end.Refused? <==> Admitted(old(fs.disk), record, separate, fs.listing, s.stage)
    ensures end.Refused? ==> Unchanged(fs.disk, old(fs.disk), Data) && Unchanged(fs.disk, old(fs.disk), Binary)
    ensures !end.Refused? ==>
              && BackupBinary in old(fs.disk) && Candidate in old(fs.disk)
              && end == EndingOf(At(old(fs.disk), Data), NewData(fs, s.validation), s)
              && EndsAs(fs, old(fs.disk), fs.disk, end, s)
    ensures !end.Refused? && !end.Activated? && AllTreeSteps(s.restore.trees) && FileReplaced(s.restore.files) ==>
              && end == RolledBack(true, true)
              && Pair(fs.disk, Copied(old(fs.disk), BackupData, fs.transient), old(fs.disk)[BackupBinary])
  {
    if !Verified(fs.disk, record, fs.listing) || Candidate !in fs.disk || Binary !in fs.disk || !separate {
      return Refused;
    }
    var staged := Stage(fs, s.stage);
    Widen(old(fs.history), fs.history, old(fs.disk), {Migrated, Manifest});
    if !staged {
      return Refused;
    }
    ghost var h, d := fs.history, fs.disk;
    end := InstallOrRestore(fs, s);
    SpareChain(old(fs.history), h, fs.history, old(fs.disk), d, TOUCHED);
    EndsFromStaged(fs, old(fs.disk), d, end, s);
    if AllTreeSteps(s.restore.trees) && FileReplaced(s.restore.files) {
      WorkingRestoration(At(d, Data), NewData(fs, s.validation), s);
    }
  }

  /** Staging changes nothing an ending is about. */
  lemma EndsFromStaged(fs: Storage, before: Disk, staged: Disk, end: Ending, s: ActivateSteps)
    requires Spares(staged, before, {Migrated, Manifest}) && Candidate in before && BackupBinary in before
    requires Candidate in staged && BackupBinary in staged && EndsAs(fs, staged, fs.disk, end, s)
    ensures EndsAs(fs, before, fs.disk, end, s) && At(staged, Data) == At(before, Data)
    ensures Copied(staged, BackupData, fs.transient) == Copied(before, BackupData, fs.transient)
    ensures staged[BackupBinary] == before[BackupBinary]
  {
  }

  /** Prepare, then activate: the pair ends up new on both sides, untouched, or as it was backed up (shared-memory
      files aside), unless a step of a restoration itself failed; and if every step works, it is new. */
  method UpgradeInstallation(fs: Storage, separate: bool, prepare: PrepareSteps, s: ActivateSteps)
    returns (r: Result<Ending>)
    requires fs.Valid() && BackupData !in fs.disk && BackupBinary !in fs.disk
    modifies fs
    ensures r.Success? <==> Preparable(old(fs.disk), separate, prepare)
    ensures r.Failure? ==> Unchanged(fs.disk, old(fs.disk), Data) && Unchanged(fs.disk, old(fs.disk), Binary)
    ensures r.Success? && r.value.Activated? ==>
              && Candidate in old(fs.disk)
              && Pair(fs.disk, NewData(fs, s.validation), old(fs.disk)[Candidate])
    ensures r.Success? && r.value.Refused? ==>
              Unchanged(fs.disk, old(fs.disk), Data) && Unchanged(fs.disk, old(fs.disk), Binary)
    ensures r.Success? && r.value.RolledBack? && AllTreeSteps(s.restore.trees) && FileReplaced(s.restore.files) ==>
              && Binary in old(fs.disk)
              && Pair(fs.disk, Tree(Kept(FilesAt(old(fs.disk), Data), fs.transient)), old(fs.disk)[Binary])
    ensures r.Success? && !r.value.Refused? ==>
              r.value == EndingOf(At(old(fs.disk), Data), NewData(fs, s.validation), s)
    ensures r.Success? && Candidate in old(fs.disk)
            && (Migrated in old(fs.disk) ==> s.stage.clear.Works?) && s.stage.copy.Works? && s.stage.note.Works?
            ==> !r.value.Refused?
  {
    var prepared := PrepareUpgrade(fs, separate, prepare);
    if prepared.Failure? {
      return Failure(prepared.error);
    }
    ghost var d := fs.disk;
    var end := ActivateUpgrade(fs, prepared.value, separate, s);
    KeptTwice(FilesAt(d, Data), fs.transient);
    return Success(end);
  }
}
