/** A file system as far as `scripts/release.py` uses it. How each step ends is an argument, so that a run can
    be given any choice of failing steps. */
module FileSystem {
  import opened Common

  /** A relative path, by its encoded bytes. */
  type Path = seq<int>
  type Files = map<Path, seq<int>>

  datatype Node = Tree(files: Files) | File(content: seq<int>)

  /** The places the upgrade touches; `Temp` stands for the uniquely named siblings it creates. */
  datatype Location = Data | Binary | Candidate | BackupData | BackupBinary | Migrated | Manifest | Temp(n: nat)

  type Disk = map<Location, Node>

  /** How a step ends: it works, fails before it changed anything, or fails half done. */
  datatype Step = Works | Untouched | Partly(left: Node)

  function At(disk: Disk, l: Location): Option<Node> {
    if l in disk then Some(disk[l]) else None
  }

  /** What a step that should leave `goal` leaves in a place that held `before`. */
  function Leaves(before: Option<Node>, step: Step, goal: Option<Node>): Option<Node> {
    match step
    case Works => goal
    case Untouched => before
    case Partly(left) => Some(left)
  }

  /** The two disks agree everywhere outside `touched`. */
  ghost predicate SameBut(a: Disk, b: Disk, touched: set<Location>) {
    forall l :: l !in touched ==> (l in a <==> l in b) && (l in a ==> a[l] == b[l])
  }

  /** Copies leave out the rebuildable shared-memory files; which ones those are does not matter here. */
  function Kept(files: Files, transient: Path -> bool): Files {
    map p | p in files && !transient(p) :: files[p]
  }

  lemma KeptTwice(files: Files, transient: Path -> bool)
    ensures Kept(Kept(files, transient), transient) == Kept(files, transient)
  {
  }

  /** A copy has exactly the other files, unchanged. */
  lemma KeptMeans(files: Files, transient: Path -> bool, p: Path)
    ensures p in Kept(files, transient) <==> p in files && !transient(p)
    ensures p in Kept(files, transient) ==> Kept(files, transient)[p] == files[p]
  {
  }

  /** What `copytree` makes of a place, or `mkdir` when it is not a directory. */
  function Copied(disk: Disk, source: Location, transient: Path -> bool): Node {
    if source in disk && disk[source].Tree? then Tree(Kept(disk[source].files, transient)) else Tree(map[])
  }

  /** `listing` is the order in which a directory's files are visited. */
  class Storage {
    const transient: Path -> bool
    const listing: set<Path> -> seq<Path>
    var disk: Disk
    var nextTemp: nat
    ghost var history: seq<Disk>

    constructor (disk: Disk, transient: Path -> bool, listing: set<Path> -> seq<Path>)
      requires forall n :: Temp(n) !in disk
      ensures this.disk == disk && this.transient == transient && this.listing == listing && Valid() && history == []
    {
      this.disk := disk;
      this.transient := transient;
      this.listing := listing;
      nextTemp := 0;
      history := [];
    }

    /** Names not yet handed out are not in use. */
    ghost predicate Valid()
      reads this
    {
      forall n :: nextTemp <= n ==> Temp(n) !in disk
    }

    method FreshName() returns (l: Location)
      requires Valid()
      modifies this`nextTemp
      ensures Valid() && l == Temp(old(nextTemp)) && l !in disk && nextTemp == old(nextTemp) + 1
    {
      l := Temp(nextTemp);
      nextTemp := nextTemp + 1;
    }

    /** Puts `goal` into a place, as far as the step goes. */
    method Put(target: Location, goal: Node, step: Step) returns (ok: bool)
      requires Valid() && (target.Temp? ==> target.n < nextTemp)
      modifies this`disk, this`history
      ensures Valid() && history == old(history) + [disk] && ok == step.Works?
      ensures SameBut(disk, old(disk), {target})
      ensures At(disk, target) == Leaves(At(old(disk), target), step, Some(goal))
    {
      if step.Works? {
        disk := disk[target := goal];
      } else if step.Partly? {
        disk := disk[target := step.left];
      }
      history := history + [disk];
      ok := step.Works?;
    }

    /** Copies a tree, or makes an empty directory. */
    method CopyTree(source: Location, target: Location, step: Step) returns (ok: bool)
      requires Valid() && (target.Temp? ==> target.n < nextTemp)
      modifies this`disk, this`history
      ensures Valid() && history == old(history) + [disk] && ok == step.Works?
      ensures SameBut(disk, old(disk), {target})
      ensures At(disk, target) == Leaves(At(old(disk), target), step, Some(Copied(old(disk), source, transient)))
    {
      ok := Put(target, Copied(disk, source, transient), step);
    }

    /** Copies a file; without a source nothing is written. */
    method CopyFile(source: Location, target: Location, step: Step) returns (ok: bool)
      requires Valid() && (target.Temp? ==> target.n < nextTemp)
      modifies this`disk, this`history
      ensures Valid() && history == old(history) + [disk] && (ok <==> step.Works? && source in old(disk))
      ensures SameBut(disk, old(disk), {target})
      ensures ok ==> At(disk, target) == Some(old(disk)[source])
    {
      if source in disk {
        ok := Put(target, disk[source], step);
      } else {
        history := history + [disk];
        ok := false;
      }
    }

    /** `os.replace`: all or nothing. */
    method Rename(source: Location, target: Location, step: Step) returns (ok: bool)
      requires Valid() && source in disk && source != target && (target.Temp? ==> target.n < nextTemp)
      modifies this`disk, this`history
      ensures Valid() && history == old(history) + [disk] && ok == step.Works?
      ensures !ok ==> disk == old(disk)
      ensures ok ==> disk == (old(disk) - {source})[target := old(disk)[source]]
    {
      ok := step.Works?;
      if ok {
        disk := (disk - {source})[target := disk[source]];
      }
      history := history + [disk];
    }

    /** Removes a tree or a file. */
    method Remove(target: Location, step: Step) returns (ok: bool)
      requires Valid() && target in disk
      modifies this`disk, this`history
      ensures Valid() && history == old(history) + [disk] && ok == step.Works?
      ensures SameBut(disk, old(disk), {target})
      ensures At(disk, target) == Leaves(At(old(disk), target), step, None)
    {
      if step.Works? {
        disk := disk - {target};
      } else if step.Partly? {
        disk := disk[target := step.left];
      }
      history := history + [disk];
      ok := step.Works?;
    }
  }
}
