/** The hash of a directory tree in `scripts/release.py` (`_tree_hash`): what is fed to the digest, and what an
    equal digest says about two trees. SHA-256 is taken as injective on the streams it is fed. */
module TreeHash {
  import opened Common
  import opened Ordering
  import opened FileSystem

  /** What a directory can hold and in which order its files are visited: `admits` are the sets of paths that a
      tree on this platform can have. */
  datatype Platform = Platform(admits: set<Path> -> bool, listing: set<Path> -> seq<Path>)

  /** Visits every file once. */
  ghost predicate Lists(listing: set<Path> -> seq<Path>) {
    forall paths :: NoDuplicates(listing(paths)) && forall p :: p in listing(paths) <==> p in paths
  }

  /** The order of two files does not depend on the others. */
  ghost predicate Sorts(listing: set<Path> -> seq<Path>) {
    forall paths, i, j :: 0 <= i < j < |listing(paths)| ==>
      listing({listing(paths)[i], listing(paths)[j]}) == [listing(paths)[i], listing(paths)[j]]
  }

  /** A file has a name, and a tree from which files are taken away is still a tree. */
  ghost predicate Sound(pf: Platform) {
    && Lists(pf.listing) && Sorts(pf.listing)
    && (forall paths :: pf.admits(paths) ==> [] !in paths)
    && (forall paths, fewer :: pf.admits(paths) && fewer <= paths ==> pf.admits(fewer))
  }

  /** Each path and then its bytes, with nothing between them. */
  function Stream(files: Files, paths: seq<Path>): seq<int>
    requires forall p :: p in paths ==> p in files
  {
    if paths == [] then [] else paths[0] + files[paths[0]] + Stream(files, paths[1..])
  }

  /** The stream of a whole tree; a listing that visits every file once never makes it `None`. */
  function TreeStream(files: Files, listing: set<Path> -> seq<Path>): Option<seq<int>> {
    var paths := listing(files.Keys);
    if forall p :: p in paths ==> p in files then Some(Stream(files, paths)) else None
  }

  lemma {:induction false} TreeStreams(files: Files, listing: set<Path> -> seq<Path>)
    requires Lists(listing)
    ensures forall p :: p in listing(files.Keys) <==> p in files
    ensures TreeStream(files, listing) == Some(Stream(files, listing(files.Keys)))
  {
    assert forall p :: p in listing(files.Keys) <==> p in files.Keys;
  }

  // ---------------------------------------------------------------- what an equal hash establishes

  /** The same paths with the same sizes. */
  ghost predicate SameShape(a: Files, b: Files) {
    a.Keys == b.Keys && forall p :: p in a ==> |a[p]| == |b[p]|
  }

  lemma {:induction false} StreamDetermines(a: Files, b: Files, paths: seq<Path>, p: Path)
    requires SameShape(a, b) && (forall q :: q in paths ==> q in a) && p in paths
    requires Stream(a, paths) == Stream(b, paths)
    ensures a[p] == b[p]
  {
    var first, rest := paths[0], paths[1..];
    Cut(first + a[first], Stream(a, rest), first + b[first], Stream(b, rest));
    Cut(first, a[first], first, b[first]);
    if p != first {
      assert p in rest;
      StreamDetermines(a, b, rest, p);
    }
  }

  lemma {:induction false} Cut(a: seq<int>, b: seq<int>, c: seq<int>, d: seq<int>)
    requires |a| == |c| && a + b == c + d
    ensures a == c && b == d
  {
    assert a == (a + b)[..|a|] && c == (c + d)[..|c|];
    assert b == (a + b)[|a|..] && d == (c + d)[|c|..];
  }

  /** Among trees with the same paths and sizes, the hash tells any two apart. */
  lemma {:induction false} HashDetermines(a: Files, b: Files, listing: set<Path> -> seq<Path>)
    requires Lists(listing) && SameShape(a, b)
    ensures TreeStream(a, listing) == TreeStream(b, listing) <==> a == b
  {
    TreeStreams(a, listing);
    TreeStreams(b, listing);
    if TreeStream(a, listing) == TreeStream(b, listing) {
      forall p | p in a ensures a[p] == b[p] {
        StreamDetermines(a, b, listing(a.Keys), p);
      }
    }
  }

  // ---------------------------------------------------------------- what it does not

  /** The tree in which the first byte of a file has become the last byte of its name. */
  function Moved(files: Files, name: Path, byte: int, rest: seq<int>): Files {
    (files - {name})[name + [byte] := rest]
  }

  lemma {:induction false} StreamAgree(a: Files, b: Files, paths: seq<Path>)
    requires forall p :: p in paths ==> p in a && p in b && a[p] == b[p]
    ensures Stream(a, paths) == Stream(b, paths)
  {
    if paths != [] {
      assert paths[0] in paths;
      StreamAgree(a, b, paths[1..]);
    }
  }

  lemma {:induction false} StreamMoved(files: Files, name: Path, byte: int, rest: seq<int>, paths: seq<Path>, i: nat)
    requires name in files && files[name] == [byte] + rest && name + [byte] !in files
    requires NoDuplicates(paths) && (forall p :: p in paths ==> p in files) && i < |paths| && paths[i] == name
    ensures forall p :: p in paths[i := name + [byte]] ==> p in Moved(files, name, byte, rest)
    ensures Stream(Moved(files, name, byte, rest), paths[i := name + [byte]]) == Stream(files, paths)
  {
    var moved, after, tail := Moved(files, name, byte, rest), paths[i := name + [byte]], paths[1..];
    forall p | p in after ensures p in moved {
      var j :| 0 <= j < |after| && after[j] == p;
      assert j != i ==> paths[j] in paths && paths[j] != name;
    }
    if i == 0 {
      assert after[1..] == tail;
      forall p | p in tail ensures p in files && p in moved && moved[p] == files[p] {
        var j :| 0 <= j < |tail| && tail[j] == p;
        assert paths[j + 1] == p && p in paths;
      }
      StreamAgree(moved, files, tail);
      assert name + [byte] + rest == name + ([byte] + rest);
    } else {
      assert after[1..] == tail[i - 1 := name + [byte]];
      assert tail[i - 1] == name && paths[0] in paths && paths[0] != name;
      StreamMoved(files, name, byte, rest, tail, i - 1);
    }
  }

  /** In any tree, moving the first byte of a file to the end of its name goes unseen if the file keeps its place
      in the listing. */
  lemma {:induction false} HashCollides(files: Files, name: Path, byte: int, rest: seq<int>,
                                        listing: set<Path> -> seq<Path>, i: nat)
    requires Lists(listing) && name in files && files[name] == [byte] + rest && name + [byte] !in files
    requires var paths := listing(files.Keys);
             && i < |paths| && paths[i] == name
             && listing(Moved(files, name, byte, rest).Keys) == paths[i := name + [byte]]
    ensures Moved(files, name, byte, rest) != files
    ensures TreeStream(Moved(files, name, byte, rest), listing) == TreeStream(files, listing)
  {
    var moved := Moved(files, name, byte, rest);
    TreeStreams(files, listing);
    TreeStreams(moved, listing);
    StreamMoved(files, name, byte, rest, listing(files.Keys), i);
    assert name + [byte] in moved;
  }

  // ---------------------------------------------------------------- which trees it pins down

  /** The recorded hash admits no other tree. */
  ghost predicate Pinned(files: Files, pf: Platform) {
    forall other: Files ::
      pf.admits(other.Keys) && TreeStream(other, pf.listing) == TreeStream(files, pf.listing) ==> other == files
  }

  /** The stream of a single file can be read as another one: some other prefix is a name. */
  ghost predicate Renames(pf: Platform, p: Path, content: seq<int>, k: nat) {
    k <= |p + content| && k != |p| && pf.admits({(p + content)[..k]})
  }

  /** Or as two files: a second name, listed after the first, stands within the content. */
  ghost predicate Divides(pf: Platform, p: Path, content: seq<int>, i: nat, j: nat) {
    && i <= j <= |content| && content[i..j] != p
    && pf.admits({p, content[i..j]}) && pf.listing({p, content[i..j]}) == [p, content[i..j]]
  }

  /** Neither is possible. */
  ghost predicate OneReading(pf: Platform, p: Path, content: seq<int>) {
    (forall k :: !Renames(pf, p, content, k)) && (forall i, j :: !Divides(pf, p, content, i, j))
  }

  lemma {:induction false} ListedOnly(pf: Platform, p: Path)
    requires Sound(pf)
    ensures pf.listing({p}) == [p]
  {
    var paths := pf.listing({p});
    assert p in {p} && p in paths;
    forall i | 0 <= i < |paths| ensures paths[i] == p {
      assert paths[i] in paths && paths[i] in {p};
    }
    if |paths| > 1 {
      Repeated(paths, 0, 1);
      assert false;
    }
  }

  lemma Repeated(paths: seq<Path>, i: nat, j: nat)
    ensures i < j < |paths| && paths[i] == paths[j] ==>
              !NoDuplicates(paths)
  {
  }

  lemma {:induction false} SingleStream(pf: Platform, p: Path, content: seq<int>)
    requires Sound(pf)
    ensures TreeStream(map[p := content], pf.listing) == Some(p + content)
  {
    var files := map[p := content];
    ListedOnly(pf, p);
    assert files.Keys == {p};
    TreeStreams(files, pf.listing);
    assert [p][1..] == [] && Stream(files, []) == [];
    assert p + content + [] == p + content;
  }

  lemma {:induction false} DoubleStream(pf: Platform, p: Path, a: seq<int>, q: Path, b: seq<int>)
    requires Sound(pf) && p != q && pf.listing({p, q}) == [p, q]
    ensures TreeStream(map[p := a, q := b], pf.listing) == Some(p + a + (q + b))
  {
    var files := map[p := a, q := b];
    assert files.Keys == {p, q};
    TreeStreams(files, pf.listing);
    assert [p, q][1..] == [q] && [q][1..] == [];
    assert Stream(files, []) == [] && q + b + [] == q + b;
    assert Stream(files, [q]) == q + b;
  }

  /** A tree that lists at least one file starts with its name. */
  lemma {:induction false} StreamFront(files: Files, paths: seq<Path>)
    requires paths != [] && forall p :: p in paths ==> p in files
    ensures paths[0] <= Stream(files, paths)
    ensures Stream(files, paths)[|paths[0]|..] == files[paths[0]] + Stream(files, paths[1..])
  {
    var p, rest := paths[0], Stream(files, paths[1..]);
    assert p + files[p] + rest == p + (files[p] + rest);
  }

  /** Two files or more: the first name with all the rest as its content is another tree. */
  lemma {:induction false} ManyUnpinned(files: Files, pf: Platform)
    requires Sound(pf) && pf.admits(files.Keys) && |pf.listing(files.Keys)| >= 2
    ensures !Pinned(files, pf)
  {
    var paths := pf.listing(files.Keys);
    TreeStreams(files, pf.listing);
    StreamFront(files, paths);
    var first, stream := paths[0], Stream(files, paths);
    var other := map[first := stream[|first|..]];
    SingleStream(pf, first, stream[|first|..]);
    assert stream == first + stream[|first|..];
    assert first in paths && paths[1] in paths && paths[1] != first;
    assert other.Keys == {first} && other.Keys <= files.Keys && paths[1] in files && paths[1] !in other;
  }

  /** One file whose stream has another reading is not pinned. */
  lemma {:induction false} OtherName(p: Path, content: seq<int>, pf: Platform, k: nat)
    requires Sound(pf) && Renames(pf, p, content, k)
    ensures !Pinned(map[p := content], pf)
  {
    var files, stream := map[p := content], p + content;
    var q, rest := stream[..k], stream[k..];
    SingleStream(pf, p, content);
    SingleStream(pf, q, rest);
    assert q + rest == stream;
    assert map[q := rest].Keys == {q} && p in files && p !in map[q := rest];
  }

  lemma {:induction false} SecondFile(p: Path, content: seq<int>, pf: Platform, i: nat, j: nat)
    requires Sound(pf) && Divides(pf, p, content, i, j)
    ensures !Pinned(map[p := content], pf)
  {
    var files, q := map[p := content], content[i..j];
    var other := map[p := content[..i], q := content[j..]];
    SingleStream(pf, p, content);
    DoubleStream(pf, p, content[..i], q, content[j..]);
    assert content == content[..i] + q + content[j..];
    assert p + content[..i] + (q + content[j..]) == p + content;
    assert other.Keys == {p, q} && q in other && q !in files;
  }

  /** And one file whose stream has no other reading is. */
  lemma {:induction false} OnlyReading(p: Path, content: seq<int>, pf: Platform, other: Files)
    requires Sound(pf) && pf.admits({p}) && OneReading(pf, p, content)
    requires pf.admits(other.Keys) && TreeStream(other, pf.listing) == Some(p + content)
    ensures other == map[p := content]
  {
    var paths := pf.listing(other.Keys);
    TreeStreams(other, pf.listing);
    assert p in {p} && p != [];
    assert |p + content| > 0;
    if paths == [] {
      assert false;
    }
    var q := paths[0];
    StreamFront(other, paths);
    assert q in paths && q == (p + content)[..|q|];
    assert {q} <= other.Keys && !Renames(pf, p, content, |q|);
    assert q == p && (p + content)[|p|..] == content;
    if |paths| > 1 {
      SecondReading(p, content, pf, other, paths);
      assert false;
    }
    assert paths == [p] && paths[1..] == [] && Stream(other, []) == [];
    assert content == other[p] + [] == other[p];
    forall r | r in other ensures r == p {
      assert r in paths;
    }
  }

  lemma {:induction false} SliceOfRest(content: seq<int>, i: nat, rest: seq<int>, n: nat)
    ensures i <= |content| && content[i..] == rest && n <= |rest| ==>
              i + n <= |content| && content[i..i + n] == rest[..n]
  {
    if i <= |content| && content[i..] == rest && n <= |rest| {
      assert content[i..i + n] == content[i..][..n];
    }
  }

  lemma {:induction false} SecondListed(pf: Platform, other: Files, paths: seq<Path>)
    requires Sound(pf) && pf.admits(other.Keys) && paths == pf.listing(other.Keys) && |paths| > 1
    ensures var p, r := paths[0], paths[1];
            r != p && pf.admits({p, r}) && pf.listing({p, r}) == [p, r]
  {
    var p, r := paths[0], paths[1];
    assert p in paths && r in paths;
    assert {p, r} <= other.Keys;
    assert pf.listing({paths[0], paths[1]}) == [paths[0], paths[1]];
  }

  lemma {:induction false} SecondReading(p: Path, content: seq<int>, pf: Platform, other: Files, paths: seq<Path>)
    requires Sound(pf) && pf.admits(other.Keys) && paths == pf.listing(other.Keys) && |paths| > 1 && paths[0] == p
    requires forall r :: r in paths ==> r in other
    requires content == other[p] + Stream(other, paths[1..])
    ensures Divides(pf, p, content, |other[p]|, |other[p]| + |paths[1]|)
  {
    var tail := paths[1..];
    assert tail[0] == paths[1] && forall r :: r in tail ==> r in paths;
    StreamFront(other, tail);
    var i, j := |other[p]|, |other[p]| + |paths[1]|;
    SliceOfRest(content, i, Stream(other, tail), |paths[1]|);
    assert content[i..j] == paths[1];
    SecondListed(pf, other, paths);
  }

  /** Exactly which trees the hash pins down: the empty one, and a single file whose stream has no other reading
      as one or two files. */
  lemma {:induction false} PinnedExactly(files: Files, pf: Platform)
    requires Sound(pf) && pf.admits(files.Keys)
    ensures Pinned(files, pf) <==>
            files == map[] || exists p :: files.Keys == {p} && OneReading(pf, p, files[p])
  {
    var paths := pf.listing(files.Keys);
    TreeStreams(files, pf.listing);
    if |paths| >= 2 {
      ManyUnpinned(files, pf);
      assert paths[0] in paths && paths[1] in paths && paths[0] != paths[1];
    } else if |paths| == 1 {
      var p := paths[0];
      assert p in paths && files.Keys == {p};
      assert files == map[p := files[p]];
      SinglePinned(p, files[p], pf);
    } else {
      assert files.Keys == {} && files == map[];
      EmptyPinned(pf);
    }
  }

  lemma {:induction false} SinglePinned(p: Path, content: seq<int>, pf: Platform)
    requires Sound(pf) && pf.admits({p})
    ensures Pinned(map[p := content], pf) <==> OneReading(pf, p, content)
  {
    if OneReading(pf, p, content) {
      SingleStream(pf, p, content);
      forall other: Files | pf.admits(other.Keys) && TreeStream(other, pf.listing) == Some(p + content)
        ensures other == map[p := content]
      {
        OnlyReading(p, content, pf, other);
      }
    } else if k: nat :| Renames(pf, p, content, k) {
      OtherName(p, content, pf, k);
    } else {
      var i: nat, j: nat :| Divides(pf, p, content, i, j);
      SecondFile(p, content, pf, i, j);
    }
  }

  lemma {:induction false} StreamNonEmpty(files: Files, paths: seq<Path>)
    requires (forall p :: p in paths ==> p in files && p != []) && paths != []
    ensures Stream(files, paths) != []
  {
    assert paths[0] in paths;
    StreamFront(files, paths);
  }

  lemma Member(paths: seq<Path>)
    requires paths != []
    ensures exists p :: p in paths
  {
    assert paths[0] in paths;
  }

  lemma {:induction false} EmptyStream(files: Files, paths: seq<Path>)
    requires (forall p :: p in paths ==> p in files && p != []) && Stream(files, paths) == []
    ensures paths == []
  {
    if paths != [] {
      StreamNonEmpty(files, paths);
      assert false;
    }
  }

  lemma {:induction false} EmptyPinned(pf: Platform)
    requires Sound(pf)
    ensures Pinned(map[], pf)
  {
    var none: Files := map[];
    TreeStreams(none, pf.listing);
    if pf.listing(none.Keys) != [] {
      Member(pf.listing(none.Keys));
      assert false;
    }
    forall other: Files | pf.admits(other.Keys) && TreeStream(other, pf.listing) == TreeStream(none, pf.listing)
      ensures other == none
    {
      TreeStreams(other, pf.listing);
      EmptyStream(other, pf.listing(other.Keys));
      assert forall r :: r in other ==> r in pf.listing(other.Keys);
      assert other.Keys == {};
    }
  }

  // ---------------------------------------------------------------- a platform

  const SLASH := 47

  /** Relative paths: no NUL, no slash at either end, no two in a row. */
  predicate Relative(p: Path) {
    && p != [] && 0 !in p && p[0] != SLASH && p[|p| - 1] != SLASH
    && forall i :: 0 <= i < |p| - 1 ==> !(p[i] == SLASH && p[i + 1] == SLASH)
  }

  /** No file lies inside another. */
  ghost predicate Posix(paths: set<Path>) {
    (forall p :: p in paths ==> Relative(p)) && (forall p, q :: p in paths && q in paths ==> !(p + [SLASH] <= q))
  }

  predicate PathLe(a: Path, b: Path) {
    a == [] || (b != [] && (a[0] < b[0] || (a[0] == b[0] && PathLe(a[1..], b[1..]))))
  }

  lemma {:induction false} PathLeTotal(a: Path, b: Path)
    ensures PathLe(a, b) || PathLe(b, a)
    ensures PathLe(a, b) && PathLe(b, a) ==> a == b
  {
    if a != [] && b != [] && a[0] == b[0] {
      PathLeTotal(a[1..], b[1..]);
      assert a == [a[0]] + a[1..] && b == [b[0]] + b[1..];
    }
  }

  lemma {:induction false} PathLeTransitive(a: Path, b: Path, c: Path)
    requires PathLe(a, b) && PathLe(b, c)
    ensures PathLe(a, c)
  {
    if a != [] && a[0] == b[0] == c[0] {
      PathLeTransitive(a[1..], b[1..], c[1..]);
    }
  }

  ghost function Enumerated(paths: set<Path>): (s: seq<Path>)
    ensures NoDuplicates(s) && forall p :: p in s <==> p in paths
  {
    if paths == {} then [] else var p :| p in paths; [p] + Enumerated(paths - {p})
  }

  /** The files in ascending order. */
  ghost function Ascending(paths: set<Path>): seq<Path> {
    Sort(Enumerated(paths), PathLe)
  }

  lemma {:induction false} AscendingFacts(paths: set<Path>)
    ensures NoDuplicates(Ascending(paths)) && forall p :: p in Ascending(paths) <==> p in paths
    ensures SortedBy(Ascending(paths), PathLe)
  {
    var s := Enumerated(paths);
    SameElements(s, Ascending(paths));
    PermutationDistinct(s, Ascending(paths));
    forall a: Path, b: Path ensures PathLe(a, b) || PathLe(b, a) {
      PathLeTotal(a, b);
    }
    forall a: Path, b: Path, c: Path | PathLe(a, b) && PathLe(b, c) ensures PathLe(a, c) {
      PathLeTransitive(a, b, c);
    }
    SortSorted(s, PathLe);
  }

  lemma ThreeOfTwo(s: seq<Path>, p: Path, q: Path)
    ensures |s| >= 3 && s[0] in {p, q} && s[1] in {p, q} && s[2] in {p, q} ==>
              !NoDuplicates(s)
  {
    if |s| >= 3 && s[0] in {p, q} && s[1] in {p, q} && s[2] in {p, q} {
      assert s[0] == s[1] || s[0] == s[2] || s[1] == s[2];
    }
  }

  lemma {:induction false} TwoMembers(s: seq<Path>, p: Path, q: Path)
    requires NoDuplicates(s) && p != q && forall x :: x in s <==> x == p || x == q
    ensures s == [p, q] || s == [q, p]
  {
    assert p in s && q in s;
    var i :| 0 <= i < |s| && s[i] == p;
    var j :| 0 <= j < |s| && s[j] == q;
    assert forall k :: 0 <= k < |s| ==> s[k] in s;
    if |s| >= 3 {
      ThreeOfTwo(s, p, q);
      assert false;
    }
  }

  lemma {:induction false} AscendingPair(p: Path, q: Path)
    requires p != q && PathLe(p, q)
    ensures Ascending({p, q}) == [p, q]
  {
    AscendingFacts({p, q});
    TwoMembers(Ascending({p, q}), p, q);
    PathLeTotal(p, q);
    if Ascending({p, q}) == [q, p] {
      SortedPair(q, p);
      assert false;
    }
  }

  lemma SortedPair(a: Path, b: Path)
    requires SortedBy([a, b], PathLe)
    ensures PathLe(a, b)
  {
    assert PathLe([a, b][0], [a, b][1]);
  }

  /** Such platforms exist: relative paths in ascending order. */
  lemma {:induction false} PosixSound() returns (pf: Platform)
    ensures Sound(pf) && pf.listing == Ascending && pf.admits == Posix
  {
    pf := Platform(Posix, Ascending);
    forall paths ensures NoDuplicates(Ascending(paths)) && forall p :: p in Ascending(paths) <==> p in paths {
      AscendingFacts(paths);
    }
    forall paths, i, j | 0 <= i < j < |Ascending(paths)|
      ensures Ascending({Ascending(paths)[i], Ascending(paths)[j]}) == [Ascending(paths)[i], Ascending(paths)[j]]
    {
      AscendingFacts(paths);
      AscendingPair(Ascending(paths)[i], Ascending(paths)[j]);
    }
  }

  /** There, the file "x" that holds one zero byte is pinned, and the file "a" that holds "bc" is not: it could be
      "ab" with "c". */
  lemma {:induction false} PosixExamples(pf: Platform)
    requires Sound(pf) && pf.admits == Posix
    ensures Pinned(map[[120] := [0]], pf) && !Pinned(map[[97] := [98, 99]], pf)
  {
    assert Posix({[120]}) && Posix({[97]}) && Posix({[97, 98]});
    forall k: nat ensures !Renames(pf, [120], [0], k) {
      assert [120] + [0] == [120, 0] && [120, 0][..0] == [] && [120, 0][..2] == [120, 0];
      assert !Relative([120, 0]) && !Relative([]);
      if k <= 2 && k != 1 { assert [120, 0][..k] in {[120, 0][..k]}; }
    }
    forall i: nat, j: nat ensures !Divides(pf, [120], [0], i, j) {
      if i <= j <= 1 {
        assert [0][i..j] == [] || [0][i..j] == [0];
        assert !Relative([0]) && !Relative([]) && [0][i..j] in {[120], [0][i..j]};
      }
    }
    SinglePinned([120], [0], pf);
    assert [97] + [98, 99] == [97, 98, 99] && [97, 98, 99][..2] == [97, 98];
    assert Renames(pf, [97], [98, 99], 2);
    SinglePinned([97], [98, 99], pf);
  }
}
