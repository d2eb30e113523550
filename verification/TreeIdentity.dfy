/** What the identity of a release candidate says about its files (`qa/release_candidate.py`): from files to the
    bytes that are digested, for packages and for archives. */
module TreeIdentity {
  import opened Common
  import opened Ordering
  import opened TreeDigest

  /** A file by its relative name. */
  datatype Content = Content(name: string, bytes: Bytes)

  const NUL_CHAR := 0 as char

  /** The hash and the encoding lose nothing and keep clear of the separators: a hexadecimal digest has no newline,
      and only a NUL character encodes to a NUL byte. */
  ghost predicate Faithful(codec: Codec) {
    && (forall a, b :: codec.sha(a) == codec.sha(b) ==> a == b)
    && (forall a, b :: codec.utf8(a) == codec.utf8(b) ==> a == b)
    && (forall a :: NEWLINE !in codec.sha(a))
    && (forall s :: NUL_CHAR !in s ==> NUL !in codec.utf8(s))
  }

  ghost predicate NamesClean(contents: seq<Content>) {
    forall i :: 0 <= i < |contents| ==> NUL_CHAR !in contents[i].name
  }

  /** The entries that describe the files: name, size and hash of each. */
  ghost function Described(codec: Codec, contents: seq<Content>): (entries: seq<Entry>)
    ensures |entries| == |contents|
  {
    seq(|contents|, i requires 0 <= i < |contents| =>
      Entry(codec.utf8(contents[i].name), |contents[i].bytes|, codec.sha(contents[i].bytes)))
  }

  lemma {:induction false} DescribedInjective(codec: Codec, a: seq<Content>, b: seq<Content>)
    requires Faithful(codec) && Described(codec, a) == Described(codec, b)
    ensures a == b
  {
    var c, d := Described(codec, a), Described(codec, b);
    assert |a| == |c| == |d| == |b|;
    forall i | 0 <= i < |a| ensures a[i] == b[i] {
      assert c[i] == d[i];
      assert codec.utf8(a[i].name) == codec.utf8(b[i].name) && codec.sha(a[i].bytes) == codec.sha(b[i].bytes);
    }
  }

  lemma {:induction false} DescribedProper(codec: Codec, contents: seq<Content>)
    ensures Faithful(codec) && NamesClean(contents) ==>
              (forall e :: e in Described(codec, contents) ==> Proper(e))
  {
  }

  /** The digested bytes are equal exactly for equal lists of files. */
  lemma {:induction false} StreamsEqual(codec: Codec, domain: Bytes, a: seq<Content>, b: seq<Content>)
    requires Faithful(codec) && NamesClean(a) && NamesClean(b)
    ensures domain + Serialize(Described(codec, a)) == domain + Serialize(Described(codec, b)) <==> a == b
  {
    var x, y := Serialize(Described(codec, a)), Serialize(Described(codec, b));
    if domain + x == domain + y {
      assert x == (domain + x)[|domain|..] && y == (domain + y)[|domain|..];
      DescribedProper(codec, a);
      DescribedProper(codec, b);
      SerializeInjective(Described(codec, a), Described(codec, b));
      DescribedInjective(codec, a, b);
    }
  }

  // ---------------------------------------------------------------- packages

  function ContentOf(f: PackageFile): Content {
    Content(Join(f.path), f.content)
  }

  ghost function ContentsOf(listing: seq<PackageFile>): (contents: seq<Content>)
    ensures |contents| == |listing|
  {
    seq(|listing|, i requires 0 <= i < |listing| => ContentOf(listing[i]))
  }

  lemma {:induction false} ListingDescribed(codec: Codec, listing: seq<PackageFile>, n: nat)
    requires n <= |listing|
    ensures ListingEntries(codec, listing, n) == Described(codec, ContentsOf(listing)[..n])
  {
    if n > 0 {
      ListingDescribed(codec, listing, n - 1);
      var contents := ContentsOf(listing);
      assert contents[..n] == contents[..n - 1] + [contents[n - 1]];
      assert Described(codec, contents[..n]) ==
             Described(codec, contents[..n - 1]) + Described(codec, [contents[n - 1]]);
    }
  }

  /** Names ascend strictly. */
  ghost predicate Ascends(contents: seq<Content>) {
    forall i, j :: 0 <= i < j < |contents| ==>
      StringLe(contents[i].name, contents[j].name) && contents[i].name != contents[j].name
  }

  lemma {:induction false} FirstOfSame(a: seq<Content>, b: seq<Content>)
    requires Ascends(a) && Ascends(b) && a != [] && b != [] && a[0] in b && b[0] in a
    ensures a[0] == b[0]
  {
    var i :| 0 <= i < |a| && a[i] == b[0];
    var j :| 0 <= j < |b| && b[j] == a[0];
    assert i > 0 ==> StringLe(a[0].name, a[i].name) && a[0].name != a[i].name;
    assert j > 0 ==> StringLe(b[0].name, b[j].name) && b[0].name != b[j].name;
    StringLeTotal(a[0].name, b[0].name);
  }

  lemma Inhabited(b: seq<Content>)
    ensures b != [] ==>
              exists x :: x in b
  {
    if b != [] {
      assert b[0] in b;
    }
  }

  lemma {:induction false} AscendingSame(a: seq<Content>, b: seq<Content>)
    requires Ascends(a) && Ascends(b) && forall x :: x in a <==> x in b
    ensures a == b
  {
    if a == [] {
      if b != [] {
        Inhabited(b);
        assert false;
      }
    } else {
      assert a[0] in a && a[0] in b;
      assert b[0] in b;
      FirstOfSame(a, b);
      var c, d := a[1..], b[1..];
      assert a == [a[0]] + c && b == [b[0]] + d;
      assert a[0] !in c && b[0] !in d;
      forall x ensures x in c <==> x in d {
        assert x in a <==> x == a[0] || x in c;
        assert x in b <==> x == b[0] || x in d;
      }
      AscendingSame(c, d);
    }
  }

  lemma {:induction false} ListingAscends(root: string, files: seq<PackageFile>)
    requires Walkable(files)
    ensures Ascends(ContentsOf(Listing(root, files)))
    ensures forall f :: f in Listing(root, files) <==> f in files
  {
    var le := (a, b) => FileLe(root, a, b);
    var listing := Listing(root, files);
    FileLeTotal(root);
    SortSorted(files, le);
    SameElements(files, listing);
    PermutationDistinct(files, listing);
    forall i, j | 0 <= i < j < |listing|
      ensures StringLe(Join(listing[i].path), Join(listing[j].path)) && Join(listing[i].path) != Join(listing[j].path)
    {
      assert FileLe(root, listing[i], listing[j]);
      CommonPrefix(root + "/", Join(listing[i].path), Join(listing[j].path));
      var f, g := listing[i], listing[j];
      assert f in files && g in files && f != g;
      DifferentPaths(files, f, g);
      SplitJoin(f.path);
      SplitJoin(g.path);
    }
  }

  lemma {:induction false} DifferentPaths(files: seq<PackageFile>, f: PackageFile, g: PackageFile)
    ensures Walkable(files) && f in files && g in files && f != g ==>
              f.path != g.path
  {
    if Walkable(files) && f in files && g in files && f != g {
      var i :| 0 <= i < |files| && files[i] == f;
      var j :| 0 <= j < |files| && files[j] == g;
    }
  }

  lemma {:induction false} InContents(listing: seq<PackageFile>, f: PackageFile)
    requires f in listing
    ensures ContentOf(f) in ContentsOf(listing)
  {
    var i :| 0 <= i < |listing| && listing[i] == f;
    assert ContentsOf(listing)[i] == ContentOf(f);
  }

  ghost predicate ProperPath(f: PackageFile) {
    f.path != [] && forall c :: c in f.path ==> Component(c)
  }

  /** A name and content come from one file only. */
  lemma {:induction false} ContentDecides(f: PackageFile, g: PackageFile)
    requires ProperPath(f) && ProperPath(g) && ContentOf(f) == ContentOf(g)
    ensures f == g
  {
    SplitJoin(f.path);
    SplitJoin(g.path);
  }

  lemma {:induction false} FileAt(listing: seq<PackageFile>, f: PackageFile)
    requires ProperPath(f) && (forall g :: g in listing ==> ProperPath(g)) && ContentOf(f) in ContentsOf(listing)
    ensures f in listing
  {
    var i :| 0 <= i < |listing| && ContentsOf(listing)[i] == ContentOf(f);
    ContentDecides(listing[i], f);
  }

  lemma {:induction false} SameFiles(rootA: string, a: seq<PackageFile>, rootB: string, b: seq<PackageFile>)
    requires Walkable(a) && Walkable(b)
    ensures ContentsOf(Listing(rootA, a)) == ContentsOf(Listing(rootB, b)) <==> forall f :: f in a <==> f in b
  {
    var x, y := ContentsOf(Listing(rootA, a)), ContentsOf(Listing(rootB, b));
    ListingAscends(rootA, a);
    ListingAscends(rootB, b);
    if x == y {
      forall f ensures f in a <==> f in b {
        if f in a {
          InContents(Listing(rootA, a), f);
          FileAt(Listing(rootB, b), f);
        }
        if f in b {
          InContents(Listing(rootB, b), f);
          FileAt(Listing(rootA, a), f);
        }
      }
    }
    if forall f :: f in a <==> f in b {
      forall c ensures c in x <==> c in y {
        if i :| 0 <= i < |x| && x[i] == c { InContents(Listing(rootB, b), Listing(rootA, a)[i]); }
        if i :| 0 <= i < |y| && y[i] == c { InContents(Listing(rootA, a), Listing(rootB, b)[i]); }
      }
      AscendingSame(x, y);
    }
  }

  ghost predicate PathsClean(files: seq<PackageFile>) {
    forall f :: f in files ==> NUL_CHAR !in Join(f.path)
  }

  lemma {:induction false} ContentsClean(root: string, files: seq<PackageFile>)
    requires Walkable(files) && PathsClean(files)
    ensures NamesClean(ContentsOf(Listing(root, files)))
  {
    ListingAscends(root, files);
    forall i | 0 <= i < |files| ensures NUL_CHAR !in ContentsOf(Listing(root, files))[i].name {
      assert Listing(root, files)[i] in files;
    }
  }

  /** What `package_tree` digests, for two packages wherever they are: the bytes are equal exactly if the packages
      hold the same paths with the same contents. */
  method SamePackages(codec: Codec, domain: Bytes, rootA: string, a: seq<PackageFile>,
                      rootB: string, b: seq<PackageFile>)
    returns (same: bool)
    requires Faithful(codec) && a != [] && b != []
    requires Walkable(a) && PathsClean(a) && Walkable(b) && PathsClean(b)
    ensures same <==> forall f :: f in a <==> f in b
  {
    var first := PackageEntries(codec, rootA, a);
    var second := PackageEntries(codec, rootB, b);
    var x, _ := FeedDigest(domain, first.value);
    var y, _ := FeedDigest(domain, second.value);
    same := x == y;
    ghost var c, d := ContentsOf(Listing(rootA, a)), ContentsOf(Listing(rootB, b));
    ListingDescribed(codec, Listing(rootA, a), |a|);
    ListingDescribed(codec, Listing(rootB, b), |b|);
    assert c[..|a|] == c && d[..|b|] == d;
    ContentsClean(rootA, a);
    ContentsClean(rootB, b);
    StreamsEqual(codec, domain, c, d);
    SameFiles(rootA, a, rootB, b);
  }

  // ---------------------------------------------------------------- archives

  /** The member may be read: a relative path below the archive's root, without "..", backslashes or a link. */
  ghost predicate Readable(info: Info) {
    && !("/" <= info.filename) && ".." !in Parts(info.filename) && '\\' !in info.filename
    && |Parts(info.filename)| >= 2 && Parts(info.filename)[0] == "VibeTable" && !info.symlink
  }

  ghost predicate EndsWithSlash(s: string) {
    s != "" && s[|s| - 1] == '/'
  }

  /** The name relative to the first directory. */
  ghost function Below(filename: string): string {
    if Parts(filename) == [] then "" else Join(Parts(filename)[1..])
  }

  /** The files among the members, by their names relative to the root. */
  ghost function FilesIn(infos: seq<Info>): seq<Content> {
    if infos == [] then []
    else
      var init, last := infos[..|infos| - 1], infos[|infos| - 1];
      FilesIn(init) + (if EndsWithSlash(last.filename) then [] else [Content(Below(last.filename), last.content)])
  }

  lemma {:induction false} ReadableMember(info: Info)
    ensures ReadMember(info) != Refused <==> Readable(info)
    ensures Readable(info) ==>
              ReadMember(info) ==
                (if EndsWithSlash(info.filename) then Skipped else Listed(Below(info.filename), info.content))
  {
  }

  ghost predicate AllReadable(infos: seq<Info>) {
    forall info :: info in infos ==> Readable(info)
  }

  lemma {:induction false} AcceptedReadable(infos: seq<Info>)
    ensures Accepted(Members(infos), |infos|) <==> AllReadable(infos)
  {
    forall i | 0 <= i < |infos| ensures Members(infos)[i] != Refused <==> Readable(infos[i]) {
      MembersAt(infos, i);
      ReadableMember(infos[i]);
    }
    if AllReadable(infos) {
      assert forall i :: 0 <= i < |infos| ==> infos[i] in infos;
    }
  }

  lemma {:induction false} MembersPrefix(infos: seq<Info>, n: nat)
    requires n <= |infos|
    ensures Members(infos)[..n] == Members(infos[..n])
  {
    forall i | 0 <= i < n ensures Members(infos)[i] == Members(infos[..n])[i] {
      MembersAt(infos, i);
      MembersAt(infos[..n], i);
    }
  }

  lemma {:induction false} EntriesPrefix(codec: Codec, a: seq<Member>, b: seq<Member>, n: nat)
    requires n <= |a| && n <= |b| && a[..n] == b[..n]
    ensures MemberEntries(codec, a, n) == MemberEntries(codec, b, n)
  {
    if n > 0 {
      assert a[n - 1] == a[..n][n - 1] == b[n - 1];
      assert a[..n - 1] == a[..n][..n - 1] == b[..n - 1];
      EntriesPrefix(codec, a, b, n - 1);
    }
  }

  lemma {:induction false} DescribedAppend(codec: Codec, a: seq<Content>, b: seq<Content>)
    ensures Described(codec, a + b) == Described(codec, a) + Described(codec, b)
  {
  }

  lemma {:induction false} OneDescribed(codec: Codec, name: string, content: Bytes)
    ensures [FileEntry(codec, name, content)] == Described(codec, [Content(name, content)])
  {
  }

  lemma {:induction false} EntriesStep(codec: Codec, members: seq<Member>, n: nat, files: seq<Content>, file: Content)
    requires 0 < n <= |members| && MemberEntries(codec, members, n - 1) == Described(codec, files)
    ensures members[n - 1] == Skipped ==> MemberEntries(codec, members, n) == Described(codec, files)
    ensures members[n - 1] == Listed(file.name, file.bytes) ==>
              MemberEntries(codec, members, n) == Described(codec, files + [file])
  {
    OneDescribed(codec, file.name, file.bytes);
    DescribedAppend(codec, files, [file]);
  }

  lemma {:induction false} EntriesOfInit(codec: Codec, infos: seq<Info>)
    requires infos != []
    ensures MemberEntries(codec, Members(infos), |infos| - 1) ==
            MemberEntries(codec, Members(infos[..|infos| - 1]), |infos| - 1)
  {
    MembersPrefix(infos, |infos| - 1);
    EntriesPrefix(codec, Members(infos), Members(infos[..|infos| - 1]), |infos| - 1);
  }

  lemma {:induction false} ArchiveDescribed(codec: Codec, infos: seq<Info>)
    requires AllReadable(infos)
    ensures MemberEntries(codec, Members(infos), |infos|) == Described(codec, FilesIn(infos))
  {
    if infos != [] {
      var n := |infos|;
      var init, last := infos[..n - 1], infos[n - 1];
      assert last in infos && forall info :: info in init ==> info in infos;
      ArchiveDescribed(codec, init);
      EntriesOfInit(codec, infos);
      MembersAt(infos, n - 1);
      ReadableMember(last);
      EntriesStep(codec, Members(infos), n, FilesIn(init), Content(Below(last.filename), last.content));
    }
  }

  /** What an accepted archive is: distinct names, every member readable, at least one file. */
  ghost predicate Sound(infos: seq<Info>) {
    && NoDuplicates(Filenames(infos)) && AllReadable(infos)
    && exists info :: info in infos && !EndsWithSlash(info.filename)
  }

  lemma {:induction false} SomeFile(infos: seq<Info>)
    requires AllReadable(infos)
    ensures FilesIn(infos) != [] <==> exists info :: info in infos && !EndsWithSlash(info.filename)
  {
    if infos != [] {
      var init, last := infos[..|infos| - 1], infos[|infos| - 1];
      assert infos == init + [last] && last in infos;
      SomeFile(init);
    }
  }

  lemma {:induction false} SortedReadable(infos: seq<Info>)
    ensures AllReadable(Sort(infos, InfoLe)) <==> AllReadable(infos)
    ensures forall info :: info in Sort(infos, InfoLe) <==> info in infos
  {
    SameElements(infos, Sort(infos, InfoLe));
  }

  /** The files of an archive in the order in which it is read: by full name. */
  ghost function ArchiveFiles(infos: seq<Info>): seq<Content>
    requires AllReadable(infos)
  {
    SortedReadable(infos);
    FilesIn(Sort(infos, InfoLe))
  }

  /** `archive_tree` in terms of the members alone. */
  method ReadArchive(codec: Codec, infos: seq<Info>) returns (r: Result<seq<Entry>>)
    ensures r.Success? <==> Sound(infos)
    ensures r.Success? ==> r.value == Described(codec, ArchiveFiles(infos))
  {
    var sorted := Sort(infos, InfoLe);
    SortedReadable(infos);
    AcceptedReadable(sorted);
    if AllReadable(sorted) {
      ArchiveDescribed(codec, sorted);
      SomeFile(sorted);
    }
    r := ArchiveEntries(codec, infos);
  }

  /** What `archive_tree` digests, for two archives: neither is refused exactly if both are sound, and then the
      bytes are equal exactly if they hold the same files, with the same contents, in the same order. */
  method SameArchives(codec: Codec, domain: Bytes, a: seq<Info>, b: seq<Info>) returns (same: Option<bool>)
    requires Faithful(codec)
    requires forall info :: info in a || info in b ==> NUL_CHAR !in info.filename
    ensures same.Some? <==> Sound(a) && Sound(b)
    ensures same.Some? ==> (same.value <==> ArchiveFiles(a) == ArchiveFiles(b))
  {
    var first := ReadArchive(codec, a);
    var second := ReadArchive(codec, b);
    if first.Failure? || second.Failure? {
      return None;
    }
    var x, _ := FeedDigest(domain, first.value);
    var y, _ := FeedDigest(domain, second.value);
    ArchiveClean(a);
    ArchiveClean(b);
    StreamsEqual(codec, domain, ArchiveFiles(a), ArchiveFiles(b));
    return Some(x == y);
  }

  lemma {:induction false} ArchiveClean(infos: seq<Info>)
    requires AllReadable(infos) && forall info :: info in infos ==> NUL_CHAR !in info.filename
    ensures NamesClean(ArchiveFiles(infos))
  {
    SortedReadable(infos);
    FilesClean(Sort(infos, InfoLe));
  }

  lemma {:induction false} FilesClean(infos: seq<Info>)
    requires AllReadable(infos) && forall info :: info in infos ==> NUL_CHAR !in info.filename
    ensures NamesClean(FilesIn(infos))
  {
    if infos != [] {
      var init, last := infos[..|infos| - 1], infos[|infos| - 1];
      assert infos == init + [last];
      FilesClean(init);
      PartsClean(last.filename);
      if Parts(last.filename) != [] { JoinClean(Parts(last.filename)[1..]); }
    }
  }

  lemma {:induction false} PartsClean(s: string)
    requires NUL_CHAR !in s
    ensures forall p :: p in Parts(s) ==> NUL_CHAR !in p
  {
    SplitClean(s);
    MeaningfulMember(Split(s));
  }

  lemma {:induction false} SplitClean(s: string)
    requires NUL_CHAR !in s
    ensures forall p :: p in Split(s) ==> NUL_CHAR !in p
  {
    if s != "" { SplitClean(s[1..]); }
  }

  /** The parts of a path are its components but for empty ones and dots. */
  lemma {:induction false} MeaningfulMember(parts: seq<string>)
    ensures forall p :: p in Meaningful(parts) <==> p in parts && p != "" && p != "."
  {
    if parts != [] {
      MeaningfulMember(parts[1..]);
      assert parts == [parts[0]] + parts[1..];
    }
  }

  lemma {:induction false} JoinClean(path: seq<string>)
    requires forall p :: p in path ==> NUL_CHAR !in p
    ensures NUL_CHAR !in Join(path)
  {
    if path != [] {
      assert path[0] in path;
      if |path| > 1 { JoinClean(path[1..]); }
    }
  }

  lemma {:induction false} JoinFront(first: string, rest: seq<string>)
    ensures Join([first] + rest) == if rest == [] then first else first + "/" + Join(rest)
  {
    assert ([first] + rest)[1..] == rest;
  }

  lemma {:induction false} JoinPrepend(c: char, parts: seq<string>)
    ensures parts != [] ==>
              Join([[c] + parts[0]] + parts[1..]) == [c] + Join(parts)
  {
    if parts != [] {
      var first, rest := parts[0], parts[1..];
      JoinFront([c] + first, rest);
      JoinFront(first, rest);
      assert parts == [first] + rest;
      assert [c] + first + "/" + Join(rest) == [c] + (first + "/" + Join(rest));
    }
  }

  lemma {:induction false} SplitFront(s: string)
    ensures s != "" ==>
              Split(s) == if s[0] == '/' then [""] + Split(s[1..])
                        else [[s[0]] + Split(s[1..])[0]] + Split(s[1..])[1..]
  {
  }

  /** Joining undoes splitting. */
  lemma {:induction false} JoinSplit(s: string)
    ensures Join(Split(s)) == s
  {
    if s != "" {
      JoinSplit(s[1..]);
      SplitFront(s);
      JoinFront("", Split(s[1..]));
      JoinPrepend(s[0], Split(s[1..]));
      assert s == [s[0]] + s[1..];
    }
  }

  /** And no part has a slash. */
  lemma {:induction false} PartsHaveNoSlash(s: string)
    ensures forall p :: p in Split(s) ==> '/' !in p
  {
    if s != "" {
      var rest := Split(s[1..]);
      PartsHaveNoSlash(s[1..]);
      SplitFront(s);
      assert rest[0] in rest;
      assert forall p :: p in rest[1..] ==> p in rest;
    }
  }
}
