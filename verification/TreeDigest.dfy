/** The identity of a release candidate (`qa/release_candidate.py`): the byte stream fed to the tree digest,
    and the agreement of the directory listing with the archive listing. */
module TreeDigest {
  import opened Common
  import opened Ordering

  type Bytes = seq<int>

  /** One line of the stream: the encoded relative name, the size and the hexadecimal content hash. */
  datatype Entry = Entry(name: Bytes, size: nat, hash: Bytes)

  const NUL := 0
  const NEWLINE := 10

  // ---------------------------------------------------------------- serialization

  function Decimal(n: nat): (s: Bytes)
    ensures |s| > 0 && forall i :: 0 <= i < |s| ==> 48 <= s[i] <= 57
  {
    if n < 10 then [48 + n] else Decimal(n / 10) + [48 + n % 10]
  }

  function Value(s: Bytes): int {
    if s == [] then 0 else Value(s[..|s| - 1]) * 10 + (s[|s| - 1] - 48)
  }

  lemma {:induction false} DecimalValue(n: nat)
    ensures Value(Decimal(n)) == n
  {
    if n < 10 {
      assert [48 + n][..0] == [];
    } else {
      DecimalValue(n / 10);
      var s := Decimal(n);
      assert s[..|s| - 1] == Decimal(n / 10);
    }
  }

  function Line(e: Entry): Bytes {
    e.name + [NUL] + Decimal(e.size) + [NUL] + e.hash + [NEWLINE]
  }

  function Serialize(entries: seq<Entry>): Bytes {
    if entries == [] then [] else Line(entries[0]) + Serialize(entries[1..])
  }

  /** A name an operating system can hand out, and a hexadecimal hash. */
  ghost predicate Proper(e: Entry) {
    NUL !in e.name && NEWLINE !in e.hash
  }

  /** The text before the first separator, and what follows it, are determined by the whole. */
  lemma {:induction false} CutUnique(x: Bytes, y: Bytes, separator: int, rest: Bytes, rest': Bytes)
    requires separator !in x && separator !in y
    requires x + [separator] + rest == y + [separator] + rest'
    ensures x == y && rest == rest'
  {
    var whole := x + [separator] + rest;
    var whole' := y + [separator] + rest';
    assert whole[|x|] == separator && forall i :: 0 <= i < |x| ==> whole[i] == x[i];
    assert whole'[|y|] == separator && forall i :: 0 <= i < |y| ==> whole'[i] == y[i];
    assert |x| == |y|;
    assert x == whole[..|x|] && y == whole'[..|y|];
    assert rest == whole[|x| + 1..] && rest' == whole'[|y| + 1..];
  }

  lemma {:induction false} LineUnique(a: Entry, b: Entry, rest: Bytes, rest': Bytes)
    requires Proper(a) && Proper(b) && Line(a) + rest == Line(b) + rest'
    ensures a == b && rest == rest'
  {
    var a1, b1 := a.hash + [NEWLINE] + rest, b.hash + [NEWLINE] + rest';
    var a2, b2 := Decimal(a.size) + [NUL] + a1, Decimal(b.size) + [NUL] + b1;
    assert Line(a) + rest == a.name + [NUL] + a2;
    assert Line(b) + rest' == b.name + [NUL] + b2;
    CutUnique(a.name, b.name, NUL, a2, b2);
    CutUnique(Decimal(a.size), Decimal(b.size), NUL, a1, b1);
    CutUnique(a.hash, b.hash, NEWLINE, rest, rest');
    DecimalValue(a.size);
    DecimalValue(b.size);
  }

  /** Different lists of entries are never serialized alike. */
  lemma {:induction false} SerializeInjective(a: seq<Entry>, b: seq<Entry>)
    requires forall e :: e in a || e in b ==> Proper(e)
    requires Serialize(a) == Serialize(b)
    ensures a == b
  {
    assert a != [] ==> |Serialize(a)| > 0;
    assert b != [] ==> |Serialize(b)| > 0;
    if a != [] && b != [] {
      LineUnique(a[0], b[0], Serialize(a[1..]), Serialize(b[1..]));
      SerializeInjective(a[1..], b[1..]);
      assert a == [a[0]] + a[1..] && b == [b[0]] + b[1..];
    }
  }

  lemma {:induction false} SerializeAppend(entries: seq<Entry>, e: Entry)
    ensures Serialize(entries + [e]) == Serialize(entries) + Line(e)
  {
    if entries == [] {
      assert [e][1..] == [] && entries + [e] == [e];
      assert Line(e) + [] == Line(e);
    } else {
      assert (entries + [e])[1..] == entries[1..] + [e];
      SerializeAppend(entries[1..], e);
      assert Line(entries[0]) + (Serialize(entries[1..]) + Line(e)) == Serialize(entries) + Line(e);
    }
  }

  /** `_tree_digest`: what has been fed to the hash, and how many entries. */
  method FeedDigest(domain: Bytes, entries: seq<Entry>) returns (stream: Bytes, count: nat)
    ensures stream == domain + Serialize(entries) && count == |entries|
  {
    stream, count := domain, 0;
    for i := 0 to |entries|
      invariant stream == domain + Serialize(entries[..i]) && count == i
    {
      var e := entries[i];
      assert entries[..i + 1] == entries[..i] + [e];
      SerializeAppend(entries[..i], e);
      ghost var before := stream;
      stream := stream + e.name;
      stream := stream + [NUL];
      stream := stream + Decimal(e.size);
      stream := stream + [NUL];
      stream := stream + e.hash;
      stream := stream + [NEWLINE];
      assert stream == before + Line(e);
      assert stream == domain + (Serialize(entries[..i]) + Line(e));
      count := count + 1;
    }
    assert entries[..|entries|] == entries;
  }

  // ---------------------------------------------------------------- listings

  /** A file of the package, by the components of its relative path. */
  datatype PackageFile = PackageFile(path: seq<string>, content: Bytes)

  datatype Info = Info(filename: string, content: Bytes, symlink: bool)

  const ARCHIVE_ROOT := "VibeTable"

  ghost predicate Component(c: string) {
    c != "" && c != "." && c != ".." && '/' !in c
  }

  /** What a directory walk yields: files with distinct, proper paths. */
  ghost predicate Walkable(files: seq<PackageFile>) {
    && (forall f :: f in files ==> f.path != [] && forall c :: c in f.path ==> Component(c))
    && (forall i, j :: 0 <= i < j < |files| ==> files[i].path != files[j].path)
  }

  function Join(path: seq<string>): string {
    if path == [] then "" else if |path| == 1 then path[0] else path[0] + "/" + Join(path[1..])
  }

  function Split(s: string): (parts: seq<string>)
    ensures |parts| > 0
  {
    if s == "" then [""]
    else
      var rest := Split(s[1..]);
      if s[0] == '/' then [""] + rest else [[s[0]] + rest[0]] + rest[1..]
  }

  /** `PurePosixPath(s).parts` of a relative path. */
  function Parts(s: string): seq<string> {
    Meaningful(Split(s))
  }

  function Meaningful(parts: seq<string>): seq<string> {
    if parts == [] then []
    else (if parts[0] == "" || parts[0] == "." then [] else [parts[0]]) + Meaningful(parts[1..])
  }

  lemma {:induction false} SplitComponent(c: string, rest: string)
    requires '/' !in c
    ensures Split(c + "/" + rest) == [c] + Split(rest)
    ensures Split(c) == [c]
  {
    if c == "" {
      assert c + "/" + rest == "/" + rest && ("/" + rest)[1..] == rest;
    } else {
      SplitComponent(c[1..], rest);
      assert (c + "/" + rest)[1..] == c[1..] + "/" + rest;
      assert [c[0]] + c[1..] == c;
    }
  }

  /** Splitting undoes joining. */
  lemma {:induction false} SplitJoin(path: seq<string>)
    requires path != [] && forall c :: c in path ==> Component(c)
    ensures Split(Join(path)) == path && Parts(Join(path)) == path
  {
    assert path == [path[0]] + path[1..] && path[0] in path;
    if |path| == 1 {
      SplitComponent(path[0], "");
    } else {
      SplitComponent(path[0], Join(path[1..]));
      SplitJoin(path[1..]);
    }
    MeaningfulAll(path);
  }

  lemma {:induction false} MeaningfulAll(path: seq<string>)
    requires forall c :: c in path ==> Component(c)
    ensures Meaningful(path) == path
  {
    if path != [] {
      assert path[0] in path;
      MeaningfulAll(path[1..]);
      assert path == [path[0]] + path[1..];
    }
  }

  // ---------------------------------------------------------------- directory and archive

  /** How contents and names are hashed and encoded. */
  datatype Codec = Codec(sha: Bytes -> Bytes, utf8: string -> Bytes)

  predicate FileLe(root: string, a: PackageFile, b: PackageFile) {
    StringLe(root + "/" + Join(a.path), root + "/" + Join(b.path))
  }

  predicate InfoLe(a: Info, b: Info) {
    StringLe(a.filename, b.filename)
  }

  function FileEntry(codec: Codec, relative: string, content: Bytes): Entry {
    Entry(codec.utf8(relative), |content|, codec.sha(content))
  }

  /** The files of a directory in the order of their full paths. */
  function Listing(root: string, files: seq<PackageFile>): seq<PackageFile> {
    Sort(files, (a, b) => FileLe(root, a, b))
  }

  /** The members `create_archive` writes. */
  function ArchiveMembers(root: string, files: seq<PackageFile>): (infos: seq<Info>)
    ensures |infos| == |files|
  {
    var listing := Listing(root, files);
    seq(|listing|, i requires 0 <= i < |listing| =>
      Info(ARCHIVE_ROOT + "/" + Join(listing[i].path), listing[i].content, false))
  }

  predicate Unsafe(info: Info) {
    "/" <= info.filename || ".." in Parts(info.filename) || '\\' in info.filename
  }

  predicate IsDirectory(info: Info) {
    info.filename != "" && info.filename[|info.filename| - 1] == '/'
  }

  /** What `archive_tree` makes of one member: it refuses the archive, skips a directory, or lists a file
      by its name relative to the archive's root. */
  datatype Member = Refused | Skipped | Listed(relative: string, content: Bytes)

  function ReadMember(info: Info): Member {
    var parts := Parts(info.filename);
    if Unsafe(info) || |parts| < 2 || parts[0] != ARCHIVE_ROOT || info.symlink then Refused
    else if IsDirectory(info) then Skipped
    else Listed(Join(parts[1..]), info.content)
  }

  function Members(infos: seq<Info>): (members: seq<Member>)
    ensures |members| == |infos|
  {
    if infos == [] then [] else Members(infos[..|infos| - 1]) + [ReadMember(infos[|infos| - 1])]
  }

  lemma {:induction false} MembersAt(infos: seq<Info>, i: nat)
    requires i < |infos|
    ensures Members(infos)[i] == ReadMember(infos[i])
  {
    if i < |infos| - 1 { MembersAt(infos[..|infos| - 1], i); }
  }

  function Filenames(infos: seq<Info>): (names: seq<string>)
    ensures |names| == |infos| && forall i :: 0 <= i < |infos| ==> names[i] == infos[i].filename
  {
    seq(|infos|, i requires 0 <= i < |infos| => infos[i].filename)
  }

  /** The entries of the files among the first `n` members. */
  function MemberEntries(codec: Codec, members: seq<Member>, n: nat): seq<Entry>
    requires n <= |members|
  {
    if n == 0 then []
    else MemberEntries(codec, members, n - 1) +
         (if members[n - 1].Listed? then [FileEntry(codec, members[n - 1].relative, members[n - 1].content)] else [])
  }

  /** The checks on one member. */
  method CheckMember(info: Info) returns (m: Member)
    ensures m == ReadMember(info)
  {
    var parts := Parts(info.filename);
    if Unsafe(info) {
      return Refused;
    }
    if |parts| < 2 || parts[0] != ARCHIVE_ROOT {
      return Refused;
    }
    if info.symlink {
      return Refused;
    }
    if IsDirectory(info) {
      return Skipped;
    }
    return Listed(Join(parts[1..]), info.content);
  }

  /** None of the first `n` members is refused. */
  ghost predicate Accepted(members: seq<Member>, n: nat)
    requires n <= |members|
  {
    forall j :: 0 <= j < n ==> members[j] != Refused
  }

  /** One round of the loop: member `i` joins the entries, is skipped, or is refused. */
  method ReadNext(codec: Codec, infos: seq<Info>, i: nat, entries: seq<Entry>) returns (ok: bool, more: seq<Entry>)
    requires i < |infos| && entries == MemberEntries(codec, Members(infos), i)
    ensures ok <==> Members(infos)[i] != Refused
    ensures ok ==> more == MemberEntries(codec, Members(infos), i + 1)
  {
    var m := CheckMember(infos[i]);
    MembersAt(infos, i);
    more := if m.Listed? then entries + [FileEntry(codec, m.relative, m.content)] else entries;
    return m != Refused, more;
  }

  method ReadMembers(codec: Codec, infos: seq<Info>) returns (r: Result<seq<Entry>>)
    ensures r.Success? <==> Accepted(Members(infos), |infos|)
    ensures r.Success? ==> r.value == MemberEntries(codec, Members(infos), |infos|)
  {
    var entries: seq<Entry> := [];
    for i := 0 to |infos|
      invariant Accepted(Members(infos), i)
      invariant entries == MemberEntries(codec, Members(infos), i)
    {
      var ok;
      ok, entries := ReadNext(codec, infos, i, entries);
      if !ok {
        return Failure("unsafe or unexpected release candidate archive entry");
      }
    }
    return Success(entries);
  }

  /** `archive_tree`, as the entries it feeds to the digest. */
  method ArchiveEntries(codec: Codec, infos: seq<Info>) returns (r: Result<seq<Entry>>)
    ensures var members := Members(Sort(infos, InfoLe));
            var entries := MemberEntries(codec, members, |infos|);
            && (r.Success? <==> NoDuplicates(Filenames(infos)) && Accepted(members, |infos|) && entries != [])
            && (r.Success? ==> r.value == entries)
  {
    var repeats := HasRepeats(Filenames(infos));
    if repeats {
      return Failure("release candidate archive contains duplicate entries");
    }
    r := ReadMembers(codec, Sort(infos, InfoLe));
    if r == Success([]) {
      return Failure("release candidate archive contains no files");
    }
  }

  // ---------------------------------------------------------------- their agreement

  lemma {:induction false} SortOfSorted<T(!new)>(s: seq<T>, le: (T, T) -> bool)
    requires SortedBy(s, le)
    ensures Sort(s, le) == s
  {
    if s != [] {
      SortOfSorted(s[1..], le);
      assert |s| > 1 ==> le(s[0], s[1]);
      assert s == [s[0]] + s[1..];
    }
  }

  /** The members are written in the order in which `archive_tree` reads them: a common prefix does not
      change how paths compare. */
  lemma {:induction false} MembersSorted(root: string, files: seq<PackageFile>)
    ensures Sort(ArchiveMembers(root, files), InfoLe) == ArchiveMembers(root, files)
  {
    var le := (a, b) => FileLe(root, a, b);
    var listing, infos := Listing(root, files), ArchiveMembers(root, files);
    FileLeTotal(root);
    SortSorted(files, le);
    forall i, j | 0 <= i < j < |infos| ensures InfoLe(infos[i], infos[j]) {
      assert FileLe(root, listing[i], listing[j]);
      CommonPrefix(root + "/", Join(listing[i].path), Join(listing[j].path));
      CommonPrefix(ARCHIVE_ROOT + "/", Join(listing[i].path), Join(listing[j].path));
    }
    SortOfSorted(infos, InfoLe);
  }

  lemma {:induction false} FileLeTotal(root: string)
    ensures TotalPreorder((a, b) => FileLe(root, a, b))
  {
    forall a: PackageFile, b: PackageFile ensures FileLe(root, a, b) || FileLe(root, b, a) {
      StringLeTotal(root + "/" + Join(a.path), root + "/" + Join(b.path));
    }
    forall a: PackageFile, b: PackageFile, c: PackageFile | FileLe(root, a, b) && FileLe(root, b, c)
      ensures FileLe(root, a, c)
    {
      StringLeTransitive(root + "/" + Join(a.path), root + "/" + Join(b.path), root + "/" + Join(c.path));
    }
  }

  /** A member of the archive of a package lists the file under its own path, unless a backslash makes
      it unreadable. */
  lemma {:induction false} MemberFacts(path: seq<string>, content: Bytes)
    requires path != [] && forall c :: c in path ==> Component(c)
    ensures ReadMember(Info(ARCHIVE_ROOT + "/" + Join(path), content, false)) ==
            if '\\' in Join(path) then Refused else Listed(Join(path), content)
  {
    var info := Info(ARCHIVE_ROOT + "/" + Join(path), content, false);
    var whole := [ARCHIVE_ROOT] + path;
    assert Component(ARCHIVE_ROOT);
    assert whole[1..] == path && Join(whole) == info.filename;
    SplitJoin(whole);
    assert ".." !in whole;
    JoinEnd(path);
    assert info.filename[|info.filename| - 1] == Join(path)[|Join(path)| - 1];
    assert forall c :: c in info.filename <==> c in ARCHIVE_ROOT + "/" || c in Join(path);
  }

  lemma {:induction false} JoinEnd(path: seq<string>)
    requires path != [] && forall c :: c in path ==> Component(c)
    ensures Join(path) != "" && Join(path)[|Join(path)| - 1] != '/'
  {
    assert path[0] in path;
    if |path| > 1 {
      JoinEnd(path[1..]);
    } else {
      assert path[0][|path[0]| - 1] in path[0];
    }
  }

  /** The entries `package_tree` feeds to the digest. */
  function ListingEntries(codec: Codec, listing: seq<PackageFile>, n: nat): seq<Entry>
    requires n <= |listing|
  {
    if n == 0 then []
    else ListingEntries(codec, listing, n - 1) +
         [FileEntry(codec, Join(listing[n - 1].path), listing[n - 1].content)]
  }

  ghost predicate NoBackslash(files: seq<PackageFile>) {
    forall f :: f in files ==> '\\' !in Join(f.path)
  }

  /** The member written for the `i`-th listed file. */
  lemma {:induction false} MemberAt(root: string, files: seq<PackageFile>, i: nat)
    requires Walkable(files) && i < |files|
    ensures var f := Listing(root, files)[i];
            && f in files
            && Members(ArchiveMembers(root, files))[i] ==
                 if '\\' in Join(f.path) then Refused else Listed(Join(f.path), f.content)
  {
    var f := Listing(root, files)[i];
    SameElements(files, Listing(root, files));
    assert f in Listing(root, files);
    MemberFacts(f.path, f.content);
    MembersAt(ArchiveMembers(root, files), i);
  }

  lemma {:induction false} MembersAgree(codec: Codec, root: string, files: seq<PackageFile>, n: nat)
    requires Walkable(files) && NoBackslash(files) && n <= |files|
    ensures MemberEntries(codec, Members(ArchiveMembers(root, files)), n) ==
            ListingEntries(codec, Listing(root, files), n)
  {
    if n > 0 {
      MembersAgree(codec, root, files, n - 1);
      MemberAt(root, files, n - 1);
    }
  }

  /** An archive is refused exactly when some name has a backslash. */
  lemma {:induction false} RefusedExactly(root: string, files: seq<PackageFile>)
    requires Walkable(files)
    ensures Accepted(Members(ArchiveMembers(root, files)), |files|) <==> NoBackslash(files)
  {
    var listing, members := Listing(root, files), Members(ArchiveMembers(root, files));
    SameElements(files, listing);
    forall i | 0 <= i < |files| ensures members[i].Refused? <==> '\\' in Join(listing[i].path) {
      MemberAt(root, files, i);
    }
    forall f | f in files ensures exists i :: 0 <= i < |listing| && listing[i] == f {
      assert f in listing;
    }
  }

  lemma {:induction false} MembersDistinct(root: string, files: seq<PackageFile>)
    requires Walkable(files)
    ensures NoDuplicates(Filenames(ArchiveMembers(root, files)))
  {
    var listing, names := Listing(root, files), Filenames(ArchiveMembers(root, files));
    SameElements(files, listing);
    PermutationDistinct(files, listing);
    forall i, j | 0 <= i < j < |listing| ensures names[i] != names[j] {
      var a, b := listing[i], listing[j];
      assert a in listing && b in listing;
      SplitJoin(a.path);
      SplitJoin(b.path);
      assert names[i][|ARCHIVE_ROOT| + 1..] == Join(a.path) && names[j][|ARCHIVE_ROOT| + 1..] == Join(b.path);
    }
  }

  lemma {:induction false} ListingLength(codec: Codec, listing: seq<PackageFile>, n: nat)
    requires n <= |listing|
    ensures |ListingEntries(codec, listing, n)| == n
  {
    if n > 0 { ListingLength(codec, listing, n - 1); }
  }

  /** `package_tree`, as the entries it feeds to the digest. */
  method PackageEntries(codec: Codec, root: string, files: seq<PackageFile>) returns (r: Result<seq<Entry>>)
    ensures r == if files == [] then Failure("release candidate contains no files")
                 else Success(ListingEntries(codec, Listing(root, files), |files|))
  {
    var listing := Listing(root, files);
    var entries: seq<Entry> := [];
    for i := 0 to |listing|
      invariant entries == ListingEntries(codec, listing, i) && |entries| == i
    {
      entries := entries + [FileEntry(codec, Join(listing[i].path), listing[i].content)];
    }
    if entries == [] {
      return Failure("release candidate contains no files");
    }
    return Success(entries);
  }

  /** One member for each file, under the archive's root, with the file's content. */
  ghost predicate Archives(infos: seq<Info>, files: seq<PackageFile>) {
    && |infos| == |files|
    && (forall info :: info in infos ==> !info.symlink)
    && (forall f :: f in files ==> Info("VibeTable" + "/" + Join(f.path), f.content, false) in infos)
  }

  lemma {:induction false} MembersArchive(root: string, files: seq<PackageFile>)
    ensures Archives(ArchiveMembers(root, files), files)
  {
    var infos, listing := ArchiveMembers(root, files), Listing(root, files);
    SameElements(files, listing);
    forall f | f in files ensures Info("VibeTable" + "/" + Join(f.path), f.content, false) in infos {
      assert f in listing;
      var i :| 0 <= i < |listing| && listing[i] == f;
      assert infos[i] == Info("VibeTable" + "/" + Join(f.path), f.content, false);
    }
  }

  /** `create_archive`: the directory and the archive it writes yield the same entries in the same order,
      so it accepts every package that has a file and no backslash in a name, and no other. */
  method CreateArchive(codec: Codec, digest: Bytes -> Bytes, domain: Bytes, root: string, files: seq<PackageFile>)
    returns (r: Result<seq<Info>>)
    requires Walkable(files)
    ensures r.Success? <==> files != [] && NoBackslash(files)
    ensures r.Success? ==> r.value == ArchiveMembers(root, files) && Archives(r.value, files)
  {
    var package := PackageEntries(codec, root, files);
    if package.Failure? {
      return Failure(package.error);
    }
    var infos := ArchiveMembers(root, files);
    MembersSorted(root, files);
    MembersDistinct(root, files);
    RefusedExactly(root, files);
    if NoBackslash(files) {
      MembersAgree(codec, root, files, |files|);
    }
    ListingLength(codec, Listing(root, files), |files|);
    MembersArchive(root, files);
    var archived := ArchiveEntries(codec, infos);
    if archived.Failure? {
      return Failure(archived.error);
    }
    var stream, count := FeedDigest(domain, package.value);
    var stream', count' := FeedDigest(domain, archived.value);
    r := if digest(stream) == digest(stream') && count == count' then Success(infos)
         else Failure("release archive contents do not match the package tree");
  }
}
