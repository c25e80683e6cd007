/** Export, archive, verify and import again. The archive may list its members in any order. */
module BundleRoundTrip {
  import opened Options
  import opened BundlePaths
  import opened Bundles
  import opened BundleImport
  import opened BundleTheorems
  import opened BundleExport

  // ---- the archive of a staging tree -------------------------------------------------------------------

  function FolderMembers(name: string, folders: seq<Path>): Archive {
    if folders == [] then []
    else FolderMembers(name, folders[..|folders| - 1]) + [Member(Under(name, folders[|folders| - 1]), Directory, [])]
  }

  function FileMembers(name: string, files: seq<Node>): Archive
    requires AllFiles(files)
  {
    if files == [] then []
    else
      var last := files[|files| - 1];
      FileMembers(name, files[..|files| - 1]) + [Member(Under(name, last.path), File, last.kind.content)]
  }

  /** The collection's directory, the directories below it, the exported files and the manifest. */
  function Listing(name: string, folders: seq<Path>, files: seq<Node>, manifest: Bytes): Archive
    requires AllFiles(files)
  {
    [Member(Join([name]), Directory, [])] + FolderMembers(name, folders) + FileMembers(name, files)
    + [Member(Under(name, [MANIFEST]), File, manifest)]
  }

  /** a archives the staged files and their directories, in whatever order. */
  ghost predicate TarOf(a: Archive, name: string, dirs: set<Path>, files: seq<Node>, manifest: Bytes)
    requires AllFiles(files)
  {
    exists folders: seq<Path> ::
      multiset(folders) == multiset(dirs) && multiset(a) == multiset(Listing(name, folders, files, manifest))
  }

  lemma {:induction false} FolderMemberships(name: string, folders: seq<Path>)
    ensures |FolderMembers(name, folders)| == |folders| && Total(FolderMembers(name, folders)) == 0
    ensures forall e :: e in FolderMembers(name, folders) ==>
              exists d :: d in folders && e == Member(Under(name, d), Directory, [])
  {
    if folders != [] {
      var init, last := folders[..|folders| - 1], folders[|folders| - 1];
      assert folders == init + [last];
      FolderMemberships(name, init);
      TotalOfNext(FolderMembers(name, init), Member(Under(name, last), Directory, []));
      forall e | e in FolderMembers(name, folders)
        ensures exists d :: d in folders && e == Member(Under(name, d), Directory, [])
      {
        if e in FolderMembers(name, init) {
          var d :| d in init && e == Member(Under(name, d), Directory, []);
          assert d in folders;
        }
      }
    }
  }

  lemma TotalOfNext(a: Archive, e: Member)
    ensures Total(a + [e]) == Total(a) + if e.kind.File? then |e.content| else 0
  {
    assert (a + [e])[..|a|] == a;
  }

  function FileMember(name: string, n: Node): Member
    requires n.kind.RegularFile?
  {
    Member(Under(name, n.path), File, n.kind.content)
  }

  lemma {:induction false} FileMemberships(name: string, files: seq<Node>)
    requires AllFiles(files)
    ensures |FileMembers(name, files)| == |files| && Total(FileMembers(name, files)) == Size(files)
    ensures forall e :: e in FileMembers(name, files) ==> exists n :: n in files && e == FileMember(name, n)
    ensures forall n :: n in files ==> FileMember(name, n) in FileMembers(name, files)
  {
    if files != [] {
      var init, last := files[..|files| - 1], files[|files| - 1];
      assert files == init + [last];
      FileMemberships(name, init);
      TotalOfNext(FileMembers(name, init), FileMember(name, last));
      forall e | e in FileMembers(name, files) ensures exists n :: n in files && e == FileMember(name, n) {
        if e in FileMembers(name, init) {
          var n :| n in init && e == FileMember(name, n);
          assert n in files;
        }
      }
    }
  }

  lemma {:induction false} TotalOfConcat(a: Archive, b: Archive)
    ensures Total(a + b) == Total(a) + Total(b)
  {
    if b == [] {
      assert a + b == a;
    } else {
      var init := b[..|b| - 1];
      assert b == init + [b[|b| - 1]] && a + b == (a + init) + [b[|b| - 1]];
      TotalOfConcat(a, init);
      TotalOfNext(a + init, b[|b| - 1]);
      TotalOfNext(init, b[|b| - 1]);
    }
  }

  lemma SplitAt<T>(a: seq<T>, b: seq<T>) returns (front: seq<T>, back: seq<T>)
    requires a != [] && multiset(a) == multiset(b)
    ensures b == front + [a[|a| - 1]] + back
    ensures multiset(a[..|a| - 1]) == multiset(front + back)
  {
    var init, last := a[..|a| - 1], a[|a| - 1];
    assert a == init + [last];
    assert last in multiset(b);
    var j :| 0 <= j < |b| && b[j] == last;
    front, back := b[..j], b[j + 1..];
    assert b == front + [last] + back;
    assert multiset(front + [last]) == multiset(front) + multiset{last};
    Cancel(multiset(init), multiset(front + back), last);
  }

  lemma Cancel<T>(x: multiset<T>, y: multiset<T>, one: T)
    requires x + multiset{one} == y + multiset{one}
    ensures x == y
  {
    assert x == x + multiset{one} - multiset{one};
    assert y == y + multiset{one} - multiset{one};
  }

  lemma {:induction false} TotalIgnoresOrder(a: Archive, b: Archive)
    requires multiset(a) == multiset(b)
    ensures Total(a) == Total(b)
    decreases |a|
  {
    if a == [] {
      assert |multiset(b)| == 0;
    } else {
      var front, back := SplitAt(a, b);
      TotalIgnoresOrder(a[..|a| - 1], front + back);
      TotalOfConcat(front, back);
      TotalOfConcat(front + [a[|a| - 1]], back);
      TotalOfNext(front, a[|a| - 1]);
    }
  }

  /** A directory of the tree, its root included, or one of its files. */
  ghost predicate Staged(e: Member, name: string, dirs: set<Path>, files: map<Path, Bytes>) {
    || (e.kind.Directory? && (e.name == Join([name]) || exists d :: d in dirs && e.name == Under(name, d)))
    || (e.kind.File? && exists p :: p in files && e.name == Under(name, p) && e.content == files[p])
  }

  /** The members of a staged archive, whatever their order. */
  ghost predicate Shape(a: Archive, name: string, dirs: set<Path>, files: map<Path, Bytes>) {
    && (forall e :: e in a ==> Staged(e, name, dirs, files))
    && (forall p {:trigger Member(Under(name, p), File, files[p])} :: p in files ==>
         Member(Under(name, p), File, files[p]) in a)
    && Member(Join([name]), Directory, []) in a
  }

  lemma TarCounts(a: Archive, name: string, dirs: set<Path>, files: seq<Node>, manifest: Bytes)
    requires AllFiles(files) && TarOf(a, name, dirs, files, manifest)
    ensures |a| == |dirs| + |files| + 2 && Total(a) == Size(files) + |manifest|
  {
    var folders: seq<Path> :|
      multiset(folders) == multiset(dirs) && multiset(a) == multiset(Listing(name, folders, files, manifest));
    FolderMemberships(name, folders);
    FileMemberships(name, files);
    var listing := Listing(name, folders, files, manifest);
    assert |folders| == |multiset(folders)| == |dirs|;
    assert |a| == |multiset(a)| == |listing|;
    TotalIgnoresOrder(a, listing);
    var top := [Member(Join([name]), Directory, [])];
    TotalOfNext([], top[0]);
    assert [] + top == top;
    TotalOfConcat(top, FolderMembers(name, folders));
    TotalOfConcat(top + FolderMembers(name, folders), FileMembers(name, files));
    TotalOfNext(top + FolderMembers(name, folders) + FileMembers(name, files),
                Member(Under(name, [MANIFEST]), File, manifest));
  }

  lemma TarShape(a: Archive, name: string, dirs: set<Path>, files: seq<Node>, manifest: Bytes, staged: map<Path, Bytes>)
    requires AllFiles(files) && TarOf(a, name, dirs, files, manifest)
    requires forall n :: n in files ==> n.path in staged && staged[n.path] == n.kind.content
    requires forall p :: p in staged && p != [MANIFEST] ==> exists n :: n in files && n.path == p
    requires [MANIFEST] in staged && staged[[MANIFEST]] == manifest
    ensures Shape(a, name, dirs, staged)
  {
    var folders: seq<Path> :|
      multiset(folders) == multiset(dirs) && multiset(a) == multiset(Listing(name, folders, files, manifest));
    var listing := Listing(name, folders, files, manifest);
    SameElements(a, listing);
    forall d | d in folders ensures d in dirs {
      assert d in multiset(folders);
    }
    forall e | e in a ensures Staged(e, name, dirs, staged) {
      ListedIsStaged(e, name, folders, dirs, files, manifest, staged);
    }
    forall p | p in staged ensures Member(Under(name, p), File, staged[p]) in a {
      StagedIsListed(p, name, folders, files, manifest, staged);
    }
    assert Member(Join([name]), Directory, []) in listing;
  }

  lemma SameElements<T>(a: seq<T>, b: seq<T>)
    requires multiset(a) == multiset(b)
    ensures forall e :: e in a <==> e in b
  {
    forall e ensures e in a <==> e in b {
      assert e in multiset(a) <==> e in multiset(b);
    }
  }

  lemma StagedIsListed(p: Path, name: string, folders: seq<Path>, files: seq<Node>, manifest: Bytes,
                       staged: map<Path, Bytes>)
    requires AllFiles(files) && p in staged && [MANIFEST] in staged && staged[[MANIFEST]] == manifest
    requires forall n :: n in files ==> n.path in staged && staged[n.path] == n.kind.content
    requires p != [MANIFEST] ==> exists n :: n in files && n.path == p
    ensures Member(Under(name, p), File, staged[p]) in Listing(name, folders, files, manifest)
  {
    if p != [MANIFEST] {
      var n :| n in files && n.path == p;
      FileMemberships(name, files);
      assert FileMember(name, n) in FileMembers(name, files);
    }
  }

  lemma ListedIsStaged(e: Member, name: string, folders: seq<Path>, dirs: set<Path>, files: seq<Node>, manifest: Bytes,
                       staged: map<Path, Bytes>)
    requires AllFiles(files) && e in Listing(name, folders, files, manifest)
    requires forall d :: d in folders ==> d in dirs
    requires forall n :: n in files ==> n.path in staged && staged[n.path] == n.kind.content
    requires [MANIFEST] in staged && staged[[MANIFEST]] == manifest
    ensures Staged(e, name, dirs, staged)
  {
    if e in FolderMembers(name, folders) {
      FolderMemberships(name, folders);
      var d :| d in folders && e == Member(Under(name, d), Directory, []);
      assert d in dirs;
    } else if e in FileMembers(name, files) {
      FileMemberships(name, files);
      var n :| n in files && e == FileMember(name, n);
      assert n.path in staged && e.name == Under(name, n.path);
    } else if e.kind.File? {
      assert e.name == Under(name, [MANIFEST]);
    }
  }

  // ---- what verification and import make of it ---------------------------------------------------------

  lemma NameParts(name: string, p: Path)
    requires Plain(name) && AllPlain(p)
    ensures Parts(Under(name, p)) == [name] + p && Target(Under(name, p)) == p && !Absolute(Under(name, p))
  {
    PartsOfJoin([name] + p);
    JoinIsRelative([name] + p);
  }

  lemma {:induction false} FilesOfShape(a: Archive, files: map<Path, Bytes>)
    requires [] !in files
    requires forall e :: e in a && e.kind.File? ==>
               Target(e.name) in files && files[Target(e.name)] == e.content
    ensures forall p :: p in FilesOf(a) ==> p in files && FilesOf(a)[p] == files[p]
    ensures forall e :: e in a && e.kind.File? ==> Target(e.name) in FilesOf(a)
  {
    if a != [] {
      var init, last := a[..|a| - 1], a[|a| - 1];
      assert a == init + [last] && last in a;
      FilesOfShape(init, files);
    }
  }

  lemma {:induction false} DirsOfShape(a: Archive, dirs: set<Path>)
    requires forall e :: e in a ==> Above(Target(e.name)) <= dirs
    requires forall e :: e in a && e.kind.Directory? && Target(e.name) != [] ==> Target(e.name) in dirs
    ensures DirsOf(a) <= dirs
  {
    if a != [] {
      var init, last := a[..|a| - 1], a[|a| - 1];
      assert a == init + [last] && last in a;
      DirsOfShape(init, dirs);
      assert Above(Target(last.name)) <= dirs;
      assert last.kind.Directory? && Target(last.name) != [] ==> {Target(last.name)} <= dirs;
    }
  }

  /** The staging tree: sensible paths, directories exactly above the files, no path both. */
  ghost predicate SoundTree(dirs: set<Path>, files: map<Path, Bytes>) {
    && (forall p :: p in files ==> Inside(p))
    && dirs == AllAbove(files.Keys) && files.Keys !! dirs
  }

  lemma DirsAreInside(dirs: set<Path>, files: map<Path, Bytes>, d: Path)
    requires SoundTree(dirs, files) && d in dirs
    ensures Inside(d) && Above(d) <= dirs
  {
    var p :| p in files && d in Above(p);
    forall part | part in d ensures part in p {}
    forall x | x in Above(d) ensures x in dirs {
      assert x == p[..|x|];
      assert x in Above(p);
    }
  }

  lemma MemberTargets(a: Archive, name: string, dirs: set<Path>, files: map<Path, Bytes>, e: Member)
    requires Plain(name) && name != ".." && SoundTree(dirs, files) && Shape(a, name, dirs, files) && e in a
    ensures Admitted(e) && Root(e.name) == name && Above(Target(e.name)) <= dirs
    ensures e.kind.Directory? && Target(e.name) != [] ==> Target(e.name) in dirs
    ensures e.kind.File? ==> Target(e.name) in files && files[Target(e.name)] == e.content
    ensures e.kind.File? || e.kind.Directory?
  {
    if e.kind.File? {
      var p :| p in files && e.name == Under(name, p) && e.content == files[p];
      NameParts(name, p);
      forall x | x in Above(p) ensures x in AllAbove(files.Keys) {}
    } else if e.name == Join([name]) {
      PartsOfJoin([name]);
      JoinIsRelative([name]);
    } else {
      var d :| d in dirs && e.name == Under(name, d);
      DirsAreInside(dirs, files, d);
      NameParts(name, d);
    }
  }

  lemma StagedRoots(a: Archive, name: string, dirs: set<Path>, files: map<Path, Bytes>)
    requires Plain(name) && name != ".." && SoundTree(dirs, files) && Shape(a, name, dirs, files)
    ensures AllowedMembers(a) && Roots(a) == {name}
  {
    forall e | e in a ensures Admitted(e) && Root(e.name) == name {
      MemberTargets(a, name, dirs, files, e);
    }
    var top := Member(Join([name]), Directory, []);
    assert top in a && Root(top.name) in Roots(a);
  }

  lemma FileTargets(a: Archive, name: string, dirs: set<Path>, files: map<Path, Bytes>)
    requires Plain(name) && name != ".." && SoundTree(dirs, files) && Shape(a, name, dirs, files)
    ensures [] !in files
    ensures forall e :: e in a && e.kind.File? ==> Target(e.name) in files && files[Target(e.name)] == e.content
  {
    forall e | e in a && e.kind.File? ensures Target(e.name) in files && files[Target(e.name)] == e.content {
      MemberTargets(a, name, dirs, files, e);
    }
  }

  lemma StagedFiles(a: Archive, name: string, files: map<Path, Bytes>)
    requires Plain(name) && [] !in files && forall p :: p in files ==> Inside(p)
    requires forall e :: e in a && e.kind.File? ==> Target(e.name) in files && files[Target(e.name)] == e.content
    requires forall p {:trigger Member(Under(name, p), File, files[p])} :: p in files ==>
               Member(Under(name, p), File, files[p]) in a
    ensures FilesOf(a) == files
  {
    FilesOfShape(a, files);
    forall p | p in files ensures p in FilesOf(a) {
      var e := Member(Under(name, p), File, files[p]);
      FileIsExtracted(a, name, p, files[p]);
    }
  }

  lemma FileIsExtracted(a: Archive, name: string, p: Path, content: Bytes)
    requires Plain(name) && Inside(p) && Member(Under(name, p), File, content) in a
    requires forall e :: e in a && e.kind.File? ==> Target(e.name) in FilesOf(a)
    ensures p in FilesOf(a)
  {
    TargetOfFile(name, p);
    var e := Member(Under(name, p), File, content);
    assert e in a && Target(e.name) == p;
  }

  lemma StagedDirs(a: Archive, name: string, dirs: set<Path>, files: map<Path, Bytes>)
    requires Plain(name) && name != ".." && SoundTree(dirs, files) && Shape(a, name, dirs, files)
    ensures DirsOf(a) <= dirs
  {
    forall e | e in a
      ensures Above(Target(e.name)) <= dirs && (e.kind.Directory? && Target(e.name) != [] ==> Target(e.name) in dirs)
    {
      MemberTargets(a, name, dirs, files, e);
    }
    DirsOfShape(a, dirs);
  }

  /** Extraction always succeeds on a staged archive and gives back the staged files. */
  lemma StagedExtracts(a: Archive, name: string, dirs: set<Path>, files: map<Path, Bytes>)
    requires Plain(name) && name != ".." && SoundTree(dirs, files) && Shape(a, name, dirs, files)
    ensures Placeable(a) && FilesOf(a) == files
  {
    forall e | e in a ensures FileOrDirectory(e) {
      MemberTargets(a, name, dirs, files, e);
    }
    FileTargets(a, name, dirs, files);
    StagedFiles(a, name, files);
    StagedDirs(a, name, dirs, files);
  }

  lemma TargetOfFile(name: string, p: Path)
    requires Plain(name) && Inside(p)
    ensures Target(Under(name, p)) == p
  {
    NameParts(name, p);
  }

  // ---- the exported manifest describes the staged files ------------------------------------------------

  lemma {:induction false} ListedItems(files: seq<Node>, sha: Bytes -> string)
    requires AllFiles(files) && forall n :: n in files ==> AllPlain(n.path)
    ensures Listed(Items(files, sha)).Keys == Contents(files).Keys
    ensures forall p :: p in Contents(files) ==>
              Listed(Items(files, sha))[p] == Item(Join(p), |Contents(files)[p]|, sha(Contents(files)[p]))
  {
    if files != [] {
      var init, last := files[..|files| - 1], files[|files| - 1];
      assert files == init + [last] && last in files;
      ListedItems(init, sha);
      PartsOfJoin(last.path);
      var items := Items(files, sha);
      assert items[..|items| - 1] == Items(init, sha);
    }
  }

  lemma {:induction false} ItemsAreValid(files: seq<Node>, sha: Bytes -> string)
    requires AllFiles(files) && forall n :: n in files ==> Inside(n.path)
    requires forall b :: HexDigest(sha(b))
    ensures forall item :: item in Items(files, sha) ==>
              item.path != "" && item.size >= 0 && HexDigest(item.sha256) && SafeRelative(item.path)
  {
    if files != [] {
      var init, last := files[..|files| - 1], files[|files| - 1];
      assert files == init + [last] && last in files;
      ItemsAreValid(init, sha);
      PartsOfJoin(last.path);
      JoinIsRelative(last.path);
    }
  }

  lemma ExportedNode(nodes: seq<Node>, n: Node)
    requires WellFormed(nodes) && n in Exported(nodes)
    ensures AllFiles(Exported(nodes)) && n in nodes && Exports(n) && Inside(n.path) && n.path != [MANIFEST]
  {
    ExportedNodes(nodes);
    ManifestIsNotPortable();
  }

  lemma ExportedPaths(nodes: seq<Node>)
    requires WellFormed(nodes)
    ensures AllFiles(Exported(nodes))
    ensures forall n :: n in Exported(nodes) ==>
              Inside(n.path) && n.path != [MANIFEST]
              && n.path in Contents(Exported(nodes)) && Contents(Exported(nodes))[n.path] == n.kind.content
    ensures forall p :: p in Contents(Exported(nodes)) ==> exists n :: n in Exported(nodes) && n.path == p
    ensures [MANIFEST] !in Contents(Exported(nodes))
  {
    var files := Exported(nodes);
    forall n | n in files ensures n.kind.RegularFile? && Inside(n.path) && n.path != [MANIFEST] {
      ExportedNode(nodes, n);
    }
    PathsAreUnique(nodes);
    ContentsOfNodes(files);
  }

  lemma ExportedInside(nodes: seq<Node>)
    requires WellFormed(nodes)
    ensures AllFiles(Exported(nodes))
    ensures forall p :: p in Contents(Exported(nodes)) ==> Inside(p)
  {
    ExportedPaths(nodes);
    forall p | p in Contents(Exported(nodes)) ensures Inside(p) {
      var n :| n in Exported(nodes) && n.path == p;
    }
  }

  lemma ManifestAddsNoDirectory(paths: set<Path>)
    ensures AllAbove(paths + {[MANIFEST]}) == AllAbove(paths)
  {
    assert Above([MANIFEST]) == {};
  }

  lemma StagedIsSound(files: map<Path, Bytes>, manifest: Bytes)
    requires forall p :: p in files ==> Inside(p)
    requires files.Keys !! AllAbove(files.Keys) && [MANIFEST] !in AllAbove(files.Keys)
    ensures SoundTree(AllAbove(files.Keys), files[[MANIFEST] := manifest])
  {
    ManifestAddsNoDirectory(files.Keys);
    assert files[[MANIFEST] := manifest].Keys == files.Keys + {[MANIFEST]};
  }

  /** The staging tree of an export. */
  lemma StagingIsSound(nodes: seq<Node>, manifest: Bytes)
    requires WellFormed(nodes) && AllFiles(Exported(nodes))
    requires [MANIFEST] !in AllAbove(Contents(Exported(nodes)).Keys)
    ensures SoundTree(AllAbove(Contents(Exported(nodes)).Keys), Contents(Exported(nodes))[[MANIFEST] := manifest])
  {
    ExportedInside(nodes);
    ExportedFitTogether(nodes);
    StagedIsSound(Contents(Exported(nodes)), manifest);
  }

  // ---- the round trip ----------------------------------------------------------------------------------

  /** Everything about one export and the archive made from it. */
  ghost predicate ArchivedExport(name: string, nodes: seq<Node>, toolVersion: string, valid: bool,
                                 encode: Manifest -> Bytes, decode: Bytes -> Option<Manifest>, sha: Bytes -> string,
                                 a: Archive)
  {
    && WellFormed(nodes) && Plain(name) && name != ".." && AllFiles(Exported(nodes)) && Exportable(name, nodes, valid)
    && (forall b :: HexDigest(sha(b)))
    && var m := ManifestOf(name, toolVersion, Exported(nodes), sha);
       && decode(encode(m)) == Some(m)
       && TarOf(a, name, AllAbove(Contents(Exported(nodes)).Keys), Exported(nodes), encode(m))
  }

  /** What the export side does not check: directories and the manifest count too, and the tool must name its
      version. */
  predicate Fits(nodes: seq<Node>, toolVersion: string, manifest: Bytes)
    requires AllFiles(Exported(nodes))
  {
    && |AllAbove(Contents(Exported(nodes)).Keys)| + |Exported(nodes)| + 2 <= 10_100
    && Size(Exported(nodes)) + |manifest| <= 2_147_483_648
    && toolVersion != ""
  }

  /** Importing the archive of an export reproduces, byte for byte, the exported files and the manifest. */
  lemma ImportReproducesExport(name: string, nodes: seq<Node>, toolVersion: string, valid: bool,
                               encode: Manifest -> Bytes, decode: Bytes -> Option<Manifest>, sha: Bytes -> string,
                               a: Archive)
    requires ArchivedExport(name, nodes, toolVersion, valid, encode, decode, sha, a)
    ensures var bytes := encode(ManifestOf(name, toolVersion, Exported(nodes), sha));
            Placeable(a) && FilesOf(a) == Contents(Exported(nodes))[[MANIFEST] := bytes]
            && AllowedMembers(a) && Roots(a) == {name}
            && |a| == |AllAbove(Contents(Exported(nodes)).Keys)| + |Exported(nodes)| + 2
            && Total(a) == Size(Exported(nodes)) + |bytes|
  {
    var files := Exported(nodes);
    var bytes := encode(ManifestOf(name, toolVersion, files, sha));
    var dirs, staged := AllAbove(Contents(files).Keys), Contents(files)[[MANIFEST] := bytes];
    ExportedPaths(nodes);
    StagingIsSound(nodes, bytes);
    TarCounts(a, name, dirs, files, bytes);
    TarShape(a, name, dirs, files, bytes, staged);
    StagedRoots(a, name, dirs, staged);
    StagedExtracts(a, name, dirs, staged);
  }

  lemma NoRootFile(a: Archive, name: string)
    requires Plain(name) && forall e :: e in a && e.kind.File? ==> Inside(Target(e.name)) && Root(e.name) == name
    ensures name !in Members(a)
  {
    if a != [] {
      var init, last := a[..|a| - 1], a[|a| - 1];
      assert a == init + [last] && last in a;
      NoRootFile(init, name);
      if last.kind.File? {
        RootIsNotBelow(name, Target(last.name));
        assert Parts(last.name) == [name] + Target(last.name);
      }
    }
  }

  lemma NamesAgree(members: map<string, Bytes>, files: map<Path, Bytes>, expected: map<string, Item>,
                   listed: map<Path, Item>, root: string, name: string)
    requires Plain(root) && SameContents(members, files, root) && root !in members && name == Under(root, [MANIFEST])
    requires listed.Keys == files.Keys - {[MANIFEST]} && [MANIFEST] in files
    requires forall p :: p in listed ==> Inside(p) && Under(root, p) in expected
    requires forall n :: n in expected ==> exists p :: p in listed && Under(root, p) == n
    ensures members.Keys - {name} == expected.Keys
  {
    ManifestName(root);
    OthersDiffer(root, files.Keys, [MANIFEST]);
    forall n | n in members && n != name ensures n in expected {
      var p :| p in files && Under(root, p) == n;
      assert p in listed;
    }
    forall n | n in expected ensures n in members && n != name {
      var p :| p in listed && Under(root, p) == n;
      assert p in files && p != [MANIFEST];
    }
  }

  lemma ContentsHold(members: map<string, Bytes>, files: map<Path, Bytes>, expected: map<string, Item>,
                     listed: map<Path, Item>, root: string, sha: Bytes -> string)
    requires SameContents(members, files, root)
    requires forall p :: p in listed ==>
               p in files && Under(root, p) in expected && expected[Under(root, p)] == listed[p]
    requires forall n :: n in expected ==> exists p :: p in listed && Under(root, p) == n
    requires forall p :: p in listed ==> |files[p]| == listed[p].size && sha(files[p]) == listed[p].sha256
    ensures forall n :: n in expected ==> ItemHolds(members, n, expected[n], sha)
  {
    forall n | n in expected ensures ItemHolds(members, n, expected[n], sha) {
      var p :| p in listed && Under(root, p) == n;
    }
  }

  lemma NoFileInRootsPlace(a: Archive, name: string, files: map<Path, Bytes>)
    requires Plain(name) && AllowedMembers(a) && Roots(a) == {name} && Placeable(a) && FilesOf(a) == files
    requires forall e :: e in a && e.kind.File? ==> Target(e.name) != []
    ensures name !in Members(a)
  {
    forall e | e in a && e.kind.File? ensures Inside(Target(e.name)) && Root(e.name) == name {
      assert Admitted(e) && Root(e.name) in Roots(a);
      forall part | part in Target(e.name) ensures part in Parts(e.name) {}
    }
    NoRootFile(a, name);
  }

  lemma FittingExportIsInspected(name: string, nodes: seq<Node>, toolVersion: string, valid: bool,
                                 encode: Manifest -> Bytes, decode: Bytes -> Option<Manifest>, sha: Bytes -> string,
                                 a: Archive)
    requires ArchivedExport(name, nodes, toolVersion, valid, encode, decode, sha, a)
    requires Fits(nodes, toolVersion, encode(ManifestOf(name, toolVersion, Exported(nodes), sha)))
    ensures Inspected(a, decode, name, ManifestOf(name, toolVersion, Exported(nodes), sha))
  {
    ImportReproducesExport(name, nodes, toolVersion, valid, encode, decode, sha, a);
    ExportedPaths(nodes);
    FilesAreMembers(a, name);
    ItemsAreValid(Exported(nodes), sha);
    ManifestIsKept(Members(a), FilesOf(a), name);
  }

  lemma ListedAgainstFiles(exported: seq<Node>, files: map<Path, Bytes>, manifest: Bytes, sha: Bytes -> string)
    requires AllFiles(exported) && forall n :: n in exported ==> AllPlain(n.path)
    requires [MANIFEST] !in Contents(exported) && files == Contents(exported)[[MANIFEST] := manifest]
    ensures Listed(Items(exported, sha)).Keys == files.Keys - {[MANIFEST]} && [MANIFEST] in files
    ensures forall p :: p in Listed(Items(exported, sha)) ==>
              p in files && |files[p]| == Listed(Items(exported, sha))[p].size
              && sha(files[p]) == Listed(Items(exported, sha))[p].sha256
  {
    ListedItems(exported, sha);
  }

  lemma ListedItemsHold(name: string, items: seq<Item>, members: map<string, Bytes>, files: map<Path, Bytes>,
                        sha: Bytes -> string)
    requires Plain(name) && forall item :: item in items ==> SafeRelative(item.path)
    requires SameContents(members, files, name) && name !in members
    requires Listed(items).Keys == files.Keys - {[MANIFEST]} && [MANIFEST] in files
    requires forall p :: p in Listed(items) ==>
               p in files && |files[p]| == Listed(items)[p].size && sha(files[p]) == Listed(items)[p].sha256
    ensures var expected := Expected(name, items);
            && members.Keys - {name + "/" + MANIFEST} == expected.Keys
            && forall n :: n in expected ==> ItemHolds(members, n, expected[n], sha)
  {
    ExpectedIsListed(name, items);
    ManifestName(name);
    NamesAgree(members, files, Expected(name, items), Listed(items), name, name + "/" + MANIFEST);
    ContentsHold(members, files, Expected(name, items), Listed(items), name, sha);
  }

  /** The archive of an export verifies if the bounds hold. */
  lemma FittingExportVerifies(name: string, nodes: seq<Node>, toolVersion: string, valid: bool,
                              encode: Manifest -> Bytes, decode: Bytes -> Option<Manifest>, sha: Bytes -> string,
                              a: Archive)
    requires ArchivedExport(name, nodes, toolVersion, valid, encode, decode, sha, a)
    requires Fits(nodes, toolVersion, encode(ManifestOf(name, toolVersion, Exported(nodes), sha)))
    ensures Verified(a, decode, sha, name, ManifestOf(name, toolVersion, Exported(nodes), sha))
  {
    var m := ManifestOf(name, toolVersion, Exported(nodes), sha);
    FittingExportIsInspected(name, nodes, toolVersion, valid, encode, decode, sha, a);
    ImportReproducesExport(name, nodes, toolVersion, valid, encode, decode, sha, a);
    ExportedPaths(nodes);
    FilesAreMembers(a, name);
    RootFree(name, nodes, toolVersion, valid, encode, decode, sha, a);
    ItemsAreValid(Exported(nodes), sha);
    ListedAgainstFiles(Exported(nodes), FilesOf(a), encode(m), sha);
    ListedItemsHold(name, m.files, Members(a), FilesOf(a), sha);
  }

  lemma RootFree(name: string, nodes: seq<Node>, toolVersion: string, valid: bool,
                 encode: Manifest -> Bytes, decode: Bytes -> Option<Manifest>, sha: Bytes -> string, a: Archive)
    requires ArchivedExport(name, nodes, toolVersion, valid, encode, decode, sha, a)
    ensures name !in Members(a)
  {
    var files := Exported(nodes);
    var bytes := encode(ManifestOf(name, toolVersion, files, sha));
    var dirs, staged := AllAbove(Contents(files).Keys), Contents(files)[[MANIFEST] := bytes];
    ImportReproducesExport(name, nodes, toolVersion, valid, encode, decode, sha, a);
    ExportedPaths(nodes);
    StagingIsSound(nodes, bytes);
    TarShape(a, name, dirs, files, bytes, staged);
    FileTargets(a, name, dirs, staged);
    NoFileInRootsPlace(a, name, staged);
  }

  /** The round trip succeeds exactly when the bounds hold: then the archive verifies with the exported manifest and
      imports as the exported files; otherwise no manifest verifies it. */
  lemma RoundTripExactly(name: string, nodes: seq<Node>, toolVersion: string, valid: bool,
                         encode: Manifest -> Bytes, decode: Bytes -> Option<Manifest>, sha: Bytes -> string, a: Archive)
    requires ArchivedExport(name, nodes, toolVersion, valid, encode, decode, sha, a)
    ensures var m := ManifestOf(name, toolVersion, Exported(nodes), sha);
            && ((exists root, n :: Verified(a, decode, sha, root, n)) <==> Fits(nodes, toolVersion, encode(m)))
            && (Fits(nodes, toolVersion, encode(m)) ==> Verified(a, decode, sha, name, m))
            && Placeable(a) && FilesOf(a) == Contents(Exported(nodes))[[MANIFEST] := encode(m)]
  {
    var m := ManifestOf(name, toolVersion, Exported(nodes), sha);
    ImportReproducesExport(name, nodes, toolVersion, valid, encode, decode, sha, a);
    if Fits(nodes, toolVersion, encode(m)) {
      FittingExportVerifies(name, nodes, toolVersion, valid, encode, decode, sha, a);
    }
    if root, n :| Verified(a, decode, sha, root, n) {
      assert root in {name};
      FilesAreMembers(a, name);
      ManifestIsKept(Members(a), FilesOf(a), name);
      assert n == m;
    }
  }

  /** A listing of a directory with exactly these files and no links. */
  ghost predicate Lists(nodes: seq<Node>, files: map<Path, Bytes>) {
    && WellFormed(nodes) && NoLinks(nodes)
    && (forall n :: n in nodes && n.kind.RegularFile? ==> n.path in files && files[n.path] == n.kind.content)
    && (forall p :: p in files ==> exists n :: n in nodes && n.kind.RegularFile? && n.path == p)
  }

  lemma ReExported(imported: seq<Node>, before: map<Path, Bytes>, manifest: Bytes)
    requires Lists(imported, before[[MANIFEST] := manifest]) && [MANIFEST] !in before
    requires forall p :: p in before ==> Portable(p)
    requires !Portable([MANIFEST])
    ensures AllFiles(Exported(imported)) && Contents(Exported(imported)) == before
  {
    ExportedContents(imported);
    var again, whole := Contents(Exported(imported)), before[[MANIFEST] := manifest];
    forall p | p in again ensures p in before && before[p] == again[p] {
      var n :| n in imported && Exports(n) && n.path == p;
    }
    forall p | p in before ensures p in again {
      assert p in whole;
      var copy :| copy in imported && copy.kind.RegularFile? && copy.path == p;
      assert Exports(copy);
    }
  }

  lemma ExportedPortable(nodes: seq<Node>)
    requires WellFormed(nodes)
    ensures AllFiles(Exported(nodes)) && [MANIFEST] !in Contents(Exported(nodes))
    ensures forall p :: p in Contents(Exported(nodes)) ==> Portable(p)
  {
    ExportedPaths(nodes);
    forall p | p in Contents(Exported(nodes)) ensures Portable(p) {
      var n :| n in Exported(nodes) && n.path == p;
      ExportedNode(nodes, n);
    }
  }

  /** Exporting the imported directory again selects the very same files. */
  lemma ImportExportsTheSame(nodes: seq<Node>, imported: seq<Node>, manifest: Bytes)
    requires WellFormed(nodes) && AllFiles(Exported(nodes))
    requires Lists(imported, Contents(Exported(nodes))[[MANIFEST] := manifest])
    ensures AllFiles(Exported(imported)) && Contents(Exported(imported)) == Contents(Exported(nodes))
  {
    ExportedPortable(nodes);
    ManifestIsNotPortable();
    ReExported(imported, Contents(Exported(nodes)), manifest);
  }
}
