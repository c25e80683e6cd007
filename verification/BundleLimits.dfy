/** Exports that go through and whose archives are refused: any collection that exports, together with enough
    directories of one empty file each. Validation looks at files in the collection's own directory only. */
module BundleLimits {
  import opened Options
  import opened Numerals
  import opened BundlePaths
  import opened Bundles
  import opened BundleImport
  import opened BundleTheorems
  import opened BundleExport
  import opened BundleRoundTrip
  import Luhn
  import Text

  function Folder(i: nat): Path { [Decimal(i)] }

  function EmptyFile(i: nat): Node { Node([Decimal(i), "f"], RegularFile([])) }

  /** The listing of n directories, each holding one empty file. */
  function Wide(n: nat): seq<Node> {
    if n == 0 then [] else Wide(n - 1) + [Node(Folder(n - 1), NodeKind.Folder), EmptyFile(n - 1)]
  }

  function Files(n: nat): (files: seq<Node>)
    ensures |files| == n && AllFiles(files)
  {
    if n == 0 then [] else Files(n - 1) + [EmptyFile(n - 1)]
  }

  // ---- the listing is well formed ------------------------------------------------------------------------

  lemma DigitsArePlain(i: nat)
    ensures var name := Decimal(i);
            Plain(name) && name != ".." && !Hidden(name) && name != MANIFEST
    ensures Inside([Decimal(i), "f"]) && Inside([Decimal(i)])
  {
    var name := Decimal(i);
    assert forall j :: 0 <= j < |name| ==> '0' <= name[j] <= '9';
    assert MANIFEST[0] == 'b' && name[0] != 'b';
    assert Plain("f");
  }

  lemma FileIsPortable(i: nat)
    ensures Exports(EmptyFile(i))
  {
    DigitsArePlain(i);
    assert Text.Lower("f") == "f" && Suffix("f") == "" && Text.Lower("") == "";
    assert |MANIFEST| > 1 && |"dashboard-token"| > 1 && |"kubeconfig"| > 1;
  }

  lemma {:induction false} WideAt(n: nat)
    ensures |Wide(n)| == 2 * n
    ensures forall i :: 0 <= i < n ==>
              Wide(n)[2 * i] == Node(Folder(i), NodeKind.Folder) && Wide(n)[2 * i + 1] == EmptyFile(i)
  {
    if n > 0 { WideAt(n - 1); }
  }

  lemma PathAt(n: nat, j: nat)
    requires j < 2 * n
    ensures |Wide(n)| == 2 * n
    ensures Wide(n)[j].path == if j % 2 == 0 then Folder(j / 2) else EmptyFile(j / 2).path
    ensures Wide(n)[j].kind.RegularFile? <==> j % 2 == 1
    ensures !Wide(n)[j].kind.Link? && Inside(Wide(n)[j].path)
  {
    WideAt(n);
    DigitsArePlain(j / 2);
    assert j == 2 * (j / 2) || j == 2 * (j / 2) + 1;
  }

  lemma PathsDiffer(n: nat, i: nat, j: nat)
    requires i < j < 2 * n
    ensures |Wide(n)| == 2 * n && Wide(n)[i].path != Wide(n)[j].path
  {
    PathAt(n, i);
    PathAt(n, j);
    if Wide(n)[i].path == Wide(n)[j].path {
      assert Decimal(i / 2) == Wide(n)[i].path[0] == Wide(n)[j].path[0] == Decimal(j / 2);
      DecimalIsInjective(i / 2, j / 2);
    }
  }

  lemma NothingBelowFiles(n: nat, i: nat, j: nat)
    requires i < 2 * n && j < 2 * n && i % 2 == 1
    ensures |Wide(n)| == 2 * n && Wide(n)[i].path !in Above(Wide(n)[j].path)
  {
    PathAt(n, i);
    PathAt(n, j);
  }

  lemma WideIsWellFormed(n: nat)
    ensures WellFormed(Wide(n)) && NoLinks(Wide(n))
  {
    var nodes := Wide(n);
    WideAt(n);
    forall i, j | 0 <= i < j < |nodes| ensures nodes[i].path != nodes[j].path { PathsDiffer(n, i, j); }
    forall m | m in nodes ensures m.path != [] && AllPlain(m.path) && ".." !in m.path && !m.kind.Link? {
      var j :| 0 <= j < |nodes| && nodes[j] == m;
      PathAt(n, j);
    }
    forall m, other | m in nodes && other in nodes && m.kind.RegularFile? ensures m.path !in Above(other.path) {
      var i :| 0 <= i < |nodes| && nodes[i] == m;
      var j :| 0 <= j < |nodes| && nodes[j] == other;
      PathAt(n, i);
      NothingBelowFiles(n, i, j);
    }
  }

  // ---- what is exported ----------------------------------------------------------------------------------

  lemma {:induction false} ExportedWide(n: nat)
    ensures Exported(Wide(n)) == Files(n)
  {
    if n > 0 {
      var folder := Node(Folder(n - 1), NodeKind.Folder);
      ExportedWide(n - 1);
      FileIsPortable(n - 1);
      var most := Wide(n - 1) + [folder];
      assert Wide(n)[..|Wide(n)| - 1] == most && most[..|most| - 1] == Wide(n - 1);
      assert Exported(most) == Files(n - 1);
    }
  }

  lemma {:induction false} FilesOfWide(n: nat)
    ensures Size(Files(n)) == 0
    ensures forall p :: p in Contents(Files(n)) <==> exists i :: 0 <= i < n && p == EmptyFile(i).path
  {
    if n > 0 {
      FilesOfWide(n - 1);
      assert Files(n)[..n - 1] == Files(n - 1);
      forall p ensures p in Contents(Files(n)) <==> exists i :: 0 <= i < n && p == EmptyFile(i).path {
        assert p in Contents(Files(n)) <==> p in Contents(Files(n - 1)) || p == EmptyFile(n - 1).path;
      }
    }
  }

  lemma AboveFile(i: nat)
    ensures Above(EmptyFile(i).path) == {Folder(i)}
  {
    var p := EmptyFile(i).path;
    assert p[..1] == Folder(i) && |p| == 2;
  }

  lemma DirsOfWide(n: nat)
    ensures forall d :: d in AllAbove(Contents(Files(n)).Keys) <==> exists i :: 0 <= i < n && d == Folder(i)
  {
    FilesOfWide(n);
    forall d ensures d in AllAbove(Contents(Files(n)).Keys) <==> exists i :: 0 <= i < n && d == Folder(i) {
      if d in AllAbove(Contents(Files(n)).Keys) {
        var p :| p in Contents(Files(n)) && d in Above(p);
        var i :| 0 <= i < n && p == EmptyFile(i).path;
        AboveFile(i);
      }
      if i :| 0 <= i < n && d == Folder(i) {
        AboveFile(i);
        assert EmptyFile(i).path in Contents(Files(n)) && d in Above(EmptyFile(i).path);
      }
    }
  }

  lemma {:induction false} WideDirsCount(n: nat, dirs: set<Path>)
    requires forall d :: d in dirs <==> exists i :: 0 <= i < n && d == Folder(i)
    ensures |dirs| == n
  {
    if n == 0 {
      assert dirs == {};
    } else {
      var last, rest := Folder(n - 1), dirs - {Folder(n - 1)};
      forall d ensures d in rest <==> exists i :: 0 <= i < n - 1 && d == Folder(i) {
        if i :| 0 <= i < n - 1 && d == Folder(i) {
          if d == last { DecimalIsInjective(i, n - 1); }
        }
      }
      WideDirsCount(n - 1, rest);
      assert last in dirs && dirs == rest + {last};
    }
  }

  // ---- an archive for every export -----------------------------------------------------------------------

  lemma {:induction false} OneByOne(dirs: set<Path>) returns (folders: seq<Path>)
    ensures multiset(folders) == multiset(dirs)
    decreases |dirs|
  {
    folders := [];
    if dirs != {} {
      var d :| d in dirs;
      folders := OneByOne(dirs - {d});
      folders := folders + [d];
      assert dirs == (dirs - {d}) + {d};
    }
  }

  /** Whatever exports has an archive. */
  lemma ArchiveExists(name: string, nodes: seq<Node>, toolVersion: string, valid: bool,
                      encode: Manifest -> Bytes, decode: Bytes -> Option<Manifest>, sha: Bytes -> string)
    returns (a: Archive)
    requires WellFormed(nodes) && Plain(name) && name != ".." && AllFiles(Exported(nodes))
               && Exportable(name, nodes, valid)
    requires forall b :: HexDigest(sha(b))
    requires forall m :: decode(encode(m)) == Some(m)
    ensures ArchivedExport(name, nodes, toolVersion, valid, encode, decode, sha, a)
  {
    var files := Exported(nodes);
    var bytes := encode(ManifestOf(name, toolVersion, files, sha));
    var folders := OneByOne(AllAbove(Contents(files).Keys));
    a := Listing(name, folders, files, bytes);
    assert TarOf(a, name, AllAbove(Contents(files).Keys), files, bytes);
  }

  // ---- a collection and the directories together ---------------------------------------------------------

  /** The regular files directly in the collection, by name: what validation reads. */
  function RootFiles(nodes: seq<Node>): map<string, Bytes> {
    if nodes == [] then map[]
    else
      var init, last := RootFiles(nodes[..|nodes| - 1]), nodes[|nodes| - 1];
      if last.kind.RegularFile? && |last.path| == 1 then init[last.path[0] := last.kind.content] else init
  }

  lemma {:induction false} RootFilesStay(base: seq<Node>, n: nat)
    ensures RootFiles(base + Wide(n)) == RootFiles(base)
  {
    if n == 0 {
      assert base + Wide(0) == base;
    } else {
      var last := [Node(Folder(n - 1), NodeKind.Folder), EmptyFile(n - 1)];
      RootFilesStay(base, n - 1);
      assert base + Wide(n) == (base + Wide(n - 1)) + last;
      NoRootFileMore(base + Wide(n - 1), last[0], last[1]);
    }
  }

  lemma NoRootFileMore(nodes: seq<Node>, f: Node, g: Node)
    requires !f.kind.RegularFile? && |g.path| == 2
    ensures RootFiles(nodes + [f, g]) == RootFiles(nodes)
  {
    assert (nodes + [f])[..|nodes|] == nodes;
    assert (nodes + [f, g])[..|nodes| + 1] == nodes + [f];
  }

  lemma {:induction false} ExportedConcat(a: seq<Node>, b: seq<Node>)
    ensures Exported(a + b) == Exported(a) + Exported(b)
  {
    if b == [] {
      assert a + b == a;
    } else {
      var init, last := b[..|b| - 1], b[|b| - 1];
      ExportedConcat(a, init);
      assert (a + b)[..|a + b| - 1] == a + init;
    }
  }

  lemma {:induction false} FilesConcat(a: seq<Node>, b: seq<Node>)
    requires AllFiles(a) && AllFiles(b)
    ensures AllFiles(a + b) && Size(a + b) == Size(a) + Size(b)
    ensures Contents(a + b).Keys == Contents(a).Keys + Contents(b).Keys
  {
    if b == [] {
      assert a + b == a;
    } else {
      var init, last := b[..|b| - 1], b[|b| - 1];
      FilesConcat(a, init);
      assert (a + b)[..|a + b| - 1] == a + init;
    }
  }

  lemma AboveConcat(x: set<Path>, y: set<Path>)
    ensures AllAbove(x + y) == AllAbove(x) + AllAbove(y)
  {
  }

  /** Nothing in the collection's own directory has a name of digits. */
  predicate NoDigitNames(base: seq<Node>) { forall m :: m in base && m.path != [] ==> !Luhn.AllDigits(m.path[0]) }

  lemma WideHead(n: nat, m: Node)
    requires m in Wide(n)
    ensures m.path != [] && Luhn.AllDigits(m.path[0])
  {
    WideAt(n);
    var j :| 0 <= j < |Wide(n)| && Wide(n)[j] == m;
    PathAt(n, j);
  }

  lemma NotAbove(p: Path, q: Path)
    requires p != [] && q != [] && p[0] != q[0]
    ensures p !in Above(q)
  {
  }

  lemma TogetherDiffer(base: seq<Node>, n: nat, i: nat, j: nat)
    requires WellFormed(base) && NoDigitNames(base) && i < j < |base + Wide(n)|
    ensures (base + Wide(n))[i].path != (base + Wide(n))[j].path
  {
    var all := base + Wide(n);
    WideIsWellFormed(n);
    if i < |base| <= j {
      assert all[i] in base && all[j] == Wide(n)[j - |base|];
      WideHead(n, all[j]);
    } else if |base| <= i {
      assert all[i] == Wide(n)[i - |base|] && all[j] == Wide(n)[j - |base|];
    }
  }

  lemma TogetherApart(base: seq<Node>, n: nat, m: Node, other: Node)
    requires WellFormed(base) && NoDigitNames(base) && m in base + Wide(n) && other in base + Wide(n)
               && m.kind.RegularFile?
    ensures m.path !in Above(other.path)
  {
    WideIsWellFormed(n);
    if m in base && other !in base {
      WideHead(n, other);
      NotAbove(m.path, other.path);
    } else if m !in base && other in base {
      WideHead(n, m);
      NotAbove(m.path, other.path);
    }
  }

  lemma TogetherIsWellFormed(base: seq<Node>, n: nat)
    requires WellFormed(base) && NoDigitNames(base)
    ensures WellFormed(base + Wide(n)) && (NoLinks(base) ==> NoLinks(base + Wide(n)))
  {
    var all := base + Wide(n);
    WideIsWellFormed(n);
    forall i, j | 0 <= i < j < |all| ensures all[i].path != all[j].path { TogetherDiffer(base, n, i, j); }
    forall m, other | m in all && other in all && m.kind.RegularFile? ensures m.path !in Above(other.path) {
      TogetherApart(base, n, m, other);
    }
  }

  lemma NoFolderIsManifest(n: nat)
    ensures [MANIFEST] !in AllAbove(Contents(Files(n)).Keys)
  {
    DirsOfWide(n);
    forall i: nat ensures [MANIFEST] != Folder(i) {
      DigitsArePlain(i);
      assert [MANIFEST][0] == MANIFEST && Folder(i)[0] == Decimal(i);
    }
  }

  lemma DirsStartLikeFiles(base: seq<Node>, d: Path)
    requires WellFormed(base) && AllFiles(Exported(base)) && d in AllAbove(Contents(Exported(base)).Keys)
    ensures exists m :: m in base && m.path != [] && d != [] && d[0] == m.path[0]
  {
    ExportedContents(base);
    var p :| p in Contents(Exported(base)) && d in Above(p);
    var m :| m in base && Exports(m) && m.path == p;
    assert d == p[..|d|] && d[0] == m.path[0];
  }

  lemma DirsAreApart(base: seq<Node>, n: nat)
    requires WellFormed(base) && NoDigitNames(base) && AllFiles(Exported(base))
    ensures AllAbove(Contents(Exported(base)).Keys) !! AllAbove(Contents(Files(n)).Keys)
  {
    DirsOfWide(n);
    forall d | d in AllAbove(Contents(Exported(base)).Keys) ensures d !in AllAbove(Contents(Files(n)).Keys) {
      DirsStartLikeFiles(base, d);
      var m :| m in base && m.path != [] && d != [] && d[0] == m.path[0];
    }
  }

  /** What the extended collection exports: the files of both parts, with no more bytes. */
  lemma TogetherExports(base: seq<Node>, n: nat)
    requires WellFormed(base) && NoDigitNames(base) && AllFiles(Exported(base))
    ensures Exported(base + Wide(n)) == Exported(base) + Files(n) && AllFiles(Exported(base + Wide(n)))
    ensures Size(Exported(base + Wide(n))) == Size(Exported(base))
    ensures Contents(Exported(base + Wide(n))).Keys == Contents(Exported(base)).Keys + Contents(Files(n)).Keys
  {
    ExportedConcat(base, Wide(n));
    ExportedWide(n);
    FilesConcat(Exported(base), Files(n));
    FilesOfWide(n);
  }

  lemma TogetherDirs(base: seq<Node>, n: nat)
    requires WellFormed(base) && NoDigitNames(base) && AllFiles(Exported(base))
    ensures var dirs := AllAbove(Contents(Exported(base)).Keys + Contents(Files(n)).Keys);
            && dirs == AllAbove(Contents(Exported(base)).Keys) + AllAbove(Contents(Files(n)).Keys)
            && |dirs| == |AllAbove(Contents(Exported(base)).Keys)| + n
  {
    AboveConcat(Contents(Exported(base)).Keys, Contents(Files(n)).Keys);
    DirsOfWide(n);
    WideDirsCount(n, AllAbove(Contents(Files(n)).Keys));
    DirsAreApart(base, n);
  }

  // ---- the refusal ---------------------------------------------------------------------------------------

  /** Entries of the archive of an export, its root directory and its manifest included. */
  function Entries(nodes: seq<Node>): nat
    requires AllFiles(Exported(nodes))
  {
    |AllAbove(Contents(Exported(nodes)).Keys)| + |Exported(nodes)| + 2
  }

  lemma TogetherIsExportable(name: string, base: seq<Node>, n: nat, validates: map<string, Bytes> -> bool)
    requires WellFormed(base) && NoDigitNames(base) && AllFiles(Exported(base))
    requires Exportable(name, base, validates(RootFiles(base))) && |Exported(base)| + n <= MAX_FILES
    ensures var nodes := base + Wide(n);
            && WellFormed(nodes) && AllFiles(Exported(nodes)) && Exportable(name, nodes, validates(RootFiles(nodes)))
            && Entries(nodes) == Entries(base) + 2 * n
  {
    TogetherIsWellFormed(base, n);
    TogetherExports(base, n);
    TogetherDirs(base, n);
    RootFilesStay(base, n);
    NoFolderIsManifest(n);
  }

  /** Any collection that exports still does with n more directories of one empty file each, while the file count
      allows it. But once the entries of its archive are too many, no manifest verifies it. */
  lemma WideExportIsRefused(name: string, base: seq<Node>, n: nat, validates: map<string, Bytes> -> bool,
                            toolVersion: string, encode: Manifest -> Bytes, decode: Bytes -> Option<Manifest>,
                            sha: Bytes -> string)
    returns (a: Archive)
    requires WellFormed(base) && NoDigitNames(base) && AllFiles(Exported(base)) && Plain(name) && name != ".."
    requires Exportable(name, base, validates(RootFiles(base))) && |Exported(base)| + n <= MAX_FILES
    requires forall b :: HexDigest(sha(b))
    requires forall m :: decode(encode(m)) == Some(m)
    ensures var nodes := base + Wide(n);
            && ArchivedExport(name, nodes, toolVersion, validates(RootFiles(nodes)), encode, decode, sha, a)
            && |a| == Entries(base) + 2 * n
            && (Entries(base) + 2 * n > MAX_FILES + 100 ==> forall root, m :: !Verified(a, decode, sha, root, m))
  {
    var nodes := base + Wide(n);
    var valid := validates(RootFiles(nodes));
    TogetherIsExportable(name, base, n, validates);
    a := ArchiveExists(name, nodes, toolVersion, valid, encode, decode, sha);
    ImportReproducesExport(name, nodes, toolVersion, valid, encode, decode, sha, a);
    RoundTripExactly(name, nodes, toolVersion, valid, encode, decode, sha, a);
  }

  /** So every collection that exports, with up to 9 900 files, has an extension that exports and is refused. */
  lemma EveryCollectionOutgrows(name: string, base: seq<Node>, validates: map<string, Bytes> -> bool,
                                toolVersion: string, encode: Manifest -> Bytes, decode: Bytes -> Option<Manifest>,
                                sha: Bytes -> string)
    returns (n: nat, a: Archive)
    requires WellFormed(base) && NoDigitNames(base) && AllFiles(Exported(base)) && Plain(name) && name != ".."
    requires Exportable(name, base, validates(RootFiles(base))) && |Exported(base)| <= 9_900
    requires forall b :: HexDigest(sha(b))
    requires forall m :: decode(encode(m)) == Some(m)
    ensures var nodes := base + Wide(n);
            && ArchivedExport(name, nodes, toolVersion, validates(RootFiles(nodes)), encode, decode, sha, a)
            && forall root, m :: !Verified(a, decode, sha, root, m)
  {
    n := MAX_FILES - |Exported(base)|;
    a := WideExportIsRefused(name, base, n, validates, toolVersion, encode, decode, sha);
  }
}
