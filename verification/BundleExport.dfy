/** Export of a collection directory into a staging tree with its manifest. */
module BundleExport {
  import opened Options
  import opened Text
  import opened BundlePaths
  import opened Bundles
  import opened BundleImport

  datatype NodeKind = RegularFile(content: Bytes) | Folder | Link

  /** An entry of the recursive directory listing, by path relative to the collection. */
  datatype Node = Node(path: Path, kind: NodeKind)

  datatype ExportError = InvalidCollection | ValidationFailed | SymbolicLink | TooManyFiles | TooManyBytes
                       | StagingConflict

  // ---- which files are portable ------------------------------------------------------------------------

  function LastDot(s: string): int {
    if s == "" then -1 else if s[|s| - 1] == '.' then |s| - 1 else LastDot(s[..|s| - 1])
  }

  /** The file extension: from the last dot, unless that dot starts or ends the name. */
  function Suffix(name: string): string {
    var i := LastDot(name);
    if 0 < i < |name| - 1 then name[i..] else ""
  }

  predicate Hidden(part: string) { part != "" && part[0] == '.' }

  predicate ExcludedName(name: string) {
    Lower(name) in {MANIFEST, "dashboard-token", "kubeconfig"}
    || Lower(Suffix(name)) in {".log", ".pid", ".lock", ".tmp"}
  }

  predicate Portable(p: Path) {
    p != [] && (forall part :: part in p ==> !Hidden(part)) && !ExcludedName(p[|p| - 1])
  }

  predicate Exports(n: Node) { n.kind.RegularFile? && Portable(n.path) }

  function Exported(nodes: seq<Node>): seq<Node> {
    if nodes == [] then []
    else Exported(nodes[..|nodes| - 1]) + if Exports(nodes[|nodes| - 1]) then [nodes[|nodes| - 1]] else []
  }

  lemma {:induction false} LastDotAt(s: string)
    ensures -1 <= LastDot(s) < |s| && (LastDot(s) >= 0 ==> s[LastDot(s)] == '.')
    ensures forall j :: LastDot(s) < j < |s| ==> s[j] != '.'
  {
    if s != "" && s[|s| - 1] != '.' { LastDotAt(s[..|s| - 1]); }
  }

  /** A name has an extension exactly if something stands before it. */
  lemma SuffixExactly(name: string, end: string)
    requires |end| > 1 && end[0] == '.' && '.' !in end[1..]
    ensures Lower(Suffix(name)) == end <==> exists stem :: stem != "" && Lower(name) == stem + end
  {
    LastDotAt(name);
    var i := LastDot(name);
    if Lower(Suffix(name)) == end {
      assert Lower(name) == Lower(name)[..i] + Lower(name[i..]);
      assert Lower(name)[..i] != "";
    }
    if stem :| stem != "" && Lower(name) == stem + end {
      var k := |stem|;
      assert Lower(name)[k] == '.' && LowerChar(name[k]) == '.';
      forall j | k < j < |name| ensures name[j] != '.' { assert Lower(name)[j] == end[1..][j - k - 1]; }
      assert i == k;
      assert Lower(name[k..]) == Lower(name)[k..] == end;
    }
  }

  /** The regular files an export takes: no part starts with a dot, and the last part, whatever its case, is none of
      three names and has none of four extensions. */
  ghost predicate Taken(n: Node) {
    && n.kind.RegularFile? && n.path != []
    && (forall part :: part in n.path ==> part == "" || part[0] != '.')
    && var last := Lower(n.path[|n.path| - 1]);
       && last != "bundle-manifest.json" && last != "dashboard-token" && last != "kubeconfig"
       && forall stem :: stem != "" ==>
            last != stem + ".log" && last != stem + ".pid" && last != stem + ".lock" && last != stem + ".tmp"
  }

  lemma ExcludedExactly(name: string)
    ensures ExcludedName(name) <==>
      || Lower(name) == "bundle-manifest.json" || Lower(name) == "dashboard-token" || Lower(name) == "kubeconfig"
      || exists stem :: stem != "" && (Lower(name) == stem + ".log" || Lower(name) == stem + ".pid"
                                       || Lower(name) == stem + ".lock" || Lower(name) == stem + ".tmp")
  {
    SuffixExactly(name, ".log");
    SuffixExactly(name, ".pid");
    SuffixExactly(name, ".lock");
    SuffixExactly(name, ".tmp");
  }

  lemma TakenExactly(n: Node)
    ensures Exports(n) <==> Taken(n)
  {
    if n.path != [] { ExcludedExactly(n.path[|n.path| - 1]); }
  }

  /** An export takes exactly those files. */
  lemma ExportedExactly(nodes: seq<Node>)
    ensures forall n :: n in Exported(nodes) <==> n in nodes && Taken(n)
  {
    ExportedNodes(nodes);
    forall n | n in nodes ensures Exports(n) <==> Taken(n) { TakenExactly(n); }
  }

  predicate NoLinks(nodes: seq<Node>) { forall n :: n in nodes ==> !n.kind.Link? }

  method ExportFiles(nodes: seq<Node>) returns (r: Result<seq<Node>, ExportError>)
    ensures r == if NoLinks(nodes) then Ok(Exported(nodes)) else Err(SymbolicLink)
    ensures r.Err? <==> exists n :: n in nodes && n.kind == Link
    ensures r.Ok? ==> forall n :: n in r.value <==> n in nodes && Taken(n)
  {
    var files := [];
    for i := 0 to |nodes|
      invariant NoLinks(nodes[..i]) && files == Exported(nodes[..i])
    {
      var node := nodes[i];
      assert nodes[..i + 1] == nodes[..i] + [node] && nodes[..i + 1][..i] == nodes[..i] && node in nodes;
      if node.kind.Link? { return Err(SymbolicLink); }
      if !node.kind.RegularFile? { continue; }
      if !Portable(node.path) { continue; }
      files := files + [node];
    }
    assert nodes[..|nodes|] == nodes;
    ExportedExactly(nodes);
    return Ok(files);
  }

  // ---- manifest and staging ----------------------------------------------------------------------------

  /** Exported nodes are regular files. */
  predicate AllFiles(files: seq<Node>) { forall n :: n in files ==> n.kind.RegularFile? }

  function Items(files: seq<Node>, sha: Bytes -> string): seq<Item>
    requires AllFiles(files)
  {
    if files == [] then []
    else
      var last := files[|files| - 1];
      Items(files[..|files| - 1], sha) + [Item(Join(last.path), |last.kind.content|, sha(last.kind.content))]
  }

  function Size(files: seq<Node>): nat
    requires AllFiles(files)
  {
    if files == [] then 0 else Size(files[..|files| - 1]) + |files[|files| - 1].kind.content|
  }

  function Contents(files: seq<Node>): map<Path, Bytes>
    requires AllFiles(files)
  {
    if files == [] then map[]
    else Contents(files[..|files| - 1])[files[|files| - 1].path := files[|files| - 1].kind.content]
  }

  function AllAbove(paths: set<Path>): set<Path> { set p, d | p in paths && d in Above(p) :: d }

  /** What a directory listing guarantees: one entry a path, sensible names, and nothing below a file. */
  ghost predicate WellFormed(nodes: seq<Node>) {
    && (forall i, j :: 0 <= i < j < |nodes| ==> nodes[i].path != nodes[j].path)
    && (forall n :: n in nodes ==> n.path != [] && AllPlain(n.path) && ".." !in n.path)
    && (forall n, other :: n in nodes && other in nodes && n.kind.RegularFile? ==> n.path !in Above(other.path))
  }

  lemma {:induction false} ExportedNodes(nodes: seq<Node>)
    ensures AllFiles(Exported(nodes))
    ensures forall n :: n in Exported(nodes) <==> n in nodes && Exports(n)
  {
    if nodes != [] {
      var init, last := nodes[..|nodes| - 1], nodes[|nodes| - 1];
      ExportedNodes(init);
      assert nodes == init + [last];
    }
  }

  lemma {:induction false} ContentsOfNodes(files: seq<Node>)
    requires AllFiles(files) && forall n, other :: n in files && other in files && n.path == other.path ==> n == other
    ensures forall p :: p in Contents(files) <==> exists n :: n in files && n.path == p
    ensures forall n :: n in files ==> n.path in Contents(files) && Contents(files)[n.path] == n.kind.content
  {
    if files != [] {
      var init, last := files[..|files| - 1], files[|files| - 1];
      assert files == init + [last];
      ContentsOfNodes(init);
    }
  }

  lemma NodeByPath(nodes: seq<Node>, n: Node, other: Node)
    requires WellFormed(nodes) && n in nodes && other in nodes && n.path == other.path
    ensures n == other
  {
    var i :| 0 <= i < |nodes| && nodes[i] == n;
    var j :| 0 <= j < |nodes| && nodes[j] == other;
  }

  lemma PathsAreUnique(nodes: seq<Node>)
    requires WellFormed(nodes)
    ensures forall n, other :: n in Exported(nodes) && other in Exported(nodes) && n.path == other.path ==> n == other
  {
    ExportedNodes(nodes);
    forall n, other | n in Exported(nodes) && other in Exported(nodes) && n.path == other.path ensures n == other {
      NodeByPath(nodes, n, other);
    }
  }

  lemma ManifestIsNotPortable()
    ensures !Portable([MANIFEST])
  {
    assert Lower(MANIFEST) == MANIFEST;
  }

  /** The exported files by path. */
  lemma ExportedContents(nodes: seq<Node>)
    requires WellFormed(nodes)
    ensures AllFiles(Exported(nodes))
    ensures forall n :: n in nodes && Exports(n) ==>
              n.path in Contents(Exported(nodes)) && Contents(Exported(nodes))[n.path] == n.kind.content
    ensures forall p :: p in Contents(Exported(nodes)) ==> exists n :: n in nodes && Exports(n) && n.path == p
  {
    ExportedNodes(nodes);
    PathsAreUnique(nodes);
    ContentsOfNodes(Exported(nodes));
  }

  /** No two exported files get in each other's way in the staging tree. */
  lemma ExportedFitTogether(nodes: seq<Node>)
    requires WellFormed(nodes)
    ensures AllFiles(Exported(nodes)) && Contents(Exported(nodes)).Keys !! AllAbove(Contents(Exported(nodes)).Keys)
  {
    ExportedContents(nodes);
    var paths := Contents(Exported(nodes)).Keys;
    forall p, q | p in paths && q in paths ensures p !in Above(q) {
      var n :| n in nodes && Exports(n) && n.path == p;
      var other :| other in nodes && Exports(other) && other.path == q;
      assert n.path !in Above(other.path);
    }
  }

  /** What an export leaves in staging before it is archived. */
  datatype Staged = Staged(manifest: Manifest, files: map<Path, Bytes>, dirs: set<Path>)

  /** The manifest an export writes. */
  function ManifestOf(name: string, toolVersion: string, files: seq<Node>, sha: Bytes -> string): Manifest
    requires AllFiles(files)
  {
    Manifest(name, toolVersion, Items(files, sha))
  }

  /** Exactly when an export goes through. The last condition: no exported file lies below a directory that
      bears the manifest's name. */
  predicate Exportable(name: string, nodes: seq<Node>, valid: bool)
    requires AllFiles(Exported(nodes))
  {
    var files := Exported(nodes);
    && CollectionId(name) && valid && NoLinks(nodes) && |files| <= MAX_FILES && Size(files) <= MAX_BYTES
    && [MANIFEST] !in AllAbove(Contents(files).Keys)
  }

  lemma NextFile(files: seq<Node>, i: nat)
    requires AllFiles(files) && i < |files|
    ensures AllFiles(files[..i]) && AllFiles(files[..i + 1])
    ensures Size(files[..i + 1]) == Size(files[..i]) + |files[i].kind.content|
    ensures Contents(files[..i + 1]) == Contents(files[..i])[files[i].path := files[i].kind.content]
  {
    assert files[..i + 1] == files[..i] + [files[i]] && files[..i + 1][..i] == files[..i];
  }

  lemma NextItem(files: seq<Node>, i: nat, sha: Bytes -> string)
    requires AllFiles(files) && i < |files|
    ensures AllFiles(files[..i]) && AllFiles(files[..i + 1])
    ensures var n := files[i];
            Items(files[..i + 1], sha)
                == Items(files[..i], sha) + [Item(Join(n.path), |n.kind.content|, sha(n.kind.content))]
  {
    assert files[..i + 1] == files[..i] + [files[i]] && files[..i + 1][..i] == files[..i];
  }

  lemma {:induction false} PrefixIsSmaller(files: seq<Node>, i: nat)
    requires AllFiles(files) && i <= |files|
    ensures AllFiles(files[..i]) && Size(files[..i]) <= Size(files)
    ensures Contents(files[..i]).Keys <= Contents(files).Keys
    decreases |files| - i
  {
    if i == |files| {
      assert files[..i] == files;
    } else {
      NextFile(files, i);
      PrefixIsSmaller(files, i + 1);
    }
  }

  /** The measuring loop: manifest entries, refused as soon as the running total passes the limit. */
  method DescribeFiles(files: seq<Node>, sha: Bytes -> string) returns (r: Result<seq<Item>, ExportError>)
    requires AllFiles(files)
    ensures r == if Size(files) <= MAX_BYTES then Ok(Items(files, sha)) else Err(TooManyBytes)
  {
    var entries, total := [], 0;
    for i := 0 to |files|
      invariant AllFiles(files[..i]) && entries == Items(files[..i], sha) && total == Size(files[..i])
      invariant total <= MAX_BYTES
    {
      NextFile(files, i);
      NextItem(files, i, sha);
      PrefixIsSmaller(files, i + 1);
      var size := |files[i].kind.content|;
      total := total + size;
      if total > MAX_BYTES { return Err(TooManyBytes); }
      entries := entries + [Item(Join(files[i].path), size, sha(files[i].kind.content))];
    }
    assert files[..|files|] == files;
    return Ok(entries);
  }

  /** The copying loop into an empty staging tree. */
  method CopyFiles(files: seq<Node>) returns (tree: Tree)
    requires AllFiles(files) && Contents(files).Keys !! AllAbove(Contents(files).Keys)
    ensures fresh(tree)
    ensures tree.files == Contents(files) && tree.dirs == AllAbove(Contents(files).Keys)
  {
    tree := new Tree();
    for i := 0 to |files|
      invariant AllFiles(files[..i])
      invariant tree.files == Contents(files[..i]) && tree.dirs == AllAbove(Contents(files[..i]).Keys)
    {
      NextFile(files, i);
      PrefixIsSmaller(files, i + 1);
      var source := files[i];
      assert source.path in Contents(files[..i + 1]);
      assert Above(source.path) <= AllAbove(Contents(files).Keys);
      var copied := tree.WriteFile(source.path, source.kind.content);
    }
    assert files[..|files|] == files;
  }

  method ExportBundle(name: string, nodes: seq<Node>, toolVersion: string, valid: bool,
                      encode: Manifest -> Bytes, sha: Bytes -> string)
    returns (r: Result<Staged, ExportError>)
    requires WellFormed(nodes)
    ensures AllFiles(Exported(nodes))
    ensures r.Ok? <==> Exportable(name, nodes, valid)
    ensures r.Ok? ==>
              var files := Exported(nodes);
              var m := ManifestOf(name, toolVersion, files, sha);
              r.value == Staged(m, Contents(files)[[MANIFEST] := encode(m)], AllAbove(Contents(files).Keys))
  {
    ExportedNodes(nodes);
    if !CollectionId(name) { return Err(InvalidCollection); }
    if !valid { return Err(ValidationFailed); }
    var found := ExportFiles(nodes);
    if found.Err? { return Err(found.error); }
    var files := found.value;
    if |files| > MAX_FILES { return Err(TooManyFiles); }
    var entries := DescribeFiles(files, sha);
    if entries.Err? { return Err(entries.error); }
    var m := Manifest(name, toolVersion, entries.value);
    ExportedFitTogether(nodes);
    var staging := CopyFiles(files);
    var written := staging.WriteFile([MANIFEST], encode(m));
    if !written { return Err(StagingConflict); }
    return Ok(Staged(m, staging.files, staging.dirs));
  }
}
