/** The bundle's rules written out: what each predicate and function of the bundle modules comes to on the raw names,
    kinds, sizes and limits. */
module BundleExactly {
  import opened Options
  import opened Text
  import opened BundlePaths
  import opened Bundles
  import opened BundleImport
  import opened BundleTheorems
  import opened BundleExport
  import BundleRoundTrip

  // ---- names -------------------------------------------------------------------------------------------

  /** The segments but the empty ones and the single dots. */
  function Kept(segments: seq<string>): Path {
    if segments == [] then []
    else (if segments[0] == "" || segments[0] == "." then [] else [segments[0]]) + Kept(segments[1..])
  }

  predicate NoSlash(segments: seq<string>) { forall i :: 0 <= i < |segments| ==> '/' !in segments[i] }

  lemma FirstSegment(first: string, rest: string)
    requires '/' !in first
    ensures Parts(first + "/" + rest) == (if Plain(first) then [first] else []) + Parts(rest)
  {
    var whole := first + "/" + rest;
    SlashAfter(first, rest);
    assert whole[..|first|] == first && whole[|first| + 1..] == rest;
  }

  lemma OneSegment(name: string)
    requires '/' !in name
    ensures Parts(name) == if Plain(name) then [name] else []
  {
    SlashAfter(name, "");
    assert name[..|name|] == name;
  }

  /** A name is read segment by segment, from slash to slash; empty segments and single dots are dropped. */
  lemma {:induction false} PartsOfSegments(segments: seq<string>)
    requires segments != [] && NoSlash(segments)
    ensures Parts(Join(segments)) == Kept(segments)
  {
    if |segments| == 1 {
      OneSegment(segments[0]);
    } else {
      FirstSegment(segments[0], Join(segments[1..]));
      PartsOfSegments(segments[1..]);
    }
  }

  /** Every name is spelled by its segments. */
  lemma {:induction false} HasSegments(name: string) returns (segments: seq<string>)
    ensures segments != [] && NoSlash(segments) && Join(segments) == name
    decreases |name|
  {
    var i := Slash(name);
    if i == |name| {
      assert name[..i] == name;
      segments := [name];
    } else {
      segments := HasSegments(name[i + 1..]);
      segments := [name[..i]] + segments;
      assert name == name[..i] + "/" + name[i + 1..];
    }
  }

  /** ASCII letters, digits, dots, underscores and hyphens, by code point. */
  predicate IsId(s: string) {
    s != "" && forall i :: 0 <= i < |s| ==>
      var c := s[i] as int; 48 <= c <= 57 || 65 <= c <= 90 || 97 <= c <= 122 || c == 45 || c == 46 || c == 95
  }

  /** Sixty-four lower-case hexadecimal digits. */
  predicate IsDigest(s: string) {
    |s| == 64 && forall i :: 0 <= i < 64 ==> var c := s[i] as int; 48 <= c <= 57 || 97 <= c <= 102
  }

  lemma IdExactly(s: string)
    ensures CollectionId(s) <==> IsId(s)
  {
    if IsId(s) { forall i | 0 <= i < |s| ensures IdCharacter(s[i]) { var c := s[i] as int; } }
    if CollectionId(s) { forall i | 0 <= i < |s| ensures IdCharacter(s[i]) {} }
  }

  predicate IsEntry(item: Item) { item.path != "" && item.size >= 0 && IsDigest(item.sha256) }

  lemma SchemaExactly(m: Manifest)
    ensures SchemaAccepts(m) <==>
            IsId(m.collectionId) && m.toolVersion != "" && forall item :: item in m.files ==> IsEntry(item)
  {
    IdExactly(m.collectionId);
  }

  /** A member that may stand in an archive with this root. */
  predicate IsMember(e: Member, root: string) {
    && e.name != "" && e.name[0] != '/' && Parts(e.name) != [] && ".." !in Parts(e.name) && Parts(e.name)[0] == root
    && e.kind in {File, Directory, Unknown}
  }

  lemma MemberExactly(e: Member, root: string)
    ensures Admitted(e) && Root(e.name) == root <==> IsMember(e, root)
  {
    assert Parts("") == [];
  }

  lemma RootsExactly(a: Archive, root: string)
    ensures AllowedMembers(a) && Roots(a) == {root} <==> a != [] && forall e :: e in a ==> IsMember(e, root)
  {
    forall e | e in a ensures (Admitted(e) && Root(e.name) == root <==> IsMember(e, root)) && Root(e.name) in Roots(a) {
      MemberExactly(e, root);
    }
    if a == [] {
      assert root !in Roots(a);
    } else if forall e :: e in a ==> IsMember(e, root) {
      assert a[0] in a && IsMember(a[0], root);
      assert Roots(a) == {root};
    }
  }

  /** What an archive must be to be read at all. */
  ghost predicate Readable(a: Archive, decode: Bytes -> Option<Manifest>, root: string, m: Manifest) {
    && 0 < |a| <= 10_100 && Total(a) <= 2_147_483_648 && IsId(root) && (forall e :: e in a ==> IsMember(e, root))
    && root + "/bundle-manifest.json" in Members(a) && decode(Members(a)[root + "/bundle-manifest.json"]) == Some(m)
    && IsId(m.collectionId) && m.toolVersion != "" && forall item :: item in m.files ==> IsEntry(item)
  }

  /** Inspection accepts exactly the readable archives. */
  lemma InspectedExactly(a: Archive, decode: Bytes -> Option<Manifest>, root: string, m: Manifest)
    ensures Inspected(a, decode, root, m) <==> Readable(a, decode, root, m)
  {
    IdExactly(root);
    SchemaExactly(m);
    RootsExactly(a, root);
    assert root + "/" + MANIFEST == root + "/bundle-manifest.json";
  }

  // ---- repeated names ----------------------------------------------------------------------------------

  /** The name is some root followed by the path. */
  predicate Leads(name: string, p: Path) { Parts(name) != [] && Parts(name)[1..] == p }

  /** The last regular file whose name leads to a path below the root gives its content. */
  lemma {:induction false} LastFileCounts(a: Archive, p: Path, i: nat)
    requires p != [] && i < |a| && a[i].kind.File? && Leads(a[i].name, p)
    requires forall j :: i < j < |a| && a[j].kind.File? ==> !Leads(a[j].name, p)
    ensures p in FilesOf(a) && FilesOf(a)[p] == a[i].content
  {
    if i < |a| - 1 { LastFileCounts(a[..|a| - 1], p, i); }
  }

  lemma {:induction false} NoSuchFile(a: Archive, p: Path)
    requires p == [] || forall j :: 0 <= j < |a| && a[j].kind.File? ==> !Leads(a[j].name, p)
    ensures p !in FilesOf(a)
  {
    if a != [] { NoSuchFile(a[..|a| - 1], p); }
  }

  /** The last entry of a path is the one that counts. */
  lemma {:induction false} LastEntryCounts(items: seq<Item>, p: Path, i: nat)
    requires i < |items| && Parts(items[i].path) == p && forall j :: i < j < |items| ==> Parts(items[j].path) != p
    ensures p in Listed(items) && Listed(items)[p] == items[i]
  {
    if i < |items| - 1 { LastEntryCounts(items[..|items| - 1], p, i); }
  }

  lemma {:induction false} NoSuchEntry(items: seq<Item>, p: Path)
    requires forall j :: 0 <= j < |items| ==> Parts(items[j].path) != p
    ensures p !in Listed(items)
  {
    if items != [] { NoSuchEntry(items[..|items| - 1], p); }
  }

  // ---- verification ------------------------------------------------------------------------------------

  lemma {:induction false} MemberNames(a: Archive, name: string)
    ensures name in Members(a) <==> exists e :: e in a && e.kind.File? && Join(Parts(e.name)) == name
  {
    if a != [] {
      var init, last := a[..|a| - 1], a[|a| - 1];
      MemberNames(init, name);
      assert a == init + [last];
    }
  }

  lemma NoFileNamed(a: Archive, root: string)
    requires Plain(root) && forall e :: e in a ==> IsMember(e, root)
    ensures root in Members(a) <==> exists e :: e in a && e.kind.File? && |Parts(e.name)| == 1
  {
    MemberNames(a, root);
    forall e | e in a ensures Join(Parts(e.name)) == root <==> |Parts(e.name)| == 1 {
      assert IsMember(e, root) && Join([root]) == root;
      if Join(Parts(e.name)) == root { JoinIsInjective(Parts(e.name), [root]); }
    }
  }

  lemma NotAnEntry(root: string, items: seq<Item>)
    requires Plain(root) && SafePaths(items)
    ensures root !in Expected(root, items)
  {
    if root in Expected(root, items) {
      ExpectedIsListed(root, items);
      var p :| p in Listed(items) && Under(root, p) == root;
      RootIsNotBelow(root, p);
    }
  }

  lemma DeclaredIsVerified(a: Archive, decode: Bytes -> Option<Manifest>, sha: Bytes -> string, root: string,
                           m: Manifest)
    requires Inspected(a, decode, root, m) && m.collectionId == root && SafePaths(m.files)
    requires Declares(m, FilesOf(a), decode, sha) && root !in Members(a)
    ensures Verified(a, decode, sha, root, m)
  {
    RootIsPlain(a, root);
    FilesAreMembers(a, root);
    assert Listed(m.files).Keys == FilesOf(a).Keys - {[MANIFEST]};
    BundleRoundTrip.ListedItemsHold(root, m.files, Members(a), FilesOf(a), sha);
  }

  predicate IsPath(name: string) { Parts(name) != [] && name[0] != '/' && ".." !in Parts(name) }

  lemma PathsExactly(items: seq<Item>)
    ensures SafePaths(items) <==> forall item :: item in items ==> IsPath(item.path)
  {
    assert Parts("") == [];
    forall item | item in items ensures SafeRelative(item.path) <==> IsPath(item.path) {}
  }

  lemma RootIsFree(a: Archive, decode: Bytes -> Option<Manifest>, sha: Bytes -> string, root: string, m: Manifest)
    requires Verified(a, decode, sha, root, m)
    ensures root !in Members(a)
  {
    RootIsPlain(a, root);
    RootIsCollection(a, decode, sha, root, m);
    NotAnEntry(root, m.files);
    ManifestName(root);
    RootIsNotBelow(root, [MANIFEST]);
  }

  /** A bundle is accepted exactly if it can be read, is named after the manifest's collection, has only safe paths in
      the manifest and no file in the place of its root, and holds the declared files and no others. */
  lemma VerifiedExactly(a: Archive, decode: Bytes -> Option<Manifest>, sha: Bytes -> string, root: string, m: Manifest)
    ensures Verified(a, decode, sha, root, m) <==>
      && Readable(a, decode, root, m) && m.collectionId == root
      && (forall item :: item in m.files ==> IsPath(item.path))
      && (forall e :: e in a && e.kind.File? ==> |Parts(e.name)| != 1)
      && Declares(m, FilesOf(a), decode, sha)
  {
    InspectedExactly(a, decode, root, m);
    PathsExactly(m.files);
    if Inspected(a, decode, root, m) {
      RootIsPlain(a, root);
      NoFileNamed(a, root);
      if Verified(a, decode, sha, root, m) {
        VerifiedIsImported(a, decode, sha, root, m);
        RootIsFree(a, decode, sha, root, m);
      } else if m.collectionId == root && SafePaths(m.files) && Declares(m, FilesOf(a), decode, sha)
                && root !in Members(a) {
        DeclaredIsVerified(a, decode, sha, root, m);
      }
    }
  }

  // ---- export ------------------------------------------------------------------------------------------

  lemma NoManifestFolder(paths: set<Path>)
    ensures [MANIFEST] in AllAbove(paths) <==> exists p :: p in paths && |p| > 1 && p[0] == "bundle-manifest.json"
  {
    if p :| p in paths && |p| > 1 && p[0] == "bundle-manifest.json" {
      assert p[..1] == [MANIFEST] && p[..1] in Above(p);
    }
  }

  /** An export goes through exactly for a well-named, valid collection without links whose files stay within the
      limits and under no directory that bears the manifest's name. */
  lemma ExportableExactly(name: string, nodes: seq<Node>, valid: bool)
    requires AllFiles(Exported(nodes))
    ensures Exportable(name, nodes, valid) <==>
      && IsId(name) && valid
      && (forall n :: n in nodes ==> n.kind != Link)
      && |Exported(nodes)| <= 10_000 && Size(Exported(nodes)) <= 2_147_483_648
      && (forall n :: n in nodes && Taken(n) && |n.path| > 1 ==> n.path[0] != "bundle-manifest.json")
  {
    var files := Exported(nodes);
    IdExactly(name);
    ExportedExactly(nodes);
    NoManifestFolder(Contents(files).Keys);
    ContentPaths(files);
  }

  lemma {:induction false} ContentPaths(files: seq<Node>)
    requires AllFiles(files)
    ensures forall p :: p in Contents(files) <==> exists n :: n in files && n.path == p
  {
    if files != [] {
      var init, last := files[..|files| - 1], files[|files| - 1];
      assert files == init + [last];
      ContentPaths(init);
    }
  }
}
