/** A verified archive and the directory that importing it leaves behind. */
module BundleTheorems {
  import opened Options
  import opened BundlePaths
  import opened Bundles
  import opened BundleImport

  /** The manifest's entries by path; a repeated path keeps its last entry. */
  function Listed(items: seq<Item>): map<Path, Item> {
    if items == [] then map[]
    else Listed(items[..|items| - 1])[Parts(items[|items| - 1].path) := items[|items| - 1]]
  }

  predicate Inside(p: Path) { p != [] && AllPlain(p) && ".." !in p }

  function Under(root: string, p: Path): string { Join([root] + p) }

  lemma UnderIsInjective(root: string, p: Path, q: Path)
    requires Plain(root) && AllPlain(p) && AllPlain(q) && Under(root, p) == Under(root, q)
    ensures p == q
  {
    JoinIsInjective([root] + p, [root] + q);
    assert ([root] + p)[1..] == p && ([root] + q)[1..] == q;
  }

  /** Members by name and files by target hold the same contents, apart from a file in the root's own place. */
  ghost predicate SameContents(members: map<string, Bytes>, files: map<Path, Bytes>, root: string) {
    && (forall p :: p in files ==> Inside(p) && Under(root, p) in members && members[Under(root, p)] == files[p])
    && (forall name :: name in members && name != root ==> exists p :: p in files && Under(root, p) == name)
  }

  lemma {:induction false} FilesAreMembers(a: Archive, root: string)
    requires AllowedMembers(a) && Roots(a) <= {root} && Plain(root)
    ensures SameContents(Members(a), FilesOf(a), root)
    decreases |a|
  {
    if a != [] {
      var n := |a| - 1;
      var init, last := a[..n], a[n];
      assert a == init + [last] && last in a;
      forall e | e in init ensures Admitted(e) && Root(e.name) == root {
        assert e in a && Root(e.name) in Roots(a);
      }
      FilesAreMembers(init, root);
      assert Root(last.name) in Roots(a);
      if last.kind.File? { AddFile(Members(init), FilesOf(init), root, last); }
    }
  }

  lemma OthersDiffer(root: string, ps: set<Path>, target: Path)
    requires Plain(root) && AllPlain(target) && forall p :: p in ps ==> AllPlain(p)
    ensures forall p :: p in ps && p != target ==> Under(root, p) != Under(root, target)
  {
    forall p | p in ps && p != target ensures Under(root, p) != Under(root, target) {
      if Under(root, p) == Under(root, target) { UnderIsInjective(root, p, target); }
    }
  }

  lemma AddBelow(members: map<string, Bytes>, files: map<Path, Bytes>, root: string, target: Path, content: Bytes)
    requires SameContents(members, files, root) && Plain(root) && Inside(target)
    ensures SameContents(members[Under(root, target) := content], files[target := content], root)
  {
    OthersDiffer(root, files.Keys, target);
    var name, grown := Under(root, target), files[target := content];
    var more := members[name := content];
    forall other | other in more && other != root
      ensures exists p :: p in grown && Under(root, p) == other
    {
      if other == name {
        assert target in grown;
      } else {
        var p :| p in files && Under(root, p) == other;
        assert p in grown;
      }
    }
  }

  lemma AddRootFile(members: map<string, Bytes>, files: map<Path, Bytes>, root: string, content: Bytes)
    requires SameContents(members, files, root) && Plain(root)
    ensures SameContents(members[root := content], files, root)
  {
    forall p | p in files ensures Under(root, p) != root {
      RootIsNotBelow(root, p);
    }
  }

  lemma AddFile(members: map<string, Bytes>, files: map<Path, Bytes>, root: string, e: Member)
    requires SameContents(members, files, root) && Plain(root)
    requires SafeRelative(e.name) && Root(e.name) == root
    ensures var target := Target(e.name);
            SameContents(members[Join(Parts(e.name)) := e.content],
                         if target == [] then files else files[target := e.content], root)
  {
    var target := Target(e.name);
    assert Parts(e.name) == [root] + target;
    if target == [] {
      AddRootFile(members, files, root, e.content);
    } else {
      AddBelow(members, files, root, target, e.content);
    }
  }

  lemma RootIsNotBelow(root: string, p: Path)
    requires Plain(root) && Inside(p)
    ensures Under(root, p) != root
  {
    assert Join([root]) == root;
    if Under(root, p) == root { JoinIsInjective([root], [root] + p); }
  }

  /** The manifest's two indexes agree. */
  lemma {:induction false} ExpectedIsListed(root: string, items: seq<Item>)
    requires Plain(root) && forall item :: item in items ==> SafeRelative(item.path)
    ensures forall p :: p in Listed(items) ==>
              Inside(p) && Under(root, p) in Expected(root, items)
                  && Expected(root, items)[Under(root, p)] == Listed(items)[p]
    ensures forall name :: name in Expected(root, items) ==> exists p :: p in Listed(items) && Under(root, p) == name
  {
    if items != [] {
      var n := |items| - 1;
      var init, last := items[..n], items[n];
      ExpectedIsListed(root, init);
      assert last in items;
      var target := Parts(last.path);
      JoinUnder(root, target);
      assert NameIn(root, last.path) == Under(root, target) && Inside(target);
      forall p | p in Listed(items) && p != target ensures Under(root, p) != Under(root, target) {
        if Under(root, p) == Under(root, target) { UnderIsInjective(root, p, target); }
      }
      forall name | name in Expected(root, items) ensures exists p :: p in Listed(items) && Under(root, p) == name {
        if name == Under(root, target) {
          assert target in Listed(items);
        } else {
          assert name in Expected(root, init);
          var p :| p in Listed(init) && Under(root, p) == name;
          assert p in Listed(items);
        }
      }
    }
  }

  /** The imported directory is what the manifest declares: exactly its paths and the manifest file, each with the
      declared size and digest, all strictly below the destination. */
  ghost predicate Declares(m: Manifest, files: map<Path, Bytes>, decode: Bytes -> Option<Manifest>,
                           sha: Bytes -> string) {
    && (forall p :: p in files <==> p == [MANIFEST] || p in Listed(m.files))
    && [MANIFEST] in files && decode(files[[MANIFEST]]) == Some(m)
    && [MANIFEST] !in Listed(m.files)
    && (forall p :: p in Listed(m.files) ==>
          p in files && |files[p]| == Listed(m.files)[p].size && sha(files[p]) == Listed(m.files)[p].sha256)
    && (forall p :: p in files ==> Inside(p))
  }

  lemma ManifestName(root: string)
    ensures Under(root, [MANIFEST]) == root + "/" + MANIFEST && Inside([MANIFEST])
  {
    JoinUnder(root, [MANIFEST]);
  }

  lemma PathsAreDeclared(members: map<string, Bytes>, files: map<Path, Bytes>, expected: map<string, Item>,
                         listed: map<Path, Item>, root: string, name: string)
    requires Plain(root) && SameContents(members, files, root) && name == Under(root, [MANIFEST])
    requires members.Keys - {name} == expected.Keys && name in members
    requires forall p :: p in listed ==> Inside(p) && Under(root, p) in expected
    requires forall name :: name in expected ==> exists p :: p in listed && Under(root, p) == name
    ensures forall p :: p in files <==> p == [MANIFEST] || p in listed
    ensures [MANIFEST] !in listed
  {
    ManifestName(root);
    OthersDiffer(root, files.Keys, [MANIFEST]);
    forall p | p in files && p != [MANIFEST] ensures p in listed {
      assert Under(root, p) in expected;
      var q :| q in listed && Under(root, q) == Under(root, p);
      UnderIsInjective(root, p, q);
    }
    forall p | p == [MANIFEST] || p in listed ensures p in files {
      RootIsNotBelow(root, p);
      var q :| q in files && Under(root, q) == Under(root, p);
      UnderIsInjective(root, p, q);
    }
  }

  lemma ContentsAreDeclared(members: map<string, Bytes>, files: map<Path, Bytes>, expected: map<string, Item>,
                            listed: map<Path, Item>, root: string, sha: Bytes -> string)
    requires SameContents(members, files, root)
    requires forall p :: p in listed ==>
               p in files && Under(root, p) in expected && expected[Under(root, p)] == listed[p]
    requires forall name :: name in expected ==> ItemHolds(members, name, expected[name], sha)
    ensures forall p :: p in listed ==> |files[p]| == listed[p].size && sha(files[p]) == listed[p].sha256
  {
    forall p | p in listed ensures |files[p]| == listed[p].size && sha(files[p]) == listed[p].sha256 {
      assert ItemHolds(members, Under(root, p), expected[Under(root, p)], sha);
    }
  }

  lemma ManifestIsKept(members: map<string, Bytes>, files: map<Path, Bytes>, root: string)
    requires SameContents(members, files, root) && [MANIFEST] in files
    ensures root + "/" + MANIFEST in members && members[root + "/" + MANIFEST] == files[[MANIFEST]]
  {
    ManifestName(root);
  }

  /** For any archive that verification accepts, whatever its names look like and however often they repeat,
      the files that import leaves are exactly those the manifest declares. */
  lemma VerifiedIsImported(a: Archive, decode: Bytes -> Option<Manifest>, sha: Bytes -> string, root: string,
                           m: Manifest)
    requires Verified(a, decode, sha, root, m)
    ensures m.collectionId == root && Declares(m, FilesOf(a), decode, sha)
  {
    RootIsCollection(a, decode, sha, root, m);
    RootIsPlain(a, root);
    FilesAreMembers(a, root);
    ExpectedIsListed(root, m.files);
    ManifestName(root);
    var members, files, expected, listed := Members(a), FilesOf(a), Expected(root, m.files), Listed(m.files);
    PathsAreDeclared(members, files, expected, listed, root, root + "/" + MANIFEST);
    ContentsAreDeclared(members, files, expected, listed, root, sha);
    ManifestIsKept(members, files, root);
  }

  lemma RootIsPlain(a: Archive, root: string)
    requires AllowedMembers(a) && Roots(a) == {root} && CollectionId(root)
    ensures Plain(root)
  {
    assert root in Roots(a);
    var e :| e in a && Root(e.name) == root;
    assert Admitted(e) && Parts(e.name)[0] in Parts(e.name);
  }
}
