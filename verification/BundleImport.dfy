/** Import of a verified bundle into a fresh directory that is then renamed into place. */
module BundleImport {
  import opened Options
  import opened BundlePaths
  import opened Bundles

  /** The directories above a path, from the first part on. */
  function Above(p: Path): set<Path> { set n | 0 < n < |p| :: p[..n] }

  // ---- the directory being filled ----------------------------------------------------------------------

  class Tree {
    var files: map<Path, Bytes>
    var dirs: set<Path>

    constructor ()
      ensures files == map[] && dirs == {}
    {
      files, dirs := map[], {};
    }

    /** mkdir with parents, content to find the directory there already; a file on the way is an error. */
    method MakeDir(p: Path) returns (ok: bool)
      modifies this
      ensures ok <==> files.Keys !! Above(p) + {p}
      ensures files == old(files)
      ensures dirs == if ok then old(dirs) + Above(p) + {p} else old(dirs)
    {
      ok := files.Keys !! Above(p) + {p};
      if ok { dirs := dirs + Above(p) + {p}; }
    }

    /** Creates the parent directories, then creates or truncates the file. */
    method WriteFile(p: Path, content: Bytes) returns (ok: bool)
      modifies this
      ensures ok <==> old(files).Keys !! Above(p) && p !in old(dirs) + Above(p)
      ensures ok ==> files == old(files)[p := content] && dirs == old(dirs) + Above(p)
    {
      if !(files.Keys !! Above(p)) { return false; }
      dirs := dirs + Above(p);
      if p in dirs { return false; }
      files := files[p := content];
      return true;
    }
  }

  // ---- what the loop produces --------------------------------------------------------------------------

  /** Where a member goes, below the destination. */
  function Target(name: string): Path { if Parts(name) == [] then [] else Parts(name)[1..] }

  function FilesOf(a: Archive): map<Path, Bytes> {
    if a == [] then map[]
    else
      var init, last := FilesOf(a[..|a| - 1]), a[|a| - 1];
      if last.kind.File? && Target(last.name) != [] then init[Target(last.name) := last.content] else init
  }

  function DirsOf(a: Archive): set<Path> {
    if a == [] then {}
    else
      var init, last := DirsOf(a[..|a| - 1]), a[|a| - 1];
      if Target(last.name) == [] then init
      else if last.kind.Directory? then init + Above(Target(last.name)) + {Target(last.name)}
      else init + Above(Target(last.name))
  }

  predicate FileOrDirectory(e: Member) { Target(e.name) != [] ==> e.kind.File? || e.kind.Directory? }

  /** Every member below the root is a file or a directory, and no path is wanted as both. */
  predicate Placeable(a: Archive) {
    (forall e :: e in a ==> FileOrDirectory(e)) && FilesOf(a).Keys !! DirsOf(a)
  }

  lemma NextMember(a: Archive, i: nat)
    requires i < |a|
    ensures var init, next, target := a[..i], a[..i + 1], Target(a[i].name);
            && FilesOf(next) == (if a[i].kind.File? && target != [] then FilesOf(init)[target := a[i].content]
                               else FilesOf(init))
            && DirsOf(next) == (if target == [] then DirsOf(init)
                                else if a[i].kind.Directory? then DirsOf(init) + Above(target) + {target}
                                else DirsOf(init) + Above(target))
  {
    assert a[..i + 1] == a[..i] + [a[i]] && a[..i + 1][..i] == a[..i];
  }

  /** Files and directories only accumulate. */
  lemma {:induction false} Grows(a: Archive, i: nat)
    requires i <= |a|
    ensures FilesOf(a[..i]).Keys <= FilesOf(a).Keys && DirsOf(a[..i]) <= DirsOf(a)
    decreases |a| - i
  {
    if i == |a| {
      assert a[..i] == a;
    } else {
      NextMember(a, i);
      Grows(a, i + 1);
    }
  }

  lemma PlaceablePrefix(a: Archive, i: nat)
    requires i <= |a| && Placeable(a)
    ensures Placeable(a[..i])
  {
    Grows(a, i);
  }

  /** Adding one member's directories or its file, seen on the sets alone. */
  lemma OneMore(files: set<Path>, dirs: set<Path>, above: set<Path>, p: Path)
    requires files !! dirs
    ensures files !! dirs + above + {p} <==> files !! above + {p}
    ensures files + {p} !! dirs + above <==> files !! above && p !in dirs + above
  {
  }

  /** What one more member needs, given that the members before it are in place. */
  predicate CanPlace(files: set<Path>, dirs: set<Path>, e: Member) {
    var target := Target(e.name);
    || target == []
    || (e.kind.Directory? && files !! Above(target) + {target})
    || (e.kind.File? && files !! Above(target) && target !in dirs + Above(target))
  }

  lemma KindsOfNext(a: Archive, i: nat)
    requires i < |a| && forall e :: e in a[..i] ==> FileOrDirectory(e)
    ensures (forall e :: e in a[..i + 1] ==> FileOrDirectory(e)) <==> FileOrDirectory(a[i])
  {
    assert a[..i + 1] == a[..i] + [a[i]] && a[i] in a[..i + 1];
  }

  lemma PlaceableNext(a: Archive, i: nat)
    requires i < |a| && Placeable(a[..i])
    ensures Placeable(a[..i + 1]) <==> CanPlace(FilesOf(a[..i]).Keys, DirsOf(a[..i]), a[i])
  {
    var files, dirs, target := FilesOf(a[..i]), DirsOf(a[..i]), Target(a[i].name);
    NextMember(a, i);
    KindsOfNext(a, i);
    OneMore(files.Keys, dirs, Above(target), target);
    assert files[target := a[i].content].Keys == files.Keys + {target};
  }

  /** One turn of the extraction loop. */
  method PlaceMember(tree: Tree, member: Member) returns (ok: bool)
    modifies tree
    ensures ok <==> CanPlace(old(tree.files).Keys, old(tree.dirs), member)
    ensures ok ==> var target := Target(member.name);
      && tree.files == (if member.kind.File? && target != [] then old(tree.files)[target := member.content]
                         else old(tree.files))
      && tree.dirs == (if target == [] then old(tree.dirs)
                       else if member.kind.Directory? then old(tree.dirs) + Above(target) + {target}
                       else old(tree.dirs) + Above(target))
  {
    var target := Target(member.name);
    if target == [] {
      ok := true;
    } else if member.kind.Directory? {
      ok := tree.MakeDir(target);
    } else if !member.kind.File? {
      ok := false;
    } else {
      ok := tree.WriteFile(target, member.content);
    }
  }

  /** The collections directory: what each collection holds. */
  class CollectionRoot {
    var collections: map<string, map<Path, Bytes>>

    constructor ()
      ensures collections == map[]
    {
      collections := map[];
    }

    /** The extraction loop into a new directory. */
    method Extract(a: Archive) returns (tree: Tree, ok: bool)
      ensures fresh(tree)
      ensures ok <==> Placeable(a)
      ensures ok ==> tree.files == FilesOf(a) && tree.dirs == DirsOf(a)
    {
      tree := new Tree();
      for i := 0 to |a|
        invariant tree.files == FilesOf(a[..i]) && tree.dirs == DirsOf(a[..i]) && Placeable(a[..i])
      {
        NextMember(a, i);
        PlaceableNext(a, i);
        ok := PlaceMember(tree, a[i]);
        if !ok {
          if Placeable(a) { PlaceablePrefix(a, i + 1); }
          return;
        }
      }
      assert a[..|a|] == a;
      ok := true;
    }

    method ImportBundle(a: Archive, decode: Bytes -> Option<Manifest>, sha: Bytes -> string)
      returns (r: Result<Manifest, Error>)
      modifies this
      ensures r.Ok? ==> (exists root :: Verified(a, decode, sha, root, r.value)) && Placeable(a)
                        && r.value.collectionId !in old(collections)
                        && collections == old(collections)[r.value.collectionId := FilesOf(a)]
      ensures r.Err? ==> collections == old(collections)
                         && forall root, m :: Verified(a, decode, sha, root, m) ==>
                              m.collectionId in collections || !Placeable(a)
    {
      r := VerifyBundle(a, decode, sha);
      if r.Err? { return; }
      var id := r.value.collectionId;
      ghost var root :| Verified(a, decode, sha, root, r.value);
      assert forall other, m :: Verified(a, decode, sha, other, m) ==> m == r.value by {
        forall other, m | Verified(a, decode, sha, other, m) ensures m == r.value {
          assert other in {root};
        }
      }
      if id in collections { return Err(DestinationExists); }
      var tree, placed := Extract(a);
      if !placed { return Err(FilesystemConflict); }
      collections := collections[id := tree.files];
    }
  }
}
