/** Verification and import of a portable bundle. An archive is its sequence of members, whose names may repeat
    and need not be normalised. The digest and the manifest decoder are parameters. */
module Bundles {
  import opened Options
  import opened BundlePaths

  const MAX_FILES := 10_000
  const MAX_BYTES := 2 * 1024 * 1024 * 1024
  const MANIFEST := "bundle-manifest.json"

  type Bytes = seq<int>

  datatype Kind = File | Directory | Symlink | Hardlink | Device | Fifo | Unknown

  datatype Member = Member(name: string, kind: Kind, content: Bytes)

  type Archive = seq<Member>

  datatype Item = Item(path: string, size: int, sha256: string)

  datatype Manifest = Manifest(collectionId: string, toolVersion: string, files: seq<Item>)

  predicate IdCharacter(c: char) {
    'a' <= c <= 'z' || 'A' <= c <= 'Z' || '0' <= c <= '9' || c == '.' || c == '_' || c == '-'
  }

  predicate CollectionId(s: string) { s != "" && forall i :: 0 <= i < |s| ==> IdCharacter(s[i]) }

  predicate HexDigest(s: string) { |s| == 64 && forall i :: 0 <= i < |s| ==> 'a' <= s[i] <= 'f' || '0' <= s[i] <= '9' }

  /** The manifest schema's demands on the modelled fields. */
  predicate SchemaAccepts(m: Manifest) {
    CollectionId(m.collectionId) && m.toolVersion != ""
    && forall item :: item in m.files ==> item.path != "" && item.size >= 0 && HexDigest(item.sha256)
  }

  datatype Error =
    | TooManyEntries | UnsafePath | UnsupportedMember | TooLarge | NotOneRoot | InvalidRoot | ManifestMissing
    | ManifestInvalid | UnsafeManifestPath | FileSetDiffers | SizeMismatch | ChecksumMismatch
    | DestinationExists | FilesystemConflict

  // ---- what an archive holds ---------------------------------------------------------------------------

  /** Regular files by normalised name; a repeated name keeps its last content. */
  function Members(a: Archive): map<string, Bytes> {
    if a == [] then map[]
    else
      var init, last := Members(a[..|a| - 1]), a[|a| - 1];
      if last.kind.File? then init[Join(Parts(last.name)) := last.content] else init
  }

  function Total(a: Archive): nat {
    if a == [] then 0
    else Total(a[..|a| - 1]) + if a[|a| - 1].kind.File? then |a[|a| - 1].content| else 0
  }

  predicate AllowedKind(k: Kind) { k.File? || k.Directory? || k.Unknown? }

  predicate AllowedMembers(a: Archive) {
    forall e :: e in a ==> Admitted(e)
  }

  function Root(name: string): string { if Parts(name) == [] then "" else Parts(name)[0] }

  function Roots(a: Archive): set<string> { set e | e in a :: Root(e.name) }

  lemma TotalOfPrefix(a: Archive, i: nat)
    requires i <= |a|
    ensures Total(a[..i]) <= Total(a)
  {
    if i < |a| {
      assert a[..|a| - 1][..i] == a[..i];
      TotalOfPrefix(a[..|a| - 1], i);
    } else {
      assert a[..i] == a;
    }
  }

  // ---- inspection --------------------------------------------------------------------------------------

  /** What inspection requires of an archive with the given root and manifest. */
  predicate Inspected(a: Archive, decode: Bytes -> Option<Manifest>, root: string, m: Manifest) {
    && |a| <= MAX_FILES + 100 && AllowedMembers(a) && Total(a) <= MAX_BYTES
    && Roots(a) == {root} && CollectionId(root)
    && var name := root + "/" + MANIFEST;
       name in Members(a) && decode(Members(a)[name]) == Some(m) && SchemaAccepts(m)
  }

  predicate Admitted(e: Member) { SafeRelative(e.name) && AllowedKind(e.kind) }

  lemma OneMoreMember(a: Archive, i: nat)
    requires i < |a|
    ensures Members(a[..i + 1]) == if a[i].kind.File? then Members(a[..i])[Join(Parts(a[i].name)) := a[i].content]
                                   else Members(a[..i])
    ensures Total(a[..i + 1]) == Total(a[..i]) + if a[i].kind.File? then |a[i].content| else 0
    ensures Roots(a[..i + 1]) == Roots(a[..i]) + {Root(a[i].name)}
    ensures AllowedMembers(a[..i + 1]) <==> AllowedMembers(a[..i]) && Admitted(a[i])
  {
    assert a[..i + 1] == a[..i] + [a[i]] && a[..i + 1][..i] == a[..i];
  }

  /** The member loop: every member admitted, or the reason why the archive cannot be accepted. */
  method ScanMembers(a: Archive) returns (error: Option<Error>, members: map<string, Bytes>, roots: set<string>)
    ensures error == None <==> AllowedMembers(a) && Total(a) <= MAX_BYTES
    ensures error == None ==> members == Members(a) && roots == Roots(a)
  {
    var total := 0;
    members, roots := map[], {};
    for i := 0 to |a|
      invariant AllowedMembers(a[..i]) && total == Total(a[..i]) <= MAX_BYTES
      invariant members == Members(a[..i]) && roots == Roots(a[..i])
    {
      var member := a[i];
      OneMoreMember(a, i);
      assert member in a;
      if !SafeRelative(member.name) { return Some(UnsafePath), members, roots; }
      roots := roots + {Parts(member.name)[0]};
      if member.kind.Symlink? || member.kind.Hardlink? || member.kind.Device? || member.kind.Fifo? {
        return Some(UnsupportedMember), members, roots;
      }
      if member.kind.File? {
        total := total + |member.content|;
        TotalOfPrefix(a, i + 1);
        if total > MAX_BYTES { return Some(TooLarge), members, roots; }
        members := members[Join(Parts(member.name)) := member.content];
      }
    }
    assert a[..|a|] == a;
    error := None;
  }

  method InspectBundle(a: Archive, decode: Bytes -> Option<Manifest>)
    returns (r: Result<(Manifest, map<string, Bytes>), Error>)
    ensures r.Ok? ==> r.value.1 == Members(a) && exists root :: Inspected(a, decode, root, r.value.0)
    ensures r.Err? ==> forall root, m :: !Inspected(a, decode, root, m)
  {
    if |a| > MAX_FILES + 100 { return Err(TooManyEntries); }
    var error, members, roots := ScanMembers(a);
    if error.Some? { return Err(error.value); }
    if |roots| != 1 { return Err(NotOneRoot); }
    var root :| root in roots;
    assert roots == {root} by { assert |roots - {root}| == 0; }
    if !CollectionId(root) { return Err(InvalidRoot); }
    var name := root + "/" + MANIFEST;
    if name !in members { return Err(ManifestMissing); }
    var manifest := decode(members[name]);
    if manifest.None? || !SchemaAccepts(manifest.value) { return Err(ManifestInvalid); }
    assert Inspected(a, decode, root, manifest.value);
    return Ok((manifest.value, members));
  }

  // ---- verification ------------------------------------------------------------------------------------

  function NameIn(collection: string, path: string): string { collection + "/" + Join(Parts(path)) }

  /** The manifest's entries by archive name; a repeated path keeps its last entry. */
  function Expected(collection: string, items: seq<Item>): map<string, Item> {
    if items == [] then map[]
    else
      var last := items[|items| - 1];
      Expected(collection, items[..|items| - 1])[NameIn(collection, last.path) := last]
  }

  predicate ItemHolds(members: map<string, Bytes>, name: string, item: Item, sha: Bytes -> string) {
    name in members && |members[name]| == item.size && sha(members[name]) == item.sha256
  }

  /** The archive is accepted with this manifest. */
  predicate Verified(a: Archive, decode: Bytes -> Option<Manifest>, sha: Bytes -> string, root: string, m: Manifest) {
    && Inspected(a, decode, root, m) && CollectionId(m.collectionId)
    && SafePaths(m.files)
    && var expected := Expected(m.collectionId, m.files);
       && Members(a).Keys - {m.collectionId + "/" + MANIFEST} == expected.Keys
       && forall name :: name in expected ==> ItemHolds(Members(a), name, expected[name], sha)
  }

  predicate SafePaths(items: seq<Item>) { forall item :: item in items ==> SafeRelative(item.path) }

  lemma NextExpected(collection: string, items: seq<Item>, i: nat)
    requires i < |items|
    ensures SafePaths(items[..i + 1]) <==> SafePaths(items[..i]) && SafeRelative(items[i].path)
    ensures SafePaths(items) ==> SafeRelative(items[i].path)
    ensures Expected(collection, items[..i + 1])
            == Expected(collection, items[..i])[NameIn(collection, items[i].path) := items[i]]
  {
    assert items[..i + 1] == items[..i] + [items[i]] && items[..i + 1][..i] == items[..i];
  }

  method CollectExpected(m: Manifest) returns (r: Result<map<string, Item>, Error>)
    ensures r.Ok? <==> SafePaths(m.files)
    ensures r.Ok? ==> r.value == Expected(m.collectionId, m.files)
  {
    var expected: map<string, Item> := map[];
    for i := 0 to |m.files|
      invariant expected == Expected(m.collectionId, m.files[..i])
      invariant SafePaths(m.files[..i])
    {
      var item := m.files[i];
      NextExpected(m.collectionId, m.files, i);
      if !SafeRelative(item.path) { return Err(UnsafeManifestPath); }
      expected := expected[NameIn(m.collectionId, item.path) := item];
    }
    assert m.files[..|m.files|] == m.files;
    return Ok(expected);
  }

  method CheckContents(members: map<string, Bytes>, expected: map<string, Item>, sha: Bytes -> string)
    returns (error: Option<Error>)
    requires expected.Keys <= members.Keys
    ensures error == None <==> forall name :: name in expected ==> ItemHolds(members, name, expected[name], sha)
  {
    var pending := expected.Keys;
    while pending != {}
      invariant pending <= expected.Keys
      invariant forall name :: name in expected && name !in pending ==> ItemHolds(members, name, expected[name], sha)
      decreases pending
    {
      var name :| name in pending;
      if |members[name]| != expected[name].size { return Some(SizeMismatch); }
      if sha(members[name]) != expected[name].sha256 { return Some(ChecksumMismatch); }
      pending := pending - {name};
    }
    return None;
  }

  method VerifyBundle(a: Archive, decode: Bytes -> Option<Manifest>, sha: Bytes -> string)
    returns (r: Result<Manifest, Error>)
    ensures r.Ok? ==> exists root :: Verified(a, decode, sha, root, r.value)
    ensures r.Err? ==> forall root, m :: !Verified(a, decode, sha, root, m)
  {
    var inspection := InspectBundle(a, decode);
    if inspection.Err? { return Err(inspection.error); }
    var (m, members) := inspection.value;
    ghost var root :| Inspected(a, decode, root, m);
    assert forall other, n :: Inspected(a, decode, other, n) ==> other == root && n == m by {
      forall other, n | Inspected(a, decode, other, n) ensures other == root && n == m {
        assert other in {root};
      }
    }
    if !CollectionId(m.collectionId) { return Err(ManifestInvalid); }
    var expected := CollectExpected(m);
    if expected.Err? { return Err(expected.error); }
    if members.Keys - {m.collectionId + "/" + MANIFEST} != expected.value.Keys { return Err(FileSetDiffers); }
    var error := CheckContents(members, expected.value, sha);
    if error.Some? { return Err(error.value); }
    assert Verified(a, decode, sha, root, m);
    return Ok(m);
  }

  /** Acceptance forces the archive's root directory to be named after the manifest's collection. */
  lemma RootIsCollection(a: Archive, decode: Bytes -> Option<Manifest>, sha: Bytes -> string, root: string, m: Manifest)
    requires Verified(a, decode, sha, root, m)
    ensures m.collectionId == root
  {
    var name := root + "/" + MANIFEST;
    if name != m.collectionId + "/" + MANIFEST {
      assert name in Expected(m.collectionId, m.files);
      var path := ExpectedName(m.collectionId, m.files, name);
      FirstPart(root, MANIFEST, m.collectionId, Join(Parts(path)));
    } else {
      FirstPart(root, MANIFEST, m.collectionId, MANIFEST);
    }
  }

  lemma FirstPart(a: string, rest: string, b: string, more: string)
    requires '/' !in a && '/' !in b && a + "/" + rest == b + "/" + more
    ensures a == b
  {
    SlashAfter(a, rest);
    SlashAfter(b, more);
    var name := a + "/" + rest;
    assert a == name[..Slash(name)] == b;
  }

  lemma {:induction false} ExpectedName(collection: string, items: seq<Item>, name: string) returns (path: string)
    requires name in Expected(collection, items)
    ensures name == NameIn(collection, path) && exists item :: item in items && item.path == path
  {
    var last := items[|items| - 1];
    if name == NameIn(collection, last.path) {
      path := last.path;
    } else {
      path := ExpectedName(collection, items[..|items| - 1], name);
    }
  }
}
