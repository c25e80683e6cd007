/** Archive names as POSIX paths: the parts of a name, and the canonical spelling of parts. */
module BundlePaths {
  /** A path below some directory, as its parts. */
  type Path = seq<string>

  predicate Plain(part: string) { part != "" && part != "." && '/' !in part }

  predicate AllPlain(p: Path) { forall part :: part in p ==> Plain(part) }

  /** Position of the first slash, or the length. */
  function Slash(s: string): (i: nat)
    ensures i <= |s| && '/' !in s[..i] && (i < |s| ==> s[i] == '/')
  {
    if s == "" || s[0] == '/' then 0 else 1 + Slash(s[1..])
  }

  /** The parts of a name: the segments between slashes, empty and "." segments dropped. */
  function Parts(name: string): (p: Path)
    ensures AllPlain(p)
    decreases |name|
  {
    var i := Slash(name);
    (if Plain(name[..i]) then [name[..i]] else [])
    + if i < |name| then Parts(name[i + 1..]) else []
  }

  function Join(p: Path): string {
    if p == [] then "" else if |p| == 1 then p[0] else p[0] + "/" + Join(p[1..])
  }

  predicate Absolute(name: string) { name != "" && name[0] == '/' }

  predicate SafeParts(p: Path) { p != [] && ".." !in p }

  predicate SafeRelative(name: string) { SafeParts(Parts(name)) && !Absolute(name) }

  lemma SlashAfter(part: string, rest: string)
    requires '/' !in part
    ensures Slash(part) == |part| && Slash(part + "/" + rest) == |part|
  {
    if part == "" {
      assert ("" + "/" + rest)[0] == '/';
    } else {
      SlashAfter(part[1..], rest);
      assert (part + "/" + rest)[1..] == part[1..] + "/" + rest;
    }
  }

  /** Spelling parts out and reading them back gives the same parts. */
  lemma {:induction false} PartsOfJoin(p: Path)
    requires AllPlain(p)
    ensures Parts(Join(p)) == p
    decreases |p|
  {
    if p == [] {
      assert Parts("") == [];
    } else if |p| == 1 {
      assert p[0] in p;
      SlashAfter(p[0], "");
      assert p[0][..|p[0]|] == p[0];
    } else {
      var rest := Join(p[1..]);
      assert p[0] in p;
      SlashAfter(p[0], rest);
      PartsOfJoin(p[1..]);
      var whole := p[0] + "/" + rest;
      assert whole[..|p[0]|] == p[0] && whole[|p[0]| + 1..] == rest;
    }
  }

  /** Different parts never share a spelling. */
  lemma JoinIsInjective(p: Path, q: Path)
    requires AllPlain(p) && AllPlain(q) && Join(p) == Join(q)
    ensures p == q
  {
    PartsOfJoin(p);
    PartsOfJoin(q);
  }

  lemma JoinUnder(root: string, p: Path)
    requires p != []
    ensures Join([root] + p) == root + "/" + Join(p)
  {
    assert ([root] + p)[1..] == p;
  }

  lemma {:induction false} JoinIsRelative(p: Path)
    requires AllPlain(p) && p != []
    ensures !Absolute(Join(p)) && Join(p) != ""
  {
    assert p[0] in p;
  }
}
