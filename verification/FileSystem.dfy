/** A filesystem with symbolic links, as far as extraction uses it: a tree of
    nodes by resolved location, and the calls that walk and change it. */
module FileSystem {
  import opened Text

  /** A location: the components from the root, [] for the root itself. */
  type Path = seq<string>

  datatype Node = Dir | File(content: string) | Symlink(target: string)

  /** What stands at each location. The root always is a directory. */
  type Tree = map<Path, Node>

  predicate Exists(t: Tree, p: Path) { p == [] || p in t }

  predicate IsDir(t: Tree, p: Path) { p == [] || (p in t && t[p] == Dir) }

  predicate IsLink(t: Tree, p: Path) { p != [] && p in t && t[p].Symlink? }

  function Parent(p: Path): Path { if p == [] then [] else p[..|p| - 1] }

  /** Every node stands in a directory. */
  ghost predicate Rooted(t: Tree) {
    [] !in t && forall p :: p in t ==> IsDir(t, Parent(p))
  }

  predicate ProperName(c: string) { c != "" && c != "." && c != ".." && '/' !in c }

  predicate ProperPath(p: Path) { forall i :: 0 <= i < |p| ==> ProperName(p[i]) }

  // ----- walking ----------------------------------------------------------

  /** The kernel's bound on links followed in one walk. */
  const MAX_LINKS := 40

  datatype Walk = Arrived(at: Path) | Stuck

  predicate IsAbs(s: string) { HasPrefix(s, "/") }

  /** Walks `rest` from directory `cur`. A link in the middle is followed, one
      at the end only on request; the last component need not exist. */
  function Resolve(t: Tree, cur: Path, rest: seq<string>, follow: bool, links: nat): Walk
    decreases links, |rest|
  {
    if rest == [] then Arrived(cur)
    else if !IsDir(t, cur) then Stuck
    else if rest[0] == "" || rest[0] == "." then Resolve(t, cur, rest[1..], follow, links)
    else if rest[0] == ".." then Resolve(t, Parent(cur), rest[1..], follow, links)
    else
      var next := cur + [rest[0]];
      if IsLink(t, next) && (|rest| > 1 || follow) then
        if links == 0 then Stuck
        else
          var target := t[next].target;
          Resolve(t, if IsAbs(target) then [] else cur, Split(target, '/') + rest[1..], follow, links - 1)
      else Resolve(t, next, rest[1..], follow, links)
  }

  function Locate(t: Tree, p: Path): Walk { Resolve(t, [], p, false, MAX_LINKS) }

  function LocateThrough(t: Tree, p: Path): Walk { Resolve(t, [], p, true, MAX_LINKS) }

  // ----- the calls as functions of the tree ---------------------------------------

  datatype Found = Missing | Is(node: Node)

  function NodeAt(t: Tree, w: Walk): Found {
    if w.Stuck? then Missing
    else if w.at == [] then Is(Dir)
    else if w.at in t then Is(t[w.at])
    else Missing
  }

  function Lstat(t: Tree, p: Path): Found { NodeAt(t, Locate(t, p)) }

  function Stat(t: Tree, p: Path): Found { NodeAt(t, LocateThrough(t, p)) }

  /** Creates a node where none stands. */
  function Create(t: Tree, p: Path, n: Node): (Tree, bool) {
    var w := Locate(t, p);
    if w.Arrived? && !Exists(t, w.at) then (t[w.at := n], true) else (t, false)
  }

  /** What stands below `p`. */
  function Below(t: Tree, p: Path): set<Path> { set q | q in t && p < q }

  /** `os.Remove`: a file, a link, or a directory with nothing in it. */
  function Remove(t: Tree, p: Path): (Tree, bool) {
    var w := Locate(t, p);
    if w.Stuck? || w.at !in t || w.at == [] || (t[w.at] == Dir && Below(t, w.at) != {}) then (t, false)
    else (t - {w.at}, true)
  }

  /** Opens for writing, creating or truncating, and writes: through a link. */
  function WriteFile(t: Tree, p: Path, content: string): (Tree, bool) {
    var w := LocateThrough(t, p);
    if w.Stuck? || IsDir(t, w.at) || IsLink(t, w.at) then (t, false) else (t[w.at := File(content)], true)
  }

  /** `os.MkdirAll`: a link to a directory will do for one. */
  function MkdirAll(t: Tree, p: Path): (Tree, bool)
    decreases |p|
  {
    var there := Stat(t, p);
    if there.Is? then (t, there.node == Dir)
    else
      var (t1, ok) := if |p| > 1 then MkdirAll(t, p[..|p| - 1]) else (t, true);
      if !ok then (t1, false)
      else
        var (t2, made) := Create(t1, p, Dir);
        if made then (t2, true) else (t1, Lstat(t1, p) == Is(Dir))
  }

  // ----- the calls on a mounted tree --------------------------------------------

  class Mount {
    var tree: Tree

    constructor (t: Tree)
      ensures tree == t
    {
      tree := t;
    }

    method Symlink(target: string, p: Path) returns (ok: bool)
      modifies this
      ensures (tree, ok) == Create(old(tree), p, Node.Symlink(target))
    {
      var r := Create(tree, p, Node.Symlink(target));
      tree, ok := r.0, r.1;
    }

    method Mkdir(p: Path) returns (ok: bool)
      modifies this
      ensures (tree, ok) == Create(old(tree), p, Dir)
    {
      var r := Create(tree, p, Dir);
      tree, ok := r.0, r.1;
    }

    method RemoveNode(p: Path) returns (ok: bool)
      modifies this
      ensures (tree, ok) == Remove(old(tree), p)
    {
      var r := Remove(tree, p);
      tree, ok := r.0, r.1;
    }

    method Write(p: Path, content: string) returns (ok: bool)
      modifies this
      ensures (tree, ok) == WriteFile(old(tree), p, content)
    {
      var r := WriteFile(tree, p, content);
      tree, ok := r.0, r.1;
    }

    method MakeAll(p: Path) returns (ok: bool)
      modifies this
      ensures (tree, ok) == MkdirAll(old(tree), p)
      decreases |p|
    {
      hide Stat, Lstat, Create;
      var there := Stat(tree, p);
      if there.Is? { return there.node == Dir; }
      if |p| > 1 {
        ok := MakeAll(p[..|p| - 1]);
        if !ok { return false; }
      }
      CreateFails(tree, p, Dir);
      ok := Mkdir(p);
      if !ok {
        ok := Lstat(tree, p) == Is(Dir);
      }
    }
  }

  lemma CreateFails(t: Tree, p: Path, n: Node)
    ensures !Create(t, p, n).1 ==> Create(t, p, n).0 == t
  {
  }

  // ----- walks without links ---------------------------------------------------

  /** No prefix of `p`, itself included, is a link. */
  ghost predicate LinkFree(t: Tree, p: Path) { forall k :: 0 < k <= |p| ==> !IsLink(t, p[..k]) }

  /** Every prefix of `p`, itself included, is a directory. */
  ghost predicate RealDir(t: Tree, p: Path) { forall k :: 0 <= k <= |p| ==> IsDir(t, p[..k]) }

  lemma RealDirLinkFree(t: Tree, p: Path)
    requires RealDir(t, p)
    ensures LinkFree(t, p)
  {
    forall k | 0 < k <= |p| ensures !IsLink(t, p[..k]) { assert IsDir(t, p[..k]); }
  }

  /** One component of a walk that meets no link. */
  lemma ResolveStep(t: Tree, p: Path, k: nat, follow: bool, links: nat)
    requires k < |p| && ProperName(p[k])
    requires IsDir(t, p[..k])
    requires IsLink(t, p[..k + 1]) ==> k + 1 == |p| && !follow
    ensures Resolve(t, p[..k], p[k..], follow, links) == Resolve(t, p[..k + 1], p[k + 1..], follow, links)
  {
    assert p[..k + 1] == p[..k] + [p[k]];
    assert p[k..][0] == p[k] && p[k..][1..] == p[k + 1..];
  }

  lemma {:induction false} ResolveFrom(t: Tree, p: Path, k: nat, follow: bool, links: nat)
    requires k < |p| && ProperPath(p) && LinkFree(t, p[..|p| - 1])
    requires follow ==> !IsLink(t, p)
    ensures Resolve(t, p[..k], p[k..], follow, links)
      == if (forall i :: k <= i < |p| ==> IsDir(t, p[..i])) then Arrived(p) else Stuck
    decreases |p| - k
  {
    hide Resolve, ProperName;
    if !IsDir(t, p[..k]) {
      ResolveStuck(t, p, k, follow, links);
    } else {
      assert k + 1 < |p| ==> !IsLink(t, p[..k + 1]) by {
        if k + 1 < |p| { assert p[..|p| - 1][..k + 1] == p[..k + 1]; }
      }
      assert p[..|p|] == p;
      ResolveStep(t, p, k, follow, links);
      if k + 1 == |p| {
        ResolveEnd(t, p, follow, links);
        assert p[..k + 1] == p && p[k + 1..] == [];
      } else {
        ResolveFrom(t, p, k + 1, follow, links);
      }
    }
  }

  lemma ResolveStuck(t: Tree, p: Path, k: nat, follow: bool, links: nat)
    requires k < |p| && !IsDir(t, p[..k])
    ensures Resolve(t, p[..k], p[k..], follow, links) == Stuck
  {
  }

  lemma ResolveEnd(t: Tree, p: Path, follow: bool, links: nat)
    ensures Resolve(t, p, [], follow, links) == Arrived(p)
  {
  }

  /** Where no proper prefix is a link, a walk ends at its own name, or nowhere. */
  lemma LocatesItself(t: Tree, p: Path)
    requires p != [] && ProperPath(p) && LinkFree(t, p[..|p| - 1])
    ensures Locate(t, p) == if RealDir(t, p[..|p| - 1]) then Arrived(p) else Stuck
    ensures !IsLink(t, p) ==> LocateThrough(t, p) == if RealDir(t, p[..|p| - 1]) then Arrived(p) else Stuck
  {
    hide Resolve, IsDir, IsLink, ProperName;
    assert p[..0] == [] && p[0..] == p;
    RealDirIs(t, p);
    ResolveFrom(t, p, 0, false, MAX_LINKS);
    if !IsLink(t, p) { ResolveFrom(t, p, 0, true, MAX_LINKS); }
  }

  lemma RealDirIs(t: Tree, p: Path)
    requires p != []
    ensures RealDir(t, p[..|p| - 1]) <==> forall i :: 0 <= i < |p| ==> IsDir(t, p[..i])
  {
    hide IsDir;
    var up := p[..|p| - 1];
    assert forall i :: 0 <= i < |p| ==> up[..i] == p[..i];
    if RealDir(t, up) {
      forall i | 0 <= i < |p| ensures IsDir(t, p[..i]) { assert IsDir(t, up[..i]); }
    }
    if forall i :: 0 <= i < |p| ==> IsDir(t, p[..i]) {
      forall i | 0 <= i <= |up| ensures IsDir(t, up[..i]) { assert IsDir(t, p[..i]); }
    }
  }

  /** In a rooted tree everything above a node is a real directory. */
  lemma {:induction false} AboveIsReal(t: Tree, p: Path)
    requires Rooted(t) && p in t
    ensures p != [] && RealDir(t, p[..|p| - 1])
  {
    var up := p[..|p| - 1];
    assert IsDir(t, up);
    if up == [] {
    } else {
      AboveIsReal(t, up);
    }
    forall k | 0 <= k <= |up| ensures IsDir(t, up[..k]) {
      if k == |up| { assert up[..k] == up; }
      else { assert up[..|up| - 1][..k] == up[..k]; }
    }
  }
}
