/** Unpacking an archive into a directory (extract.go), over a filesystem whose
    links are followed by every call. A lexical check of each name, a walk over
    its parents and an unlink before each write together keep everything that
    is written below the destination, and make the result the one a reader
    would expect who knows nothing of links: the last entry of a name wins. */
module Extraction {
  import opened Text
  import opened FileSystem

  datatype Kind = DirEntry | Regular(content: string) | Link(target: string) | Other

  datatype Entry = Entry(name: string, kind: Kind)

  datatype Status = Done | InsecurePath | Failed

  // ----- names -------------------------------------------------------------

  function NonEmpty(parts: seq<string>): seq<string> {
    if parts == [] then [] else (if parts[0] != "" then [parts[0]] else []) + NonEmpty(parts[1..])
  }

  lemma {:induction false} NonEmptySnoc(parts: seq<string>, p: string)
    ensures NonEmpty(parts + [p]) == NonEmpty(parts) + (if p != "" then [p] else [])
    ensures |NonEmpty(parts)| <= |parts|
  {
    if parts == [] {
      assert parts + [p] == [p];
      assert NonEmpty([p]) == (if p != "" then [p] else []) + NonEmpty([]);
    } else {
      assert (parts + [p])[1..] == parts[1..] + [p];
      NonEmptySnoc(parts[1..], p);
    }
  }

  /** The components of a name as `tar --strip-components` counts them: "." is
      one, the empty string is none. Filtered in place. */
  method StripComponents(name: string) returns (parts: seq<string>)
    ensures parts == NonEmpty(Split(name, '/'))
  {
    var all := Split(name, '/');
    var raw := new string[|all|](i requires 0 <= i < |all| => all[i]);
    var k, i := 0, 0;
    while i < raw.Length
      invariant 0 <= k <= i <= raw.Length == |all|
      invariant raw[..k] == NonEmpty(all[..i])
      invariant forall j :: i <= j < raw.Length ==> raw[j] == all[j]
    {
      assert all[..i + 1] == all[..i] + [all[i]];
      NonEmptySnoc(all[..i], all[i]);
      if raw[i] != "" {
        raw[k] := raw[i];
        k := k + 1;
      }
      i := i + 1;
    }
    assert all[..i] == all;
    parts := raw[..k];
  }

  /** A relative name once cleaned: how far it climbs, and then what it names. */
  datatype Relative = Relative(ups: nat, names: seq<string>)

  function Clean(parts: seq<string>): Relative {
    if parts == [] then Relative(0, [])
    else
      var r := Clean(parts[..|parts| - 1]);
      var p := parts[|parts| - 1];
      if p == "." then r
      else if p != ".." then r.(names := r.names + [p])
      else if r.names != [] then r.(names := r.names[..|r.names| - 1])
      else r.(ups := r.ups + 1)
  }

  function Up(p: Path, ups: nat): Path { if ups <= |p| then p[..|p| - ups] else [] }

  datatype Target = Insecure | Skip | At(path: Path)

  /** Where an entry's name leads, or why it leads nowhere. */
  function SafeTarget(dest: Path, name: string, strip: nat): Target {
    if IsAbs(name) then Insecure
    else
      var parts := NonEmpty(Split(name, '/'));
      if |parts| <= strip then Skip
      else
        var rel := Clean(parts[strip..]);
        if rel == Relative(0, []) then Skip
        else
          var target := Up(dest, rel.ups) + rel.names;
          if dest <= target then At(target) else Insecure
  }

  /** A path as a string. */
  function Render(p: Path): string { if p == [] then "" else "/" + p[0] + Render(p[1..]) }

  /** The containment test on strings is the one on components: with the
      separator appended, a prefix of the text is a prefix of the path. */
  lemma {:induction false} PrefixTest(dest: Path, target: Path)
    requires forall i :: 0 <= i < |dest| ==> '/' !in dest[i]
    requires forall i :: 0 <= i < |target| ==> '/' !in target[i]
    ensures HasPrefix(Render(target) + "/", Render(dest) + "/") <==> dest <= target
  {
    var s, p := Render(target) + "/", Render(dest) + "/";
    if dest == [] {
      assert s[0] == '/' && s[..1] == "/";
    } else if target == [] {
      assert |p| > 1;
    } else {
      var a, b := dest[0], target[0];
      var s', p' := Render(target[1..]) + "/", Render(dest[1..]) + "/";
      assert s == "/" + b + s' && p == "/" + a + p';
      assert s'[0] == '/' && p'[0] == '/';
      PrefixTest(dest[1..], target[1..]);
      HeadPrefix(a, p', b, s');
      assert dest <= target <==> a == b && dest[1..] <= target[1..] by {
        assert dest == [a] + dest[1..] && target == [b] + target[1..];
        if a == b && dest[1..] <= target[1..] { assert target == dest + target[|dest|..]; }
      }
    }
  }

  lemma HeadPrefix(a: string, p: string, b: string, s: string)
    requires '/' !in a && '/' !in b && p != "" && s != "" && p[0] == '/' && s[0] == '/'
    ensures HasPrefix("/" + b + s, "/" + a + p) <==> a == b && HasPrefix(s, p)
  {
    hide *;
    var x, y := "/" + b + s, "/" + a + p;
    PrefixIs(x, y);
    PrefixIs(s, p);
    if HasPrefix(x, y) {
      HeadsAgree(a, p, b, s);
    }
    if a == b && HasPrefix(s, p) {
      assert x == y + s[|p|..];
    }
  }

  lemma PrefixIs(s: string, p: string)
    ensures HasPrefix(s, p) <==> p <= s
    ensures p <= s ==> s == p + s[|p|..]
  {
  }

  /** The first separator after the head ends it on both sides. */
  lemma HeadsAgree(a: string, p: string, b: string, s: string)
    requires '/' !in a && '/' !in b && p != "" && s != "" && p[0] == '/' && s[0] == '/'
    requires "/" + a + p <= "/" + b + s
    ensures a == b && p <= s
  {
    var x, y := "/" + b + s, "/" + a + p;
    assert |a| == |b| by {
      assert forall i :: 0 <= i < |a| ==> y[1 + i] == a[i] != '/';
      assert forall i :: 0 <= i < |b| ==> x[1 + i] == b[i] != '/';
      assert y[1 + |a|] == '/' && x[1 + |b|] == '/';
    }
    assert a == y[1..1 + |a|] == x[1..1 + |a|] == b;
    assert p == y[1 + |a|..] && s == x[1 + |b|..];
  }

  // ----- what the names guarantee ------------------------------------------------

  lemma {:induction false} NonEmptyParts(parts: seq<string>)
    ensures forall p :: p in NonEmpty(parts) ==> p != "" && p in parts
  {
    if parts == [] {
    } else {
      NonEmptyParts(parts[1..]);
    }
  }

  lemma {:induction false} CleanNames(parts: seq<string>)
    requires forall p :: p in parts ==> p != "" && '/' !in p
    ensures ProperPath(Clean(parts).names)
    ensures ".." !in parts ==> Clean(parts).ups == 0
  {
    hide ProperPath, Clean;
    CleanStep(parts);
    if parts == [] {
      NoNames();
    } else {
      var front, last := parts[..|parts| - 1], parts[|parts| - 1];
      assert last in parts && forall p :: p in front ==> p in parts;
      CleanNames(front);
      var names := Clean(front).names;
      ProperSnoc(names, last);
      if names != [] { ProperFront(names); }
    }
  }

  lemma NoNames()
    ensures ProperPath([])
  {
  }

  lemma ProperSnoc(p: Path, c: string)
    requires ProperPath(p)
    ensures ProperName(c) ==> ProperPath(p + [c])
  {
    hide ProperName;
  }

  lemma CleanStep(parts: seq<string>)
    ensures parts == [] ==> Clean(parts) == Relative(0, [])
    ensures parts != [] ==>
      var r, p := Clean(parts[..|parts| - 1]), parts[|parts| - 1];
      Clean(parts) ==
        if p == "." then r
        else if p != ".." then r.(names := r.names + [p])
        else if r.names != [] then r.(names := r.names[..|r.names| - 1])
        else r.(ups := r.ups + 1)
  {
  }

  /** Every accepted target is a proper path at or below the destination, and
      strictly below it unless the name climbs out and back in. */
  lemma TargetProper(dest: Path, name: string, strip: nat)
    requires ProperPath(dest) && SafeTarget(dest, name, strip).At?
    ensures ProperPath(SafeTarget(dest, name, strip).path)
    ensures dest <= SafeTarget(dest, name, strip).path
    ensures ".." !in Split(name, '/') ==> dest < SafeTarget(dest, name, strip).path
  {
    var all := Split(name, '/');
    var parts := NonEmpty(all);
    SplitPieces(name, '/');
    NonEmptyParts(all);
    assert forall p :: p in parts[strip..] ==> p in parts;
    CleanNames(parts[strip..]);
  }

  // ----- the walk over the parents -----------------------------------------------

  /** The locations looked at for a target: its prefixes below the destination,
      without itself. (A target equal to the destination is taken apart from
      the root, as its text does not start with the destination's.) */
  function Spine(dest: Path, target: Path): seq<Path> {
    if dest < target then
      seq(|target| - |dest| - 1, i requires 0 <= i < |target| - |dest| - 1 => target[..|dest| + 1 + i])
    else
      [dest] + seq(if target == [] then 0 else |target| - 1, i requires 0 <= i < |target| - 1 => dest + target[..i + 1])
  }

  /** No location on the spine is a link; one that is not there yet ends it. */
  function SpineSafe(t: Tree, spine: seq<Path>): bool {
    if spine == [] then true
    else match Lstat(t, spine[0])
         case Missing => true
         case Is(n) => !n.Symlink? && SpineSafe(t, spine[1..])
  }

  method SafeParents(fs: Mount, dest: Path, target: Path) returns (safe: bool)
    ensures safe == SpineSafe(fs.tree, Spine(dest, target))
  {
    hide Lstat, Spine;
    var spine := Spine(dest, target);
    var i := 0;
    assert spine[0..] == spine;
    while i < |spine|
      invariant 0 <= i <= |spine|
      invariant SpineSafe(fs.tree, spine) == SpineSafe(fs.tree, spine[i..])
    {
      var found := Lstat(fs.tree, spine[i]);
      if found.Missing? { return true; }
      if found.node.Symlink? { return false; }
      assert spine[i..][1..] == spine[i + 1..];
      i := i + 1;
    }
    return true;
  }

  // ----- one entry, and all of them ----------------------------------------------

  /** What one entry at an accepted target does. */
  function Place(t: Tree, dest: Path, target: Path, kind: Kind): (Tree, Status) {
    if kind.Other? then (t, Done)
    else if !SpineSafe(t, Spine(dest, target)) then (t, InsecurePath)
    else
      var (t1, ok) := MkdirAll(t, if kind.DirEntry? then target else Parent(target));
      if !ok then (t1, Failed)
      else
        match kind
        case DirEntry => (t1, Done)
        case Other => (t1, Done)
        case Link(to) =>
          var t2 := Remove(t1, target).0;
          var (t3, made) := Create(t2, target, Node.Symlink(to));
          (t3, if made then Done else Failed)
        case Regular(content) =>
          var t2 := if IsSymlink(Lstat(t1, target)) then Remove(t1, target).0 else t1;
          var (t3, written) := WriteFile(t2, target, content);
          (t3, if written then Done else Failed)
  }

  predicate IsSymlink(f: Found) { f.Is? && f.node.Symlink? }

  function ExtractEntry(t: Tree, dest: Path, strip: nat, e: Entry): (Tree, Status) {
    match SafeTarget(dest, e.name, strip)
    case Insecure => (t, InsecurePath)
    case Skip => (t, Done)
    case At(target) => Place(t, dest, target, e.kind)
  }

  /** The whole archive, up to the first entry that is refused or fails. */
  function ExtractAll(t: Tree, dest: Path, strip: nat, entries: seq<Entry>): (Tree, Status)
    decreases |entries|
  {
    if entries == [] then (t, Done)
    else
      var r := ExtractEntry(t, dest, strip, entries[0]);
      if r.1 != Done then r else ExtractAll(r.0, dest, strip, entries[1..])
  }

  method FindTarget(dest: Path, name: string, strip: nat) returns (target: Target)
    ensures target == SafeTarget(dest, name, strip)
  {
    if IsAbs(name) { return Insecure; }
    var parts := StripComponents(name);
    if |parts| <= strip { return Skip; }
    var rel := Clean(parts[strip..]);
    if rel == Relative(0, []) { return Skip; }
    var path := Up(dest, rel.ups) + rel.names;
    return if dest <= path then At(path) else Insecure;
  }

  method PlaceEntry(fs: Mount, dest: Path, target: Path, kind: Kind) returns (status: Status)
    modifies fs
    ensures (fs.tree, status) == Place(old(fs.tree), dest, target, kind)
  {
    hide SpineSafe, Spine, MkdirAll, Remove, Create, WriteFile, Lstat;
    if kind.Other? { return Done; }
    var safe := SafeParents(fs, dest, target);
    if !safe { return InsecurePath; }
    var ok := fs.MakeAll(if kind.DirEntry? then target else Parent(target));
    if !ok { return Failed; }
    match kind
    case DirEntry => return Done;
    case Other => return Done;
    case Link(to) =>
      var _ := fs.RemoveNode(target);
      ok := fs.Symlink(to, target);
      return if ok then Done else Failed;
    case Regular(content) =>
      if IsSymlink(Lstat(fs.tree, target)) { var _ := fs.RemoveNode(target); }
      ok := fs.Write(target, content);
      return if ok then Done else Failed;
  }

  /** Unpacks every entry into `dest`, dropping `strip` leading components. */
  method Extract(fs: Mount, entries: seq<Entry>, dest: Path, strip: nat) returns (status: Status)
    modifies fs
    ensures (fs.tree, status) == ExtractAll(old(fs.tree), dest, strip, entries)
  {
    hide SafeTarget, Place;
    ghost var whole := ExtractAll(fs.tree, dest, strip, entries);
    var i := 0;
    assert entries[0..] == entries;
    while i < |entries|
      invariant 0 <= i <= |entries|
      invariant ExtractAll(fs.tree, dest, strip, entries[i..]) == whole
    {
      assert entries[i..][0] == entries[i] && entries[i..][1..] == entries[i + 1..];
      var target := FindTarget(dest, entries[i].name, strip);
      if target.Insecure? { return InsecurePath; }
      if target.At? {
        status := PlaceEntry(fs, dest, target.path, entries[i].kind);
        if status != Done { return; }
      }
      i := i + 1;
    }
    return Done;
  }

  // ----- the destination stays real ----------------------------------------------

  /** The destination is a directory reached through no link. */
  ghost predicate Ready(t: Tree, dest: Path) {
    Rooted(t) && dest != [] && ProperPath(dest) && RealDir(t, dest)
  }

  /** Nothing that is not strictly below `dest` differs. */
  ghost predicate SameOutside(t: Tree, t': Tree, dest: Path) {
    forall p :: !(dest < p) ==> (p in t <==> p in t') && (p in t ==> t[p] == t'[p])
  }

  /** The tree with the missing directories of `p` added. */
  function WithDirs(t: Tree, p: Path): Tree {
    t + (map q | q in Prefixes(p) && q !in t :: Dir)
  }

  function Prefixes(p: Path): set<Path> { set k | 0 < k <= |p| :: p[..k] }

  /** Only directories among the prefixes of `p` below `base` were added. */
  ghost predicate Grown(t: Tree, t': Tree, base: Path, p: Path) {
    && (forall q :: q in t ==> q in t' && t'[q] == t[q])
    && (forall q :: q in t' && q !in t ==> t'[q] == Dir && base < q && q <= p)
  }

  lemma GrownKeeps(t: Tree, t': Tree, base: Path, p: Path)
    requires Grown(t, t', base, p)
    ensures forall q :: IsDir(t, q) ==> IsDir(t', q)
    ensures forall q :: IsLink(t', q) ==> IsLink(t, q)
    ensures SameOutside(t, t', base)
  {
  }

  lemma PrefixSlice(p: Path, k: nat)
    requires k <= |p|
    ensures forall j :: 0 <= j <= k ==> p[..k][..j] == p[..j]
    ensures p[..k] <= p
  {
  }

  lemma RealDirPrefix(t: Tree, p: Path, k: nat)
    requires RealDir(t, p) && k <= |p|
    ensures RealDir(t, p[..k])
  {
    hide IsDir;
    PrefixSlice(p, k);
  }

  lemma RealDirGrows(t: Tree, p: Path)
    requires p != [] && RealDir(t, p[..|p| - 1]) && IsDir(t, p)
    ensures RealDir(t, p)
  {
    hide IsDir;
    PrefixSlice(p, |p| - 1);
    forall k | 0 <= k <= |p| ensures IsDir(t, p[..k]) {
      if k < |p| { assert IsDir(t, p[..|p| - 1][..k]); } else { assert p[..k] == p; }
    }
  }

  lemma LinkFreePrefix(t: Tree, p: Path, k: nat)
    requires LinkFree(t, p) && k <= |p|
    ensures LinkFree(t, p[..k])
  {
    hide IsLink;
    PrefixSlice(p, k);
  }

  lemma WithDirsReal(t: Tree, p: Path)
    requires RealDir(t, p)
    ensures WithDirs(t, p) == t
  {
    forall q | q in Prefixes(p) ensures q in t {
      var k :| 0 < k <= |p| && q == p[..k];
      assert IsDir(t, p[..k]);
    }
  }

  lemma WithDirsStep(t: Tree, p: Path)
    requires p != [] && p !in t
    ensures WithDirs(t, p) == WithDirs(t, p[..|p| - 1])[p := Dir]
  {
    hide Prefixes;
    PrefixesStep(p);
  }

  lemma PrefixesStep(p: Path)
    requires p != []
    ensures Prefixes(p) == Prefixes(p[..|p| - 1]) + {p}
  {
    var up := p[..|p| - 1];
    PrefixSlice(p, |p| - 1);
    assert p[..|p|] == p;
    forall q | q in Prefixes(p) ensures q in Prefixes(up) + {p} {
      var k :| 0 < k <= |p| && q == p[..k];
      assert k < |p| ==> up[..k] == q;
    }
    forall q | q in Prefixes(up) ensures q in Prefixes(p) {
      var k :| 0 < k <= |up| && q == up[..k];
      assert p[..k] == q;
    }
  }

  lemma AddedDirRooted(t: Tree, p: Path, n: Node)
    requires Rooted(t) && p != [] && IsDir(t, Parent(p)) && (p in t ==> t[p] != Dir)
    ensures Rooted(t[p := n])
  {
    forall q | q in t[p := n] ensures IsDir(t[p := n], Parent(q)) {
      if q != p { assert IsDir(t, Parent(q)); }
    }
  }

  /** A call on a location whose proper prefixes are real directories acts at
      that very location. */
  lemma CreateHere(t: Tree, p: Path, n: Node)
    requires p != [] && ProperPath(p) && RealDir(t, p[..|p| - 1])
    ensures Create(t, p, n) == if p in t then (t, false) else (t[p := n], true)
    ensures Lstat(t, p) == if p in t then Is(t[p]) else Missing
    ensures !IsLink(t, p) ==> Stat(t, p) == Lstat(t, p)
  {
    hide Resolve, IsDir, ProperName;
    RealDirLinkFree(t, p[..|p| - 1]);
    LocatesItself(t, p);
  }

  lemma MkdirAllUnfolds(t: Tree, p: Path)
    requires |p| > 1
    ensures Stat(t, p).Is? ==> MkdirAll(t, p) == (t, Stat(t, p).node == Dir)
    ensures Stat(t, p).Missing? ==>
      var (t1, ok) := MkdirAll(t, p[..|p| - 1]);
      var (t2, made) := Create(t1, p, Dir);
      MkdirAll(t, p) == if !ok then (t1, false) else if made then (t2, true) else (t1, Lstat(t1, p) == Is(Dir))
  {
    hide Stat, Lstat, Create;
  }

  lemma GrownSelf(t: Tree, base: Path, p: Path)
    ensures Grown(t, t, base, p)
  {
  }

  lemma MkdirAllThere(t: Tree, p: Path)
    requires p != [] && ProperPath(p) && RealDir(t, p)
    ensures MkdirAll(t, p) == (t, true)
  {
    RealDirPrefix(t, p, |p| - 1);
    assert p[..|p|] == p;
    assert IsDir(t, p[..|p|]);
    CreateHere(t, p, Dir);
    hide Stat, Lstat, Create;
  }

  /** `MkdirAll` where no link stands in the way: it adds missing directories
      on the path, and on success all of them. */
  lemma {:induction false} MkdirAllEffect(t: Tree, base: Path, p: Path)
    requires Rooted(t) && base != [] && base <= p && ProperPath(p)
    requires RealDir(t, base) && LinkFree(t, p)
    ensures var r := MkdirAll(t, p);
      && Rooted(r.0) && Grown(t, r.0, base, p)
      && (r.1 ==> r.0 == WithDirs(t, p) && RealDir(r.0, p))
    decreases |p|
  {
    hide *;
    if p == base {
      MkdirAllThere(t, p);
      WithDirsReal(t, p);
      GrownSelf(t, base, p);
    } else {
      var up := p[..|p| - 1];
      ProperFront(p);
      LinkFreePrefix(t, p, |p| - 1);
      assert base <= up;
      MkdirAllUnfolds(t, p);
      LooksMissing(t, p);
      if p in t {
        MkdirAllOnto(t, base, p);
      } else {
        MkdirAllEffect(t, base, up);
        var (t1, ok) := MkdirAll(t, up);
        GrownLonger(t, t1, base, p);
        if ok { MkdirAllLast(t, t1, base, p); }
      }
    }
  }

  lemma ProperFront(p: Path)
    requires ProperPath(p) && p != []
    ensures ProperPath(p[..|p| - 1])
  {
    hide ProperName;
  }

  /** A path free of links whose node is missing is not there for `Stat`. */
  lemma LooksMissing(t: Tree, p: Path)
    requires Rooted(t) && p != [] && ProperPath(p) && LinkFree(t, p)
    ensures p !in t ==> Stat(t, p) == Missing
  {
    hide Resolve, ProperName;
    LinkFreePrefix(t, p, |p| - 1);
    LocatesItself(t, p);
  }

  lemma MkdirAllOnto(t: Tree, base: Path, p: Path)
    requires Rooted(t) && |p| > 1 && ProperPath(p) && LinkFree(t, p) && p in t
    ensures MkdirAll(t, p) == (t, t[p] == Dir)
    ensures Grown(t, t, base, p)
    ensures t[p] == Dir ==> RealDir(t, p) && t == WithDirs(t, p)
  {
    AboveIsReal(t, p);
    assert p[..|p|] == p;
    CreateHere(t, p, Dir);
    MkdirAllUnfolds(t, p);
    hide MkdirAll, Stat, Lstat, Create;
    if t[p] == Dir {
      RealDirGrows(t, p);
      WithDirsReal(t, p);
    }
  }

  lemma GrownLonger(t: Tree, t1: Tree, base: Path, p: Path)
    requires p != [] && Grown(t, t1, base, p[..|p| - 1])
    ensures Grown(t, t1, base, p)
    ensures p !in t ==> p !in t1
  {
    PrefixSlice(p, |p| - 1);
    forall q | q in t1 && q !in t ensures q <= p && q != p { assert q <= p[..|p| - 1]; }
  }

  lemma MkdirAllLast(t: Tree, t1: Tree, base: Path, p: Path)
    requires base != [] && base < p && ProperPath(p) && p !in t && p !in t1
    requires Rooted(t1) && Grown(t, t1, base, p)
    requires t1 == WithDirs(t, p[..|p| - 1]) && RealDir(t1, p[..|p| - 1])
    ensures Create(t1, p, Dir) == (t1[p := Dir], true)
    ensures Rooted(t1[p := Dir]) && Grown(t, t1[p := Dir], base, p)
    ensures t1[p := Dir] == WithDirs(t, p) && RealDir(t1[p := Dir], p)
  {
    hide *;
    var up := p[..|p| - 1];
    assert up[..|up|] == up && Parent(p) == up by { ParentIs(p); }
    RealDirSelf(t1, up);
    CreateHere(t1, p, Dir);
    WithDirsStep(t, p);
    AddedDirRooted(t1, p, Dir);
    GrownByOne(t, t1, base, p);
    RealDirAdded(t1, p);
  }

  lemma ParentIs(p: Path)
    requires p != []
    ensures Parent(p) == p[..|p| - 1] && p[..|p| - 1][..|p| - 1] == p[..|p| - 1]
  {
  }

  lemma RealDirSelf(t: Tree, p: Path)
    requires RealDir(t, p)
    ensures IsDir(t, p)
  {
    hide IsDir;
    assert p[..|p|] == p;
  }

  lemma GrownByOne(t: Tree, t1: Tree, base: Path, p: Path)
    requires Grown(t, t1, base, p) && base < p && p !in t && p !in t1
    ensures Grown(t, t1[p := Dir], base, p)
  {
  }

  lemma RealDirAdded(t: Tree, p: Path)
    requires p != [] && RealDir(t, p[..|p| - 1])
    ensures RealDir(t[p := Dir], p)
  {
    var up := p[..|p| - 1];
    PrefixSlice(p, |p| - 1);
    forall k | 0 <= k <= |p| ensures IsDir(t[p := Dir], p[..k]) {
      if k == |p| { assert p[..k] == p; } else { assert IsDir(t, up[..k]); }
    }
  }

  /** `MkdirAll` on a name that is itself a link changes nothing, whatever the
      link leads to. */
  lemma MkdirAllAtLink(t: Tree, p: Path)
    requires Rooted(t) && |p| > 1 && ProperPath(p) && IsLink(t, p)
    ensures MkdirAll(t, p).0 == t
    ensures WithDirs(t, p) == t
  {
    AboveIsReal(t, p);
    ProperFront(p);
    MkdirAllThere(t, p[..|p| - 1]);
    CreateHere(t, p, Dir);
    MkdirAllUnfolds(t, p);
    PrefixSlice(p, |p| - 1);
    forall q | q in Prefixes(p) ensures q in t {
      var k :| 0 < k <= |p| && q == p[..k];
      if k < |p| { assert IsDir(t, p[..|p| - 1][..k]); } else { assert p[..k] == p; }
    }
  }

  // ----- the spine --------------------------------------------------------------

  lemma {:induction false} SpineFrom(t: Tree, target: Path, spine: seq<Path>, k: nat)
    requires Rooted(t) && ProperPath(target) && 0 < k <= |target| && |spine| == |target| - k
    requires forall i :: 0 <= i < |spine| ==> spine[i] == target[..k + i]
    requires LinkFree(t, target[..k - 1])
    ensures SpineSafe(t, spine) <==> forall j :: k <= j < |target| ==> !IsLink(t, target[..j])
    decreases |spine|
  {
    hide *;
    if k < |target| {
      var p := target[..k];
      assert p[..k - 1] == target[..k - 1];
      ProperSlice(target, k);
      LstatOnSpine(t, p);
      SpineStep(t, spine);
      if p !in t {
        NoLinksPast(t, target, k);
      } else {
        LinkAt(t, p);
        if !IsLink(t, p) {
          LinkFreeGrows(t, p);
          SpineFrom(t, target, spine[1..], k + 1);
        }
      }
    } else {
      SpineStep(t, spine);
    }
  }

  lemma ProperSlice(p: Path, k: nat)
    requires ProperPath(p) && k <= |p|
    ensures ProperPath(p[..k])
  {
    hide ProperName;
  }

  lemma SpineStep(t: Tree, spine: seq<Path>)
    ensures spine == [] ==> SpineSafe(t, spine)
    ensures spine != [] && Lstat(t, spine[0]).Missing? ==> SpineSafe(t, spine)
    ensures spine != [] && Lstat(t, spine[0]).Is? ==>
      SpineSafe(t, spine) == (!Lstat(t, spine[0]).node.Symlink? && SpineSafe(t, spine[1..]))
  {
    hide Lstat;
  }

  lemma LinkAt(t: Tree, p: Path)
    ensures p != [] && p in t ==> (IsLink(t, p) <==> t[p].Symlink?)
  {
  }

  /** Past a location that is not there, there is nothing. */
  lemma NoLinksPast(t: Tree, target: Path, k: nat)
    requires Rooted(t) && 0 < k < |target| && target[..k] !in t
    ensures forall j :: k <= j < |target| ==> !IsLink(t, target[..j])
  {
    hide Rooted;
    forall j | k <= j < |target| ensures !IsLink(t, target[..j]) {
      assert target[..j][..k] == target[..k];
      if target[..j] in t { MissingAbove(t, target[..j], k); }
    }
  }

  lemma LinkFreeGrows(t: Tree, p: Path)
    requires p != [] && LinkFree(t, p[..|p| - 1]) && !IsLink(t, p)
    ensures LinkFree(t, p)
  {
    hide IsLink;
    PrefixSlice(p, |p| - 1);
    forall k | 0 < k <= |p| ensures !IsLink(t, p[..k]) {
      if k < |p| { assert !IsLink(t, p[..|p| - 1][..k]); } else { assert p[..k] == p; }
    }
  }

  lemma LstatOnSpine(t: Tree, p: Path)
    requires Rooted(t) && p != [] && ProperPath(p) && LinkFree(t, p[..|p| - 1])
    ensures Lstat(t, p) == if p in t then Is(t[p]) else Missing
  {
    LocatesItself(t, p);
    if p in t { AboveIsReal(t, p); }
    hide Resolve, ProperName;
  }

  lemma MissingAbove(t: Tree, p: Path, k: nat)
    requires Rooted(t) && p in t && 0 < k <= |p|
    ensures p[..k] in t
  {
    AboveIsReal(t, p);
    if k < |p| {
      assert p[..|p| - 1][..k] == p[..k];
      assert IsDir(t, p[..|p| - 1][..k]);
    } else {
      assert p[..k] == p;
    }
  }

  /** The walk over the parents accepts exactly the targets with no link above. */
  lemma SpineMeans(t: Tree, dest: Path, target: Path)
    requires Ready(t, dest) && dest < target && ProperPath(target)
    ensures SpineSafe(t, Spine(dest, target)) <==> LinkFree(t, target[..|target| - 1])
  {
    hide SpineSafe, IsLink, ProperName, IsDir;
    RealDirLinkFree(t, dest);
    var k := |dest| + 1;
    assert target[..k - 1] == dest;
    SpineFrom(t, target, Spine(dest, target), k);
    PrefixSlice(target, |target| - 1);
    var up := target[..|target| - 1];
    if forall j :: k <= j < |target| ==> !IsLink(t, target[..j]) {
      forall j | 0 < j <= |up| ensures !IsLink(t, up[..j]) {
        if j < k { assert dest[..j] == up[..j]; } else { assert target[..j] == up[..j]; }
      }
    }
    if LinkFree(t, up) {
      forall j | k <= j < |target| ensures !IsLink(t, target[..j]) { assert up[..j] == target[..j]; }
    }
  }

  // ----- one entry --------------------------------------------------------------

  /** What a reader expects of an entry who thinks of names only. */
  function Overlay(t: Tree, target: Path, kind: Kind): Tree {
    match kind
    case DirEntry => WithDirs(t, target)
    case Regular(content) => WithDirs(t, Parent(target))[target := File(content)]
    case Link(to) => WithDirs(t, Parent(target))[target := Node.Symlink(to)]
    case Other => t
  }

  lemma RemoveHere(t: Tree, p: Path)
    requires Rooted(t) && p != [] && ProperPath(p) && RealDir(t, p[..|p| - 1])
    ensures Remove(t, p).0 == t || (Remove(t, p).0 == t - {p} && p in t)
    ensures IsLink(t, p) ==> Remove(t, p).0 == t - {p}
    ensures Rooted(Remove(t, p).0) && RealDir(Remove(t, p).0, p[..|p| - 1])
  {
    RealDirLinkFree(t, p[..|p| - 1]);
    LocatesItself(t, p);
    hide Resolve, ProperName;
    var t' := Remove(t, p).0;
    if t' != t {
      forall q | q in t' ensures IsDir(t', Parent(q)) {
        assert IsDir(t, Parent(q));
        assert Parent(q) != p by { NotBelow(t, p, q); }
      }
      var up := p[..|p| - 1];
      forall k | 0 <= k <= |up| ensures IsDir(t', up[..k]) { assert IsDir(t, up[..k]); }
    }
  }

  lemma NotBelow(t: Tree, p: Path, q: Path)
    requires p != [] && q in t && (p !in t || t[p] != Dir || Below(t, p) == {})
    requires q != [] && IsDir(t, Parent(q))
    ensures Parent(q) != p
  {
    assert Parent(q) == p ==> p < q;
    assert p < q ==> q in Below(t, p);
  }

  lemma WriteHere(t: Tree, p: Path, content: string)
    requires p != [] && ProperPath(p) && RealDir(t, p[..|p| - 1]) && !IsLink(t, p)
    ensures WriteFile(t, p, content) == if IsDir(t, p) then (t, false) else (t[p := File(content)], true)
  {
    RealDirLinkFree(t, p[..|p| - 1]);
    LocatesItself(t, p);
    hide Resolve, ProperName;
  }

  lemma ReadyKept(t: Tree, t': Tree, dest: Path)
    requires Ready(t, dest) && Rooted(t') && SameOutside(t, t', dest)
    ensures Ready(t', dest)
  {
    hide Rooted, ProperName;
    forall k | 0 <= k <= |dest| ensures IsDir(t', dest[..k]) {
      assert IsDir(t, dest[..k]);
      assert !(dest < dest[..k]);
    }
  }

  lemma OutsideAfter(t: Tree, t1: Tree, t2: Tree, dest: Path, target: Path)
    requires SameOutside(t, t1, dest) && dest < target
    requires forall q :: q != target ==> (q in t1 <==> q in t2) && (q in t1 ==> t1[q] == t2[q])
    ensures SameOutside(t, t2, dest)
  {
  }

  /** Replacing whatever file or link stands at the target. */
  lemma LinkPlaced(t: Tree, target: Path, to: string)
    requires Rooted(t) && target != [] && ProperPath(target) && RealDir(t, target[..|target| - 1])
    ensures var t2 := Remove(t, target).0;
      var (t3, made) := Create(t2, target, Node.Symlink(to));
      && Rooted(t3) && (made ==> t3 == t[target := Node.Symlink(to)])
      && forall q :: q != target ==> (q in t <==> q in t3) && (q in t ==> t[q] == t3[q])
  {
    hide *;
    RemoveHere(t, target);
    var t2 := Remove(t, target).0;
    CreateHere(t2, target, Node.Symlink(to));
    if target !in t2 {
      ParentIs(target);
      RealDirSelf(t2, target[..|target| - 1]);
      AddedDirRooted(t2, target, Node.Symlink(to));
      assert t2[target := Node.Symlink(to)] == t[target := Node.Symlink(to)];
    }
  }

  lemma FilePlaced(t: Tree, target: Path, content: string)
    requires Rooted(t) && target != [] && ProperPath(target) && RealDir(t, target[..|target| - 1])
    ensures var t2 := if IsSymlink(Lstat(t, target)) then Remove(t, target).0 else t;
      var (t3, written) := WriteFile(t2, target, content);
      && Rooted(t3) && (written ==> t3 == t[target := File(content)])
      && forall q :: q != target ==> (q in t <==> q in t3) && (q in t ==> t[q] == t3[q])
  {
    CreateHere(t, target, Dir);
    RemoveHere(t, target);
    assert IsSymlink(Lstat(t, target)) <==> IsLink(t, target);
    var t2 := if IsSymlink(Lstat(t, target)) then Remove(t, target).0 else t;
    WriteHere(t2, target, content);
    hide Remove, Create, Lstat, Stat, ProperPath, WriteFile;
    if !IsDir(t2, target) {
      ParentIs(target);
      RealDirSelf(t2, target[..|target| - 1]);
      AddedDirRooted(t2, target, File(content));
      assert t2[target := File(content)] == t[target := File(content)];
    }
  }

  lemma PlaceUnfolds(t: Tree, dest: Path, target: Path, kind: Kind)
    ensures kind.Other? ==> Place(t, dest, target, kind) == (t, Done)
    ensures !kind.Other? && !SpineSafe(t, Spine(dest, target)) ==> Place(t, dest, target, kind) == (t, InsecurePath)
    ensures !kind.Other? && SpineSafe(t, Spine(dest, target)) ==>
      var (t1, ok) := MkdirAll(t, if kind.DirEntry? then target else Parent(target));
      && (!ok ==> Place(t, dest, target, kind) == (t1, Failed))
      && (ok && kind.DirEntry? ==> Place(t, dest, target, kind) == (t1, Done))
      && (ok && kind.Link? ==>
            var (t3, made) := Create(Remove(t1, target).0, target, Node.Symlink(kind.target));
            Place(t, dest, target, kind) == (t3, if made then Done else Failed))
      && (ok && kind.Regular? ==>
            var t2 := if IsSymlink(Lstat(t1, target)) then Remove(t1, target).0 else t1;
            var (t3, written) := WriteFile(t2, target, kind.content);
            Place(t, dest, target, kind) == (t3, if written then Done else Failed))
  {
    hide SpineSafe, Spine, MkdirAll, Remove, Create, WriteFile, Lstat;
  }

  /** The effect of one entry at a target below the destination. */
  ghost predicate Placed(t: Tree, dest: Path, target: Path, kind: Kind, r: (Tree, Status)) {
    && Rooted(r.0) && SameOutside(t, r.0, dest)
    && (r.1 == Done ==> r.0 == Overlay(t, target, kind))
  }

  lemma PlaceDir(t: Tree, dest: Path, target: Path)
    requires Ready(t, dest) && dest < target && ProperPath(target)
    ensures Placed(t, dest, target, DirEntry, Place(t, dest, target, DirEntry))
  {
    hide *;
    PlaceUnfolds(t, dest, target, DirEntry);
    ReadyMeans(t, dest);
    SameOutsideSelf(t, dest);
    SpineMeans(t, dest, target);
    var r := Place(t, dest, target, DirEntry);
    if LinkFree(t, target[..|target| - 1]) {
      if IsLink(t, target) {
        MkdirAllAtLink(t, target);
      } else {
        LinkFreeGrows(t, target);
        MkdirAllEffect(t, dest, target);
        GrownKeeps(t, r.0, dest, target);
      }
    }
    PlacedIs(t, dest, target, DirEntry, r);
  }

  lemma PlacedIs(t: Tree, dest: Path, target: Path, kind: Kind, r: (Tree, Status))
    requires Rooted(r.0) && SameOutside(t, r.0, dest)
    requires r.1 == Done ==>
      r.0 == match kind
             case DirEntry => WithDirs(t, target)
             case Regular(content) => WithDirs(t, Parent(target))[target := File(content)]
             case Link(to) => WithDirs(t, Parent(target))[target := Node.Symlink(to)]
             case Other => t
    ensures Placed(t, dest, target, kind, r)
  {
  }

  lemma ReadyMeans(t: Tree, dest: Path)
    requires Ready(t, dest)
    ensures Rooted(t) && dest != [] && ProperPath(dest) && RealDir(t, dest)
  {
  }

  lemma SameOutsideSelf(t: Tree, dest: Path)
    ensures SameOutside(t, t, dest)
  {
  }

  /** The parents of a link or a file are made, and stay below the destination. */
  lemma ParentsMade(t: Tree, dest: Path, target: Path)
    requires Ready(t, dest) && dest < target && ProperPath(target) && LinkFree(t, target[..|target| - 1])
    ensures var (t1, ok) := MkdirAll(t, Parent(target));
      && Rooted(t1) && SameOutside(t, t1, dest)
      && (ok ==> t1 == WithDirs(t, Parent(target)) && RealDir(t1, target[..|target| - 1]))
  {
    var up := target[..|target| - 1];
    assert Parent(target) == up && dest <= up;
    hide MkdirAll, ProperName, WithDirs, Rooted;
    ProperFront(target);
    MkdirAllEffect(t, dest, up);
    GrownKeeps(t, MkdirAll(t, up).0, dest, up);
  }

  lemma PlaceLink(t: Tree, dest: Path, target: Path, to: string)
    requires Ready(t, dest) && dest < target && ProperPath(target)
    ensures Placed(t, dest, target, Link(to), Place(t, dest, target, Link(to)))
  {
    hide *;
    PlaceUnfolds(t, dest, target, Link(to));
    ReadyMeans(t, dest);
    SameOutsideSelf(t, dest);
    SpineMeans(t, dest, target);
    var r := Place(t, dest, target, Link(to));
    if LinkFree(t, target[..|target| - 1]) {
      ParentsMade(t, dest, target);
      var (t1, ok) := MkdirAll(t, Parent(target));
      if ok {
        LinkPlaced(t1, target, to);
        OutsideAfter(t, t1, r.0, dest, target);
      }
    }
    PlacedIs(t, dest, target, Link(to), r);
  }

  lemma PlaceFile(t: Tree, dest: Path, target: Path, content: string)
    requires Ready(t, dest) && dest < target && ProperPath(target)
    ensures Placed(t, dest, target, Regular(content), Place(t, dest, target, Regular(content)))
  {
    hide *;
    PlaceUnfolds(t, dest, target, Regular(content));
    ReadyMeans(t, dest);
    SameOutsideSelf(t, dest);
    SpineMeans(t, dest, target);
    var r := Place(t, dest, target, Regular(content));
    if LinkFree(t, target[..|target| - 1]) {
      ParentsMade(t, dest, target);
      var (t1, ok) := MkdirAll(t, Parent(target));
      if ok {
        FilePlaced(t1, target, content);
        OutsideAfter(t, t1, r.0, dest, target);
      }
    }
    PlacedIs(t, dest, target, Regular(content), r);
  }

  lemma PlaceAny(t: Tree, dest: Path, target: Path, kind: Kind)
    requires Ready(t, dest) && dest < target && ProperPath(target)
    ensures Placed(t, dest, target, kind, Place(t, dest, target, kind))
  {
    hide *;
    match kind
    case DirEntry => PlaceDir(t, dest, target);
    case Link(to) => PlaceLink(t, dest, target, to);
    case Regular(content) => PlaceFile(t, dest, target, content);
    case Other =>
      PlaceUnfolds(t, dest, target, Other);
      ReadyMeans(t, dest);
      SameOutsideSelf(t, dest);
      PlacedIs(t, dest, target, Other, Place(t, dest, target, Other));
  }
}
