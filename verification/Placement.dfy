/** When one entry of an archive is placed (extract.go): what must not stand in
    its way, and what it may replace. */
module Placement {
  import opened Text
  import opened FileSystem
  import opened Extraction

  /** On the way to `p`, itself included, nothing stands but directories. */
  ghost predicate WayFree(t: Tree, p: Path) {
    forall k :: 0 < k <= |p| ==> p[..k] !in t || t[p[..k]] == Dir
  }

  lemma WayFreeUp(t: Tree, p: Path)
    requires p != []
    ensures WayFree(t, p) <==> WayFree(t, p[..|p| - 1]) && (p !in t || t[p] == Dir)
    ensures WayFree(t, p) ==> LinkFree(t, p)
  {
    var up := p[..|p| - 1];
    assert p[..|p|] == p;
    PrefixSlice(p, |p| - 1);
    if WayFree(t, p) {
      forall k | 0 < k <= |up| ensures up[..k] !in t || t[up[..k]] == Dir { assert up[..k] == p[..k]; }
    }
    if WayFree(t, up) && (p !in t || t[p] == Dir) {
      forall k | 0 < k <= |p| ensures p[..k] !in t || t[p[..k]] == Dir {
        if k < |p| { assert up[..k] == p[..k]; }
      }
    }
  }

  lemma RealWayFree(t: Tree, p: Path)
    requires RealDir(t, p)
    ensures WayFree(t, p)
  {
    forall k | 0 < k <= |p| ensures p[..k] !in t || t[p[..k]] == Dir { assert IsDir(t, p[..k]); }
  }

  /** Directories are made exactly where nothing else is in the way. */
  lemma {:induction false} MkdirAllSucceeds(t: Tree, base: Path, p: Path)
    requires Rooted(t) && base != [] && base <= p && ProperPath(p)
    requires RealDir(t, base) && LinkFree(t, p)
    ensures MkdirAll(t, p).1 <==> WayFree(t, p)
    decreases |p|
  {
    hide *;
    if p == base {
      MkdirAllThere(t, p);
      RealWayFree(t, p);
    } else {
      var up := p[..|p| - 1];
      ProperFront(p);
      LinkFreePrefix(t, p, |p| - 1);
      assert base <= up;
      MkdirAllUnfolds(t, p);
      LooksMissing(t, p);
      WayFreeUp(t, p);
      if p in t {
        MkdirAllOnto(t, base, p);
        AboveIsReal(t, p);
        RealWayFree(t, up);
      } else {
        MkdirAllSucceeds(t, base, up);
        MkdirAllEffect(t, base, up);
        var (t1, ok) := MkdirAll(t, up);
        GrownLonger(t, t1, base, p);
        if ok { MkdirAllLast(t, t1, base, p); }
      }
    }
  }

  /** What an entry may take the place of: a directory entry a directory or a
      link to one, a link anything but a directory with something in it, a file
      anything but a directory. */
  ghost predicate Fits(t: Tree, target: Path, kind: Kind) {
    match kind
    case DirEntry => target !in t || t[target] == Dir || (IsLink(t, target) && Stat(t, target) == Is(Dir))
    case Link(_) => target !in t || t[target] != Dir || Below(t, target) == {}
    case Regular(_) => target !in t || t[target] != Dir
    case Other => true
  }

  /** An entry below the destination is placed exactly when it is of a kind that
      is skipped, or nothing but directories stands above its target and it fits
      what stands there; a link above is an insecure path. */
  lemma EntryPlaced(t: Tree, dest: Path, target: Path, kind: Kind)
    requires Ready(t, dest) && dest < target && ProperPath(target)
    ensures
      var status := Place(t, dest, target, kind).1;
      && (status == Done <==> kind.Other? || (WayFree(t, target[..|target| - 1]) && Fits(t, target, kind)))
      && (status == InsecurePath <==> !kind.Other? && !LinkFree(t, target[..|target| - 1]))
  {
    hide *;
    var up := target[..|target| - 1];
    ReadyMeans(t, dest);
    PlaceUnfolds(t, dest, target, kind);
    SpineMeans(t, dest, target);
    ParentIs(target);
    assert dest <= up;
    ProperFront(target);
    WayLinks(t, up);
    if LinkFree(t, up) {
      match kind
      case Other =>
      case DirEntry => DirPlaced(t, dest, target);
      case Link(to) => LinkEntryPlaced(t, dest, target, to);
      case Regular(content) => FileEntryPlaced(t, dest, target, content);
    }
  }

  lemma WayLinks(t: Tree, p: Path)
    ensures WayFree(t, p) ==> LinkFree(t, p)
  {
  }

  lemma DirPlaced(t: Tree, dest: Path, target: Path)
    requires Ready(t, dest) && dest < target && ProperPath(target) && LinkFree(t, target[..|target| - 1])
    ensures MkdirAll(t, target).1 <==> WayFree(t, target[..|target| - 1]) && Fits(t, target, DirEntry)
  {
    hide *;
    var up := target[..|target| - 1];
    ReadyMeans(t, dest);
    WayFreeUp(t, target);
    FitsDir(t, target);
    if IsLink(t, target) {
      LinkedMkdir(t, target);
      LinkIn(t, target);
      AboveIsReal(t, target);
      RealWayFree(t, up);
    } else {
      LinkFreeGrows(t, target);
      MkdirAllSucceeds(t, dest, target);
    }
  }

  lemma LinkIn(t: Tree, p: Path)
    requires IsLink(t, p)
    ensures p in t && p != [] && t[p] != Dir
  {
  }

  lemma FitsDir(t: Tree, target: Path)
    ensures Fits(t, target, DirEntry)
      <==> target !in t || t[target] == Dir || (IsLink(t, target) && Stat(t, target) == Is(Dir))
  {
    hide Stat;
  }

  lemma LinkedMkdir(t: Tree, p: Path)
    requires Rooted(t) && |p| > 1 && ProperPath(p) && IsLink(t, p)
    ensures MkdirAll(t, p).1 <==> Stat(t, p) == Is(Dir)
  {
    AboveIsReal(t, p);
    ProperFront(p);
    MkdirAllThere(t, p[..|p| - 1]);
    CreateHere(t, p, Dir);
    MkdirAllUnfolds(t, p);
    hide MkdirAll, Stat, Lstat, Create;
  }

  /** Making the parents changes nothing at the target or below it. */
  lemma TargetKept(t: Tree, target: Path)
    requires target != []
    ensures
      var t1 := WithDirs(t, target[..|target| - 1]);
      && (target in t1 <==> target in t) && (target in t ==> t1[target] == t[target])
      && Below(t1, target) == Below(t, target)
  {
    var up := target[..|target| - 1];
    var t1 := WithDirs(t, up);
    forall q | q in t1 && q !in t ensures |q| < |target| { assert q in Prefixes(up); }
    forall q ensures q in Below(t1, target) <==> q in Below(t, target) {}
  }

  lemma LinkEntryPlaced(t: Tree, dest: Path, target: Path, to: string)
    requires Ready(t, dest) && dest < target && ProperPath(target) && LinkFree(t, target[..|target| - 1])
    ensures
      Place(t, dest, target, Link(to)).1 == Done
      <==> WayFree(t, target[..|target| - 1]) && Fits(t, target, Link(to))
  {
    hide *;
    var up := target[..|target| - 1];
    ReadyMeans(t, dest);
    PlaceUnfolds(t, dest, target, Link(to));
    SpineMeans(t, dest, target);
    ParentIs(target);
    assert dest <= up;
    ProperFront(target);
    MkdirAllSucceeds(t, dest, up);
    ParentsMade(t, dest, target);
    var (t1, ok) := MkdirAll(t, up);
    if ok {
      TargetKept(t, target);
      LinkReplaces(t1, target, to);
      FitsLink(t, target, to);
      FitsLink(t1, target, to);
    }
  }

  lemma FitsLink(t: Tree, target: Path, to: string)
    ensures Fits(t, target, Link(to)) <==> target !in t || t[target] != Dir || Below(t, target) == {}
    ensures Fits(t, target, Regular(to)) <==> target !in t || t[target] != Dir
  {
    hide Below;
  }

  lemma LinkReplaces(t: Tree, target: Path, to: string)
    requires Rooted(t) && target != [] && ProperPath(target) && RealDir(t, target[..|target| - 1])
    ensures Create(Remove(t, target).0, target, Node.Symlink(to)).1 <==> Fits(t, target, Link(to))
  {
    hide *;
    RemoveHere(t, target);
    RemovesHere(t, target);
    var t2 := Remove(t, target).0;
    CreateHere(t2, target, Node.Symlink(to));
    FitsLink(t, target, to);
  }

  lemma RemovesHere(t: Tree, p: Path)
    requires Rooted(t) && p != [] && ProperPath(p) && RealDir(t, p[..|p| - 1])
    ensures p in Remove(t, p).0 <==> p in t && t[p] == Dir && Below(t, p) != {}
  {
    RealDirLinkFree(t, p[..|p| - 1]);
    LocatesItself(t, p);
    hide Resolve, ProperName, Below;
  }

  lemma FileEntryPlaced(t: Tree, dest: Path, target: Path, content: string)
    requires Ready(t, dest) && dest < target && ProperPath(target) && LinkFree(t, target[..|target| - 1])
    ensures
      Place(t, dest, target, Regular(content)).1 == Done
      <==> WayFree(t, target[..|target| - 1]) && Fits(t, target, Regular(content))
  {
    hide *;
    var up := target[..|target| - 1];
    ReadyMeans(t, dest);
    PlaceUnfolds(t, dest, target, Regular(content));
    SpineMeans(t, dest, target);
    ParentIs(target);
    assert dest <= up;
    ProperFront(target);
    MkdirAllSucceeds(t, dest, up);
    ParentsMade(t, dest, target);
    var (t1, ok) := MkdirAll(t, up);
    if ok {
      TargetKept(t, target);
      FileReplaces(t1, target, content);
      FitsLink(t, target, content);
      FitsLink(t1, target, content);
    }
  }

  lemma FileReplaces(t: Tree, target: Path, content: string)
    requires Rooted(t) && target != [] && ProperPath(target) && RealDir(t, target[..|target| - 1])
    ensures
      var t2 := if IsSymlink(Lstat(t, target)) then Remove(t, target).0 else t;
      WriteFile(t2, target, content).1 <==> Fits(t, target, Regular(content))
  {
    CreateHere(t, target, Dir);
    RemoveHere(t, target);
    assert IsSymlink(Lstat(t, target)) <==> IsLink(t, target);
    var t2 := if IsSymlink(Lstat(t, target)) then Remove(t, target).0 else t;
    WriteHere(t2, target, content);
    hide Remove, Create, Lstat, Stat, ProperPath, WriteFile;
  }
}
