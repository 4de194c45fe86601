/** What unpacking a whole archive does (extract.go). Everything written stays
    below the destination, and the last entry of a name wins, unless the
    archive opens by putting a link in the place of the empty destination
    itself; for an accepted name can climb out of the destination and back to
    it, and only its parents are looked at. */
module Containment {
  import opened Text
  import opened FileSystem
  import opened Extraction

  // ----- every call keeps nodes in directories -------------------------------------

  /** A walk from a directory ends at a directory's own location or inside one. */
  lemma {:induction false} ResolveEnds(t: Tree, cur: Path, rest: seq<string>, follow: bool, links: nat)
    requires Rooted(t) && IsDir(t, Parent(cur))
    ensures
      var w := Resolve(t, cur, rest, follow, links);
      w.Arrived? ==> IsDir(t, Parent(w.at))
    decreases links, |rest|
  {
    hide IsLink, IsAbs, Split, Rooted;
    if rest == [] {
      assert Resolve(t, cur, rest, follow, links) == Arrived(cur);
    } else if IsDir(t, cur) {
      var next := cur + [rest[0]];
      assert Parent(next) == cur;
      ParentIsDir(t, cur);
      ParentIsDir(t, Parent(cur));
      if rest[0] == "" || rest[0] == "." {
        ResolveEnds(t, cur, rest[1..], follow, links);
      } else if rest[0] == ".." {
        ResolveEnds(t, Parent(cur), rest[1..], follow, links);
      } else if IsLink(t, next) && (|rest| > 1 || follow) {
        if links > 0 {
          LinkHas(t, next);
          var target := t[next].target;
          ResolveEnds(t, if IsAbs(target) then [] else cur, Split(target, '/') + rest[1..], follow, links - 1);
        }
      } else {
        ResolveEnds(t, next, rest[1..], follow, links);
      }
    }
  }

  lemma ParentIsDir(t: Tree, p: Path)
    requires Rooted(t) && IsDir(t, p)
    ensures IsDir(t, Parent(p))
  {
  }

  lemma LinkHas(t: Tree, p: Path)
    requires IsLink(t, p)
    ensures p in t && t[p].Symlink?
  {
  }

  lemma LocatedInside(t: Tree, p: Path)
    requires Rooted(t)
    ensures Locate(t, p).Arrived? ==> IsDir(t, Parent(Locate(t, p).at))
    ensures LocateThrough(t, p).Arrived? ==> IsDir(t, Parent(LocateThrough(t, p).at))
  {
    hide Resolve, Rooted;
    ResolveEnds(t, [], p, false, MAX_LINKS);
    ResolveEnds(t, [], p, true, MAX_LINKS);
  }

  lemma CreateRooted(t: Tree, p: Path, n: Node)
    requires Rooted(t)
    ensures Rooted(Create(t, p, n).0)
  {
    LocatedInside(t, p);
    var w := Locate(t, p);
    hide Locate, Rooted;
    if w.Arrived? && !Exists(t, w.at) { AddedDirRooted(t, w.at, n); }
  }

  lemma RemoveRooted(t: Tree, p: Path)
    requires Rooted(t)
    ensures Rooted(Remove(t, p).0)
  {
    hide Locate;
    var t', at := Remove(t, p).0, Locate(t, p);
    if t' != t {
      forall q | q in t' ensures IsDir(t', Parent(q)) {
        assert IsDir(t, Parent(q));
        NotBelow(t, at.at, q);
      }
    }
  }

  lemma WriteRooted(t: Tree, p: Path, content: string)
    requires Rooted(t)
    ensures Rooted(WriteFile(t, p, content).0)
  {
    LocatedInside(t, p);
    var w := LocateThrough(t, p);
    hide LocateThrough, Rooted;
    if w.Arrived? && !IsDir(t, w.at) && !IsLink(t, w.at) { AddedDirRooted(t, w.at, File(content)); }
  }

  /** One call adds directories only: what was there stays as it was. */
  ghost predicate Adds(t: Tree, t': Tree) {
    && (forall q :: q in t ==> q in t' && t'[q] == t[q])
    && (forall q :: q in t' && q !in t ==> t'[q] == Dir)
  }

  lemma CreateAdds(t: Tree, p: Path)
    ensures Adds(t, Create(t, p, Dir).0)
  {
    hide Locate;
  }

  lemma AddsTwice(t: Tree, t1: Tree, t2: Tree)
    requires Adds(t, t1) && Adds(t1, t2)
    ensures Adds(t, t2)
  {
  }

  lemma AddsNone(t: Tree)
    ensures Adds(t, t)
  {
  }

  lemma MkdirAllStep(t: Tree, p: Path)
    ensures
      var (t1, ok) := if |p| > 1 then MkdirAll(t, p[..|p| - 1]) else (t, true);
      MkdirAll(t, p).0 == if Stat(t, p).Is? then t else if !ok then t1 else Create(t1, p, Dir).0
  {
    hide Stat, Lstat;
    var (t1, ok) := if |p| > 1 then MkdirAll(t, p[..|p| - 1]) else (t, true);
    CreateFails(t1, p, Dir);
    hide Create;
  }

  /** Making directories, through links or not. */
  lemma {:induction false} MkdirAllAdds(t: Tree, p: Path)
    requires Rooted(t)
    ensures Rooted(MkdirAll(t, p).0) && Adds(t, MkdirAll(t, p).0)
    decreases |p|
  {
    hide *;
    MkdirAllStep(t, p);
    AddsNone(t);
    if !Stat(t, p).Is? {
      var (t1, ok) := if |p| > 1 then MkdirAll(t, p[..|p| - 1]) else (t, true);
      if |p| > 1 { MkdirAllAdds(t, p[..|p| - 1]); }
      CreateRooted(t1, p, Dir);
      CreateAdds(t1, p);
      AddsTwice(t, t1, Create(t1, p, Dir).0);
    }
  }

  // ----- a destination that has become a link ------------------------------------------

  /** The destination is a link in a real directory. */
  ghost predicate Lost(t: Tree, dest: Path) {
    Rooted(t) && dest != [] && ProperPath(dest) && RealDir(t, dest[..|dest| - 1]) && IsLink(t, dest)
  }

  /** It is no directory: still a link, or gone. */
  ghost predicate NoDir(t: Tree, dest: Path) { dest !in t || t[dest].Symlink? }

  lemma LostAdds(t: Tree, t': Tree, dest: Path)
    requires Lost(t, dest) && Rooted(t') && Adds(t, t')
    ensures Lost(t', dest)
  {
    hide Rooted, ProperName;
    var up := dest[..|dest| - 1];
    forall k | 0 <= k <= |up| ensures IsDir(t', up[..k]) { assert IsDir(t, up[..k]); }
  }

  /** What one removal does to it: nothing, or the link itself goes. */
  lemma LostRemove(t: Tree, dest: Path, p: Path)
    requires Lost(t, dest)
    ensures
      var t' := Remove(t, p).0;
      && Rooted(t') && RealDir(t', dest[..|dest| - 1])
      && (Lost(t', dest) || dest !in t')
  {
    RemoveRooted(t, p);
    hide Locate, ProperName;
    var t', up, w := Remove(t, p).0, dest[..|dest| - 1], Locate(t, p);
    if t' != t {
      assert t' == t - {w.at};
      forall k | 0 <= k <= |up| ensures IsDir(t', up[..k]) {
        assert IsDir(t, up[..k]);
        assert up[..k] == dest[..k] && dest[..k] < dest;
        assert dest in Below(t, up[..k]);
      }
    }
  }

  lemma LostCreate(t: Tree, dest: Path, p: Path, n: Node)
    requires Lost(t, dest)
    ensures Lost(Create(t, p, n).0, dest)
  {
    CreateRooted(t, p, n);
    hide Locate, ProperName, Rooted;
    var t', up := Create(t, p, n).0, dest[..|dest| - 1];
    forall k | 0 <= k <= |up| ensures IsDir(t', up[..k]) { assert IsDir(t, up[..k]); }
  }

  lemma LostWrite(t: Tree, dest: Path, p: Path, content: string)
    requires Lost(t, dest)
    ensures Lost(WriteFile(t, p, content).0, dest)
  {
    WriteRooted(t, p, content);
    hide LocateThrough, ProperName, Rooted;
    var t', up := WriteFile(t, p, content).0, dest[..|dest| - 1];
    forall k | 0 <= k <= |up| ensures IsDir(t', up[..k]) { assert IsDir(t, up[..k]); }
  }

  /** With the destination gone no call reaches below it. */
  lemma GoneIsStuck(t: Tree, dest: Path, target: Path)
    requires Rooted(t) && dest != [] && dest !in t && RealDir(t, dest[..|dest| - 1])
    requires dest < target && ProperPath(target)
    ensures Locate(t, target) == Stuck && LocateThrough(t, target) == Stuck
  {
    hide Resolve, ProperName;
    var up := target[..|target| - 1];
    assert target[..|dest|] == dest && up[..|dest|] == dest;
    forall k | 0 < k <= |up| ensures !IsLink(t, up[..k]) {
      assert up[..k] == target[..k];
      if k < |dest| {
        assert IsDir(t, dest[..|dest| - 1][..k]) && dest[..|dest| - 1][..k] == up[..k];
      } else {
        assert up[..k][..|dest|] == dest;
        if up[..k] in t { MissingAbove(t, up[..k], |dest|); }
      }
    }
    if target in t { MissingAbove(t, target, |dest|); }
    assert !IsDir(t, up[..|dest|]);
    LocatesItself(t, target);
  }

  lemma GoneFails(t: Tree, dest: Path, target: Path, n: Node, content: string)
    requires Rooted(t) && dest != [] && dest !in t && RealDir(t, dest[..|dest| - 1])
    requires dest < target && ProperPath(target)
    ensures Create(t, target, n) == (t, false) && WriteFile(t, target, content) == (t, false)
  {
    GoneIsStuck(t, dest, target);
    hide Locate, LocateThrough;
  }

  /** An entry at a lost destination is refused, whatever it is. */
  lemma LostRefuses(t: Tree, dest: Path, kind: Kind)
    requires Lost(t, dest) && !kind.Other?
    ensures Place(t, dest, dest, kind) == (t, InsecurePath)
  {
    RealDirLinkFree(t, dest[..|dest| - 1]);
    LocatesItself(t, dest);
    hide Locate, Rooted, ProperName, MkdirAll, Remove, Create, WriteFile;
    var spine := Spine(dest, dest);
    assert spine[0] == dest;
    SpineStep(t, spine);
    assert !SpineSafe(t, spine);
  }

  /** One entry leaves a lost destination lost, or fails and leaves none. */
  lemma PlaceLost(t: Tree, dest: Path, target: Path, kind: Kind)
    requires Lost(t, dest) && dest <= target && ProperPath(target)
    ensures var r := Place(t, dest, target, kind);
      Lost(r.0, dest) || (r.1 != Done && NoDir(r.0, dest))
  {
    hide *;
    PlaceUnfolds(t, dest, target, kind);
    if dest == target {
      if !kind.Other? { LostRefuses(t, dest, kind); }
    } else if !kind.Other? && SpineSafe(t, Spine(dest, target)) {
      assert dest < target;
      LostIs(t, dest);
      var up := if kind.DirEntry? then target else Parent(target);
      MkdirAllAdds(t, up);
      var (t1, ok) := MkdirAll(t, up);
      LostAdds(t, t1, dest);
      LostIs(t1, dest);
      if ok && kind.Link? { LinkLost(t1, dest, target, kind.target); }
      if ok && kind.Regular? { FileLost(t1, dest, target, kind.content); }
    }
  }

  lemma LostIs(t: Tree, dest: Path)
    requires Lost(t, dest)
    ensures Rooted(t) && dest != [] && ProperPath(dest) && RealDir(t, dest[..|dest| - 1]) && NoDir(t, dest)
  {
    hide Rooted, RealDir, ProperPath;
  }

  lemma GoneIsNoDir(t: Tree, dest: Path)
    requires dest !in t
    ensures NoDir(t, dest)
  {
  }

  lemma LinkLost(t: Tree, dest: Path, target: Path, to: string)
    requires Lost(t, dest) && dest < target && ProperPath(target)
    ensures var (t3, made) := Create(Remove(t, target).0, target, Node.Symlink(to));
      Lost(t3, dest) || (!made && NoDir(t3, dest))
  {
    hide *;
    LostIs(t, dest);
    LostRemove(t, dest, target);
    var t2 := Remove(t, target).0;
    if Lost(t2, dest) {
      LostCreate(t2, dest, target, Node.Symlink(to));
    } else {
      GoneFails(t2, dest, target, Node.Symlink(to), "");
      GoneIsNoDir(t2, dest);
    }
  }

  lemma FileLost(t: Tree, dest: Path, target: Path, content: string)
    requires Lost(t, dest) && dest < target && ProperPath(target)
    ensures
      var t2 := if IsSymlink(Lstat(t, target)) then Remove(t, target).0 else t;
      var (t3, written) := WriteFile(t2, target, content);
      Lost(t3, dest) || (!written && NoDir(t3, dest))
  {
    hide *;
    LostIs(t, dest);
    LostRemove(t, dest, target);
    var t2 := if IsSymlink(Lstat(t, target)) then Remove(t, target).0 else t;
    if Lost(t2, dest) {
      LostWrite(t2, dest, target, content);
    } else {
      GoneFails(t2, dest, target, Dir, content);
      GoneIsNoDir(t2, dest);
    }
  }

  /** Once lost, the destination never is a directory again; after a success it
      still is the link. */
  lemma {:induction false} ExtractLost(t: Tree, dest: Path, strip: nat, entries: seq<Entry>)
    requires Lost(t, dest)
    ensures var r := ExtractAll(t, dest, strip, entries);
      NoDir(r.0, dest) && (r.1 == Done ==> Lost(r.0, dest))
    decreases |entries|
  {
    hide ExtractEntry, SafeTarget, Lost, NoDir;
    LostIs(t, dest);
    if entries == [] {
      assert ExtractAll(t, dest, strip, entries) == (t, Done);
    } else {
      EntryLost(t, dest, strip, entries[0]);
      var r := ExtractEntry(t, dest, strip, entries[0]);
      if r.1 == Done { ExtractLost(r.0, dest, strip, entries[1..]); }
    }
  }

  lemma EntryLost(t: Tree, dest: Path, strip: nat, e: Entry)
    requires Lost(t, dest)
    ensures var r := ExtractEntry(t, dest, strip, e);
      NoDir(r.0, dest) && (r.1 == Done ==> Lost(r.0, dest))
  {
    hide SafeTarget, Place, Lost, NoDir;
    LostIs(t, dest);
    var target := SafeTarget(dest, e.name, strip);
    if target.At? {
      TargetProper(dest, e.name, strip);
      PlaceLost(t, dest, target.path, e.kind);
      var r := Place(t, dest, target.path, e.kind);
      if Lost(r.0, dest) { LostIs(r.0, dest); }
    }
  }

  // ----- entries that name the destination itself ----------------------------------------

  /** Something stands below the destination. */
  predicate Occupied(t: Tree, dest: Path) { Below(t, dest) != {} }

  /** An entry that places nothing: skipped, of an unsupported kind, or a
      directory at the destination itself. */
  predicate Idle(dest: Path, strip: nat, e: Entry) {
    var target := SafeTarget(dest, e.name, strip);
    target.Skip? || (target.At? && (e.kind.Other? || (target.path == dest && e.kind.DirEntry?)))
  }

  /** A link for the destination itself. */
  predicate Replaces(dest: Path, strip: nat, e: Entry) {
    SafeTarget(dest, e.name, strip) == At(dest) && e.kind.Link?
  }

  /** The first entry that is not idle is a link for the destination itself. */
  predicate Opens(dest: Path, strip: nat, entries: seq<Entry>) {
    entries != []
    && (Replaces(dest, strip, entries[0]) || (Idle(dest, strip, entries[0]) && Opens(dest, strip, entries[1..])))
  }

  /** In other words: some such link has only idle entries before it. */
  lemma {:induction false} OpensMeans(dest: Path, strip: nat, entries: seq<Entry>)
    ensures Opens(dest, strip, entries)
      <==> exists k :: 0 <= k < |entries| && Replaces(dest, strip, entries[k])
                       && forall i :: 0 <= i < k ==> Idle(dest, strip, entries[i])
  {
    hide Replaces, Idle;
    if entries == [] {
      assert !Opens(dest, strip, entries);
    } else {
      var rest := entries[1..];
      OpensMeans(dest, strip, rest);
      assert forall i :: 0 <= i < |rest| ==> rest[i] == entries[i + 1];
      if j :| 0 <= j < |rest| && Replaces(dest, strip, rest[j])
              && forall i :: 0 <= i < j ==> Idle(dest, strip, rest[i])
      {
        if Idle(dest, strip, entries[0]) {
          forall i | 0 <= i < j + 1
            ensures Idle(dest, strip, entries[i])
          { assert i > 0 ==> entries[i] == rest[i - 1]; }
        }
      }
      if k :| 0 < k < |entries| && Replaces(dest, strip, entries[k])
              && forall i :: 0 <= i < k ==> Idle(dest, strip, entries[i])
      {
        assert rest[k - 1] == entries[k];
        forall i | 0 <= i < k - 1 ensures Idle(dest, strip, rest[i]) { assert rest[i] == entries[i + 1]; }
      }
    }
  }

  lemma DestLooks(t: Tree, dest: Path)
    requires Ready(t, dest)
    ensures Lstat(t, dest) == Is(Dir) && Locate(t, dest) == Arrived(dest) && dest in t && t[dest] == Dir
    ensures LocateThrough(t, dest) == Arrived(dest)
    ensures RealDir(t, dest[..|dest| - 1]) && Parent(dest) == dest[..|dest| - 1]
  {
    assert dest[..|dest|] == dest;
    assert IsDir(t, dest[..|dest|]);
    RealDirPrefix(t, dest, |dest| - 1);
    RealDirLinkFree(t, dest[..|dest| - 1]);
    LocatesItself(t, dest);
    hide Resolve, ProperName, Rooted;
  }

  lemma DestParentMade(t: Tree, dest: Path)
    requires Ready(t, dest)
    ensures MkdirAll(t, dest) == (t, true) && MkdirAll(t, Parent(dest)) == (t, true)
  {
    DestLooks(t, dest);
    hide Locate, LocateThrough, Lstat, Rooted;
    MkdirAllThere(t, dest);
    if Parent(dest) != [] {
      ProperFront(dest);
      MkdirAllThere(t, Parent(dest));
    } else {
      RootMade(t);
    }
  }

  lemma RootMade(t: Tree)
    ensures MkdirAll(t, []) == (t, true)
  {
    ResolveEnd(t, [], true, MAX_LINKS);
    hide Resolve;
  }

  /** With nothing below it the walk over the destination's own path finds no link. */
  lemma DestSpine(t: Tree, dest: Path)
    requires Ready(t, dest) && !Occupied(t, dest)
    ensures SpineSafe(t, Spine(dest, dest))
  {
    DestLooks(t, dest);
    var spine := Spine(dest, dest);
    assert spine[0] == dest;
    SpineStep(t, spine);
    SpineStep(t, spine[1..]);
    if |dest| > 1 {
      var p := dest + dest[..1];
      assert spine[1] == p && p[..|p| - 1] == dest && dest < p;
      RealDirLinkFree(t, dest);
      LstatOnSpine(t, p);
      assert p !in t by { assert p !in Below(t, dest); }
    }
    hide *;
  }

  /** An entry at the destination: a directory or an unsupported kind changes
      nothing, a file fails, a link fails unless the destination is empty and
      then takes its place. */
  lemma PlaceAtDest(t: Tree, dest: Path, kind: Kind)
    requires Ready(t, dest)
    ensures var r := Place(t, dest, dest, kind);
      && (!(kind.Link? && !Occupied(t, dest)) ==> r.0 == t)
      && (kind.Regular? || (kind.Link? && Occupied(t, dest)) ==> r.1 != Done)
      && (kind.Link? && !Occupied(t, dest) ==> r == (t[dest := Node.Symlink(kind.target)], Done))
      && (kind.Other? || (kind.DirEntry? && !Occupied(t, dest)) ==> r.1 == Done)
  {
    hide *;
    PlaceUnfolds(t, dest, dest, kind);
    DestParentMade(t, dest);
    if kind.Link? { LinkAtDest(t, dest, kind.target); }
    if kind.Regular? { FileAtDest(t, dest, kind.content); }
    if !Occupied(t, dest) { DestSpine(t, dest); }
  }

  lemma LinkAtDest(t: Tree, dest: Path, to: string)
    requires Ready(t, dest)
    ensures Create(Remove(t, dest).0, dest, Node.Symlink(to))
      == if Occupied(t, dest) then (t, false) else (t[dest := Node.Symlink(to)], true)
  {
    DestLooks(t, dest);
    hide Rooted, ProperName, Resolve, LocateThrough, Lstat;
    if Occupied(t, dest) {
      assert Remove(t, dest) == (t, false);
    } else {
      var t2, up := t - {dest}, dest[..|dest| - 1];
      assert Remove(t, dest) == (t2, true);
      forall k | 0 <= k <= |up| ensures IsDir(t2, up[..k]) { assert IsDir(t, up[..k]); }
      CreateHere(t2, dest, Node.Symlink(to));
      assert t2[dest := Node.Symlink(to)] == t[dest := Node.Symlink(to)];
    }
  }

  lemma FileAtDest(t: Tree, dest: Path, content: string)
    requires Ready(t, dest)
    ensures !IsSymlink(Lstat(t, dest)) && WriteFile(t, dest, content) == (t, false)
  {
    DestLooks(t, dest);
    hide Lstat, Locate, LocateThrough;
  }

  /** Then the destination is lost. */
  lemma ReplacedIsLost(t: Tree, dest: Path, to: string)
    requires Ready(t, dest) && !Occupied(t, dest)
    ensures Lost(t[dest := Node.Symlink(to)], dest)
  {
    DestLooks(t, dest);
    hide Locate, LocateThrough, Lstat, ProperName;
    var t', up := t[dest := Node.Symlink(to)], dest[..|dest| - 1];
    forall q | q in t' ensures IsDir(t', Parent(q)) {
      if q in t {
        assert IsDir(t, Parent(q));
        assert Parent(q) == dest && q != [] ==> q in Below(t, dest);
      }
    }
    forall k | 0 <= k <= |up| ensures IsDir(t', up[..k]) { assert IsDir(t, up[..k]); }
  }

  // ----- the whole archive ------------------------------------------------------------------

  /** The archive read by names only, entry after entry. */
  function OverlayAll(t: Tree, dest: Path, strip: nat, entries: seq<Entry>): Tree
    decreases |entries|
  {
    if entries == [] then t
    else
      var target := SafeTarget(dest, entries[0].name, strip);
      var t1 := if target.At? then Overlay(t, target.path, entries[0].kind) else t;
      OverlayAll(t1, dest, strip, entries[1..])
  }

  /** One entry keeps everything in its place. */
  lemma EntryEffect(t: Tree, dest: Path, strip: nat, e: Entry)
    requires Ready(t, dest) && SafeTarget(dest, e.name, strip) != At(dest)
    ensures var r := ExtractEntry(t, dest, strip, e);
      && Ready(r.0, dest) && SameOutside(t, r.0, dest)
      && (r.1 == Done ==>
            var target := SafeTarget(dest, e.name, strip);
            r.0 == if target.At? then Overlay(t, target.path, e.kind) else t)
  {
    var target := SafeTarget(dest, e.name, strip);
    if target.At? {
      TargetProper(dest, e.name, strip);
      hide Place, SafeTarget, Overlay, ProperName, IsDir;
      PlaceAny(t, dest, target.path, e.kind);
      ReadyKept(t, ExtractEntry(t, dest, strip, e).0, dest);
    }
  }

  lemma OutsideTransitive(t: Tree, t1: Tree, t2: Tree, dest: Path)
    requires SameOutside(t, t1, dest) && SameOutside(t1, t2, dest)
    ensures SameOutside(t, t2, dest)
  {
  }

  /** An idle entry changes nothing, in the tree or in its reading by names. */
  lemma IdleEntry(t: Tree, dest: Path, strip: nat, e: Entry)
    requires Ready(t, dest) && Idle(dest, strip, e)
    ensures ExtractEntry(t, dest, strip, e).0 == t
    ensures !Occupied(t, dest) ==> ExtractEntry(t, dest, strip, e).1 == Done
    ensures
      var target := SafeTarget(dest, e.name, strip);
      target.At? ==> Overlay(t, target.path, e.kind) == t
  {
    hide SafeTarget, Place, WithDirs, Occupied;
    var target := SafeTarget(dest, e.name, strip);
    if target.At? {
      PlaceUnfolds(t, dest, target.path, e.kind);
      PlaceAtDest(t, dest, e.kind);
      ReadyMeans(t, dest);
      WithDirsReal(t, dest);
    }
  }

  /** Whatever is placed below the destination occupies it. */
  lemma OverlayOccupies(t: Tree, dest: Path, target: Path, kind: Kind)
    requires dest < target && !kind.Other?
    ensures Occupied(Overlay(t, target, kind), dest) && target in Overlay(t, target, kind)
  {
    hide Prefixes;
    var t' := Overlay(t, target, kind);
    assert target in Prefixes(target) by { PrefixWhole(target); }
    assert target in t';
    assert target in Below(t', dest);
  }

  lemma PrefixWhole(p: Path)
    requires p != []
    ensures p in Prefixes(p)
  {
    assert p == p[..|p|];
  }

  lemma OverlayKeeps(t: Tree, target: Path, kind: Kind)
    ensures forall q :: q in t ==> q in Overlay(t, target, kind)
  {
    hide Prefixes;
  }

  lemma StaysOccupied(t: Tree, t': Tree, dest: Path)
    requires Occupied(t, dest) && forall q :: q in t ==> q in t'
    ensures Occupied(t', dest)
  {
    var q :| q in Below(t, dest);
    assert q in Below(t', dest);
  }

  /** One entry, unless it is a link that takes an empty destination's place:
      it keeps everything in its place, does what its reading by names says, and
      occupies the destination unless it is idle. */
  lemma ReadyEntry(t: Tree, dest: Path, strip: nat, e: Entry)
    requires Ready(t, dest) && (Occupied(t, dest) || !Replaces(dest, strip, e))
    ensures var r := ExtractEntry(t, dest, strip, e);
      && Ready(r.0, dest) && SameOutside(t, r.0, dest)
      && (r.1 == Done ==>
            var target := SafeTarget(dest, e.name, strip);
            && r.0 == (if target.At? then Overlay(t, target.path, e.kind) else t)
            && (Occupied(t, dest) || !Idle(dest, strip, e) ==> Occupied(r.0, dest)))
  {
    var target := SafeTarget(dest, e.name, strip);
    hide SafeTarget, Place, Overlay, Occupied, Ready, SameOutside;
    SameOutsideSelf(t, dest);
    if target == At(dest) {
      PlaceAtDest(t, dest, e.kind);
      if Idle(dest, strip, e) { IdleEntry(t, dest, strip, e); }
    } else {
      EntryEffect(t, dest, strip, e);
      if target.At? {
        ReadyMeans(t, dest);
        TargetProper(dest, e.name, strip);
        OverlayKeeps(t, target.path, e.kind);
        if Occupied(t, dest) { StaysOccupied(t, Overlay(t, target.path, e.kind), dest); }
        if !e.kind.Other? { OverlayOccupies(t, dest, target.path, e.kind); }
      }
    }
  }

  /** As long as the archive does not open by replacing an empty destination,
      every location created, replaced or removed lies strictly below it, also
      when the archive is refused half way; and a success is the reading by
      names. */
  lemma {:induction false} ExtractKept(t: Tree, dest: Path, strip: nat, entries: seq<Entry>)
    requires Ready(t, dest) && (Occupied(t, dest) || !Opens(dest, strip, entries))
    ensures var r := ExtractAll(t, dest, strip, entries);
      && Ready(r.0, dest) && SameOutside(t, r.0, dest)
      && (r.1 == Done ==> r.0 == OverlayAll(t, dest, strip, entries))
    decreases |entries|
  {
    hide ExtractEntry, SafeTarget, Ready, SameOutside, Occupied, Overlay, Replaces, Idle;
    if entries == [] {
      SameOutsideSelf(t, dest);
    } else {
      ReadyEntry(t, dest, strip, entries[0]);
      var r := ExtractEntry(t, dest, strip, entries[0]);
      if r.1 == Done {
        ExtractKept(r.0, dest, strip, entries[1..]);
        OutsideTransitive(t, r.0, ExtractAll(r.0, dest, strip, entries[1..]).0, dest);
      }
    }
  }

  lemma LostIsOutside(t: Tree, t': Tree, dest: Path)
    requires Ready(t, dest) && NoDir(t', dest)
    ensures !SameOutside(t, t', dest)
  {
    DestLooks(t, dest);
    hide Locate, LocateThrough, Lstat, Ready;
    assert !(dest < dest);
  }

  lemma ReplacingEntry(t: Tree, dest: Path, strip: nat, e: Entry)
    requires Ready(t, dest) && !Occupied(t, dest) && Replaces(dest, strip, e)
    ensures ExtractEntry(t, dest, strip, e) == (t[dest := Node.Symlink(e.kind.target)], Done)
    ensures Lost(t[dest := Node.Symlink(e.kind.target)], dest)
  {
    hide SafeTarget, Place, Occupied, Lost, Ready;
    PlaceAtDest(t, dest, e.kind);
    ReplacedIsLost(t, dest, e.kind.target);
  }

  /** An archive that does open so loses an empty destination for good. */
  lemma {:induction false} OpensLoses(t: Tree, dest: Path, strip: nat, entries: seq<Entry>)
    requires Ready(t, dest) && !Occupied(t, dest) && Opens(dest, strip, entries)
    ensures var r := ExtractAll(t, dest, strip, entries);
      NoDir(r.0, dest) && (r.1 == Done ==> Lost(r.0, dest))
    decreases |entries|
  {
    hide ExtractEntry, SafeTarget, Ready, Lost, NoDir, Occupied, Replaces, Idle;
    if Replaces(dest, strip, entries[0]) {
      ReplacesLink(dest, strip, entries[0]);
      ReplacingEntry(t, dest, strip, entries[0]);
      ExtractLost(t[dest := Node.Symlink(entries[0].kind.target)], dest, strip, entries[1..]);
    } else {
      IdleEntry(t, dest, strip, entries[0]);
      OpensLoses(t, dest, strip, entries[1..]);
    }
  }

  lemma ReplacesLink(dest: Path, strip: nat, e: Entry)
    requires Replaces(dest, strip, e)
    ensures e.kind.Link? && SafeTarget(dest, e.name, strip) == At(dest)
  {
    hide SafeTarget;
  }

  /** Containment, exactly: whatever links earlier entries make, nothing that is
      not strictly below the destination changes, unless the destination is
      empty and the archive opens by replacing it. */
  lemma ExtractContained(t: Tree, dest: Path, strip: nat, entries: seq<Entry>)
    requires Ready(t, dest)
    ensures SameOutside(t, ExtractAll(t, dest, strip, entries).0, dest)
      <==> Occupied(t, dest) || !Opens(dest, strip, entries)
    ensures Occupied(t, dest) || !Opens(dest, strip, entries) ==> Ready(ExtractAll(t, dest, strip, entries).0, dest)
  {
    hide *;
    if Occupied(t, dest) || !Opens(dest, strip, entries) {
      ExtractKept(t, dest, strip, entries);
    } else {
      OpensLoses(t, dest, strip, entries);
      LostIsOutside(t, ExtractAll(t, dest, strip, entries).0, dest);
    }
  }

  /** An empty destination, with the directories above it. */
  function Fresh(dest: Path): Tree { map q | q in Prefixes(dest) :: Dir }

  lemma FreshReady(dest: Path)
    requires dest != [] && ProperPath(dest)
    ensures Ready(Fresh(dest), dest) && !Occupied(Fresh(dest), dest)
  {
    hide ProperName;
    var t := Fresh(dest);
    forall q | q in t ensures IsDir(t, Parent(q)) {
      var k :| 0 < k <= |dest| && q == dest[..k];
      assert Parent(q) == dest[..k - 1];
    }
    forall k | 0 <= k <= |dest| ensures IsDir(t, dest[..k]) {}
    forall q | q in t ensures !(dest < q) {
      var k :| 0 < k <= |dest| && q == dest[..k];
      assert |q| <= |dest|;
    }
  }

  /** So an archive is contained in every destination exactly when it does not
      open by linking the destination itself. */
  lemma ContainedExactly(dest: Path, strip: nat, entries: seq<Entry>)
    requires dest != [] && ProperPath(dest)
    ensures (forall t :: Ready(t, dest) ==> SameOutside(t, ExtractAll(t, dest, strip, entries).0, dest))
      <==> !Opens(dest, strip, entries)
  {
    hide *;
    forall t ensures Ready(t, dest) ==>
      (SameOutside(t, ExtractAll(t, dest, strip, entries).0, dest)
       <==> Occupied(t, dest) || !Opens(dest, strip, entries))
    {
      if Ready(t, dest) { ExtractContained(t, dest, strip, entries); }
    }
    FreshReady(dest);
  }

  /** A walk through a link to a directory beside it goes on there. */
  lemma WalkThrough(t: Tree, d: string, e: string, rest: seq<string>, follow: bool, links: nat)
    requires ProperName(d) && ProperName(e) && IsDir(t, [e]) && !IsLink(t, [e])
    requires IsLink(t, [d]) && t[[d]].target == "/" + e && links > 0 && (rest != [] || follow)
    ensures Resolve(t, [], [d] + rest, follow, links) == Resolve(t, [e], rest, follow, links - 1)
  {
    hide *;
    var at, again, last := [d] + rest, ["", e] + rest, [e] + rest;
    LinkParts(t, d, e);
    assert at[0] == d && at[1..] == rest && [] + [d] == [d];
    assert again[0] == "" && again[1..] == last;
    assert last[0] == e && last[1..] == rest && [] + [e] == [e];
    OneStep(t, [], at, follow, links);
    OneStep(t, [], again, follow, links - 1);
    OneStep(t, [], last, follow, links - 1);
  }

  lemma LinkParts(t: Tree, d: string, e: string)
    requires ProperName(e)
    ensures Split("/" + e, '/') == ["", e] && IsAbs("/" + e) && IsDir(t, [])
    ensures IsLink(t, [d]) ==> [d] in t && t[[d]].Symlink?
  {
    SplitCons("", e, '/');
    assert "" + ['/'] + e == "/" + e;
    assert ("/" + e)[..1] == "/";
  }

  lemma OneStep(t: Tree, cur: Path, rest: seq<string>, follow: bool, links: nat)
    requires rest != [] && IsDir(t, cur)
    ensures rest[0] == "" ==> Resolve(t, cur, rest, follow, links) == Resolve(t, cur, rest[1..], follow, links)
    ensures ProperName(rest[0]) && !IsLink(t, cur + [rest[0]]) ==>
      Resolve(t, cur, rest, follow, links) == Resolve(t, cur + [rest[0]], rest[1..], follow, links)
    ensures ProperName(rest[0]) && IsLink(t, cur + [rest[0]]) && (|rest| > 1 || follow) && links > 0 ==>
      var target := t[cur + [rest[0]]].target;
      Resolve(t, cur, rest, follow, links)
        == Resolve(t, if IsAbs(target) then [] else cur, Split(target, '/') + rest[1..], follow, links - 1)
  {
  }

  lemma NameTarget(d: string, x: string)
    requires ProperName(d) && ProperName(x)
    ensures SafeTarget([d], x, 0) == At([d, x])
    ensures SafeTarget([d], "../" + d, 0) == At([d])
  {
    hide *;
    NameParts(d, x);
    OnePart(x);
    TwoUp(d);
    TargetIs([d], x, [x]);
    TargetIs([d], "../" + d, ["..", d]);
    UpOne(d);
    assert [d] + [x] == [d, x] && [] + [d] == [d];
  }

  lemma NameParts(d: string, x: string)
    requires ProperName(d) && ProperName(x)
    ensures !IsAbs(x) && Split(x, '/') == [x]
    ensures !IsAbs("../" + d) && Split("../" + d, '/') == ["..", d]
  {
    var up := "../" + d;
    assert x[..1] == [x[0]] && up[..1] == ".";
    assert ".." + ['/'] + d == up;
    SplitCons("..", d, '/');
    assert [".."] + [d] == ["..", d];
  }

  lemma UpOne(d: string)
    ensures Up([d], 0) == [d] && Up([d], 1) == []
  {
  }

  /** Where a relative name of kept components leads. */
  lemma TargetIs(dest: Path, name: string, parts: seq<string>)
    requires !IsAbs(name) && NonEmpty(Split(name, '/')) == parts && parts != []
    ensures
      var rel := Clean(parts);
      var target := Up(dest, rel.ups) + rel.names;
      rel != Relative(0, []) && dest <= target ==> SafeTarget(dest, name, 0) == At(target)
  {
    hide Clean, Up, NonEmpty, Split;
    assert parts[0..] == parts;
  }

  lemma OnePart(x: string)
    requires ProperName(x)
    ensures NonEmpty([x]) == [x] && Clean([x]) == Relative(0, [x])
  {
    assert [x][1..] == [] && [x][..0] == [];
    assert Clean([]) == Relative(0, []);
  }

  lemma TwoUp(d: string)
    requires ProperName(d)
    ensures NonEmpty(["..", d]) == ["..", d] && Clean(["..", d]) == Relative(1, [d])
  {
    assert ["..", d][1..] == [d] && ["..", d][..1] == [".."] && [".."][..0] == [];
    OnePart(d);
    assert Clean([".."]) == Relative(1, []);
  }

  /** How such an archive escapes: over an empty destination `d` beside a
      directory `e`, a link named "../d" takes the destination's place, and the
      file named next is written below `e`. */
  lemma LinkEscapes(d: string, e: string, x: string, body: string)
    requires ProperName(d) && ProperName(e) && ProperName(x) && d != e
    ensures
      var t: Tree := map[[d] := Dir, [e] := Dir];
      var archive := [Entry("../" + d, Link("/" + e)), Entry(x, Regular(body))];
      var r := ExtractAll(t, [d], 0, archive);
      && Ready(t, [d]) && r.1 == Done && !SameOutside(t, r.0, [d])
      && [e, x] in r.0 && r.0[[e, x]] == File(body)
  {
    hide *;
    var t: Tree := map[[d] := Dir, [e] := Dir];
    var first, second := Entry("../" + d, Link("/" + e)), Entry(x, Regular(body));
    TwoDirs(d, e);
    NameTarget(d, x);
    ReplacesIs([d], 0, first);
    ReplacingEntry(t, [d], 0, first);
    var t1 := t[[d] := Node.Symlink("/" + e)];
    FileThrough(t1, d, e, x, body);
    var t2 := t1[[e, x] := File(body)];
    EntryIs(t1, [d], 0, second);
    assert [second][1..] == [] && [first, second][1..] == [second];
    ExtractAllStep(t, [d], 0, [first, second]);
    ExtractAllStep(t1, [d], 0, [second]);
    ExtractAllStep(t2, [d], 0, []);
    assert t2[[d]] == Node.Symlink("/" + e);
    NoDirIs(t2, [d]);
    LostIsOutside(t, t2, [d]);
  }

  lemma TwoDirs(d: string, e: string)
    requires ProperName(d) && ProperName(e) && d != e
    ensures
      var t: Tree := map[[d] := Dir, [e] := Dir];
      Ready(t, [d]) && !Occupied(t, [d])
  {
    hide ProperName;
    var t: Tree := map[[d] := Dir, [e] := Dir];
    forall k | 0 <= k <= |[d]| ensures IsDir(t, [d][..k]) { assert k == 1 ==> [d][..k] == [d]; }
    forall q | q in t ensures !([d] < q) && Parent(q) == [] { assert q == [d] || q == [e]; }
  }

  lemma ReplacesIs(dest: Path, strip: nat, e: Entry)
    requires SafeTarget(dest, e.name, strip) == At(dest) && e.kind.Link?
    ensures Replaces(dest, strip, e)
  {
    hide SafeTarget;
  }

  lemma EntryIs(t: Tree, dest: Path, strip: nat, e: Entry)
    requires SafeTarget(dest, e.name, strip).At?
    ensures ExtractEntry(t, dest, strip, e) == Place(t, dest, SafeTarget(dest, e.name, strip).path, e.kind)
  {
    hide SafeTarget, Place;
  }

  lemma NoDirIs(t: Tree, dest: Path)
    requires dest in t && t[dest].Symlink?
    ensures NoDir(t, dest)
  {
  }

  lemma ExtractAllStep(t: Tree, dest: Path, strip: nat, entries: seq<Entry>)
    ensures entries == [] ==> ExtractAll(t, dest, strip, entries) == (t, Done)
    ensures entries != [] ==>
      var r := ExtractEntry(t, dest, strip, entries[0]);
      ExtractAll(t, dest, strip, entries) == if r.1 != Done then r else ExtractAll(r.0, dest, strip, entries[1..])
  {
    hide ExtractEntry;
  }

  /** The file goes where the link leads. */
  lemma FileThrough(t: Tree, d: string, e: string, x: string, body: string)
    requires ProperName(d) && ProperName(e) && ProperName(x) && d != e
    requires t == map[[d] := Node.Symlink("/" + e), [e] := Dir]
    ensures Place(t, [d], [d, x], Regular(body)) == (t[[e, x] := File(body)], Done)
  {
    assert [d] + [x] == [d, x] && [d] + [] == [d] && [e] + [x] == [e, x];
    assert [e, x] !in t;
    WalkThrough(t, d, e, [x], false, MAX_LINKS);
    WalkThrough(t, d, e, [x], true, MAX_LINKS);
    WalkThrough(t, d, e, [], true, MAX_LINKS);
    OneStep(t, [e], [x], false, MAX_LINKS - 1);
    OneStep(t, [e], [x], true, MAX_LINKS - 1);
    ResolveEnd(t, [e, x], false, MAX_LINKS - 1);
    ResolveEnd(t, [e, x], true, MAX_LINKS - 1);
    ResolveEnd(t, [e], true, MAX_LINKS - 1);
    assert [x][1..] == [];
    hide Resolve, Rooted, ProperName;
    assert Parent([d, x]) == [d];
    assert Stat(t, [d]) == Is(Dir) && Lstat(t, [d, x]) == Missing;
    assert MkdirAll(t, [d]) == (t, true);
    assert WriteFile(t, [d, x], body) == (t[[e, x] := File(body)], true);
    hide Stat, Lstat, MkdirAll, WriteFile;
    PlaceUnfolds(t, [d], [d, x], Regular(body));
    assert [d] < [d, x];
    assert Spine([d], [d, x]) == [];
    SpineStep(t, Spine([d], [d, x]));
  }

  // ----- the archive read by names --------------------------------------------------------

  /** An entry that places something strictly below the destination. */
  predicate PlacesBelow(dest: Path, strip: nat, e: Entry) {
    var target := SafeTarget(dest, e.name, strip);
    target.At? && dest < target.path && !e.kind.Other?
  }

  /** The archive opens by replacing the destination and then places something
      below it; `files` asks for a file or a link. */
  predicate OpensThenPlaces(dest: Path, strip: nat, entries: seq<Entry>, files: bool) {
    entries != []
    && ((Replaces(dest, strip, entries[0])
         && exists e :: e in entries[1..] && PlacesBelow(dest, strip, e) && (files ==> !e.kind.DirEntry?))
        || (Idle(dest, strip, entries[0]) && OpensThenPlaces(dest, strip, entries[1..], files)))
  }

  lemma {:induction false} OverlayAllKeeps(t: Tree, dest: Path, strip: nat, entries: seq<Entry>, p: Path)
    requires p in t
    ensures p in OverlayAll(t, dest, strip, entries)
    decreases |entries|
  {
    hide SafeTarget, Overlay;
    if entries == [] {
      assert OverlayAll(t, dest, strip, entries) == t;
    } else {
      var target := SafeTarget(dest, entries[0].name, strip);
      if target.At? { OverlayKeeps(t, target.path, entries[0].kind); }
      OverlayAllKeeps(if target.At? then Overlay(t, target.path, entries[0].kind) else t, dest, strip, entries[1..], p);
    }
  }

  lemma {:induction false} OverlayAllHas(t: Tree, dest: Path, strip: nat, entries: seq<Entry>, e: Entry)
    requires e in entries && PlacesBelow(dest, strip, e)
    ensures SafeTarget(dest, e.name, strip).path in OverlayAll(t, dest, strip, entries)
    decreases |entries|
  {
    hide SafeTarget, Overlay;
    var target := SafeTarget(dest, entries[0].name, strip);
    var t1 := if target.At? then Overlay(t, target.path, entries[0].kind) else t;
    if entries[0] == e {
      OverlayOccupies(t, dest, target.path, e.kind);
      OverlayAllKeeps(t1, dest, strip, entries[1..], target.path);
    } else {
      assert entries == [entries[0]] + entries[1..];
      OverlayAllHas(t1, dest, strip, entries[1..], e);
    }
  }

  /** Nothing stands below a link. */
  lemma LostBelow(t: Tree, dest: Path, p: Path)
    requires Lost(t, dest) && dest < p
    ensures p !in t
  {
    hide ProperName, Rooted;
    if p in t { BelowIsDir(t, dest, p); }
  }

  lemma BelowIsDir(t: Tree, dest: Path, p: Path)
    requires Rooted(t) && p in t && dest < p
    ensures IsDir(t, dest)
  {
    hide Rooted, IsDir;
    AboveIsReal(t, p);
    assert IsDir(t, p[..|p| - 1][..|dest|]);
    assert p[..|p| - 1][..|dest|] == dest;
  }

  /** After the replacement, the entries of a success that places nothing below:
      skipped ones, unsupported kinds, and, through the link, directories. */
  lemma {:induction false} LostRest(t: Tree, dest: Path, strip: nat, entries: seq<Entry>)
    requires Lost(t, dest) && ExtractAll(t, dest, strip, entries).1 == Done
    requires forall e :: e in entries && PlacesBelow(dest, strip, e) ==> e.kind.DirEntry?
    ensures Adds(t, ExtractAll(t, dest, strip, entries).0)
    ensures (forall e :: e in entries ==> !PlacesBelow(dest, strip, e)) ==>
      ExtractAll(t, dest, strip, entries).0 == t == OverlayAll(t, dest, strip, entries)
    ensures forall said :: LastNamed(said, dest, strip, entries) == said
    decreases |entries|
  {
    hide ExtractEntry, Lost, Adds, PlacesBelow, SafeTarget, Overlay;
    if entries == [] {
      AddsNone(t);
    } else {
      var e, rest := entries[0], entries[1..];
      assert e in entries && forall x :: x in rest ==> x in entries;
      LostEntry(t, dest, strip, e);
      var r := ExtractEntry(t, dest, strip, e);
      LostRest(r.0, dest, strip, rest);
      AddsTwice(t, r.0, ExtractAll(r.0, dest, strip, rest).0);
    }
  }

  lemma LostEntry(t: Tree, dest: Path, strip: nat, e: Entry)
    requires Lost(t, dest) && ExtractEntry(t, dest, strip, e).1 == Done
    requires PlacesBelow(dest, strip, e) ==> e.kind.DirEntry?
    ensures var r := ExtractEntry(t, dest, strip, e);
      && Lost(r.0, dest) && Adds(t, r.0)
      && (!PlacesBelow(dest, strip, e) ==> r.0 == t)
    ensures
      var target := SafeTarget(dest, e.name, strip);
      && (!PlacesBelow(dest, strip, e) && target.At? ==> Overlay(t, target.path, e.kind) == t)
      && (target.At? ==> !e.kind.Regular? && !e.kind.Link?)
  {
    hide SafeTarget, Place, Lost, NoDir, Adds, WithDirs;
    EntryLost(t, dest, strip, e);
    AddsNone(t);
    LostIs(t, dest);
    var target := SafeTarget(dest, e.name, strip);
    if target.At? {
      TargetProper(dest, e.name, strip);
      PlaceUnfolds(t, dest, target.path, e.kind);
      if target.path == dest {
        if !e.kind.Other? { LostRefuses(t, dest, e.kind); }
      } else if e.kind.DirEntry? {
        MkdirAllAdds(t, target.path);
      }
    }
  }

  /** What the last entry naming each path by a file or a link said. */
  function LastNamed(said: Tree, dest: Path, strip: nat, entries: seq<Entry>): Tree
    decreases |entries|
  {
    if entries == [] then said
    else
      var target := SafeTarget(dest, entries[0].name, strip);
      var said1 :=
        if !target.At? then said
        else match entries[0].kind
             case Regular(content) => said[target.path := File(content)]
             case Link(to) => said[target.path := Node.Symlink(to)]
             case _ => said;
      LastNamed(said1, dest, strip, entries[1..])
  }

  /** `t` holds what was said last, keeps the rest of `t0`, and adds nothing
      else but directories. */
  ghost predicate Holds(t0: Tree, said: Tree, t: Tree) {
    && (forall p :: p in said ==> p in t && t[p] == said[p])
    && (forall p :: p in t0 && p !in said ==> p in t && t[p] == t0[p])
    && (forall p :: p in t && p !in t0 && p !in said ==> t[p] == Dir)
  }

  lemma HoldsWithDirs(t0: Tree, said: Tree, t: Tree, p: Path)
    requires Holds(t0, said, t)
    ensures Holds(t0, said, WithDirs(t, p))
  {
    hide Prefixes;
  }

  lemma HoldsSaid(t0: Tree, said: Tree, t: Tree, p: Path, n: Node)
    requires Holds(t0, said, t)
    ensures Holds(t0, said[p := n], t[p := n])
  {
  }

  lemma {:induction false} OverlayHolds(t0: Tree, said: Tree, t: Tree, dest: Path, strip: nat, entries: seq<Entry>)
    requires Holds(t0, said, t)
    ensures Holds(t0, LastNamed(said, dest, strip, entries), OverlayAll(t, dest, strip, entries))
    decreases |entries|
  {
    hide SafeTarget, WithDirs, Holds;
    if entries == [] {
    } else {
      var target := SafeTarget(dest, entries[0].name, strip);
      if target.At? {
        var p := target.path;
        HoldsWithDirs(t0, said, t, p);
        HoldsWithDirs(t0, said, t, Parent(p));
        match entries[0].kind
        case Regular(content) =>
          HoldsSaid(t0, said, WithDirs(t, Parent(p)), p, File(content));
          OverlayHolds(t0, said[p := File(content)], WithDirs(t, Parent(p))[p := File(content)],
                       dest, strip, entries[1..]);
        case Link(to) =>
          HoldsSaid(t0, said, WithDirs(t, Parent(p)), p, Node.Symlink(to));
          OverlayHolds(t0, said[p := Node.Symlink(to)], WithDirs(t, Parent(p))[p := Node.Symlink(to)],
                       dest, strip, entries[1..]);
        case DirEntry => OverlayHolds(t0, said, WithDirs(t, p), dest, strip, entries[1..]);
        case Other => OverlayHolds(t0, said, t, dest, strip, entries[1..]);
      } else {
        OverlayHolds(t0, said, t, dest, strip, entries[1..]);
      }
    }
  }

  lemma {:induction false} LastNamedKeeps(said: Tree, dest: Path, strip: nat, entries: seq<Entry>, p: Path)
    requires p in said
    ensures p in LastNamed(said, dest, strip, entries)
    decreases |entries|
  {
    hide SafeTarget;
    if entries == [] {
      assert LastNamed(said, dest, strip, entries) == said;
    } else {
      var target := SafeTarget(dest, entries[0].name, strip);
      if !target.At? {
        LastNamedKeeps(said, dest, strip, entries[1..], p);
      } else {
        match entries[0].kind
        case Regular(content) => LastNamedKeeps(said[target.path := File(content)], dest, strip, entries[1..], p);
        case Link(to) => LastNamedKeeps(said[target.path := Node.Symlink(to)], dest, strip, entries[1..], p);
        case DirEntry => LastNamedKeeps(said, dest, strip, entries[1..], p);
        case Other => LastNamedKeeps(said, dest, strip, entries[1..], p);
      }
    }
  }

  lemma {:induction false} LastNamedHas(said: Tree, dest: Path, strip: nat, entries: seq<Entry>, e: Entry)
    requires e in entries && PlacesBelow(dest, strip, e) && !e.kind.DirEntry?
    ensures SafeTarget(dest, e.name, strip).path in LastNamed(said, dest, strip, entries)
    decreases |entries|
  {
    hide SafeTarget;
    var target := SafeTarget(dest, entries[0].name, strip);
    var said1 :=
      if !target.At? then said
      else match entries[0].kind
           case Regular(content) => said[target.path := File(content)]
           case Link(to) => said[target.path := Node.Symlink(to)]
           case _ => said;
    if entries[0] == e {
      LastNamedKeeps(said1, dest, strip, entries[1..], target.path);
    } else {
      assert entries == [entries[0]] + entries[1..];
      LastNamedHas(said1, dest, strip, entries[1..], e);
    }
  }

  /** A success over an empty destination that the archive opens by replacing. */
  lemma {:induction false} OpensReads(t: Tree, dest: Path, strip: nat, entries: seq<Entry>)
    requires Ready(t, dest) && !Occupied(t, dest) && Opens(dest, strip, entries)
    requires ExtractAll(t, dest, strip, entries).1 == Done
    ensures
      var r := ExtractAll(t, dest, strip, entries).0;
      && (r == OverlayAll(t, dest, strip, entries) <==> !OpensThenPlaces(dest, strip, entries, false))
      && (Holds(t, LastNamed(map[], dest, strip, entries), r) <==> !OpensThenPlaces(dest, strip, entries, true))
    decreases |entries|
  {
    hide ExtractEntry, SafeTarget, Ready, Occupied, Replaces, Idle, Holds, Overlay, PlacesBelow;
    var e, rest := entries[0], entries[1..];
    if Replaces(dest, strip, e) {
      NotBoth(dest, strip, e);
      ReplacesLink(dest, strip, e);
      ReplacingEntry(t, dest, strip, e);
      ReplacedReads(t, dest, e.kind.target);
      ReplacedRest(t, dest, strip, e.kind.target, rest);
    } else {
      IdleEntry(t, dest, strip, e);
      IdleNames(dest, strip, e);
      OpensReads(t, dest, strip, rest);
    }
  }

  lemma NotBoth(dest: Path, strip: nat, e: Entry)
    ensures !(Replaces(dest, strip, e) && Idle(dest, strip, e))
  {
    hide SafeTarget;
  }

  lemma IdleNames(dest: Path, strip: nat, e: Entry)
    requires Idle(dest, strip, e)
    ensures SafeTarget(dest, e.name, strip).At? ==> e.kind.DirEntry? || e.kind.Other?
  {
    hide SafeTarget;
  }

  lemma ReplacedReads(t: Tree, dest: Path, to: string)
    requires Ready(t, dest)
    ensures Overlay(t, dest, Link(to)) == t[dest := Node.Symlink(to)]
  {
    DestLooks(t, dest);
    hide Locate, LocateThrough, Lstat, WithDirs, Prefixes;
    WithDirsReal(t, Parent(dest));
  }

  lemma ReplacedRest(t: Tree, dest: Path, strip: nat, to: string, rest: seq<Entry>)
    requires Ready(t, dest) && Lost(t[dest := Node.Symlink(to)], dest)
    requires ExtractAll(t[dest := Node.Symlink(to)], dest, strip, rest).1 == Done
    ensures
      var t1, said := t[dest := Node.Symlink(to)], map[dest := Node.Symlink(to)];
      var r := ExtractAll(t1, dest, strip, rest).0;
      && (r == OverlayAll(t1, dest, strip, rest) <==> !exists e :: e in rest && PlacesBelow(dest, strip, e))
      && (Holds(t, LastNamed(said, dest, strip, rest), r)
          <==> !exists e :: e in rest && PlacesBelow(dest, strip, e) && !e.kind.DirEntry?)
  {
    hide ExtractAll, OverlayAll, LastNamed, Holds, Lost, Ready, PlacesBelow, Adds, SafeTarget;
    var t1, said := t[dest := Node.Symlink(to)], map[dest := Node.Symlink(to)];
    var r := ExtractAll(t1, dest, strip, rest).0;
    ExtractLost(t1, dest, strip, rest);
    if e :| e in rest && PlacesBelow(dest, strip, e) {
      PlacedPath(dest, strip, e);
      OverlayAllHas(t1, dest, strip, rest, e);
      LostBelow(r, dest, SafeTarget(dest, e.name, strip).path);
    }
    if e :| e in rest && PlacesBelow(dest, strip, e) && !e.kind.DirEntry? {
      PlacedPath(dest, strip, e);
      LastNamedHas(said, dest, strip, rest, e);
      LostBelow(r, dest, SafeTarget(dest, e.name, strip).path);
      HoldsNeeds(t, LastNamed(said, dest, strip, rest), r, SafeTarget(dest, e.name, strip).path);
    } else {
      LostRest(t1, dest, strip, rest);
      ReplacedHolds(t, dest, to, r);
    }
  }

  lemma PlacedPath(dest: Path, strip: nat, e: Entry)
    requires PlacesBelow(dest, strip, e)
    ensures SafeTarget(dest, e.name, strip).At? && dest < SafeTarget(dest, e.name, strip).path
  {
    hide SafeTarget;
  }

  lemma HoldsNeeds(t0: Tree, said: Tree, t: Tree, p: Path)
    requires p in said && p !in t
    ensures !Holds(t0, said, t)
  {
  }

  lemma ReplacedHolds(t: Tree, dest: Path, to: string, r: Tree)
    requires Adds(t[dest := Node.Symlink(to)], r)
    ensures Holds(t, map[dest := Node.Symlink(to)], r)
  {
  }

  /** A successful extraction is the reading by names exactly when something
      stands below the destination before, or the archive does not open by
      replacing the destination and place something below it then. */
  lemma ExtractRefines(t: Tree, dest: Path, strip: nat, entries: seq<Entry>)
    requires Ready(t, dest) && ExtractAll(t, dest, strip, entries).1 == Done
    ensures ExtractAll(t, dest, strip, entries).0 == OverlayAll(t, dest, strip, entries)
      <==> Occupied(t, dest) || !OpensThenPlaces(dest, strip, entries, false)
  {
    hide *;
    OpensFirst(dest, strip, entries, false);
    if Occupied(t, dest) || !Opens(dest, strip, entries) {
      ExtractKept(t, dest, strip, entries);
    } else {
      OpensReads(t, dest, strip, entries);
    }
  }

  lemma {:induction false} OpensFirst(dest: Path, strip: nat, entries: seq<Entry>, files: bool)
    ensures OpensThenPlaces(dest, strip, entries, files) ==> Opens(dest, strip, entries)
  {
    hide Replaces, Idle, PlacesBelow;
    if entries == [] {
      assert !OpensThenPlaces(dest, strip, entries, files);
    } else {
      OpensFirst(dest, strip, entries[1..], files);
    }
  }

  /** After a successful extraction every path named by a file or a link entry
      holds exactly what the last entry naming it said, and everything else is
      as it was or a new directory, exactly when something stands below the
      destination before, or the archive does not open by replacing the
      destination and place a file or a link below it then. */
  lemma LastEntryWins(t: Tree, dest: Path, strip: nat, entries: seq<Entry>)
    requires Ready(t, dest) && ExtractAll(t, dest, strip, entries).1 == Done
    ensures Holds(t, LastNamed(map[], dest, strip, entries), ExtractAll(t, dest, strip, entries).0)
      <==> Occupied(t, dest) || !OpensThenPlaces(dest, strip, entries, true)
  {
    hide *;
    OpensFirst(dest, strip, entries, true);
    if Occupied(t, dest) || !Opens(dest, strip, entries) {
      ExtractKept(t, dest, strip, entries);
      HoldsItself(t);
      OverlayHolds(t, map[], t, dest, strip, entries);
    } else {
      OpensReads(t, dest, strip, entries);
    }
  }

  lemma HoldsItself(t: Tree)
    ensures Holds(t, map[], t)
  {
  }
}
