/** Where the name of an archive entry leads (extract.go): which components it
    has, how many are stripped, and the walk the rest takes from the
    destination. */
module EntryNames {
  import opened Text
  import opened FileSystem
  import opened Extraction

  // ----- the components of a name ------------------------------------------------

  function Components(name: string): seq<string> { NonEmpty(Split(name, '/')) }

  /** Splitting a joined name is joining the splits. */
  lemma {:induction false} SplitAppend(a: string, b: string)
    ensures Split(a + "/" + b, '/') == Split(a, '/') + Split(b, '/')
  {
    if a == "" {
      assert (a + "/" + b)[1..] == b && (a + "/" + b)[0] == '/';
      assert Split(a, '/') == [""];
    } else {
      assert (a + "/" + b)[1..] == a[1..] + "/" + b && (a + "/" + b)[0] == a[0];
      SplitAppend(a[1..], b);
    }
  }

  lemma {:induction false} NonEmptyAppend(a: seq<string>, b: seq<string>)
    ensures NonEmpty(a + b) == NonEmpty(a) + NonEmpty(b)
  {
    if a == [] {
      assert a + b == b;
    } else {
      assert (a + b)[1..] == a[1..] + b;
      NonEmptyAppend(a[1..], b);
    }
  }

  /** What a component is: any text between separators but the empty one, "." and
      ".." included. These three equations decide it for every name. */
  lemma ComponentsAre(a: string, b: string, p: string)
    ensures Components("") == []
    ensures p != "" && '/' !in p ==> Components(p) == [p]
    ensures Components(a + "/" + b) == Components(a) + Components(b)
  {
    assert NonEmpty([""]) == NonEmpty([]) == [];
    if p != "" && '/' !in p { assert NonEmpty([p]) == [p] + NonEmpty([]) == [p]; }
    SplitAppend(a, b);
    NonEmptyAppend(Split(a, '/'), Split(b, '/'));
  }

  /** So a leading "." counts and doubled or trailing separators do not. */
  lemma DotCounts(a: string, b: string)
    ensures Components("./" + a) == ["."] + Components(a)
    ensures Components(a + "//" + b) == Components(a + "/" + b)
    ensures Components(a + "/") == Components(a)
  {
    hide *;
    assert "." + "/" + a == "./" + a && a + "/" + "/" + b == a + "//" + b && a + "/" + "" == a + "/";
    DotHasNoSlash();
    ComponentsAre(".", a, ".");
    ComponentsAre(a + "/", b, "");
    ComponentsAre(a, "", "");
    ComponentsAre(a, b, "");
    assert a + "/" + "/" + b == (a + "/") + "/" + b;
  }

  lemma DotHasNoSlash()
    ensures '/' !in "." && "." != ""
  {
  }

  // ----- the walk of a name ---------------------------------------------------------

  /** One component from a directory: "." stays, ".." goes up, at the root it
      stays too. */
  function Step(from: Path, p: string): Path {
    if p == "." then from else if p != ".." then from + [p] else if from == [] then [] else from[..|from| - 1]
  }

  /** The components of a name, one by one. */
  function Follow(from: Path, parts: seq<string>): Path
    decreases |parts|
  {
    if parts == [] then from
    else Follow(Step(from, parts[0]), parts[1..])
  }

  lemma {:induction false} FollowSnoc(from: Path, parts: seq<string>, p: string)
    ensures Follow(from, parts + [p]) == Step(Follow(from, parts), p)
    decreases |parts|
  {
    if parts == [] {
      assert (parts + [p])[1..] == [];
    } else {
      assert (parts + [p])[1..] == parts[1..] + [p];
      FollowSnoc(Step(from, parts[0]), parts[1..], p);
    }
  }

  /** A cleaned name leads where its components lead one by one. */
  lemma {:induction false} CleanFollows(from: Path, parts: seq<string>)
    ensures Up(from, Clean(parts).ups) + Clean(parts).names == Follow(from, parts)
  {
    hide Follow, Clean;
    CleanStep(parts);
    if parts == [] {
      FollowNothing(from);
    } else {
      var front, p := parts[..|parts| - 1], parts[|parts| - 1];
      assert parts == front + [p];
      CleanFollows(from, front);
      FollowSnoc(from, front, p);
      var r := Clean(front);
      if p == ".." && r.names != [] {
        var base := Up(from, r.ups);
        assert (base + r.names)[..|base| + |r.names| - 1] == base + r.names[..|r.names| - 1];
      }
    }
  }

  lemma FollowNothing(from: Path)
    ensures Follow(from, []) == from
  {
  }

  /** A name of no effect stays where it is from wherever it starts. */
  ghost predicate LeadsNowhere(parts: seq<string>) { forall from :: Follow(from, parts) == from }

  lemma CleanNothing(parts: seq<string>)
    ensures Clean(parts) == Relative(0, []) <==> LeadsNowhere(parts)
  {
    hide Clean, Follow;
    var r := Clean(parts);
    forall from ensures Follow(from, parts) == Up(from, r.ups) + r.names { CleanFollows(from, parts); }
    if r != Relative(0, []) {
      var x := if r.names == [] then "" else r.names[0] + "x";
      var from := seq(r.ups, i => x);
      assert Up(from, r.ups) == [];
      assert Follow(from, parts) == r.names;
      if r.names != [] { assert |x| == |r.names[0]| + 1; }
      assert r.ups == 0 ==> from == [];
      assert r.ups > 0 ==> from[0] == x;
      assert Follow(from, parts) != from;
    }
  }

  /** The target of a name, in its own terms: an absolute name is refused; one
      stripped of all its components, or of all effect, is skipped; what is left
      is followed from the destination and refused unless it ends there or below. */
  lemma TargetFollows(dest: Path, name: string, strip: nat)
    ensures
      var parts := Components(name);
      SafeTarget(dest, name, strip)
      == if IsAbs(name) then Insecure
         else if |parts| <= strip || LeadsNowhere(parts[strip..]) then Skip
         else if dest <= Follow(dest, parts[strip..]) then At(Follow(dest, parts[strip..]))
         else Insecure
  {
    hide Clean, Follow, LeadsNowhere, NonEmpty, Split, IsAbs;
    var parts := Components(name);
    if |parts| > strip {
      CleanFollows(dest, parts[strip..]);
      CleanNothing(parts[strip..]);
    }
  }

  lemma {:induction false} FollowDown(from: Path, parts: seq<string>)
    requires ProperPath(parts)
    ensures Follow(from, parts) == from + parts
    decreases |parts|
  {
    if parts == [] {
      assert from + [] == from;
    } else {
      assert ProperName(parts[0]);
      FollowDown(from + [parts[0]], parts[1..]);
      assert parts == [parts[0]] + parts[1..];
    }
  }

  /** An ordinary name lands below the destination without its first components. */
  lemma StrippedTarget(dest: Path, parts: seq<string>, strip: nat)
    requires parts != [] && ProperPath(parts)
    ensures SafeTarget(dest, Join(parts, '/'), strip) == if strip < |parts| then At(dest + parts[strip..]) else Skip
  {
    hide Follow, NonEmpty, Split, Join, IsAbs, SafeTarget, LeadsNowhere;
    var name := Join(parts, '/');
    assert forall p :: p in parts ==> '/' !in p;
    SplitJoin(parts, '/');
    ProperKept(parts);
    ProperRelative(parts);
    TargetFollows(dest, name, strip);
    if strip < |parts| {
      assert forall i :: 0 <= i < |parts[strip..]| ==> parts[strip..][i] == parts[strip + i];
      FollowDown(dest, parts[strip..]);
      GoesSomewhere(parts[strip..]);
    }
  }

  lemma {:induction false} ProperKept(parts: seq<string>)
    requires ProperPath(parts)
    ensures NonEmpty(parts) == parts
  {
    if parts == [] {
    } else {
      assert ProperName(parts[0]);
      ProperKept(parts[1..]);
      assert parts == [parts[0]] + parts[1..];
    }
  }

  lemma ProperRelative(parts: seq<string>)
    requires parts != [] && ProperPath(parts)
    ensures !IsAbs(Join(parts, '/'))
  {
    assert ProperName(parts[0]);
    var name := Join(parts, '/');
    assert name[0] == parts[0][0];
  }

  lemma GoesSomewhere(parts: seq<string>)
    requires parts != [] && ProperPath(parts)
    ensures !LeadsNowhere(parts)
  {
    hide Follow, ProperPath;
    FollowDown([], parts);
    assert Follow([], parts) != [];
  }
}
