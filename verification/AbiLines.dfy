/** Answering demands no one version can meet with several versions of a
    project, when they can coexist (abilines.go): the demands are split
    greedily, and the versions must ship different sonames. */
module AbiLines {
  import opened Options
  import opened Sorting
  import opened Text
  import opened Versions
  import opened TagSelection
  import opened VersionPick

  // ----- splitting the demands ------------------------------------------------

  /** The first group from `i` on that still resolves with `c` added. */
  ghost function FirstFit(cat: Catalogue, dead: seq<string>, groups: seq<seq<string>>, c: string, i: nat): (k: nat)
    requires i <= |groups|
    ensures i <= k <= |groups|
    ensures k < |groups| ==> Resolves(cat, groups[k] + [c], dead)
    ensures forall j :: i <= j < k ==> !Resolves(cat, groups[j] + [c], dead)
    decreases |groups| - i
  {
    if i == |groups| || Resolves(cat, groups[i] + [c], dead) then i
    else FirstFit(cat, dead, groups, c, i + 1)
  }

  ghost function Place(cat: Catalogue, dead: seq<string>, groups: seq<seq<string>>,
                       c: string): Option<seq<seq<string>>>
  {
    var k := FirstFit(cat, dead, groups, c, 0);
    if k < |groups| then Some(groups[k := groups[k] + [c]])
    else if Resolves(cat, [c], dead) then Some(groups + [[c]])
    else None
  }

  ghost function Partition(cat: Catalogue, dead: seq<string>, cs: seq<string>): Option<seq<seq<string>>> {
    if cs == [] then Some([])
    else
      match Partition(cat, dead, cs[..|cs| - 1])
      case None => None
      case Some(groups) => Place(cat, dead, groups, cs[|cs| - 1])
  }

  lemma PartitionStep(cat: Catalogue, dead: seq<string>, cs: seq<string>, i: nat, groups: seq<seq<string>>)
    requires i < |cs| && Partition(cat, dead, cs[..i]) == Some(groups)
    ensures Partition(cat, dead, cs[..i + 1]) == Place(cat, dead, groups, cs[i])
  {
    hide Place;
    assert cs[..i + 1][..i] == cs[..i];
  }

  lemma {:induction false} PartitionFails(cat: Catalogue, dead: seq<string>, cs: seq<string>, i: nat)
    requires i <= |cs| && Partition(cat, dead, cs[..i]) == None
    ensures Partition(cat, dead, cs) == None
    decreases |cs| - i
  {
    hide Place;
    if i < |cs| {
      assert cs[..i + 1][..i] == cs[..i];
      PartitionFails(cat, dead, cs, i + 1);
    } else {
      assert cs[..i] == cs;
    }
  }

  lemma FirstFitIs(cat: Catalogue, dead: seq<string>, groups: seq<seq<string>>, c: string, i: nat)
    requires i <= |groups| && forall j :: 0 <= j < i ==> !Resolves(cat, groups[j] + [c], dead)
    requires i < |groups| ==> Resolves(cat, groups[i] + [c], dead)
    ensures FirstFit(cat, dead, groups, c, 0) == i
  {
    hide Resolves;
  }

  method FitGroup(cat: Catalogue, dead: seq<string>, groups: seq<seq<string>>, c: string) returns (i: nat)
    ensures i == FirstFit(cat, dead, groups, c, 0)
  {
    hide *;
    i := 0;
    while i < |groups|
      invariant 0 <= i <= |groups|
      invariant forall j :: 0 <= j < i ==> !Resolves(cat, groups[j] + [c], dead)
    {
      var r := PickVersionForAll(cat, groups[i] + [c], dead);
      if r.Picked? { break; }
      i := i + 1;
    }
    FirstFitIs(cat, dead, groups, c, i);
  }

  lemma PlaceIs(cat: Catalogue, dead: seq<string>, groups: seq<seq<string>>, c: string)
    ensures
      var k := FirstFit(cat, dead, groups, c, 0);
      Place(cat, dead, groups, c) ==
        if k < |groups| then Some(groups[k := groups[k] + [c]])
        else if Resolves(cat, [c], dead) then Some(groups + [[c]])
        else None
  {
    hide FirstFit, Resolves;
  }

  /** The demands in groups that each resolve; none when one never does. */
  method PartitionConstraints(cat: Catalogue, dead: seq<string>, cs: seq<string>) returns (groups: seq<seq<string>>)
    ensures groups == match Partition(cat, dead, cs) case None => [] case Some(gs) => gs
  {
    hide *;
    PartitionNone(cat, dead);
    groups := [];
    assert cs[..0] == [];
    for n := 0 to |cs|
      invariant Partition(cat, dead, cs[..n]) == Some(groups)
    {
      PartitionStep(cat, dead, cs, n, groups);
      PlaceIs(cat, dead, groups, cs[n]);
      var i := FitGroup(cat, dead, groups, cs[n]);
      if i < |groups| {
        groups := groups[i := groups[i] + [cs[n]]];
      } else {
        var alone := PickVersionForAll(cat, [cs[n]], dead);
        if !alone.Picked? {
          PartitionFails(cat, dead, cs, n + 1);
          return [];
        }
        groups := groups + [[cs[n]]];
      }
    }
    assert cs[..|cs|] == cs;
  }

  lemma PartitionNone(cat: Catalogue, dead: seq<string>)
    ensures Partition(cat, dead, []) == Some([])
  {
  }

  // ----- what the groups are ------------------------------------------------------

  function Flatten(groups: seq<seq<string>>): seq<string> {
    if groups == [] then [] else Flatten(groups[..|groups| - 1]) + groups[|groups| - 1]
  }

  ghost predicate AllResolve(cat: Catalogue, dead: seq<string>, groups: seq<seq<string>>) {
    forall k :: 0 <= k < |groups| ==> Resolves(cat, groups[k], dead)
  }

  /** No version meets two groups. */
  ghost predicate Apart(cat: Catalogue, groups: seq<seq<string>>) {
    forall a, b :: 0 <= a < b < |groups| ==> !Common(cat, groups[a] + groups[b])
  }

  lemma {:induction false} FlattenUpdate(groups: seq<seq<string>>, k: nat, c: string)
    requires k < |groups|
    ensures multiset(Flatten(groups[k := groups[k] + [c]])) == multiset(Flatten(groups)) + multiset{c}
  {
    hide *;
    var last := |groups| - 1;
    var changed := groups[k := groups[k] + [c]];
    FlattenLast(groups);
    FlattenLast(changed);
    if k == last {
      assert changed[..last] == groups[..last];
      assert multiset(groups[last] + [c]) == multiset(groups[last]) + multiset{c};
    } else {
      var front := groups[..last];
      FlattenUpdate(front, k, c);
      assert changed[..last] == front[k := front[k] + [c]];
    }
  }

  lemma FlattenLast(groups: seq<seq<string>>)
    requires groups != []
    ensures multiset(Flatten(groups)) == multiset(Flatten(groups[..|groups| - 1])) + multiset(groups[|groups| - 1])
  {
  }

  lemma FlattenSnoc(groups: seq<seq<string>>, g: seq<string>)
    ensures Flatten(groups + [g]) == Flatten(groups) + g
  {
    assert (groups + [g])[..|groups|] == groups;
  }

  lemma {:induction false} FlattenMember(groups: seq<seq<string>>, c: string) returns (k: nat)
    requires c in Flatten(groups)
    ensures k < |groups| && c in groups[k]
  {
    var last := |groups| - 1;
    if c in groups[last] { return last; }
    k := FlattenMember(groups[..last], c);
  }

  lemma PlacePermutes(cat: Catalogue, dead: seq<string>, groups: seq<seq<string>>, c: string)
    requires Place(cat, dead, groups, c).Some?
    ensures multiset(Flatten(Place(cat, dead, groups, c).value)) == multiset(Flatten(groups)) + multiset{c}
  {
    hide Resolves, Flatten;
    var k := FirstFit(cat, dead, groups, c, 0);
    if k < |groups| { FlattenUpdate(groups, k, c); } else { FlattenSnoc(groups, [c]); }
  }

  lemma UsableBoth(cat: Catalogue, x: seq<string>, y: seq<string>, i: int)
    ensures Usable(cat, x + y, i) <==> Usable(cat, x, i) && Usable(cat, y, i)
  {
    hide Satisfies, Published;
    if 0 <= i < |cat.vs| {
      var v := cat.vs[i];
      if SatisfiesAll(v, x + y) {
        assert forall k :: 0 <= k < |x| ==> (x + y)[k] == x[k];
        assert forall k :: 0 <= k < |y| ==> (x + y)[|x| + k] == y[k];
      }
    }
  }

  lemma CommonBoth(cat: Catalogue, x: seq<string>, y: seq<string>)
    ensures Common(cat, x + y) <==> exists i :: Usable(cat, x, i) && Usable(cat, y, i)
  {
    hide Usable;
    forall i ensures Usable(cat, x + y, i) <==> Usable(cat, x, i) && Usable(cat, y, i) { UsableBoth(cat, x, y, i); }
  }

  lemma CommonPart(cat: Catalogue, x: seq<string>, c: seq<string>, y: seq<string>)
    requires Common(cat, (x + c) + y)
    ensures Common(cat, x + y) && Common(cat, x + c)
  {
    hide Usable;
    CommonBoth(cat, x + c, y);
    var i :| Usable(cat, x + c, i) && Usable(cat, y, i);
    UsableBoth(cat, x, c, i);
    UsableBoth(cat, x, y, i);
  }

  lemma CommonSwap(cat: Catalogue, x: seq<string>, y: seq<string>)
    ensures Common(cat, x + y) <==> Common(cat, y + x)
  {
    CommonBoth(cat, x, y);
    CommonBoth(cat, y, x);
    hide Usable;
  }

  lemma PlaceApart(cat: Catalogue, dead: seq<string>, groups: seq<seq<string>>, c: string)
    requires NoSiblings(cat) && Apart(cat, groups) && Place(cat, dead, groups, c).Some?
    ensures Apart(cat, Place(cat, dead, groups, c).value)
  {
    hide Usable, NoSiblings, Common, Resolves;
    var k := FirstFit(cat, dead, groups, c, 0);
    var after := Place(cat, dead, groups, c).value;
    forall a, b | 0 <= a < b < |after| ensures !Common(cat, after[a] + after[b]) {
      if k == |groups| {
        if b == k { CommonIsResolves(cat, groups[a] + [c], dead); }
      } else if a == k {
        if Common(cat, after[a] + after[b]) { CommonPart(cat, groups[a], [c], groups[b]); }
      } else if b == k {
        CommonSwap(cat, after[a], after[b]);
        CommonSwap(cat, groups[a], groups[b]);
        if Common(cat, after[b] + after[a]) { CommonPart(cat, groups[b], [c], groups[a]); }
      }
    }
  }

  lemma CommonIsResolves(cat: Catalogue, cs: seq<string>, dead: seq<string>)
    requires NoSiblings(cat)
    ensures Common(cat, cs) <==> Resolves(cat, cs, dead)
  {
    hide *;
    NoSiblingsNoneBlocked(cat, cs);
    ResolvesIffCommon(cat, cs, dead);
  }

  lemma PlaceResolves(cat: Catalogue, dead: seq<string>, groups: seq<seq<string>>, c: string)
    requires AllResolve(cat, dead, groups) && Place(cat, dead, groups, c).Some?
    ensures AllResolve(cat, dead, Place(cat, dead, groups, c).value)
  {
    hide Resolves;
  }

  lemma {:induction false} PartitionResolves(cat: Catalogue, dead: seq<string>, cs: seq<string>)
    requires Partition(cat, dead, cs).Some?
    ensures AllResolve(cat, dead, Partition(cat, dead, cs).value)
    ensures multiset(Flatten(Partition(cat, dead, cs).value)) == multiset(cs)
  {
    hide Place, Resolves;
    if cs == [] {
    } else {
      var front, last := cs[..|cs| - 1], cs[|cs| - 1];
      PartitionResolves(cat, dead, front);
      var groups := Partition(cat, dead, front).value;
      PlaceResolves(cat, dead, groups, last);
      PlacePermutes(cat, dead, groups, last);
      assert cs == front + [last];
    }
  }

  lemma {:induction false} PartitionApart(cat: Catalogue, dead: seq<string>, cs: seq<string>)
    requires NoSiblings(cat) && Partition(cat, dead, cs).Some?
    ensures Apart(cat, Partition(cat, dead, cs).value)
  {
    hide Place, Common, NoSiblings;
    if cs == [] {
    } else {
      var front := cs[..|cs| - 1];
      PartitionApart(cat, dead, front);
      PlaceApart(cat, dead, Partition(cat, dead, front).value, cs[|cs| - 1]);
    }
  }

  /** The demands split into groups exactly when each is met by some version;
      the groups are a permutation of the demands, some version meets each of
      them, and no version meets two. */
  lemma PartitionSplits(cat: Catalogue, dead: seq<string>, cs: seq<string>)
    requires NoSiblings(cat)
    ensures Partition(cat, dead, cs).Some? <==> forall c :: c in cs ==> Common(cat, [c])
    ensures Partition(cat, dead, cs).Some? ==>
      var groups := Partition(cat, dead, cs).value;
      && multiset(Flatten(groups)) == multiset(cs)
      && (forall k :: 0 <= k < |groups| ==> Common(cat, groups[k]))
      && Apart(cat, groups)
  {
    hide Common, Resolves, NoSiblings, Partition, Apart, Flatten;
    PartitionWhen(cat, dead, cs);
    if Partition(cat, dead, cs).Some? {
      PartitionResolves(cat, dead, cs);
      PartitionApart(cat, dead, cs);
      var groups := Partition(cat, dead, cs).value;
      forall k | 0 <= k < |groups| ensures Common(cat, groups[k]) { CommonIsResolves(cat, groups[k], dead); }
    }
  }

  lemma {:induction false} PartitionWhen(cat: Catalogue, dead: seq<string>, cs: seq<string>)
    requires NoSiblings(cat)
    ensures Partition(cat, dead, cs).Some? <==> forall c :: c in cs ==> Common(cat, [c])
  {
    hide Common, Resolves, NoSiblings, Place;
    if cs == [] {
    } else {
      var front, last := cs[..|cs| - 1], cs[|cs| - 1];
      assert cs == front + [last];
      PartitionWhen(cat, dead, front);
      if Partition(cat, dead, front).Some? { PlaceWhen(cat, dead, Partition(cat, dead, front).value, last); }
    }
  }

  lemma PlaceWhen(cat: Catalogue, dead: seq<string>, groups: seq<seq<string>>, c: string)
    requires NoSiblings(cat)
    ensures Place(cat, dead, groups, c).Some? <==> Common(cat, [c])
  {
    hide Common, Resolves, NoSiblings, Usable;
    CommonIsResolves(cat, [c], dead);
    var k := FirstFit(cat, dead, groups, c, 0);
    if k < |groups| {
      CommonIsResolves(cat, groups[k] + [c], dead);
      CommonAlone(cat, groups[k], [c]);
    }
  }

  lemma CommonAlone(cat: Catalogue, x: seq<string>, y: seq<string>)
    requires Common(cat, x + y)
    ensures Common(cat, x) && Common(cat, y)
  {
    hide Usable;
    CommonBoth(cat, x, y);
  }

  // ----- coexistence ------------------------------------------------------------------

  /** The sonames an annotation declares. */
  function Names(annotation: string): seq<string> { Trimmings(Split(annotation, ',')) }

  /** All sonames the versions declare, in order; `declares` gives the
      annotation of a tag. */
  function AllNames(vers: seq<Ver>, declares: string -> string): seq<string> {
    if vers == [] then []
    else AllNames(vers[..|vers| - 1], declares) + Names(declares(vers[|vers| - 1].PullTag()))
  }

  ghost predicate Coexist(vers: seq<Ver>, declares: string -> string) {
    && (forall k :: 0 <= k < |vers| ==> Names(declares(vers[k].PullTag())) != [])
    && Distinct(AllNames(vers, declares))
  }

  datatype Coexistence = Disjoint | Shadowing(former: string, later: string, soname: string) | Undeclared(raw: string)

  lemma {:induction false} TrimmingsSnoc(parts: seq<string>, i: nat)
    requires i < |parts|
    ensures Trimmings(parts[..i + 1]) == Trimmings(parts[..i]) + Kept(parts[i])
  {
    hide *;
    TrimmingsCons(parts[..i + 1]);
    TrimmingsCons(parts[..i]);
    if i == 0 {
      TrimmingsStart(parts);
      assert parts[..1][1..] == parts[..0];
      assert Kept(parts[0]) + [] == Kept(parts[0]) == [] + Kept(parts[0]);
    } else {
      TrimmingsSnoc(parts[1..], i - 1);
      assert parts[..i + 1][1..] == parts[1..][..i] && parts[..i][1..] == parts[1..][..i - 1];
    }
  }

  lemma TrimmingsCons(parts: seq<string>)
    ensures parts != [] ==> Trimmings(parts) == Kept(parts[0]) + Trimmings(parts[1..])
  {
    hide Kept;
  }

  lemma AllNamesStep(vers: seq<Ver>, declares: string -> string, i: nat)
    requires i < |vers|
    ensures AllNames(vers[..i + 1], declares) == AllNames(vers[..i], declares) + Names(declares(vers[i].PullTag()))
  {
    hide Names;
    assert vers[..i + 1][..i] == vers[..i];
  }

  lemma {:induction false} AllNamesPrefix(vers: seq<Ver>, declares: string -> string, i: nat)
    requires i <= |vers|
    ensures AllNames(vers[..i], declares) <= AllNames(vers, declares)
    decreases |vers| - i
  {
    hide Names;
    if i < |vers| {
      AllNamesStep(vers, declares, i);
      AllNamesPrefix(vers, declares, i + 1);
    } else {
      assert vers[..i] == vers;
    }
  }

  lemma {:induction false} TrimmingsPrefix(parts: seq<string>, i: nat)
    requires i <= |parts|
    ensures Trimmings(parts[..i]) <= Trimmings(parts)
    decreases |parts| - i
  {
    hide Kept, Trimmings;
    if i < |parts| {
      TrimmingsSnoc(parts, i);
      TrimmingsPrefix(parts, i + 1);
    } else {
      assert parts[..i] == parts;
    }
  }

  lemma RepeatShows(some: seq<string>, all: seq<string>)
    requires some <= all && !Distinct(some)
    ensures !Distinct(all)
  {
    var i, j :| 0 <= i < j < |some| && some[i] == some[j];
    assert all[i] == all[j];
  }

  lemma OneMore(names: seq<string>, s: string)
    ensures Distinct(names + [s]) <==> Distinct(names) && s !in names
  {
    var more := names + [s];
    assert forall i :: 0 <= i < |names| ==> more[i] == names[i];
    assert more[|names|] == s;
  }

  /** Enters one version's sonames, up to the first that has an owner. */
  method Enter(owned: map<string, string>, raw: string, parts: seq<string>, ghost before: seq<string>)
    returns (owner: map<string, string>, declared: bool, clash: Option<string>)
    requires Distinct(before) && forall s :: s in owned <==> s in before
    ensures clash.Some? ==> clash.value in owner && !Distinct(before + Trimmings(parts))
    ensures clash.None? ==>
      && Distinct(before + Trimmings(parts)) && (declared <==> Trimmings(parts) != [])
      && forall s :: s in owner <==> s in before + Trimmings(parts)
  {
    hide *;
    owner := owned;
    declared := false;
    TrimmingsStart(parts);
    assert before + [] == before;
    var j := 0;
    while j < |parts|
      invariant 0 <= j <= |parts|
      invariant Distinct(before + Trimmings(parts[..j]))
      invariant forall s :: s in owner <==> s in before + Trimmings(parts[..j])
      invariant declared <==> Trimmings(parts[..j]) != []
    {
      var s := TrimSpace(parts[j]);
      ghost var done := before + Trimmings(parts[..j]);
      TrimmingsSnoc(parts, j);
      KeptIs(parts[j]);
      assert done + Kept(parts[j]) == before + Trimmings(parts[..j + 1]);
      if s != "" {
        declared := true;
        OneMore(done, s);
        if s in owner {
          TrimmingsPrefix(parts, j + 1);
          RepeatShows(before + Trimmings(parts[..j + 1]), before + Trimmings(parts));
          return owner, declared, Some(s);
        }
        owner := owner[s := raw];
      } else {
        assert done + [] == done;
      }
      j := j + 1;
    }
    assert parts[..j] == parts;
    clash := None;
  }

  /** Every soname is shipped once, and every version declares some. */
  method SonamesDisjoint(vers: seq<Ver>, declares: string -> string) returns (r: Coexistence)
    ensures r.Disjoint? <==> Coexist(vers, declares)
  {
    hide *;
    var owner: map<string, string> := map[];
    NamesStart(vers, declares);
    CoexistMeans(vers, declares);
    var i := 0;
    while i < |vers|
      invariant 0 <= i <= |vers|
      invariant Distinct(AllNames(vers[..i], declares))
      invariant forall s :: s in owner <==> s in AllNames(vers[..i], declares)
      invariant forall k :: 0 <= k < i ==> Names(declares(vers[k].PullTag())) != []
    {
      var v := vers[i];
      var parts := Split(declares(v.PullTag()), ',');
      NamesOf(declares(v.PullTag()), parts);
      AllNamesStep(vers, declares, i);
      AllNamesPrefix(vers, declares, i + 1);
      var declared, clash;
      owner, declared, clash := Enter(owner, v.raw, parts, AllNames(vers[..i], declares));
      if clash.Some? {
        RepeatShows(AllNames(vers[..i + 1], declares), AllNames(vers, declares));
        return Shadowing(owner[clash.value], v.raw, clash.value);
      }
      if !declared { return Undeclared(v.raw); }
      i := i + 1;
    }
    assert vers[..i] == vers;
    return Disjoint;
  }

  lemma NamesStart(vers: seq<Ver>, declares: string -> string)
    ensures AllNames(vers[..0], declares) == [] && Distinct(AllNames(vers[..0], declares))
  {
  }

  lemma TrimmingsStart(parts: seq<string>)
    ensures Trimmings(parts[..0]) == []
  {
  }

  lemma NamesOf(annotation: string, parts: seq<string>)
    requires parts == Split(annotation, ',')
    ensures Names(annotation) == Trimmings(parts)
  {
  }

  lemma KeptIs(p: string)
    ensures Kept(p) == if TrimSpace(p) != "" then [TrimSpace(p)] else []
  {
  }

  lemma CoexistMeans(vers: seq<Ver>, declares: string -> string)
    ensures Coexist(vers, declares) <==>
      (forall k :: 0 <= k < |vers| ==> Names(declares(vers[k].PullTag())) != []) && Distinct(AllNames(vers, declares))
  {
    hide AllNames, Names, Distinct;
  }

  /** Declared names of one version. */
  function Ships(v: Ver, declares: string -> string): seq<string> { Names(declares(v.PullTag())) }

  lemma {:induction false} AllNamesFrom(vers: seq<Ver>, declares: string -> string, s: string)
    ensures s in AllNames(vers, declares) <==> exists k :: 0 <= k < |vers| && s in Ships(vers[k], declares)
  {
    hide Names;
    if vers == [] {
    } else {
      var front := vers[..|vers| - 1];
      AllNamesFrom(front, declares, s);
      assert forall k :: 0 <= k < |front| ==> front[k] == vers[k];
    }
  }

  lemma SharedRepeats(a: seq<string>, b: seq<string>, s: string)
    requires s in a && s in b
    ensures !Distinct(a + b)
  {
    var i :| 0 <= i < |a| && a[i] == s;
    var j :| 0 <= j < |b| && b[j] == s;
    assert (a + b)[i] == (a + b)[|a| + j];
  }

  lemma AppendDistinct(a: seq<string>, b: seq<string>)
    ensures Distinct(a + b) <==> Distinct(a) && Distinct(b) && forall s :: !(s in a && s in b)
  {
    var ab := a + b;
    assert forall i :: 0 <= i < |a| ==> ab[i] == a[i];
    assert forall i :: 0 <= i < |b| ==> ab[|a| + i] == b[i];
    if exists s :: s in a && s in b {
      var s :| s in a && s in b;
      SharedRepeats(a, b, s);
    }
    if Distinct(ab) {
      forall i, j | 0 <= i < j < |b| ensures b[i] != b[j] { assert ab[|a| + i] != ab[|a| + j]; }
    }
    if Distinct(a) && Distinct(b) && forall s :: !(s in a && s in b) {
      forall i, j | 0 <= i < j < |ab| ensures ab[i] != ab[j] {
        if i < |a| <= j { assert ab[i] in a && ab[j] in b; }
      }
    }
  }

  /** Versions coexist exactly when each declares some soname, no soname is
      shipped by two of them, and none declares one twice. */
  lemma {:induction false} CoexistIff(vers: seq<Ver>, declares: string -> string)
    ensures Coexist(vers, declares) <==>
      && (forall k :: 0 <= k < |vers| ==> Ships(vers[k], declares) != [] && Distinct(Ships(vers[k], declares)))
      && (forall a, b, s :: 0 <= a < b < |vers| ==> !(s in Ships(vers[a], declares) && s in Ships(vers[b], declares)))
  {
    hide *;
    CoexistMeans(vers, declares);
    if vers == [] {
      NamesStart(vers, declares);
      assert vers[..0] == [];
    } else {
      var front, last := vers[..|vers| - 1], vers[|vers| - 1];
      CoexistIff(front, declares);
      CoexistMeans(front, declares);
      AllNamesLast(vers, declares);
      AppendDistinct(AllNames(front, declares), Ships(last, declares));
      SharedWithFront(front, last, declares);
      assert vers == front + [last];
    }
  }

  /** One version alone is refused when it lists "a" twice. */
  lemma TwiceDeclared(v: Ver, declares: string -> string)
    requires declares(v.PullTag()) == "a,a"
    ensures !Coexist([v], declares)
  {
    hide *;
    SplitTwice();
    KeptIs("a");
    TrimSpaceFixed("a");
    TrimmedOne();
    TwoParts("a", "a");
    NamesOf("a,a", ["a", "a"]);
    OneVersion(v, declares);
    CoexistMeans([v], declares);
    SharedRepeats(["a"], ["a"], "a");
    assert ["a"] + ["a"] == ["a", "a"];
  }

  lemma SplitTwice()
    ensures Split("a,a", ',') == ["a", "a"]
  {
    assert "a" + [','] + "a" == "a,a";
    SplitCons("a", "a", ',');
  }

  lemma TrimmedOne()
    ensures Trimmed("a")
  {
  }

  lemma OneVersion(v: Ver, declares: string -> string)
    ensures AllNames([v], declares) == Names(declares(v.PullTag()))
  {
    hide Names;
    assert [v][..0] == [];
  }

  lemma TwoParts(x: string, y: string)
    ensures Trimmings([x, y]) == Kept(x) + Kept(y)
  {
    assert [x, y][1..] == [y];
    assert Trimmings([y]) == Kept(y) + Trimmings([]);
  }

  lemma AllNamesLast(vers: seq<Ver>, declares: string -> string)
    requires vers != []
    ensures AllNames(vers, declares) == AllNames(vers[..|vers| - 1], declares) + Ships(vers[|vers| - 1], declares)
    ensures forall k :: 0 <= k < |vers| ==> Ships(vers[k], declares) == Names(declares(vers[k].PullTag()))
  {
    hide Names;
  }

  lemma SharedWithFront(front: seq<Ver>, last: Ver, declares: string -> string)
    ensures (forall s :: !(s in AllNames(front, declares) && s in Ships(last, declares)))
      <==> forall k, s :: 0 <= k < |front| ==> !(s in Ships(front[k], declares) && s in Ships(last, declares))
  {
    hide *;
    forall s
      ensures s in AllNames(front, declares) <==> exists k :: 0 <= k < |front| && s in Ships(front[k], declares)
    {
      AllNamesFrom(front, declares, s);
    }
  }

  // ----- the lines ----------------------------------------------------------------------

  ghost predicate PickedFor(cat: Catalogue, cs: seq<string>, dead: seq<string>, v: Ver) {
    exists i :: Chosen(cat, cs, dead, i) && PulledAs(cat, cat.vs[i], v)
  }

  predicate NewerFirst(a: Ver, b: Ver) { Compare(a, b) >= 0 }

  /** One pick for each group of the demands. */
  ghost predicate OnePerGroup(cat: Catalogue, cs: seq<string>, dead: seq<string>, picks: seq<Ver>) {
    && Partition(cat, dead, cs).Some? && |picks| == |Partition(cat, dead, cs).value|
    && forall k :: 0 <= k < |picks| ==> PickedFor(cat, Partition(cat, dead, cs).value[k], dead, picks[k])
  }

  /** The versions that answer the demands, newest first. */
  ghost predicate Lines(cat: Catalogue, cs: seq<string>, dead: seq<string>, declares: string -> string,
                        vers: seq<Ver>)
  {
    exists picks ::
      && OnePerGroup(cat, cs, dead, picks) && |picks| >= 2
      && Coexist(picks, declares) && vers == Sort(picks, NewerFirst)
  }

  lemma LinesAre(cat: Catalogue, cs: seq<string>, dead: seq<string>, declares: string -> string, picks: seq<Ver>)
    requires OnePerGroup(cat, cs, dead, picks) && |picks| >= 2 && Coexist(picks, declares)
    ensures Lines(cat, cs, dead, declares, Sort(picks, NewerFirst))
  {
  }

  lemma OnePerGroupIs(cat: Catalogue, cs: seq<string>, dead: seq<string>, groups: seq<seq<string>>, picks: seq<Ver>)
    requires Partition(cat, dead, cs) == Some(groups) && |picks| == |groups|
    requires forall k :: 0 <= k < |picks| ==> PickedFor(cat, groups[k], dead, picks[k])
    ensures OnePerGroup(cat, cs, dead, picks)
  {
    hide PickedFor, Partition;
  }

  lemma PickedForIs(cat: Catalogue, cs: seq<string>, dead: seq<string>, r: Pick)
    requires r.Picked?
    requires
      exists i ::
        && Chosen(cat, cs, dead, i) && PulledAs(cat, cat.vs[i], r.v)
        && r.line == DeprecatedLine(cat.vs[i].raw, dead)
    ensures PickedFor(cat, cs, dead, r.v)
  {
    hide Chosen, PulledAs, DeprecatedLine;
  }

  lemma GroupResolves(cat: Catalogue, dead: seq<string>, cs: seq<string>, groups: seq<seq<string>>, k: nat)
    requires Partition(cat, dead, cs) == Some(groups) && k < |groups|
    ensures Resolves(cat, groups[k], dead)
  {
    hide Partition, Resolves, Flatten;
    PartitionResolves(cat, dead, cs);
  }

  method PickAbiLines(cat: Catalogue, cs: seq<string>, dead: seq<string>, declares: string -> string)
    returns (r: Option<seq<Ver>>)
    ensures r.Some? ==> |cs| >= 2 && Lines(cat, cs, dead, declares, r.value)
    ensures r.None? ==>
      || |cs| < 2 || Partition(cat, dead, cs).None? || |Partition(cat, dead, cs).value| < 2
      || exists picks :: OnePerGroup(cat, cs, dead, picks) && !Coexist(picks, declares)
  {
    hide *;
    if |cs| < 2 { return None; }
    var groups := PartitionConstraints(cat, dead, cs);
    if |groups| < 2 { return None; }
    assert Partition(cat, dead, cs) == Some(groups);
    var picks: seq<Ver> := [];
    for k := 0 to |groups|
      invariant |picks| == k
      invariant forall n :: 0 <= n < k ==> PickedFor(cat, groups[n], dead, picks[n])
    {
      GroupResolves(cat, dead, cs, groups, k);
      var p := PickVersionForAll(cat, groups[k], dead);
      PickedForIs(cat, groups[k], dead, p);
      picks := picks + [p.v];
    }
    OnePerGroupIs(cat, cs, dead, groups, picks);
    var coexistence := SonamesDisjoint(picks, declares);
    if !coexistence.Disjoint? { return None; }
    LinesAre(cat, cs, dead, declares, picks);
    return Some(Sort(picks, NewerFirst));
  }

  lemma PulledCompares(cat: Catalogue, v: Ver, w: Ver, v': Ver, w': Ver)
    requires PulledAs(cat, v, w) && PulledAs(cat, v', w')
    ensures Compare(w, w') == Compare(v, v')
    ensures Compare(v, w) == 0
  {
    PulledRaw(cat, v, w);
    PulledRaw(cat, v', w');
    ComparePreorder(v, v, v);
    hide PulledAs, CompareNums;
  }

  lemma TiesUsable(cat: Catalogue, cs: seq<string>, i: int, j: int)
    requires 0 <= i < |cat.vs| && Usable(cat, [], i) && Usable(cat, cs, j) && Compare(cat.vs[i], cat.vs[j]) == 0
    ensures Usable(cat, cs, i)
  {
    hide Satisfies, Published, Compare;
    forall k | 0 <= k < |cs| ensures Satisfies(cat.vs[i], cs[k]) {
      TiesSatisfyAlike(cat.vs[i], cat.vs[j], cs[k]);
    }
  }

  lemma UsableLess(cat: Catalogue, cs: seq<string>, i: int)
    requires Usable(cat, cs, i)
    ensures 0 <= i < |cat.vs| && Usable(cat, [], i)
  {
    hide Published, Satisfies;
  }

  lemma ChosenUsable(cat: Catalogue, cs: seq<string>, dead: seq<string>, v: Ver) returns (i: int)
    requires PickedFor(cat, cs, dead, v)
    ensures 0 <= i < |cat.vs| && Usable(cat, cs, i) && PulledAs(cat, cat.vs[i], v)
  {
    hide PulledAs, Published, SatisfiesAll, Ends, Blocked, Dead;
    i :| Chosen(cat, cs, dead, i) && PulledAs(cat, cat.vs[i], v);
  }

  /** Picks for groups that no version bridges are different versions. */
  lemma PicksDiffer(cat: Catalogue, x: seq<string>, y: seq<string>, dead: seq<string>, v: Ver, w: Ver)
    requires PickedFor(cat, x, dead, v) && PickedFor(cat, y, dead, w) && !Common(cat, x + y)
    ensures Compare(v, w) != 0
  {
    hide *;
    var i := ChosenUsable(cat, x, dead, v);
    var j := ChosenUsable(cat, y, dead, w);
    PulledCompares(cat, cat.vs[i], v, cat.vs[j], w);
    if Compare(v, w) == 0 {
      UsableLess(cat, x, i);
      TiesUsable(cat, y, i, j);
      CommonBoth(cat, x, y);
    }
  }

  lemma AllDiffer(cat: Catalogue, cs: seq<string>, dead: seq<string>, picks: seq<Ver>)
    requires NoSiblings(cat) && OnePerGroup(cat, cs, dead, picks)
    ensures forall a, b :: 0 <= a < b < |picks| ==> Compare(picks[a], picks[b]) != 0
  {
    var groups := Partition(cat, dead, cs).value;
    PartitionApart(cat, dead, cs);
    hide Compare, PickedFor, Common, Partition;
    forall a, b | 0 <= a < b < |picks| ensures Compare(picks[a], picks[b]) != 0 {
      PicksDiffer(cat, groups[a], groups[b], dead, picks[a], picks[b]);
    }
  }

  lemma {:induction false} Places<T>(s: seq<T>, x: T, y: T) returns (a: nat, b: nat)
    requires x in s && y in s && x != y
    ensures a < |s| && b < |s| && a != b && s[a] == x && s[b] == y
  {
    a :| a < |s| && s[a] == x;
    b :| b < |s| && s[b] == y;
  }

  lemma DifferDistinct(picks: seq<Ver>)
    requires forall a, b :: 0 <= a < b < |picks| ==> Compare(picks[a], picks[b]) != 0
    ensures Distinct(picks)
  {
    forall a, b | 0 <= a < b < |picks| ensures picks[a] != picks[b] {
      ComparePreorder(picks[a], picks[b], picks[a]);
    }
    hide Compare;
  }

  lemma NewerFirstOrders()
    ensures PreOrder(NewerFirst)
  {
    forall a, b ensures NewerFirst(a, b) || NewerFirst(b, a) { ComparePreorder(a, b, a); }
    forall a, b, c | NewerFirst(a, b) && NewerFirst(b, c) ensures NewerFirst(a, c) {
      ComparePreorder(a, b, b);
      ComparePreorder(b, c, c);
      ComparePreorder(a, c, c);
      ComparePreorder(c, b, a);
    }
    hide Compare;
  }

  /** Sorting different versions newest first makes them strictly descend. */
  lemma SortedDescends(picks: seq<Ver>, vers: seq<Ver>)
    requires forall a, b :: 0 <= a < b < |picks| ==> Compare(picks[a], picks[b]) != 0
    requires vers == Sort(picks, NewerFirst)
    ensures |vers| == |picks| && Distinct(vers) && Distinct(picks) && multiset(vers) == multiset(picks)
    ensures forall i, j :: 0 <= i < j < |vers| ==> Compare(vers[i], vers[j]) > 0
  {
    hide *;
    NewerFirstOrders();
    SortPermutes(picks, NewerFirst);
    SortSorted(picks, NewerFirst);
    DifferDistinct(picks);
    PermutedDistinct(picks, vers);
    forall i, j | 0 <= i < j < |vers| ensures Compare(vers[i], vers[j]) > 0 {
      DistinctAt(vers, i, j);
      SortedAt(vers, i, j);
      assert vers[i] in vers && vers[j] in vers;
      var a, b := Places(picks, vers[i], vers[j]);
      ComparePreorder(picks[a], picks[b], picks[a]);
    }
  }

  lemma DistinctAt<T>(s: seq<T>, i: nat, j: nat)
    requires Distinct(s) && i < j < |s|
    ensures s[i] != s[j]
  {
  }

  lemma SortedAt(vers: seq<Ver>, i: nat, j: nat)
    requires Sorted(vers, NewerFirst) && i < j < |vers|
    ensures Compare(vers[i], vers[j]) >= 0
  {
    hide Compare;
    assert NewerFirst(vers[i], vers[j]);
  }

  /** Each demand is met by the pick of its group. */
  lemma DemandsCovered(cat: Catalogue, cs: seq<string>, dead: seq<string>, picks: seq<Ver>)
    requires OnePerGroup(cat, cs, dead, picks)
    ensures forall c :: c in cs ==> exists v :: v in picks && Satisfies(v, c)
  {
    hide *;
    GroupsOf(cat, cs, dead, picks);
    PartitionResolves(cat, dead, cs);
    var groups := Partition(cat, dead, cs).value;
    forall c | c in cs ensures exists v :: v in picks && Satisfies(v, c) {
      assert c in multiset(cs);
      var k := FlattenMember(groups, c);
      var i := ChosenUsable(cat, groups[k], dead, picks[k]);
      MetBy(cat, groups[k], i, c, picks[k]);
      assert picks[k] in picks;
    }
  }

  lemma GroupsOf(cat: Catalogue, cs: seq<string>, dead: seq<string>, picks: seq<Ver>)
    requires OnePerGroup(cat, cs, dead, picks)
    ensures Partition(cat, dead, cs).Some? && |picks| == |Partition(cat, dead, cs).value|
    ensures forall k :: 0 <= k < |picks| ==> PickedFor(cat, Partition(cat, dead, cs).value[k], dead, picks[k])
  {
    hide PickedFor, Partition;
  }

  lemma MetBy(cat: Catalogue, cs: seq<string>, i: int, c: string, v: Ver)
    requires Usable(cat, cs, i) && c in cs && PulledAs(cat, cat.vs[i], v)
    ensures Satisfies(v, c)
  {
    hide Published, PulledAs, Satisfies;
    PulledCompares(cat, cat.vs[i], v, cat.vs[i], v);
    TiesSatisfyAlike(cat.vs[i], v, c);
  }

  /** The answer: versions strictly newest first, every demand met by one of
      them, each declaring sonames and no soname shipped by two. */
  lemma LinesSound(cat: Catalogue, cs: seq<string>, dead: seq<string>, declares: string -> string, vers: seq<Ver>)
    requires NoSiblings(cat) && Lines(cat, cs, dead, declares, vers)
    ensures |vers| >= 2
    ensures forall i, j :: 0 <= i < j < |vers| ==> Compare(vers[i], vers[j]) > 0
    ensures forall c :: c in cs ==> exists v :: v in vers && Satisfies(v, c)
    ensures forall v :: v in vers ==> Ships(v, declares) != []
    ensures forall i, j, s :: 0 <= i < j < |vers| ==> !(s in Ships(vers[i], declares) && s in Ships(vers[j], declares))
  {
    hide *;
    var picks := LinesPicks(cat, cs, dead, declares, vers);
    AllDiffer(cat, cs, dead, picks);
    SortedDescends(picks, vers);
    PermutedDistinct(picks, vers);
    DemandsCovered(cat, cs, dead, picks);
    CoexistIff(picks, declares);
    forall i, j, s | 0 <= i < j < |vers| ensures !(s in Ships(vers[i], declares) && s in Ships(vers[j], declares)) {
      DistinctAt(vers, i, j);
      assert vers[i] in vers && vers[j] in vers;
      var a, b := Places(picks, vers[i], vers[j]);
      assert if a < b then !(s in Ships(picks[a], declares) && s in Ships(picks[b], declares))
        else !(s in Ships(picks[b], declares) && s in Ships(picks[a], declares));
    }
  }

  lemma LinesPicks(cat: Catalogue, cs: seq<string>, dead: seq<string>, declares: string -> string, vers: seq<Ver>)
    returns (picks: seq<Ver>)
    requires Lines(cat, cs, dead, declares, vers)
    ensures OnePerGroup(cat, cs, dead, picks) && |picks| >= 2
    ensures Coexist(picks, declares) && vers == Sort(picks, NewerFirst)
  {
    hide OnePerGroup, Coexist;
    picks :| OnePerGroup(cat, cs, dead, picks) && |picks| >= 2
      && Coexist(picks, declares) && vers == Sort(picks, NewerFirst);
  }
}
