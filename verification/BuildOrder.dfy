/** Ordering the builds of one version (buildorder.go). Builds made against
    different closures are only partially ordered; counting how many builds
    dominate each one turns that order into a sort key. */
module BuildOrder {
  import opened Sorting
  import opened Text
  import opened Versions
  import opened TagSelection
  import opened Identity

  /** `installedAt` is 0 for a build that is not installed here. */
  datatype Build = Build(version: Ver, spec: Concrete, installedAt: nat) {
    function Hash(): string { version.variant }
  }

  datatype Order = ByStatus | ByHash | ByInstalled | ByClosure

  ghost predicate DistinctHashes(builds: seq<Build>) {
    forall i, j :: 0 <= i < j < |builds| ==> builds[i].Hash() != builds[j].Hash()
  }

  // ----- dominance ---------------------------------------------------------

  function VersionOrder(a: Dep, b: Dep): int { Compare(Parsed(a.version), Parsed(b.version)) }

  ghost predicate OlderSomewhere(a: Concrete, b: Concrete) {
    exists d, e :: d in a.deps && e in b.deps && d.project == e.project && VersionOrder(d, e) < 0
  }

  ghost predicate NewerSomewhere(a: Concrete, b: Concrete) {
    exists d, e :: d in a.deps && e in b.deps && d.project == e.project && VersionOrder(d, e) > 0
  }

  /** At least as new on every shared dependency, strictly newer on one. */
  ghost predicate Later(a: Concrete, b: Concrete) {
    !a.IsZero() && !b.IsZero() && !OlderSomewhere(a, b) && NewerSomewhere(a, b)
  }

  /** Compares one dependency with all of the other closure's. */
  method CompareDep(d: Dep, deps: seq<Dep>) returns (older: bool, newer: bool)
    ensures older <==> exists e :: e in deps && d.project == e.project && VersionOrder(d, e) < 0
    ensures !older ==> (newer <==> exists e :: e in deps && d.project == e.project && VersionOrder(d, e) > 0)
  {
    hide Compare, Parsed;
    newer := false;
    var k := 0;
    while k < |deps|
      invariant 0 <= k <= |deps|
      invariant forall e :: e in deps[..k] && d.project == e.project ==> VersionOrder(d, e) >= 0
      invariant newer <==> exists e :: e in deps[..k] && d.project == e.project && VersionOrder(d, e) > 0
    {
      var e := deps[k];
      assert deps[..k + 1] == deps[..k] + [e];
      if d.project == e.project {
        var v := ParseVer(d.version);
        var w := ParseVer(e.version);
        var c := CmpVer(v, w);
        assert c == VersionOrder(d, e);
        if c == -1 { return true, newer; }
        if c == 1 { newer := true; }
      }
      k := k + 1;
    }
    assert deps[..k] == deps;
    older := false;
  }

  method ClosureIsLater(a: Concrete, b: Concrete) returns (later: bool)
    ensures later <==> Later(a, b)
  {
    hide VersionOrder;
    if a.IsZero() || b.IsZero() { return false; }
    var better := false;
    var i := 0;
    while i < |a.deps|
      invariant 0 <= i <= |a.deps|
      invariant forall d, e :: d in a.deps[..i] && e in b.deps && d.project == e.project ==> VersionOrder(d, e) >= 0
      invariant better <==>
        exists d, e :: d in a.deps[..i] && e in b.deps && d.project == e.project && VersionOrder(d, e) > 0
    {
      var d := a.deps[i];
      assert a.deps[..i + 1] == a.deps[..i] + [d];
      var older, newer := CompareDep(d, b.deps);
      if older { return false; }
      better := better || newer;
      i := i + 1;
    }
    assert a.deps[..i] == a.deps;
    later := better;
  }

  ghost function Projects(c: Concrete): set<string> { set d | d in c.deps :: d.project }

  lemma VersionOrderChain(a: Dep, b: Dep, c: Dep)
    requires VersionOrder(a, b) >= 0 && VersionOrder(b, c) >= 0
    ensures VersionOrder(a, c) >= 0
    ensures VersionOrder(a, b) > 0 || VersionOrder(b, c) > 0 ==> VersionOrder(a, c) > 0
  {
    hide Compare, Parsed;
    ComparePreorder(Parsed(c.version), Parsed(b.version), Parsed(a.version));
    ComparePreorder(Parsed(a.version), Parsed(b.version), Parsed(c.version));
    ComparePreorder(Parsed(a.version), Parsed(c.version), Parsed(b.version));
  }

  lemma VersionOrderFlip(a: Dep, b: Dep)
    ensures VersionOrder(a, b) == -VersionOrder(b, a)
  {
    hide Compare, Parsed;
    ComparePreorder(Parsed(a.version), Parsed(b.version), Parsed(a.version));
  }

  /** No build is later than itself, and no two are later than each other,
      whatever they record. */
  lemma LaterAsymmetric(a: Concrete, b: Concrete)
    requires Later(a, b)
    ensures !Later(b, a)
  {
    hide VersionOrder;
    var d, e :| d in a.deps && e in b.deps && d.project == e.project && VersionOrder(d, e) > 0;
    VersionOrderFlip(d, e);
  }

  /** Project sets over which dominance carries through: what the ends share
      the middle knows, and one of the two improvements is visible at both ends. */
  predicate Composable(a: set<string>, b: set<string>, c: set<string>) {
    a * b == {} || b * c == {} || (a * c <= b && (a * b <= c || b * c <= a))
  }

  lemma Shares(a: Concrete, b: Concrete, d: Dep, e: Dep)
    requires d in a.deps && e in b.deps && d.project == e.project
    ensures d.project in Projects(a) * Projects(b)
  {
  }

  lemma DepFor(c: Concrete, p: string) returns (d: Dep)
    requires p in Projects(c)
    ensures d in c.deps && d.project == p
  {
    d :| d in c.deps && d.project == p;
  }

  /** Whatever the closures record, once or more often, dominance is transitive
      over composable project sets. */
  lemma LaterTransitive(a: Concrete, b: Concrete, c: Concrete)
    requires Later(a, b) && Later(b, c)
    requires Composable(Projects(a), Projects(b), Projects(c))
    ensures Later(a, c)
  {
    hide VersionOrder, Projects;
    var d, e :| d in a.deps && e in b.deps && d.project == e.project && VersionOrder(d, e) > 0;
    var e', f :| e' in b.deps && f in c.deps && e'.project == f.project && VersionOrder(e', f) > 0;
    Shares(a, b, d, e);
    Shares(b, c, e', f);
    forall d, f | d in a.deps && f in c.deps && d.project == f.project ensures VersionOrder(d, f) >= 0 {
      Shares(a, c, d, f);
      var e := DepFor(b, d.project);
      VersionOrderChain(d, e, f);
    }
    if Projects(a) * Projects(b) <= Projects(c) {
      var g := DepFor(c, d.project);
      VersionOrderChain(d, e, g);
    } else {
      var g := DepFor(a, f.project);
      VersionOrderChain(g, e', f);
    }
  }

  /** How far dominance is from an order over other sets: three closures that
      share one project pairwise can each be later than the next, in a ring. */
  lemma LaterCanCycle(v1: string, v2: string, p: string, q: string, r: string)
    requires Compare(Parsed(v2), Parsed(v1)) > 0
    requires p != q && q != r && p != r
    ensures exists a, b, c :: Later(a, b) && Later(b, c) && Later(c, a)
  {
    hide *;
    LaterOnOne(v1, v2, p, q, r);
    LaterOnOne(v1, v2, q, r, p);
    LaterOnOne(v1, v2, r, p, q);
  }

  function Pair(newer: Dep, older: Dep): Concrete { Concrete("", map[], [newer, older], "", "") }

  /** Two closures sharing the project `p` only, newer in the first. */
  lemma LaterOnOne(v1: string, v2: string, p: string, q: string, r: string)
    requires Compare(Parsed(v2), Parsed(v1)) > 0
    requires p != q && q != r && p != r
    ensures Later(Pair(Dep(p, v2, ""), Dep(r, v1, "")), Pair(Dep(q, v2, ""), Dep(p, v1, "")))
  {
    hide Compare, Parsed;
    var a, b := Pair(Dep(p, v2, ""), Dep(r, v1, "")), Pair(Dep(q, v2, ""), Dep(p, v1, ""));
    assert a.deps[0] in a.deps && b.deps[1] in b.deps && VersionOrder(a.deps[0], b.deps[1]) > 0;
  }

  // ----- closures with chosen versions ----------------------------------------

  /** Each project is recorded once. */
  ghost predicate Once(c: Concrete) {
    forall i, j :: 0 <= i < j < |c.deps| ==> c.deps[i].project != c.deps[j].project
  }

  ghost function DepsAt(names: seq<string>, version: string -> nat): (r: seq<Dep>)
    ensures |r| == |names|
    ensures forall i :: 0 <= i < |r| ==> r[i] == Dep(names[i], Dotted([version(names[i])]), "")
  {
    seq(|names|, i requires 0 <= i < |names| => Dep(names[i], Dotted([version(names[i])]), ""))
  }

  /** A closure over some projects, each at a one-component version. */
  ghost function SpecAt(names: set<string>, version: string -> nat): Concrete {
    Concrete("", map[], DepsAt(Ascending(names), version), "", "")
  }

  lemma SpecHas(names: set<string>, version: string -> nat)
    ensures Projects(SpecAt(names, version)) == names && Once(SpecAt(names, version))
    ensures forall d :: d in SpecAt(names, version).deps <==>
      d.project in names && d == Dep(d.project, Dotted([version(d.project)]), "")
  {
    hide Dotted, Ascending;
    var c := SpecAt(names, version);
    AscendingMembers(names);
    var order := Ascending(names);
    forall p | p in names ensures Dep(p, Dotted([version(p)]), "") in c.deps {
      var i :| 0 <= i < |order| && order[i] == p;
      assert c.deps[i] == Dep(p, Dotted([version(p)]), "");
    }
    assert forall d :: d in c.deps ==> d.project in order;
    forall p ensures p in Projects(c) <==> p in names {
      if p in names { assert Dep(p, Dotted([version(p)]), "").project in Projects(c); }
    }
  }

  lemma OrderAt(p: string, n: nat, m: nat)
    ensures
      var r := VersionOrder(Dep(p, Dotted([n]), ""), Dep(p, Dotted([m]), ""));
      (r > 0 <==> n > m) && (r < 0 <==> n < m)
  {
    hide Parsed, Dotted;
    ParsedDotted([n]);
    ParsedDotted([m]);
    Unfold([n], [m]);
    assert Rest([n]) == [] && Rest([m]) == [];
  }

  /** Dominance between such closures is a comparison of the numbers shared. */
  lemma LaterAt(a: set<string>, va: string -> nat, b: set<string>, vb: string -> nat)
    ensures Later(SpecAt(a, va), SpecAt(b, vb)) <==>
      (forall p :: p in a && p in b ==> va(p) >= vb(p)) && exists p :: p in a && p in b && va(p) > vb(p)
  {
    hide VersionOrder, Dotted, SpecAt, Projects, Once;
    var x, y := SpecAt(a, va), SpecAt(b, vb);
    SpecHas(a, va);
    SpecHas(b, vb);
    forall p: string ensures
      var r := VersionOrder(Dep(p, Dotted([va(p)]), ""), Dep(p, Dotted([vb(p)]), ""));
      (r > 0 <==> va(p) > vb(p)) && (r < 0 <==> va(p) < vb(p))
    {
      OrderAt(p, va(p), vb(p));
    }
    if p :| p in a && p in b && va(p) < vb(p) {
      assert Dep(p, Dotted([va(p)]), "") in x.deps && Dep(p, Dotted([vb(p)]), "") in y.deps;
    }
    if p :| p in a && p in b && va(p) > vb(p) {
      assert Dep(p, Dotted([va(p)]), "") in x.deps && Dep(p, Dotted([vb(p)]), "") in y.deps;
    }
  }

  /** Versions that break the chain over sets that are not composable. */
  lemma ChainBreaks(a: set<string>, b: set<string>, c: set<string>)
    returns (va: string -> nat, vb: string -> nat, vc: string -> nat)
    requires !Composable(a, b, c)
    ensures forall p :: va(p) > 0 && vb(p) > 0 && vc(p) > 0
    ensures Later(SpecAt(a, va), SpecAt(b, vb)) && Later(SpecAt(b, vb), SpecAt(c, vc))
    ensures !Later(SpecAt(a, va), SpecAt(c, vc))
  {
    hide Later, SpecAt;
    vb := p => 2;
    if a * c <= b {
      va := p => if p in c then 2 else 3;
      vc := p => if p in a then 2 else 1;
      var p :| p in a * b && p !in c;
      var q :| q in b * c && q !in a;
      assert va(p) > vb(p) && vb(q) > vc(q);
    } else {
      va := p => if p in b then 3 else 1;
      vc := p => if p in b then 1 else 2;
      var p :| p in a * c && p !in b;
      var q :| q in a * b;
      var r :| r in b * c;
      assert va(p) < vc(p) && va(q) > vb(q) && vb(r) > vc(r);
    }
    LaterAt(a, va, b, vb);
    LaterAt(b, vb, c, vc);
    LaterAt(a, va, c, vc);
  }

  /** Whatever versions closures over these projects record. */
  ghost predicate TransitiveOver(a: set<string>, b: set<string>, c: set<string>) {
    forall x, y, z ::
      (Projects(x) == a && Projects(y) == b && Projects(z) == c && Once(x) && Once(y) && Once(z)
       && Later(x, y) && Later(y, z)) ==>
        Later(x, z)
  }

  /** Dominance is transitive over three project sets exactly when they compose. */
  lemma TransitiveExactly(a: set<string>, b: set<string>, c: set<string>)
    ensures TransitiveOver(a, b, c) <==> Composable(a, b, c)
  {
    hide Later, SpecAt, Projects, Once;
    if Composable(a, b, c) {
      forall x, y, z | Projects(x) == a && Projects(y) == b && Projects(z) == c && Later(x, y) && Later(y, z)
        ensures Later(x, z)
      {
        LaterTransitive(x, y, z);
      }
    } else {
      var va, vb, vc := ChainBreaks(a, b, c);
      SpecHas(a, va);
      SpecHas(b, vb);
      SpecHas(c, vc);
      var x, y, z := SpecAt(a, va), SpecAt(b, vb), SpecAt(c, vc);
      assert Projects(x) == a && Projects(y) == b && Projects(z) == c;
    }
  }

  // ----- rank ------------------------------------------------------------

  ghost predicate Dominates(b: Build, a: Build) { a.Hash() != b.Hash() && Later(b.spec, a.spec) }

  /** How many of the first `k` builds dominate `a`. */
  ghost function Dominators(builds: seq<Build>, a: Build, k: nat): nat
    requires k <= |builds|
  {
    if k == 0 then 0 else Dominators(builds, a, k - 1) + (if Dominates(builds[k - 1], a) then 1 else 0)
  }

  ghost function Ranks(builds: seq<Build>, i: nat): map<string, nat>
    requires i <= |builds|
  {
    if i == 0 then map[]
    else Ranks(builds, i - 1)[builds[i - 1].Hash() := Dominators(builds, builds[i - 1], |builds|)]
  }

  method ClosureRank(builds: seq<Build>) returns (rank: map<string, nat>)
    ensures rank == Ranks(builds, |builds|)
  {
    rank := map[];
    for i := 0 to |builds|
      invariant rank == Ranks(builds, i)
    {
      var a := builds[i];
      var n := 0;
      for k := 0 to |builds|
        invariant n == Dominators(builds, a, k)
      {
        var b := builds[k];
        if a.Hash() != b.Hash() {
          var later := ClosureIsLater(b.spec, a.spec);
          if later { n := n + 1; }
        }
      }
      rank := rank[a.Hash() := n];
    }
  }

  ghost function DominatorSet(builds: seq<Build>, a: Build): set<Build> {
    set b | b in builds && Dominates(b, a)
  }

  lemma {:induction false} DominatorsCount(builds: seq<Build>, a: Build, k: nat)
    requires k <= |builds| && DistinctHashes(builds)
    ensures Dominators(builds, a, k) == |DominatorSet(builds[..k], a)|
  {
    hide *;
    DominatorsStep(builds, a, k);
    if k == 0 {
      assert builds[..0] == [];
    } else {
      DominatorsCount(builds, a, k - 1);
      DominatorSetStep(builds, a, k);
    }
  }

  lemma DominatorsStep(builds: seq<Build>, a: Build, k: nat)
    requires k <= |builds|
    ensures k == 0 ==> Dominators(builds, a, k) == 0 && DominatorSet([], a) == {}
    ensures k > 0 ==>
      Dominators(builds, a, k) == Dominators(builds, a, k - 1) + if Dominates(builds[k - 1], a) then 1 else 0
  {
    hide Dominates;
  }

  lemma DominatorSetStep(builds: seq<Build>, a: Build, k: nat)
    requires 0 < k <= |builds| && DistinctHashes(builds)
    ensures |DominatorSet(builds[..k], a)|
      == |DominatorSet(builds[..k - 1], a)| + if Dominates(builds[k - 1], a) then 1 else 0
  {
    hide Dominates;
    var b := builds[k - 1];
    assert builds[..k] == builds[..k - 1] + [b];
    assert b !in builds[..k - 1] by { NotBefore(builds, k - 1); }
    var s, t := DominatorSet(builds[..k - 1], a), DominatorSet(builds[..k], a);
    assert t == s + if Dominates(b, a) then {b} else {};
  }

  lemma NotBefore(builds: seq<Build>, k: nat)
    requires k < |builds| && DistinctHashes(builds)
    ensures builds[k] !in builds[..k]
  {
    forall i | 0 <= i < k ensures builds[i] != builds[k] { assert builds[i].Hash() != builds[k].Hash(); }
  }

  lemma {:induction false} RanksHold(builds: seq<Build>, i: nat, k: nat)
    requires k < i <= |builds| && DistinctHashes(builds)
    ensures builds[k].Hash() in Ranks(builds, i)
    ensures Ranks(builds, i)[builds[k].Hash()] == |DominatorSet(builds, builds[k])|
  {
    hide Dominates, DominatorSet;
    if k == i - 1 {
      DominatorsCount(builds, builds[k], |builds|);
      assert builds[..|builds|] == builds;
    } else {
      RanksHold(builds, i - 1, k);
    }
  }

  /** The rank of a listed build is the number of builds that dominate it. */
  lemma RankIs(builds: seq<Build>, a: Build)
    requires a in builds && DistinctHashes(builds)
    ensures RankOf(Ranks(builds, |builds|), a) == |DominatorSet(builds, a)|
  {
    var k :| 0 <= k < |builds| && builds[k] == a;
    hide *;
    RanksHold(builds, |builds|, k);
    RankOfIs(Ranks(builds, |builds|), a);
  }

  lemma RankOfIs(rank: map<string, nat>, a: Build)
    requires a.Hash() in rank
    ensures RankOf(rank, a) == rank[a.Hash()]
  {
  }

  /** Any three builds record composable project sets. */
  ghost predicate AllComposable(builds: seq<Build>) {
    forall a, b, c :: a in builds && b in builds && c in builds && a != b && b != c && a != c ==>
      Composable(Projects(a.spec), Projects(b.spec), Projects(c.spec))
  }

  /** Builds over one set of projects are the plainest case. */
  lemma SameProjectsCompose(builds: seq<Build>)
    requires forall a, b :: a in builds && b in builds ==> Projects(a.spec) == Projects(b.spec)
    ensures AllComposable(builds)
  {
    hide Projects;
  }

  lemma ProperSubset<T>(s: set<T>, t: set<T>, x: T)
    requires s <= t && x in t && x !in s
    ensures |s| < |t|
  {
    assert t == s + {x} + (t - s - {x});
  }

  /** A later closure has a strictly smaller rank. */
  lemma LaterRanksLower(builds: seq<Build>, a: Build, b: Build)
    requires DistinctHashes(builds) && AllComposable(builds)
    requires a in builds && b in builds && Later(a.spec, b.spec)
    ensures |DominatorSet(builds, a)| < |DominatorSet(builds, b)|
  {
    hide Later, Projects;
    LaterAsymmetric(a.spec, b.spec);
    var s, t := DominatorSet(builds, a), DominatorSet(builds, b);
    assert a.Hash() != b.Hash() by {
      var i :| 0 <= i < |builds| && builds[i] == a;
      var j :| 0 <= j < |builds| && builds[j] == b;
      assert i != j;
    }
    forall c | c in s ensures c in t {
      LaterAsymmetric(c.spec, a.spec);
      assert c != a && c != b;
      LaterTransitive(c.spec, a.spec, b.spec);
      assert c.Hash() != b.Hash() by { SameHash(builds, b, c); }
    }
    ProperSubset(s, t, a);
  }

  lemma SameHash(builds: seq<Build>, a: Build, b: Build)
    requires DistinctHashes(builds) && a in builds && b in builds
    ensures a.Hash() == b.Hash() ==> a == b
  {
  }

  // ----- the sort ----------------------------------------------------------

  function RankOf(rank: map<string, nat>, a: Build): nat { if a.Hash() in rank then rank[a.Hash()] else 0 }

  /** The comparator of the sort: whether `a` goes before `b`. */
  predicate Before(key: Order, rank: map<string, nat>, withdrawn: Build -> bool, a: Build, b: Build) {
    var hashes := !Le(b.Hash(), a.Hash());
    match key
    case ByClosure => if RankOf(rank, a) != RankOf(rank, b) then RankOf(rank, a) < RankOf(rank, b) else hashes
    case ByInstalled =>
      if a.installedAt != b.installedAt then
        if a.installedAt == 0 then false else if b.installedAt == 0 then true else a.installedAt > b.installedAt
      else hashes
    case ByStatus => if withdrawn(a) != withdrawn(b) then withdrawn(b) else hashes
    case ByHash => hashes
  }

  function NotAfter(key: Order, rank: map<string, nat>, withdrawn: Build -> bool): (Build, Build) -> bool {
    (a, b) => !Before(key, rank, withdrawn, b, a)
  }

  /** The number a key sorts by; ties fall back to the hash. */
  function KeyOf(key: Order, rank: map<string, nat>, withdrawn: Build -> bool, a: Build): int {
    match key
    case ByClosure => RankOf(rank, a)
    case ByInstalled => if a.installedAt == 0 then 1 else -(a.installedAt as int)
    case ByStatus => if withdrawn(a) then 1 else 0
    case ByHash => 0
  }

  lemma BeforeIsKeyed(key: Order, rank: map<string, nat>, withdrawn: Build -> bool, a: Build, b: Build)
    ensures Before(key, rank, withdrawn, a, b)
      <==> (KeyOf(key, rank, withdrawn, a) < KeyOf(key, rank, withdrawn, b)
            || (KeyOf(key, rank, withdrawn, a) == KeyOf(key, rank, withdrawn, b) && !Le(b.Hash(), a.Hash())))
  {
    hide Le, RankOf;
  }

  lemma NotAfterOrders(key: Order, rank: map<string, nat>, withdrawn: Build -> bool)
    ensures PreOrder(NotAfter(key, rank, withdrawn))
  {
    hide Le, KeyOf, Before;
    var le := NotAfter(key, rank, withdrawn);
    forall a, b ensures le(a, b) || le(b, a) {
      BeforeIsKeyed(key, rank, withdrawn, a, b);
      BeforeIsKeyed(key, rank, withdrawn, b, a);
      LeTotal(a.Hash(), b.Hash());
    }
    forall a, b, c | le(a, b) && le(b, c) ensures le(a, c) {
      BeforeIsKeyed(key, rank, withdrawn, b, a);
      BeforeIsKeyed(key, rank, withdrawn, c, b);
      BeforeIsKeyed(key, rank, withdrawn, c, a);
      if Le(a.Hash(), b.Hash()) && Le(b.Hash(), c.Hash()) { LeTransitive(a.Hash(), b.Hash(), c.Hash()); }
    }
  }

  lemma NotAfterTies(key: Order, rank: map<string, nat>, withdrawn: Build -> bool, builds: seq<Build>)
    requires DistinctHashes(builds)
    ensures AntiSymmetricOn(builds, NotAfter(key, rank, withdrawn))
  {
    hide Le, KeyOf, Before;
    var le := NotAfter(key, rank, withdrawn);
    forall a, b | a in builds && b in builds && le(a, b) && le(b, a) ensures a == b {
      BeforeIsKeyed(key, rank, withdrawn, a, b);
      BeforeIsKeyed(key, rank, withdrawn, b, a);
      LeAntiSymmetric(a.Hash(), b.Hash());
      SameHash(builds, a, b);
    }
  }

  ghost function RanksFor(builds: seq<Build>, key: Order): map<string, nat> {
    if key == ByClosure then Ranks(builds, |builds|) else map[]
  }

  /** The sorted listing, as a function of the listing. */
  ghost function SortedBuilds(builds: seq<Build>, key: Order, withdrawn: Build -> bool): seq<Build> {
    Sort(builds, NotAfter(key, RanksFor(builds, key), withdrawn))
  }

  /** Orders the builds in place. */
  method SortBuilds(builds: array<Build>, key: Order, withdrawn: Build -> bool)
    modifies builds
    ensures builds[..] == SortedBuilds(old(builds[..]), key, withdrawn)
  {
    var rank: map<string, nat> := map[];
    if key == ByClosure { rank := ClosureRank(builds[..]); }
    SortInPlace(builds, NotAfter(key, rank, withdrawn));
  }

  /** Every key sorts the builds it was given, and nothing else. */
  lemma SortedBuildsPermutes(builds: seq<Build>, key: Order, withdrawn: Build -> bool)
    ensures multiset(SortedBuilds(builds, key, withdrawn)) == multiset(builds)
  {
    SortPermutes(builds, NotAfter(key, RanksFor(builds, key), withdrawn));
  }

  /** How each key lists builds: withdrawn ones last; the latest installed first
      and those not installed last; fewest later builds first; ties by hash. */
  lemma ListedBy(builds: seq<Build>, key: Order, withdrawn: Build -> bool, i: nat, j: nat)
    requires DistinctHashes(builds) && i < j < |builds|
    ensures
      var out := SortedBuilds(builds, key, withdrawn);
      |out| == |builds| && match key
        case ByHash => Le(out[i].Hash(), out[j].Hash())
        case ByStatus =>
          && (withdrawn(out[i]) ==> withdrawn(out[j]))
          && (withdrawn(out[i]) == withdrawn(out[j]) ==> Le(out[i].Hash(), out[j].Hash()))
        case ByInstalled =>
          && (out[j].installedAt > 0 ==> out[i].installedAt >= out[j].installedAt)
          && (out[i].installedAt == out[j].installedAt ==> Le(out[i].Hash(), out[j].Hash()))
        case ByClosure =>
          var m, n := |DominatorSet(builds, out[i])|, |DominatorSet(builds, out[j])|;
          m <= n && (m == n ==> Le(out[i].Hash(), out[j].Hash()))
  {
    hide Le, Ranks, Sort, Sorted, PreOrder, DominatorSet, DistinctHashes, RankOf;
    var rank := RanksFor(builds, key);
    var le := NotAfter(key, rank, withdrawn);
    var out := SortedBuilds(builds, key, withdrawn);
    NotAfterOrders(key, rank, withdrawn);
    SortSorted(builds, le);
    SortMembers(builds, le);
    SortedAt(out, le, i, j);
    LeTotal(out[i].Hash(), out[j].Hash());
    if key == ByClosure {
      assert out[i] in out && out[j] in out;
      RankIs(builds, out[i]);
      RankIs(builds, out[j]);
    }
  }

  /** By closure, no build is listed after one it is later than. */
  lemma SortedByClosure(builds: seq<Build>, withdrawn: Build -> bool)
    requires DistinctHashes(builds) && AllComposable(builds)
    ensures var out := SortedBuilds(builds, ByClosure, withdrawn);
      forall i, j :: 0 <= i < j < |out| ==> !Later(out[j].spec, out[i].spec)
  {
    hide Le, Later, Ranks, Sort, Before, Sorted, PreOrder, DominatorSet, AllComposable, DistinctHashes, RankOf;
    var rank := Ranks(builds, |builds|);
    var le := NotAfter(ByClosure, rank, withdrawn);
    var out := SortedBuilds(builds, ByClosure, withdrawn);
    NotAfterOrders(ByClosure, rank, withdrawn);
    SortSorted(builds, le);
    SortMembers(builds, le);
    forall i, j | 0 <= i < j < |out| ensures !Later(out[j].spec, out[i].spec) {
      SortedAt(out, le, i, j);
      var a, b := out[j], out[i];
      assert a in out && b in out;
      BeforeIsKeyed(ByClosure, rank, withdrawn, a, b);
      RankIs(builds, a);
      RankIs(builds, b);
      if Later(a.spec, b.spec) { LaterRanksLower(builds, a, b); }
    }
  }

  /** In the plainest case, builds over one set of projects, it always does. */
  lemma SortedOverOneSet(builds: seq<Build>, withdrawn: Build -> bool)
    requires DistinctHashes(builds)
    requires forall a, b :: a in builds && b in builds ==> Projects(a.spec) == Projects(b.spec)
    ensures var out := SortedBuilds(builds, ByClosure, withdrawn);
      forall i, j :: 0 <= i < j < |out| ==> !Later(out[j].spec, out[i].spec)
  {
    hide Later, Projects, SortedBuilds, DistinctHashes, AllComposable;
    SameProjectsCompose(builds);
    SortedByClosure(builds, withdrawn);
  }

  // ----- over which projects the order holds -----------------------------------

  /** The builds record these projects, once each, under distinct hashes from a
      pool. */
  ghost predicate Recorded(builds: seq<Build>, sets: seq<set<string>>, pool: seq<string>) {
    && |builds| == |sets| && DistinctHashes(builds)
    && forall i :: 0 <= i < |builds| ==> RecordsSet(builds[i], sets[i], pool)
  }

  ghost predicate RecordsSet(b: Build, names: set<string>, pool: seq<string>) {
    Projects(b.spec) == names && Once(b.spec) && b.Hash() in pool
  }

  ghost predicate SetsCompose(sets: seq<set<string>>) {
    forall i, j, k :: 0 <= i < |sets| && 0 <= j < |sets| && 0 <= k < |sets| && i != j && j != k && i != k ==>
      Composable(sets[i], sets[j], sets[k])
  }

  ghost predicate RanksLower(builds: seq<Build>) {
    forall a, b :: a in builds && b in builds && Later(a.spec, b.spec) ==>
      |DominatorSet(builds, a)| < |DominatorSet(builds, b)|
  }

  ghost predicate NoneAfterLater(builds: seq<Build>, withdrawn: Build -> bool) {
    var out := SortedBuilds(builds, ByClosure, withdrawn);
    forall i, j :: 0 <= i < j < |out| ==> !Later(out[j].spec, out[i].spec)
  }

  lemma RecordedCompose(builds: seq<Build>, sets: seq<set<string>>, pool: seq<string>)
    requires Recorded(builds, sets, pool) && SetsCompose(sets)
    ensures AllComposable(builds)
  {
    hide Projects, Composable, Recorded, SetsCompose;
    forall a, b, c | a in builds && b in builds && c in builds && a != b && b != c && a != c
      ensures Composable(Projects(a.spec), Projects(b.spec), Projects(c.spec))
    {
      var i := RecordedAt(builds, sets, pool, a);
      var j := RecordedAt(builds, sets, pool, b);
      var k := RecordedAt(builds, sets, pool, c);
      ComposeAt(sets, i, j, k);
    }
  }

  lemma RecordedAt(builds: seq<Build>, sets: seq<set<string>>, pool: seq<string>, a: Build) returns (i: nat)
    requires Recorded(builds, sets, pool) && a in builds
    ensures i < |builds| == |sets| && builds[i] == a && Projects(a.spec) == sets[i]
  {
    hide Projects, Once, DistinctHashes;
    i :| i < |builds| && builds[i] == a;
  }

  lemma BreakAt(sets: seq<set<string>>) returns (i: nat, j: nat, k: nat)
    requires !SetsCompose(sets)
    ensures i < |sets| && j < |sets| && k < |sets| && i != j && j != k && i != k
    ensures !Composable(sets[i], sets[j], sets[k])
  {
    hide Composable;
    i, j, k :| i < |sets| && j < |sets| && k < |sets| && i != j && j != k && i != k
      && !Composable(sets[i], sets[j], sets[k]);
  }

  lemma ComposeAt(sets: seq<set<string>>, i: nat, j: nat, k: nat)
    requires SetsCompose(sets) && i < |sets| && j < |sets| && k < |sets| && i != j && j != k && i != k
    ensures Composable(sets[i], sets[j], sets[k])
  {
    hide Composable;
  }

  ghost function BuildAt(names: set<string>, version: string -> nat, hash: string): Build {
    Build(Ver("", [], "", 0, hash), SpecAt(names, version), 0)
  }

  /** The versions a build is staged at: chosen ones for three of them, for the
      others older ones than all of these. */
  ghost function StagedAt(m: int, i: nat, va: string -> nat, j: nat, vb: string -> nat, k: nat, vc: string -> nat)
    : string -> nat
  {
    if m == i then va else if m == j then vb else if m == k then vc else p => 0
  }

  ghost function Staged(sets: seq<set<string>>, hashes: seq<string>, i: nat, va: string -> nat,
                        j: nat, vb: string -> nat, k: nat, vc: string -> nat): (r: seq<Build>)
    requires |hashes| == |sets|
    ensures |r| == |sets|
    ensures forall m :: 0 <= m < |r| ==> r[m] == BuildAt(sets[m], StagedAt(m, i, va, j, vb, k, vc), hashes[m])
  {
    seq(|sets|, m requires 0 <= m < |sets| => BuildAt(sets[m], StagedAt(m, i, va, j, vb, k, vc), hashes[m]))
  }

  lemma StagedRecorded(sets: seq<set<string>>, hashes: seq<string>, pool: seq<string>,
                       i: nat, va: string -> nat, j: nat, vb: string -> nat, k: nat, vc: string -> nat)
    requires |hashes| == |sets| && Distinct(hashes) && forall h :: h in hashes ==> h in pool
    ensures Recorded(Staged(sets, hashes, i, va, j, vb, k, vc), sets, pool)
  {
    hide SpecAt, Projects, Once, StagedAt;
    var builds := Staged(sets, hashes, i, va, j, vb, k, vc);
    forall m | 0 <= m < |builds| ensures RecordsSet(builds[m], sets[m], pool) {
      SpecHas(sets[m], StagedAt(m, i, va, j, vb, k, vc));
      assert hashes[m] in hashes;
    }
  }

  /** Distinct hashes from a pool, the least of them all for one build. */
  lemma Assigned(pool: seq<string>, n: nat, k: nat) returns (hashes: seq<string>)
    requires Distinct(pool) && k < n <= |pool|
    ensures |hashes| == n && Distinct(hashes) && forall h :: h in hashes ==> h in pool
    ensures forall m :: 0 <= m < n ==> Le(hashes[k], hashes[m])
  {
    hide Le, Sort;
    var sorted := Sort(pool, Le);
    LeOrders();
    SortSorted(pool, Le);
    SortPermutes(pool, Le);
    PermutedDistinct(pool, sorted);
    hashes := seq(n, m requires 0 <= m < n => sorted[if m == k then 0 else if m == 0 then k else m]);
    forall h | h in hashes ensures h in pool {
      var m :| 0 <= m < n && hashes[m] == h;
      assert h in sorted;
    }
    forall m | 0 <= m < n ensures Le(hashes[k], hashes[m]) {
      if m == k { LeTotal(sorted[0], sorted[0]); }
    }
  }

  lemma OldNeverLater(a: set<string>, b: set<string>, vb: string -> nat)
    ensures !Later(SpecAt(a, p => 0), SpecAt(b, vb))
  {
    hide Later, SpecAt;
    LaterAt(a, p => 0, b, vb);
  }

  /** A chain that breaks gives the middle build as many dominators as the last. */
  lemma RankBreaks(sets: seq<set<string>>, pool: seq<string>, i: nat, j: nat, k: nat) returns (builds: seq<Build>)
    requires Distinct(pool) && |sets| <= |pool|
    requires i < |sets| && j < |sets| && k < |sets| && i != j && j != k && i != k
    requires !Composable(sets[i], sets[j], sets[k])
    ensures Recorded(builds, sets, pool) && Later(builds[j].spec, builds[k].spec)
    ensures Le(builds[k].Hash(), builds[j].Hash()) && builds[k].Hash() != builds[j].Hash()
    ensures |DominatorSet(builds, builds[k])| == 1 <= |DominatorSet(builds, builds[j])|
  {
    hide Later, SpecAt, Composable, Recorded, Le;
    var va, vb, vc := ChainBreaks(sets[i], sets[j], sets[k]);
    var hashes := Assigned(pool, |sets|, k);
    builds := Staged(sets, hashes, i, va, j, vb, k, vc);
    StagedRecorded(sets, hashes, pool, i, va, j, vb, k, vc);
    var x, y, z := builds[i], builds[j], builds[k];
    RecordedDistinct(builds, sets, pool);
    assert x.Hash() != y.Hash();
    assert x in DominatorSet(builds, y);
    OneMember(DominatorSet(builds, y), x);
    forall b | b in DominatorSet(builds, z) ensures b == y {
      var m :| 0 <= m < |builds| && builds[m] == b;
      if m != i && m != j && m != k { OldNeverLater(sets[m], sets[k], vc); }
    }
    assert y in DominatorSet(builds, z);
    assert DominatorSet(builds, z) == {y};
  }

  lemma OneMember<T>(s: set<T>, x: T)
    requires x in s
    ensures |s| >= 1
  {
    assert s == {x} + (s - {x});
  }

  lemma RecordedDistinct(builds: seq<Build>, sets: seq<set<string>>, pool: seq<string>)
    requires Recorded(builds, sets, pool)
    ensures |builds| == |sets| && DistinctHashes(builds)
    ensures forall i, j :: 0 <= i < |builds| && 0 <= j < |builds| && i != j ==> builds[i].Hash() != builds[j].Hash()
  {
    hide Projects, Once;
    forall i, j | 0 <= i < |builds| && 0 <= j < |builds| && i != j ensures builds[i].Hash() != builds[j].Hash() {
      if i < j { assert builds[i].Hash() != builds[j].Hash(); } else { assert builds[j].Hash() != builds[i].Hash(); }
    }
  }

  /** Rank follows dominance for every choice of versions and of hashes from a
      pool exactly when any three of the recorded project sets compose. */
  lemma RanksExactly(sets: seq<set<string>>, pool: seq<string>)
    requires Distinct(pool) && |sets| <= |pool|
    ensures (forall builds :: Recorded(builds, sets, pool) ==> RanksLower(builds)) <==> SetsCompose(sets)
  {
    hide Later, Composable, DominatorSet, Recorded, SetsCompose;
    if SetsCompose(sets) {
      forall builds | Recorded(builds, sets, pool) ensures RanksLower(builds) {
        RecordedCompose(builds, sets, pool);
        RecordedDistinct(builds, sets, pool);
        forall a: Build, b: Build | a in builds && b in builds && Later(a.spec, b.spec)
          ensures |DominatorSet(builds, a)| < |DominatorSet(builds, b)|
        {
          LaterRanksLower(builds, a, b);
        }
      }
    } else {
      var i, j, k := BreakAt(sets);
      var builds := RankBreaks(sets, pool, i, j, k);
      RecordedDistinct(builds, sets, pool);
      assert builds[j] in builds && builds[k] in builds;
      assert !RanksLower(builds);
    }
  }

  /** The same condition decides whether the listing by closure ever shows a
      build after one it is later than. */
  lemma SortedExactly(sets: seq<set<string>>, pool: seq<string>, withdrawn: Build -> bool)
    requires Distinct(pool) && |sets| <= |pool|
    ensures (forall builds :: Recorded(builds, sets, pool) ==> NoneAfterLater(builds, withdrawn)) <==> SetsCompose(sets)
  {
    hide Later, Composable, DominatorSet, Recorded, SetsCompose, SortedBuilds;
    if SetsCompose(sets) {
      forall builds | Recorded(builds, sets, pool) ensures NoneAfterLater(builds, withdrawn) {
        RecordedCompose(builds, sets, pool);
        RecordedDistinct(builds, sets, pool);
        SortedByClosure(builds, withdrawn);
      }
    } else {
      var i, j, k := BreakAt(sets);
      var builds := RankBreaks(sets, pool, i, j, k);
      RecordedDistinct(builds, sets, pool);
      assert builds[j] in builds && builds[k] in builds;
      var m, n := SortedApart(builds, withdrawn, builds[k], builds[j]);
      assert !NoneAfterLater(builds, withdrawn);
    }
  }

  /** Of two builds with nondecreasing rank the one with the lesser hash comes first. */
  lemma SortedApart(builds: seq<Build>, withdrawn: Build -> bool, a: Build, b: Build) returns (i: nat, j: nat)
    requires DistinctHashes(builds) && a in builds && b in builds && Le(a.Hash(), b.Hash()) && a.Hash() != b.Hash()
    requires |DominatorSet(builds, a)| <= |DominatorSet(builds, b)|
    ensures var out := SortedBuilds(builds, ByClosure, withdrawn); i < j < |out| && out[i] == a && out[j] == b
  {
    hide Later, Ranks, Sort, Before, Sorted, PreOrder, DominatorSet, DistinctHashes, RankOf;
    var rank := Ranks(builds, |builds|);
    var le := NotAfter(ByClosure, rank, withdrawn);
    var out := SortedBuilds(builds, ByClosure, withdrawn);
    NotAfterOrders(ByClosure, rank, withdrawn);
    SortSorted(builds, le);
    SortMembers(builds, le);
    RankIs(builds, a);
    RankIs(builds, b);
    BeforeIsKeyed(ByClosure, rank, withdrawn, a, b);
    if Le(b.Hash(), a.Hash()) { LeAntiSymmetric(a.Hash(), b.Hash()); }
    assert !le(b, a);
    assert a in out && b in out;
    i :| i < |out| && out[i] == a;
    j :| j < |out| && out[j] == b;
    if j < i { SortedAt(out, le, j, i); }
  }

  lemma SortedAt<T(!new)>(s: seq<T>, le: (T, T) -> bool, i: nat, j: nat)
    requires Sorted(s, le) && i < j < |s|
    ensures le(s[i], s[j])
  {
  }

  /** The listing printed does not depend on the order builds arrived in. */
  lemma SortedBuildsOrderFree(a: seq<Build>, b: seq<Build>, key: Order, withdrawn: Build -> bool)
    requires multiset(a) == multiset(b) && DistinctHashes(a)
    ensures SortedBuilds(a, key, withdrawn) == SortedBuilds(b, key, withdrawn)
  {
    hide Le, Later, Ranks, Sort, Before, Sorted, DominatorSet, RankOf;
    PermutedHashes(a, b);
    var ra, rb := RanksFor(a, key), RanksFor(b, key);
    var le, le' := NotAfter(key, ra, withdrawn), NotAfter(key, rb, withdrawn);
    forall x, y | x in a && y in a ensures le(x, y) == le'(x, y) {
      assert x in b && y in b by { assert x in multiset(b) && y in multiset(b); }
      BeforeIsKeyed(key, ra, withdrawn, y, x);
      BeforeIsKeyed(key, rb, withdrawn, y, x);
      if key == ByClosure {
        RankIs(a, x); RankIs(a, y); RankIs(b, x); RankIs(b, y);
        SameDominators(a, b, x);
        SameDominators(a, b, y);
      }
    }
    NotAfterOrders(key, ra, withdrawn);
    NotAfterOrders(key, rb, withdrawn);
    NotAfterTies(key, ra, withdrawn, a);
    SortCanonical(a, b, le);
    SortAgrees(b, le, le') by {
      forall x, y | x in b && y in b ensures le(x, y) == le'(x, y) {
        assert x in multiset(a) && y in multiset(a);
      }
    }
  }

  lemma SameDominators(a: seq<Build>, b: seq<Build>, x: Build)
    requires multiset(a) == multiset(b)
    ensures DominatorSet(a, x) == DominatorSet(b, x)
  {
    hide Dominates;
    forall y ensures y in a <==> y in b {
      assert y in a <==> y in multiset(a);
      assert y in b <==> y in multiset(b);
    }
  }

  lemma PermutedHashes(a: seq<Build>, b: seq<Build>)
    requires multiset(a) == multiset(b) && DistinctHashes(a)
    ensures DistinctHashes(b)
  {
    assert Distinct(a);
    PermutedDistinct(a, b);
    forall i, j | 0 <= i < j < |b| ensures b[i].Hash() != b[j].Hash() {
      assert b[i] in a && b[j] in a && b[i] != b[j];
      SameHash(a, b[i], b[j]);
    }
  }

  /** Orders that agree on the elements sort them alike. */
  lemma {:induction false} SortAgrees<T>(s: seq<T>, le: (T, T) -> bool, le': (T, T) -> bool)
    requires forall x, y :: x in s && y in s ==> le(x, y) == le'(x, y)
    ensures Sort(s, le) == Sort(s, le')
  {
    if s == [] {
    } else {
      var front, last := s[..|s| - 1], s[|s| - 1];
      assert s == front + [last];
      SortAgrees(front, le, le');
      var sorted := Sort(front, le);
      SortPermutes(front, le);
      forall y | y in sorted ensures le(y, last) == le'(y, last) {
        assert y in multiset(sorted);
        assert y in multiset(front);
      }
      InsertAgrees(sorted, last, le, le');
    }
  }

  lemma {:induction false} InsertAgrees<T>(s: seq<T>, x: T, le: (T, T) -> bool, le': (T, T) -> bool)
    requires forall y :: y in s ==> le(y, x) == le'(y, x)
    ensures Insert(s, x, le) == Insert(s, x, le')
  {
    if s == [] {
    } else {
      InsertAgrees(s[..|s| - 1], x, le, le');
    }
  }
}
