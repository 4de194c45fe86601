/** The tree a browser shows under a project (catalog.go): a depth-first walk
    that marks a whole level before it descends, downwards through
    dependencies or upwards through dependents. */
module TreeWalk {
  import opened Sorting
  import opened Text
  import opened DependencyGraph

  datatype CatalogProject = CatalogProject(project: string, versions: seq<string>, deps: seq<string>)

  type Index = map<string, CatalogProject>

  datatype DepNode = DepNode(project: string, version: string, known: bool, under: seq<DepNode>, repeat: bool)

  function Members(s: seq<string>): set<string> { set x | x in s }

  function FirstVersion(index: Index, d: string): string {
    if d in index && index[d].versions != [] then index[d].versions[0] else ""
  }

  function Node(index: Index, d: string, under: seq<DepNode>, repeat: bool): DepNode {
    DepNode(d, FirstVersion(index, d), d in index, under, repeat)
  }

  // ----- the walk as a function of the marks ----------------------------------

  lemma UniverseHasKids(g: Graph, p: string)
    ensures Members(Sort(Kids(g, p), Le)) <= Universe(g)
    ensures forall d :: d in Members(Sort(Kids(g, p), Le)) <==> Edge(g, p, d)
  {
    SortMembers(Kids(g, p), Le);
  }

  ghost function Unseen(g: Graph, seen: set<string>): nat { |Universe(g) - seen| }

  lemma UnseenShrinks(g: Graph, seen: set<string>, more: set<string>)
    requires seen <= more
    ensures Unseen(g, more) <= Unseen(g, seen)
    ensures (exists d :: d in Universe(g) && d in more && d !in seen) ==> Unseen(g, more) < Unseen(g, seen)
  {
    var a, b := Universe(g) - seen, Universe(g) - more;
    SubsetSize(b, a);
    if d :| d in Universe(g) && d in more && d !in seen {
      SubsetSize(b, a - {d});
    }
  }

  lemma SubsetSize<T>(a: set<T>, b: set<T>)
    requires a <= b
    ensures |a| <= |b|
  {
    assert b == a + (b - a);
  }

  /** What hangs under `p`, and the marks afterwards. */
  function Walk(g: Graph, index: Index, depth: nat, p: string, level: nat, seen: set<string>)
    : (r: (seq<DepNode>, set<string>))
    ensures seen <= r.1
    decreases Unseen(g, seen) + 1, 0
  {
    if depth > 0 && level >= depth then ([], seen) else
    var kids := Sort(Kids(g, p), Le);
    var marked := seen + Members(kids);
    UniverseHasKids(g, p);
    UnseenShrinks(g, seen, marked);
    assert Members(kids) - seen != {} ==> Unseen(g, marked) < Unseen(g, seen) by {
      if d :| d in Members(kids) - seen { assert d in Universe(g) && d in marked && d !in seen; }
    }
    WalkKids(g, index, depth, kids, level, Members(kids) - seen, marked)
  }

  function WalkKids(g: Graph, index: Index, depth: nat, kids: seq<string>, level: nat,
                    added: set<string>, seen: set<string>) : (r: (seq<DepNode>, set<string>))
    ensures seen <= r.1 && |r.0| == |kids|
    decreases Unseen(g, seen) + (if added == {} then 0 else 1), |kids| + 1
  {
    if kids == [] then ([], seen) else
    var d := kids[0];
    var sub := if d in added then Walk(g, index, depth, d, level + 1, seen) else ([], seen);
    UnseenShrinks(g, seen, sub.1);
    var rest := WalkKids(g, index, depth, kids[1..], level, added, sub.1);
    ([Node(index, d, sub.0, d !in added)] + rest.0, rest.1)
  }

  /** One level of the walk: mark all the children, then visit each. */
  lemma WalkUnfolds(g: Graph, index: Index, depth: nat, p: string, level: nat, seen: set<string>)
    ensures depth > 0 && level >= depth ==> Walk(g, index, depth, p, level, seen) == ([], seen)
    ensures !(depth > 0 && level >= depth) ==>
      var kids := Sort(Kids(g, p), Le);
      var added := Members(kids) - seen;
      Walk(g, index, depth, p, level, seen) == WalkKids(g, index, depth, kids, level, added, seen + Members(kids))
    ensures var marked := seen + Members(Sort(Kids(g, p), Le));
      Unseen(g, marked) + (if Members(Sort(Kids(g, p), Le)) - seen == {} then 0 else 1) < Unseen(g, seen) + 1
  {
    var kids := Sort(Kids(g, p), Le);
    hide WalkKids, Sort;
    var marked := seen + Members(kids);
    UniverseHasKids(g, p);
    UnseenShrinks(g, seen, marked);
    if d :| d in Members(kids) - seen { assert d in Universe(g) && d in marked && d !in seen; }
  }

  /** A child that was already marked is named and not descended into. */
  function Sub(g: Graph, index: Index, depth: nat, d: string, level: nat, added: set<string>, seen: set<string>)
    : (r: (seq<DepNode>, set<string>))
    ensures seen <= r.1
  {
    if d in added then Walk(g, index, depth, d, level + 1, seen) else ([], seen)
  }

  lemma KidsUnfold(g: Graph, index: Index, depth: nat, kids: seq<string>, level: nat, added: set<string>,
                   seen: set<string>)
    requires kids != []
    ensures var sub := Sub(g, index, depth, kids[0], level, added, seen);
      var rest := WalkKids(g, index, depth, kids[1..], level, added, sub.1);
      && WalkKids(g, index, depth, kids, level, added, seen)
         == ([Node(index, kids[0], sub.0, kids[0] !in added)] + rest.0, rest.1)
      && Unseen(g, sub.1) <= Unseen(g, seen)
  {
    hide Walk;
    UnseenShrinks(g, seen, Sub(g, index, depth, kids[0], level, added, seen).1);
  }

  // ----- the walk as the program runs it --------------------------------------

  class Walker {
    const g: Graph
    const index: Index
    const depth: nat
    var seen: set<string>

    constructor (g: Graph, index: Index, depth: nat, root: string)
      ensures this.g == g && this.index == index && this.depth == depth
      ensures seen == {root}
    {
      this.g, this.index, this.depth := g, index, depth;
      seen := {root};
    }

    method WalkFrom(p: string, level: nat) returns (out: seq<DepNode>)
      modifies this`seen
      ensures (out, seen) == Walk(g, index, depth, p, level, old(seen))
      decreases Unseen(g, seen)
    {
      hide Walk, WalkKids, Unseen, Sort, Universe;
      WalkUnfolds(g, index, depth, p, level, seen);
      if depth > 0 && level >= depth { return []; }
      var kids := Sort(Kids(g, p), Le);
      ghost var all := Members(kids);
      var added: set<string> := {};
      ghost var before := seen;
      var i := 0;
      while i < |kids|
        invariant 0 <= i <= |kids|
        invariant seen == before + Members(kids[..i])
        invariant added == Members(kids[..i]) - before
      {
        assert kids[..i + 1] == kids[..i] + [kids[i]];
        if kids[i] !in seen { added := added + {kids[i]}; }
        seen := seen + {kids[i]};
        i := i + 1;
      }
      assert kids[..i] == kids;
      assert added == Members(kids) - before && seen == before + Members(kids);
      UniverseHasKids(g, p);
      ghost var marked := seen;
      ghost var whole := WalkKids(g, index, depth, kids, level, added, marked);
      out := [];
      var k := 0;
      assert kids[0..] == kids;
      while k < |kids|
        invariant 0 <= k <= |kids|
        invariant marked <= seen
        invariant whole.1 == WalkKids(g, index, depth, kids[k..], level, added, seen).1
        invariant whole.0 == out + WalkKids(g, index, depth, kids[k..], level, added, seen).0
      {
        var d := kids[k];
        ghost var at := seen;
        var under: seq<DepNode> := [];
        if d in added {
          assert d in Universe(g) && d in seen && d !in before;
          UnseenShrinks(g, before, seen);
          under := WalkFrom(d, level + 1);
        }
        KidStep(g, index, depth, kids[k..], level, added, at, under, seen);
        assert kids[k..][1..] == kids[k + 1..];
        ghost var node := Node(index, d, under, d !in added);
        ghost var rest := WalkKids(g, index, depth, kids[k + 1..], level, added, seen).0;
        assert out + ([node] + rest) == (out + [node]) + rest;
        out := out + [Node(index, d, under, d !in added)];
        k := k + 1;
      }
      KidsDone(g, index, depth, kids[k..], level, added, seen);
      assert out + [] == out;
    }
  }

  lemma KidStep(g: Graph, index: Index, depth: nat, kids: seq<string>, level: nat, added: set<string>,
                seen: set<string>, under: seq<DepNode>, seen': set<string>)
    requires kids != []
    requires (under, seen') == if kids[0] in added then Walk(g, index, depth, kids[0], level + 1, seen) else ([], seen)
    ensures var rest := WalkKids(g, index, depth, kids[1..], level, added, seen');
      WalkKids(g, index, depth, kids, level, added, seen)
      == ([Node(index, kids[0], under, kids[0] !in added)] + rest.0, rest.1)
  {
    hide Walk;
  }

  lemma KidsDone(g: Graph, index: Index, depth: nat, kids: seq<string>, level: nat, added: set<string>,
                 seen: set<string>)
    requires kids == []
    ensures WalkKids(g, index, depth, kids, level, added, seen) == ([], seen)
  {
  }

  // ----- what the tree says -------------------------------------------------

  /** The projects expanded in a tree, with multiplicity. */
  function Expansions(nodes: seq<DepNode>): multiset<string> {
    if nodes == [] then multiset{}
    else
      (if nodes[0].repeat then multiset{} else multiset{nodes[0].project})
      + Expansions(nodes[0].under) + Expansions(nodes[1..])
  }

  /** The projects named anywhere in a tree. */
  function Names(nodes: seq<DepNode>): set<string> {
    if nodes == [] then {}
    else {nodes[0].project} + Names(nodes[0].under) + Names(nodes[1..])
  }

  /** Repeats are childless, and every expanded node shows its children in
      name order, each with what the catalogue lists about it. */
  ghost predicate WellFormed(g: Graph, index: Index, nodes: seq<DepNode>) {
    forall i :: 0 <= i < |nodes| ==> WellFormedNode(g, index, nodes[i])
  }

  ghost predicate WellFormedNode(g: Graph, index: Index, n: DepNode) {
    && (n.known <==> n.project in index)
    && n.version == (if n.known && index[n.project].versions != [] then index[n.project].versions[0] else "")
    && (if n.repeat then n.under == [] else Labels(n.under) == Sort(Kids(g, n.project), Le))
    && forall i :: 0 <= i < |n.under| ==> WellFormedNode(g, index, n.under[i])
  }

  function Labels(nodes: seq<DepNode>): (r: seq<string>)
    ensures |r| == |nodes| && forall i :: 0 <= i < |nodes| ==> r[i] == nodes[i].project
  {
    seq(|nodes|, i requires 0 <= i < |nodes| => nodes[i].project)
  }

  /** No list names another project twice; its own project it may. */
  ghost predicate NoDoubles(g: Graph) {
    forall p, d :: p in g && d != p ==> multiset(g[p])[d] <= 1
  }

  /** No member of `added` is in the list twice. */
  ghost predicate OnceEach(kids: seq<string>, added: set<string>) {
    forall d :: d in added ==> multiset(kids)[d] <= 1
  }

  lemma SortedKidsOnce(g: Graph, p: string, added: set<string>)
    requires NoDoubles(g) && p !in added
    ensures OnceEach(Sort(Kids(g, p), Le), added)
  {
    SortPermutes(Kids(g, p), Le);
  }

  /** Each newly marked project is expanded exactly once, at any depth limit. */
  lemma {:induction false} WalkExpandsOnce(g: Graph, index: Index, depth: nat, p: string, level: nat, seen: set<string>)
    requires NoDoubles(g) && p in seen
    ensures !(depth > 0 && level >= depth) || Walk(g, index, depth, p, level, seen) == ([], seen)
    ensures Expansions(Walk(g, index, depth, p, level, seen).0)
         == multiset(Walk(g, index, depth, p, level, seen).1 - seen)
    decreases Unseen(g, seen) + 1, 0
  {
    hide Walk, WalkKids, Unseen, Sort, NoDoubles, OnceEach;
    WalkUnfolds(g, index, depth, p, level, seen);
    if !(depth > 0 && level >= depth) {
      var kids := Sort(Kids(g, p), Le);
      var marked := seen + Members(kids);
      var added := Members(kids) - seen;
      SortedKidsOnce(g, p, added);
      KidsExpandOnce(g, index, depth, kids, level, added, marked);
      var r := WalkKids(g, index, depth, kids, level, added, marked);
      MarksSplit(added, Members(kids), seen, marked, r.1);
    } else {
      assert seen - seen == {};
      assert Expansions([]) == multiset{};
    }
  }

  lemma MarksSplit(added: set<string>, kids: set<string>, seen: set<string>, marked: set<string>, end: set<string>)
    requires added == kids - seen && marked == seen + kids && marked <= end
    ensures multiset(added * kids) + multiset(end - marked) == multiset(end - seen)
  {
    assert added * kids == added;
    assert end - seen == added + (end - marked);
  }

  lemma {:induction false} KidsExpandOnce(g: Graph, index: Index, depth: nat, kids: seq<string>, level: nat,
                                          added: set<string>, seen: set<string>)
    requires NoDoubles(g) && OnceEach(kids, added) && added <= seen
    ensures Expansions(WalkKids(g, index, depth, kids, level, added, seen).0)
         == multiset(added * Members(kids)) + multiset(WalkKids(g, index, depth, kids, level, added, seen).1 - seen)
    decreases Unseen(g, seen) + (if added == {} then 0 else 1), |kids| + 1
  {
    if kids == [] {
      KidsDone(g, index, depth, kids, level, added, seen);
      assert added * Members(kids) == {} && seen - seen == {};
    } else {
      hide Walk, WalkKids, Unseen, NoDoubles, OnceEach;
      var d := kids[0];
      var sub := Sub(g, index, depth, d, level, added, seen);
      KidsUnfold(g, index, depth, kids, level, added, seen);
      OnceTail(kids, added);
      if d in added { WalkExpandsOnce(g, index, depth, d, level + 1, seen); }
      KidsExpandOnce(g, index, depth, kids[1..], level, added, sub.1);
      var rest := WalkKids(g, index, depth, kids[1..], level, added, sub.1);
      ExpansionsCons(Node(index, d, sub.0, d !in added), rest.0);
      assert Expansions([]) == multiset{};
      assert d !in added ==> sub.1 - seen == {};
      MarksJoin(d, added, Members(kids), Members(kids[1..]), seen, sub.1, rest.1);
    }
  }

  lemma OnceTail(kids: seq<string>, added: set<string>)
    requires kids != [] && OnceEach(kids, added)
    ensures OnceEach(kids[1..], added) && (kids[0] in added ==> kids[0] !in Members(kids[1..]))
    ensures Members(kids) == {kids[0]} + Members(kids[1..])
  {
    assert kids == [kids[0]] + kids[1..];
    assert multiset(kids) == multiset{kids[0]} + multiset(kids[1..]);
    assert kids[0] in kids[1..] <==> kids[0] in multiset(kids[1..]);
  }

  lemma MarksJoin(d: string, added: set<string>, kids: set<string>, others: set<string>,
                  seen: set<string>, mid: set<string>, end: set<string>)
    requires kids == {d} + others && (d in added ==> d !in others) && seen <= mid <= end
    ensures multiset(added * kids) + multiset(end - seen)
         == (if d in added then multiset{d} else multiset{}) + multiset(mid - seen)
            + (multiset(added * others) + multiset(end - mid))
  {
    assert end - seen == (mid - seen) + (end - mid);
    if d in added { assert added * kids == {d} + added * others; }
    else { assert added * kids == added * others; }
  }

  /** Every new entry of a level is expanded where it stands. */
  lemma {:induction false} LevelExpands(g: Graph, index: Index, depth: nat, kids: seq<string>, level: nat,
                                        added: set<string>, seen: set<string>, d: string)
    requires d in added
    ensures Expansions(WalkKids(g, index, depth, kids, level, added, seen).0)[d] >= multiset(kids)[d]
  {
    hide *;
    if kids == [] {
      assert multiset(kids)[d] == 0;
    } else {
      var sub := Sub(g, index, depth, kids[0], level, added, seen);
      KidsUnfold(g, index, depth, kids, level, added, seen);
      var rest := WalkKids(g, index, depth, kids[1..], level, added, sub.1);
      LevelExpands(g, index, depth, kids[1..], level, added, sub.1, d);
      ExpansionsCons(Node(index, kids[0], sub.0, kids[0] !in added), rest.0);
      NodeIs(index, kids[0], sub.0, kids[0] !in added);
      assert kids == [kids[0]] + kids[1..];
      assert multiset(kids) == multiset{kids[0]} + multiset(kids[1..]);
    }
  }

  /** A list that names another project twice has it expanded twice. */
  lemma DoubleExpandsTwice(g: Graph, index: Index, p: string, d: string)
    requires p in g && d != p && multiset(g[p])[d] > 1
    ensures Expansions(Walk(g, index, 0, p, 0, {p}).0)[d] >= multiset(g[p])[d]
  {
    hide Walk, WalkKids, Unseen, Sort, Expansions;
    WalkUnfolds(g, index, 0, p, 0, {p});
    var kids := Sort(Kids(g, p), Le);
    SortPermutes(Kids(g, p), Le);
    assert d in multiset(kids);
    LevelExpands(g, index, 0, kids, 0, Members(kids) - {p}, {p} + Members(kids), d);
  }

  lemma ExpansionsCons(n: DepNode, rest: seq<DepNode>)
    ensures Expansions([n] + rest)
         == (if n.repeat then multiset{} else multiset{n.project}) + Expansions(n.under) + Expansions(rest)
  {
    assert ([n] + rest)[1..] == rest;
  }

  lemma NamesCons(n: DepNode, rest: seq<DepNode>)
    ensures Names([n] + rest) == {n.project} + Names(n.under) + Names(rest)
  {
    assert ([n] + rest)[1..] == rest;
  }

  // ----- the tree covers what is reachable ---------------------------------------

  /** `d` is a child of some member of `s`. */
  ghost predicate ChildOf(g: Graph, s: set<string>, d: string) { exists v :: v in s && Edge(g, v, d) }

  /** The children of `s` are marked and named. */
  ghost predicate Closed(g: Graph, s: set<string>, marks: set<string>, names: set<string>) {
    forall v, d :: v in s && Edge(g, v, d) ==> d in marks && d in names
  }

  /** Each name is one of `kids` or a child of `s`. */
  ghost predicate Justified(g: Graph, kids: set<string>, s: set<string>, names: set<string>) {
    forall d :: d in names ==> d in kids || ChildOf(g, s, d)
  }

  ghost predicate AllReachable(g: Graph, from: string, s: set<string>) {
    forall v :: v in s ==> Reachable(g, from, v)
  }

  lemma CoverJoin(g: Graph, s: set<string>, m: set<string>, n: set<string>, k: set<string>,
                  s': set<string>, m': set<string>, n': set<string>, k': set<string>, d: string)
    requires Closed(g, s, m, n) && Closed(g, s', m', n') && m <= m'
    requires Justified(g, k, s, n) && Justified(g, k', s', n')
    ensures Closed(g, s + s', m', {d} + n + n')
    ensures Justified(g, k + k' + {d}, s + s', {d} + n + n')
  {
    forall x | x in {d} + n + n' ensures x in k + k' + {d} || ChildOf(g, s + s', x) {
      if ChildOf(g, s, x) { var v :| v in s && Edge(g, v, x); assert v in s + s'; }
      if ChildOf(g, s', x) { var v :| v in s' && Edge(g, v, x); assert v in s + s'; }
    }
  }

  /** What one walk from `p` covers, from the marks before and after it. */
  ghost predicate WalkCovered(g: Graph, root: string, p: string, seen: set<string>, end: set<string>,
                              names: set<string>)
  {
    && Closed(g, {p} + (end - seen), end, names)
    && Justified(g, {}, {p} + (end - seen), names)
    && AllReachable(g, root, end - seen)
  }

  /** What visiting the children covers. */
  ghost predicate KidsCovered(g: Graph, root: string, kids: set<string>, added: set<string>,
                              seen: set<string>, end: set<string>, names: set<string>)
  {
    var s := added * kids + (end - seen);
    && Closed(g, s, end, names) && Justified(g, kids, s, names)
    && kids <= names && AllReachable(g, root, s)
  }

  lemma {:induction false} WalkCovers(g: Graph, index: Index, p: string, level: nat, seen: set<string>, root: string)
    requires Reachable(g, root, p)
    ensures var r := Walk(g, index, 0, p, level, seen);
      WalkCovered(g, root, p, seen, r.1, Names(r.0))
    decreases Unseen(g, seen) + 1, 0
  {
    hide Walk, WalkKids, Unseen, Sort, Universe, Reachable, WalkCovered, KidsCovered, Names;
    WalkUnfolds(g, index, 0, p, level, seen);
    UniverseHasKids(g, p);
    var kids := Sort(Kids(g, p), Le);
    var marked := seen + Members(kids);
    var added := Members(kids) - seen;
    forall d | d in Members(kids) ensures Reachable(g, root, d) { ReachExtends(g, root, p, d); }
    KidsCover(g, index, kids, level, added, marked, root);
    var r := WalkKids(g, index, 0, kids, level, added, marked);
    LevelCovered(g, root, p, Members(kids), added, seen, marked, r.1, Names(r.0));
  }

  lemma LevelCovered(g: Graph, root: string, p: string, kids: set<string>, added: set<string>, seen: set<string>,
                     marked: set<string>, end: set<string>, names: set<string>)
    requires added == kids - seen && marked == seen + kids && marked <= end
    requires forall d :: d in kids <==> Edge(g, p, d)
    requires KidsCovered(g, root, kids, added, marked, end, names)
    ensures WalkCovered(g, root, p, seen, end, names)
  {
    var s := added * kids + (end - marked);
    assert end - seen == s;
    forall d | d in names ensures ChildOf(g, {p} + s, d) {
      if d in kids {
        assert Edge(g, p, d);
      } else {
        var v :| v in s && Edge(g, v, d);
        assert v in {p} + s;
      }
    }
  }

  lemma {:induction false} KidsCover(g: Graph, index: Index, kids: seq<string>, level: nat,
                                     added: set<string>, seen: set<string>, root: string)
    requires AllReachable(g, root, Members(kids))
    ensures var r := WalkKids(g, index, 0, kids, level, added, seen);
      KidsCovered(g, root, Members(kids), added, seen, r.1, Names(r.0))
    decreases Unseen(g, seen) + (if added == {} then 0 else 1), |kids| + 1
  {
    hide *;
    if kids == [] {
      NoKidsCovered(g, index, kids, level, added, seen, root);
    } else {
      var d, others := kids[0], kids[1..];
      var sub := Sub(g, index, 0, d, level, added, seen);
      KidsUnfold(g, index, 0, kids, level, added, seen);
      SubIs(g, index, 0, d, level, added, seen);
      MembersCons(kids);
      OthersReachable(g, root, d, Members(kids), Members(others));
      if d in added { WalkCovers(g, index, d, level + 1, seen, root); }
      KidsCover(g, index, others, level, added, sub.1, root);
      var rest := WalkKids(g, index, 0, others, level, added, sub.1);
      NamesCons(Node(index, d, sub.0, d !in added), rest.0);
      NodeIs(index, d, sub.0, d !in added);
      KidJoins(g, d, added, Members(kids), Members(others), seen, sub.1, rest.1, Names(sub.0), Names(rest.0), root);
    }
  }

  lemma NoKidsCovered(g: Graph, index: Index, kids: seq<string>, level: nat,
                      added: set<string>, seen: set<string>, root: string)
    requires kids == []
    ensures var r := WalkKids(g, index, 0, kids, level, added, seen);
      KidsCovered(g, root, Members(kids), added, seen, r.1, Names(r.0))
  {
    KidsDone(g, index, 0, kids, level, added, seen);
    assert added * Members(kids) + (seen - seen) == {};
  }

  lemma NodeIs(index: Index, d: string, under: seq<DepNode>, repeat: bool)
    ensures Node(index, d, under, repeat).project == d && Node(index, d, under, repeat).under == under
    ensures Node(index, d, under, repeat).repeat == repeat
  {
  }

  lemma SubIs(g: Graph, index: Index, depth: nat, d: string, level: nat, added: set<string>, seen: set<string>)
    ensures var sub := Sub(g, index, depth, d, level, added, seen);
      if d in added then sub == Walk(g, index, depth, d, level + 1, seen)
      else sub.0 == [] && sub.1 == seen && Names(sub.0) == {}
  {
    hide Walk;
  }

  lemma OthersReachable(g: Graph, root: string, d: string, kids: set<string>, others: set<string>)
    requires AllReachable(g, root, kids) && kids == {d} + others
    ensures Reachable(g, root, d) && AllReachable(g, root, others)
  {
    hide Reachable;
  }

  lemma NothingCovered(g: Graph, marks: set<string>, root: string)
    ensures Closed(g, {}, marks, {}) && Justified(g, {}, {}, {}) && AllReachable(g, root, {})
  {
  }

  lemma ReachableJoin(g: Graph, root: string, s: set<string>, t: set<string>)
    requires AllReachable(g, root, s) && AllReachable(g, root, t)
    ensures AllReachable(g, root, s + t)
  {
  }

  /** One visited child and the rest of its level cover the level. */
  lemma KidJoins(g: Graph, d: string, added: set<string>, kids: set<string>, others: set<string>,
                 seen: set<string>, mid: set<string>, end: set<string>,
                 under: set<string>, rest: set<string>, root: string)
    requires seen <= mid <= end && kids == {d} + others && Reachable(g, root, d)
    requires if d in added then WalkCovered(g, root, d, seen, mid, under) else mid == seen && under == {}
    requires KidsCovered(g, root, others, added, mid, end, rest)
    ensures KidsCovered(g, root, kids, added, seen, end, {d} + under + rest)
  {
    NothingCovered(g, mid, root);
    var s := if d in added then {d} + (mid - seen) else {};
    var s' := added * others + (end - mid);
    assert AllReachable(g, root, s);
    hide Closed, Justified, AllReachable;
    CoverJoin(g, s, mid, under, {}, s', end, rest, others, d);
    ReachableJoin(g, root, s, s');
    assert s + s' == added * kids + (end - seen);
    assert {} + others + {d} == kids;
  }

  lemma MembersCons(kids: seq<string>)
    requires kids != []
    ensures Members(kids) == {kids[0]} + Members(kids[1..])
  {
    assert kids == [kids[0]] + kids[1..];
  }

  // ----- every node shows what it should -------------------------------------------

  lemma {:induction false} WalkWellFormed(g: Graph, index: Index, p: string, level: nat, seen: set<string>)
    ensures var r := Walk(g, index, 0, p, level, seen);
      WellFormed(g, index, r.0) && Labels(r.0) == Sort(Kids(g, p), Le)
    decreases Unseen(g, seen) + 1, 0
  {
    hide Walk, WalkKids, Unseen, Sort;
    WalkUnfolds(g, index, 0, p, level, seen);
    var kids := Sort(Kids(g, p), Le);
    KidsWellFormed(g, index, kids, level, Members(kids) - seen, seen + Members(kids));
  }

  lemma {:induction false} KidsWellFormed(g: Graph, index: Index, kids: seq<string>, level: nat,
                                          added: set<string>, seen: set<string>)
    ensures var r := WalkKids(g, index, 0, kids, level, added, seen);
      WellFormed(g, index, r.0) && Labels(r.0) == kids
    decreases Unseen(g, seen) + (if added == {} then 0 else 1), |kids| + 1
  {
    hide *;
    NoneWellFormed(g, index);
    if kids == [] {
      KidsDone(g, index, 0, kids, level, added, seen);
    } else {
      var d, others := kids[0], kids[1..];
      var sub := Sub(g, index, 0, d, level, added, seen);
      KidsUnfold(g, index, 0, kids, level, added, seen);
      SubIs(g, index, 0, d, level, added, seen);
      if d in added { WalkWellFormed(g, index, d, level + 1, seen); }
      KidsWellFormed(g, index, others, level, added, sub.1);
      var rest := WalkKids(g, index, 0, others, level, added, sub.1);
      WellFormedCons(g, index, d, sub.0, d !in added, rest.0);
      assert kids == [d] + others;
    }
  }

  lemma NoneWellFormed(g: Graph, index: Index)
    ensures WellFormed(g, index, []) && Labels([]) == []
  {
  }

  lemma WellFormedCons(g: Graph, index: Index, d: string, under: seq<DepNode>, repeat: bool, rest: seq<DepNode>)
    requires WellFormed(g, index, under) && WellFormed(g, index, rest)
    requires if repeat then under == [] else Labels(under) == Sort(Kids(g, d), Le)
    ensures WellFormed(g, index, [Node(index, d, under, repeat)] + rest)
    ensures Labels([Node(index, d, under, repeat)] + rest) == [d] + Labels(rest)
  {
    hide Sort;
    assert WellFormedNode(g, index, Node(index, d, under, repeat));
  }

  // ----- which mention is expanded, and how deep ------------------------------------------

  /** A child is expanded exactly when it was not marked before its level: the
      whole level is marked before any of it is visited. */
  lemma LevelFirst(g: Graph, index: Index, depth: nat, p: string, level: nat, seen: set<string>)
    requires !(depth > 0 && level >= depth)
    ensures
      var nodes := Walk(g, index, depth, p, level, seen).0;
      Labels(nodes) == Sort(Kids(g, p), Le) && forall n :: n in nodes ==> (n.repeat <==> n.project in seen)
  {
    hide Walk, WalkKids, Sort, Unseen;
    WalkUnfolds(g, index, depth, p, level, seen);
    var kids := Sort(Kids(g, p), Le);
    KidsRepeat(g, index, depth, kids, level, Members(kids) - seen, seen + Members(kids));
    var nodes := Walk(g, index, depth, p, level, seen).0;
    forall n | n in nodes ensures n.project in kids {
      var i :| 0 <= i < |nodes| && nodes[i] == n;
      assert Labels(nodes)[i] == n.project;
    }
  }

  lemma {:induction false} KidsRepeat(g: Graph, index: Index, depth: nat, kids: seq<string>, level: nat,
                                      added: set<string>, seen: set<string>)
    ensures
      var nodes := WalkKids(g, index, depth, kids, level, added, seen).0;
      Labels(nodes) == kids && forall n :: n in nodes ==> (n.repeat <==> n.project !in added)
    decreases |kids|
  {
    hide *;
    if kids == [] {
      KidsDone(g, index, depth, kids, level, added, seen);
      NoLabels();
    } else {
      var sub := Sub(g, index, depth, kids[0], level, added, seen);
      KidsUnfold(g, index, depth, kids, level, added, seen);
      KidsRepeat(g, index, depth, kids[1..], level, added, sub.1);
      assert kids == [kids[0]] + kids[1..];
      var n := Node(index, kids[0], sub.0, kids[0] !in added);
      NodeIs(index, kids[0], sub.0, kids[0] !in added);
      LabelsCons(n, WalkKids(g, index, depth, kids[1..], level, added, sub.1).0);
    }
  }

  lemma NoLabels()
    ensures Labels([]) == []
  {
  }

  lemma LabelsCons(n: DepNode, nodes: seq<DepNode>)
    ensures Labels([n] + nodes) == [n.project] + Labels(nodes)
  {
  }

  /** No node stands below level `d`. */
  ghost predicate Within(nodes: seq<DepNode>, d: nat) {
    nodes == [] || (d > 0 && forall n :: n in nodes ==> Within(n.under, d - 1))
  }

  /** A depth limit cuts the tree there: it shows that many levels at most, and
      the first of them whole. */
  lemma DepthHolds(g: Graph, index: Index, depth: nat, p: string)
    requires depth > 0
    ensures
      var nodes := Walk(g, index, depth, p, 0, {p}).0;
      Within(nodes, depth) && Labels(nodes) == Sort(Kids(g, p), Le)
  {
    hide Walk, Sort;
    WalkWithin(g, index, depth, p, 0, {p});
    LevelFirst(g, index, depth, p, 0, {p});
  }

  lemma {:induction false} WalkWithin(g: Graph, index: Index, depth: nat, p: string, level: nat, seen: set<string>)
    requires level <= depth && depth > 0
    ensures Within(Walk(g, index, depth, p, level, seen).0, depth - level)
    decreases Unseen(g, seen) + 1, 0
  {
    hide Walk, WalkKids, Unseen, Sort;
    WalkUnfolds(g, index, depth, p, level, seen);
    if level < depth {
      var kids := Sort(Kids(g, p), Le);
      KidsWithin(g, index, depth, kids, level, Members(kids) - seen, seen + Members(kids));
    }
  }

  lemma {:induction false} KidsWithin(g: Graph, index: Index, depth: nat, kids: seq<string>, level: nat,
                                      added: set<string>, seen: set<string>)
    requires level < depth
    ensures Within(WalkKids(g, index, depth, kids, level, added, seen).0, depth - level)
    decreases Unseen(g, seen) + (if added == {} then 0 else 1), |kids| + 1
  {
    hide Walk, WalkKids, Unseen, Sort;
    if kids == [] {
      KidsDone(g, index, depth, kids, level, added, seen);
    } else {
      var d := kids[0];
      var sub := Sub(g, index, depth, d, level, added, seen);
      KidsUnfold(g, index, depth, kids, level, added, seen);
      SubIs(g, index, depth, d, level, added, seen);
      if d in added { WalkWithin(g, index, depth, d, level + 1, seen); }
      KidsWithin(g, index, depth, kids[1..], level, added, sub.1);
    }
  }

  // ----- the whole tree -----------------------------------------------------------

  /** The tree names exactly the children of reachable projects, and so every
      project reachable from the root besides the root itself. */
  ghost predicate NamesReachable(g: Graph, root: string, nodes: seq<DepNode>) {
    && (forall d :: d in Names(nodes) <==> exists v :: Reachable(g, root, v) && Edge(g, v, d))
    && (forall d :: Reachable(g, root, d) ==> d == root || d in Names(nodes))
  }

  ghost predicate ExpandsReachableOnce(g: Graph, root: string, nodes: seq<DepNode>) {
    && (forall d :: Expansions(nodes)[d] <= 1)
    && (forall d :: Expansions(nodes)[d] == 1 <==> d != root && Reachable(g, root, d))
  }

  lemma MarksAreReachable(g: Graph, index: Index, root: string)
    ensures forall d :: d in Walk(g, index, 0, root, 0, {root}).1 <==> Reachable(g, root, d)
  {
    hide Walk, Names, Reachable;
    var r := Walk(g, index, 0, root, 0, {root});
    ReachSelf(g, root);
    WalkCovers(g, index, root, 0, {root}, root);
    forall d ensures d in r.1 <==> Reachable(g, root, d) {
      if d in r.1 && d != root { assert d in r.1 - {root}; }
      if Reachable(g, root, d) { ReachableStays(g, root, d, r.1, Names(r.0)); }
    }
  }

  lemma ReachableStays(g: Graph, root: string, d: string, marks: set<string>, names: set<string>)
    requires Reachable(g, root, d) && root in marks && Closed(g, {root} + (marks - {root}), marks, names)
    ensures d in marks
    ensures d != root ==> d in names
  {
    var p :| Joins(g, p, root, d);
    assert {root} + (marks - {root}) == marks;
    ClosedKeeps(g, marks, p);
    if d != root {
      var front := p[..|p| - 1];
      assert forall i :: 0 <= i < |front| - 1 ==> Edge(g, p[i], p[i + 1]);
      ClosedKeeps(g, marks, front);
      assert Edge(g, p[|p| - 2], p[|p| - 1]);
    }
  }

  /** A whole tree, without a depth limit. */
  lemma TreeIsComplete(g: Graph, index: Index, root: string)
    ensures var nodes := Walk(g, index, 0, root, 0, {root}).0;
      && NamesReachable(g, root, nodes)
      && WellFormed(g, index, nodes) && Labels(nodes) == Sort(Kids(g, root), Le)
  {
    hide Walk, Names, Reachable, WellFormed;
    var r := Walk(g, index, 0, root, 0, {root});
    ReachSelf(g, root);
    WalkCovers(g, index, root, 0, {root}, root);
    WalkWellFormed(g, index, root, 0, {root});
    MarksAreReachable(g, index, root);
    assert {root} + (r.1 - {root}) == r.1;
    forall d ensures d in Names(r.0) <==> exists v :: Reachable(g, root, v) && Edge(g, v, d) {
      if d in Names(r.0) { var v :| v in r.1 && Edge(g, v, d); assert Reachable(g, root, v); }
      if v :| Reachable(g, root, v) && Edge(g, v, d) { assert v in r.1; }
    }
    forall d | Reachable(g, root, d) ensures d == root || d in Names(r.0) {
      ReachableStays(g, root, d, r.1, Names(r.0));
    }
  }

  /** Where no list names another project twice, each reachable project but the
      root is expanded exactly once; every other mention is a childless repeat. */
  lemma TreeExpandsOnce(g: Graph, index: Index, root: string)
    requires NoDoubles(g)
    ensures ExpandsReachableOnce(g, root, Walk(g, index, 0, root, 0, {root}).0)
  {
    hide Walk, Expansions, Reachable, NoDoubles;
    WalkExpandsOnce(g, index, 0, root, 0, {root});
    MarksAreReachable(g, index, root);
  }

  /** The trees of all roots expand once exactly when no list names another
      project twice. */
  lemma TreesExpandOnceExactly(g: Graph, index: Index)
    ensures (forall root :: ExpandsReachableOnce(g, root, Walk(g, index, 0, root, 0, {root}).0)) <==> NoDoubles(g)
  {
    hide Walk, Expansions, Reachable;
    if NoDoubles(g) {
      forall root ensures ExpandsReachableOnce(g, root, Walk(g, index, 0, root, 0, {root}).0) {
        TreeExpandsOnce(g, index, root);
      }
    } else {
      var p, d :| p in g && d != p && multiset(g[p])[d] > 1;
      DoubleExpandsTwice(g, index, p, d);
      assert !ExpandsReachableOnce(g, p, Walk(g, index, 0, p, 0, {p}).0);
    }
  }

  /** The smallest such tree: "a" lists "b" twice and shows it expanded twice. */
  lemma NamedTwice(index: Index)
    ensures Expansions(Walk(map["a" := ["b", "b"]], index, 0, "a", 0, {"a"}).0)["b"] >= 2
  {
    hide Walk, Expansions;
    var g: Graph := map["a" := ["b", "b"]];
    assert multiset(g["a"])["b"] == 2;
    DoubleExpandsTwice(g, index, "a", "b");
  }

  // ----- both directions ---------------------------------------------------------

  ghost predicate UniqueProjects(projects: seq<CatalogProject>) {
    forall i, j :: 0 <= i < j < |projects| ==> projects[i].project != projects[j].project
  }

  /** Some entry called `a` declares `b`. */
  ghost predicate Declares(projects: seq<CatalogProject>, a: string, b: string) {
    exists i :: 0 <= i < |projects| && projects[i].project == a && b in projects[i].deps
  }

  /** The catalogue by name; of entries that share one the last stays. */
  function IndexOf(projects: seq<CatalogProject>): Index {
    if projects == [] then map[]
    else
      var last := projects[|projects| - 1];
      IndexOf(projects[..|projects| - 1])[last.project := last]
  }

  method MakeIndex(projects: seq<CatalogProject>) returns (index: Index)
    ensures index == IndexOf(projects)
  {
    index := map[];
    for i := 0 to |projects|
      invariant index == IndexOf(projects[..i])
    {
      assert projects[..i + 1][..i] == projects[..i];
      index := index[projects[i].project := projects[i]];
    }
    assert projects[..|projects|] == projects;
  }

  ghost predicate IsLast(projects: seq<CatalogProject>, i: int) {
    0 <= i < |projects| && forall j :: i < j < |projects| ==> projects[j].project != projects[i].project
  }

  /** A name stands for the last entry that has it. */
  lemma {:induction false} IndexIsLast(projects: seq<CatalogProject>, a: string)
    ensures a in IndexOf(projects) <==> exists i :: 0 <= i < |projects| && projects[i].project == a
    ensures a in IndexOf(projects) ==>
      exists i :: IsLast(projects, i) && projects[i].project == a && IndexOf(projects)[a] == projects[i]
  {
    if projects == [] {
      assert a !in IndexOf(projects);
    } else {
      var k := |projects| - 1;
      var front := projects[..k];
      IndexIsLast(front, a);
      assert forall i :: 0 <= i < k ==> front[i] == projects[i];
      if projects[k].project == a {
        assert IsLast(projects, k);
      } else if a in IndexOf(front) {
        var i :| IsLast(front, i) && front[i].project == a && IndexOf(front)[a] == front[i];
        assert IsLast(projects, i);
      }
    }
  }

  /** The dependency lists of an index. */
  function Forward(index: Index): (g: Graph)
    ensures forall a, b :: Edge(g, a, b) <==> a in index && b in index[a].deps
  {
    map a | a in index :: index[a].deps
  }

  /** The last entry called `a` declares `b`. */
  ghost predicate LastDeclares(projects: seq<CatalogProject>, a: string, b: string) {
    exists i :: IsLast(projects, i) && projects[i].project == a && b in projects[i].deps
  }

  lemma ForwardDeclares(projects: seq<CatalogProject>, a: string, b: string)
    ensures Edge(Forward(IndexOf(projects)), a, b) <==> LastDeclares(projects, a, b)
    ensures UniqueProjects(projects) ==> (LastDeclares(projects, a, b) <==> Declares(projects, a, b))
  {
    hide Edge, IndexOf;
    IndexIsLast(projects, a);
    if i :| IsLast(projects, i) && projects[i].project == a && b in projects[i].deps {
      var k :| IsLast(projects, k) && projects[k].project == a && IndexOf(projects)[a] == projects[k];
      assert i == k;
    }
    if UniqueProjects(projects) {
      if i :| 0 <= i < |projects| && projects[i].project == a && b in projects[i].deps { assert IsLast(projects, i); }
    }
  }

  /** `name` entered under each of its dependencies. */
  function Entered(rev: Graph, name: string, deps: seq<string>): Graph {
    if deps == [] then rev
    else
      var r, d := Entered(rev, name, deps[..|deps| - 1]), deps[|deps| - 1];
      r[d := Kids(r, d) + [name]]
  }

  /** The dependents of every project, in catalogue order. */
  function Reversals(projects: seq<CatalogProject>): Graph {
    if projects == [] then map[]
    else
      var last := projects[|projects| - 1];
      Entered(Reversals(projects[..|projects| - 1]), last.project, last.deps)
  }

  method Backward(projects: seq<CatalogProject>) returns (rev: Graph)
    ensures rev == Reversals(projects)
  {
    rev := map[];
    for i := 0 to |projects|
      invariant rev == Reversals(projects[..i])
    {
      assert projects[..i + 1][..i] == projects[..i];
      var e := projects[i];
      ghost var before := rev;
      for k := 0 to |e.deps|
        invariant rev == Entered(before, e.project, e.deps[..k])
      {
        assert e.deps[..k + 1][..k] == e.deps[..k];
        rev := rev[e.deps[k] := Kids(rev, e.deps[k]) + [e.project]];
      }
      assert e.deps[..|e.deps|] == e.deps;
    }
    assert projects[..|projects|] == projects;
  }

  lemma {:induction false} EnteredEdges(rev: Graph, name: string, deps: seq<string>, a: string, b: string)
    ensures Edge(Entered(rev, name, deps), b, a) <==> Edge(rev, b, a) || (name == a && b in deps)
  {
    if deps == [] {
      assert Entered(rev, name, deps) == rev;
    } else {
      var front, d := deps[..|deps| - 1], deps[|deps| - 1];
      assert deps == front + [d];
      EnteredEdges(rev, name, front, a, b);
    }
  }

  /** The edges turned round are those any entry declares. */
  lemma {:induction false} ReversalEdges(projects: seq<CatalogProject>, a: string, b: string)
    ensures Edge(Reversals(projects), b, a) <==> Declares(projects, a, b)
  {
    hide Edge, Entered;
    if projects == [] {
      NoEdges(b, a);
    } else {
      var k := |projects| - 1;
      var front, last := projects[..k], projects[k];
      ReversalEdges(front, a, b);
      EnteredEdges(Reversals(front), last.project, last.deps, a, b);
      assert forall i :: 0 <= i < k ==> front[i] == projects[i];
    }
  }

  lemma NoEdges(a: string, b: string)
    ensures !Edge(map[], a, b)
  {
  }

  method DepTree(projects: seq<CatalogProject>, project: string, depth: nat) returns (out: seq<DepNode>)
    ensures out == Walk(Forward(IndexOf(projects)), IndexOf(projects), depth, project, 0, {project}).0
  {
    hide *;
    var index := MakeIndex(projects);
    var w := new Walker(Forward(index), index, depth, project);
    out := w.WalkFrom(project, 0);
  }

  method Dependents(projects: seq<CatalogProject>, project: string, depth: nat) returns (out: seq<DepNode>)
    ensures out == Walk(Reversals(projects), IndexOf(projects), depth, project, 0, {project}).0
  {
    hide *;
    var index := MakeIndex(projects);
    var g := Backward(projects);
    var w := new Walker(g, index, depth, project);
    out := w.WalkFrom(project, 0);
  }

  lemma {:induction false} PathTurns(g: Graph, h: Graph, p: seq<string>)
    requires IsPath(g, p) && forall a, b :: Edge(g, a, b) ==> Edge(h, b, a)
    ensures Joins(h, Reversed(p), p[|p| - 1], p[0])
  {
    var r := Reversed(p);
    forall i | 0 <= i < |r| - 1 ensures Edge(h, r[i], r[i + 1]) {
      assert Edge(g, p[|p| - 2 - i], p[|p| - 2 - i + 1]);
    }
  }

  /** The two trees answer one question from both ends: `a` is among the
      dependents of `b` exactly when `b` is among the dependencies of `a`. */
  lemma DirectionsAgree(g: Graph, h: Graph, a: string, down: seq<DepNode>, b: string, up: seq<DepNode>)
    requires forall x, y :: Edge(g, x, y) <==> Edge(h, y, x)
    requires NamesReachable(g, a, down) && NamesReachable(h, b, up) && a != b
    ensures b in Names(down) <==> a in Names(up)
  {
    if b in Names(down) {
      var v :| Reachable(g, a, v) && Edge(g, v, b);
      ReachExtends(g, a, v, b);
      var p :| Joins(g, p, a, b);
      PathTurns(g, h, p);
      assert Reachable(h, b, a);
    }
    if a in Names(up) {
      var v :| Reachable(h, b, v) && Edge(h, v, a);
      ReachExtends(h, b, v, a);
      var p :| Joins(h, p, b, a);
      PathTurns(h, g, p);
      assert Reachable(g, a, b);
    }
  }

  // ----- where the two trees of a catalogue agree -----------------------------------

  /** A path of declarations of last entries. */
  ghost predicate LastReaches(projects: seq<CatalogProject>, a: string, b: string) {
    Reachable(Forward(IndexOf(projects)), a, b)
  }

  /** `b` is in the tree of `a` exactly when `a` is in the dependents of `b`. */
  ghost predicate TreesAgree(projects: seq<CatalogProject>, a: string, b: string) {
    b in Names(Walk(Forward(IndexOf(projects)), IndexOf(projects), 0, a, 0, {a}).0)
    <==> a in Names(Walk(Reversals(projects), IndexOf(projects), 0, b, 0, {b}).0)
  }

  lemma NamesAre(g: Graph, index: Index, a: string, b: string)
    requires a != b
    ensures b in Names(Walk(g, index, 0, a, 0, {a}).0) <==> Reachable(g, a, b)
  {
    hide Edge, Walk, Names, IsPath;
    TreeIsComplete(g, index, a);
    if v :| Reachable(g, a, v) && Edge(g, v, b) { ReachExtends(g, a, v, b); }
    if p :| Joins(g, p, a, b) { LastEdge(g, p, a, b); }
  }

  lemma LastEdge(g: Graph, p: seq<string>, a: string, b: string)
    requires Joins(g, p, a, b) && a != b
    ensures exists v :: Reachable(g, a, v) && Edge(g, v, b)
  {
    var front := p[..|p| - 1];
    var v := front[|front| - 1];
    forall i | 0 <= i < |front| - 1 ensures Edge(g, front[i], front[i + 1]) { assert Edge(g, p[i], p[i + 1]); }
    assert Joins(g, front, a, v);
    assert Edge(g, p[|p| - 2], p[|p| - 2 + 1]);
  }

  lemma ReachTurns(g: Graph, h: Graph, a: string, b: string)
    requires forall x, y :: Edge(g, x, y) ==> Edge(h, y, x)
    requires Reachable(g, a, b)
    ensures Reachable(h, b, a)
  {
    hide Edge;
    var p :| Joins(g, p, a, b);
    PathTurns(g, h, p);
  }

  /** A path whose every edge is a way in another graph is a way there. */
  lemma {:induction false} PathWays(h: Graph, g: Graph, p: seq<string>)
    requires IsPath(h, p) && forall x, y :: Edge(h, y, x) && x != y ==> Reachable(g, x, y)
    ensures Reachable(g, p[|p| - 1], p[0])
  {
    hide Edge, Reachable;
    ReachSelf(g, p[0]);
    if |p| > 1 {
      var front := p[..|p| - 1];
      assert Edge(h, p[|p| - 2], p[|p| - 2 + 1]);
      forall i | 0 <= i < |front| - 1 ensures Edge(h, front[i], front[i + 1]) { assert Edge(h, p[i], p[i + 1]); }
      PathWays(h, g, front);
      ReachSelf(g, p[|p| - 1]);
      ReachJoins(g, p[|p| - 1], p[|p| - 2], p[0]);
    }
  }

  lemma ReachJoins(g: Graph, a: string, b: string, c: string)
    requires Reachable(g, a, b) && Reachable(g, b, c)
    ensures Reachable(g, a, c)
  {
    var p :| Joins(g, p, a, b);
    var q :| Joins(g, q, b, c);
    var r := p + q[1..];
    forall i | 0 <= i < |r| - 1 ensures Edge(g, r[i], r[i + 1]) {
      if i < |p| - 1 {
        assert Edge(g, p[i], p[i + 1]);
      } else {
        assert Edge(g, q[i - |p| + 1], q[i - |p| + 1 + 1]);
      }
    }
    assert Joins(g, r, a, c);
  }

  /** The two trees of a catalogue agree for all pairs of projects exactly when
      every declaration, of a shadowed entry too, is a way over last entries. */
  lemma TreesAgreeExactly(projects: seq<CatalogProject>)
    ensures (forall a, b :: a != b ==> TreesAgree(projects, a, b))
      <==> forall a, b :: Declares(projects, a, b) && a != b ==> LastReaches(projects, a, b)
  {
    hide *;
    var index := IndexOf(projects);
    var g, h := Forward(index), Reversals(projects);
    forall x, y ensures Edge(h, y, x) <==> Declares(projects, x, y) { ReversalEdges(projects, x, y); }
    forall x, y ensures Edge(g, x, y) ==> Edge(h, y, x) {
      ForwardDeclares(projects, x, y);
      LastIsOne(projects, x, y);
    }
    forall a, b | a != b ensures TreesAgree(projects, a, b) <==> (Reachable(g, a, b) <==> Reachable(h, b, a)) {
      NamesAre(g, index, a, b);
      NamesAre(h, index, b, a);
      TreesAgreeIs(projects, a, b);
    }
    forall a, b ensures LastReaches(projects, a, b) <==> Reachable(g, a, b) { LastReachesIs(projects, a, b); }
    forall a, b | Edge(h, b, a) ensures Reachable(h, b, a) {
      ReachSelf(h, b);
      ReachExtends(h, b, b, a);
    }
    if forall a, b :: Declares(projects, a, b) && a != b ==> LastReaches(projects, a, b) {
      forall a, b | a != b ensures TreesAgree(projects, a, b) {
        if Reachable(g, a, b) { ReachTurns(g, h, a, b); }
        if Reachable(h, b, a) { ReachWays(h, g, a, b); }
      }
    }
  }

  lemma ReachWays(h: Graph, g: Graph, a: string, b: string)
    requires forall x, y :: Edge(h, y, x) && x != y ==> Reachable(g, x, y)
    requires Reachable(h, b, a)
    ensures Reachable(g, a, b)
  {
    hide Edge, Reachable;
    var p := PathOf(h, b, a);
    PathWays(h, g, p);
  }

  lemma PathOf(g: Graph, a: string, b: string) returns (p: seq<string>)
    requires Reachable(g, a, b)
    ensures p != [] && IsPath(g, p) && p[0] == a && p[|p| - 1] == b
  {
    hide Edge;
    p :| Joins(g, p, a, b);
  }

  lemma TreesAgreeIs(projects: seq<CatalogProject>, a: string, b: string)
    ensures TreesAgree(projects, a, b)
      <==> (b in Names(Walk(Forward(IndexOf(projects)), IndexOf(projects), 0, a, 0, {a}).0)
            <==> a in Names(Walk(Reversals(projects), IndexOf(projects), 0, b, 0, {b}).0))
  {
    hide Walk, Names;
  }

  lemma LastReachesIs(projects: seq<CatalogProject>, a: string, b: string)
    ensures LastReaches(projects, a, b) <==> Reachable(Forward(IndexOf(projects)), a, b)
  {
    hide Reachable;
  }

  lemma LastIsOne(projects: seq<CatalogProject>, a: string, b: string)
    ensures LastDeclares(projects, a, b) ==> Declares(projects, a, b)
  {
  }

  /** A shadowed entry shows: "a" is among the dependents of "b", which the tree
      of "a" does not name. */
  lemma ShadowShows(first: CatalogProject, second: CatalogProject)
    requires first.project == "a" == second.project && first.deps == ["b"] && second.deps == []
    ensures !TreesAgree([first, second], "a", "b")
  {
    hide *;
    var projects := [first, second];
    var g, h := Forward(IndexOf(projects)), Reversals(projects);
    ShadowEdges(projects);
    ReversalEdges(projects, "a", "b");
    ReachSelf(h, "b");
    ReachExtends(h, "b", "b", "a");
    forall d ensures !Edge(g, "a", d) { ForwardDeclares(projects, "a", d); }
    if Reachable(g, "a", "b") {
      var p := PathOf(g, "a", "b");
      ClosedPath(g, p);
    }
    NamesAre(g, IndexOf(projects), "a", "b");
    NamesAre(h, IndexOf(projects), "b", "a");
    TreesAgreeIs(projects, "a", "b");
  }

  lemma ShadowEdges(projects: seq<CatalogProject>)
    requires |projects| == 2 && projects[0].project == "a" == projects[1].project
    requires projects[0].deps == ["b"] && projects[1].deps == []
    ensures Declares(projects, "a", "b") && forall d :: !LastDeclares(projects, "a", d)
  {
    assert projects[0].project == "a" && "b" in projects[0].deps;
    assert !IsLast(projects, 0) by { assert projects[1].project == projects[0].project; }
    assert forall i :: IsLast(projects, i) ==> i == 1;
  }

  lemma ClosedPath(g: Graph, p: seq<string>)
    requires p != [] && IsPath(g, p) && forall d :: !Edge(g, p[0], d)
    ensures |p| == 1
  {
    hide IsPath, Edge;
    if |p| > 1 { FirstEdge(g, p); }
  }

  lemma FirstEdge(g: Graph, p: seq<string>)
    requires IsPath(g, p) && |p| > 1
    ensures Edge(g, p[0], p[1])
  {
    hide Edge;
    assert Edge(g, p[0], p[0 + 1]);
  }
}
