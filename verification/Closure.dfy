/** Resolving a dependency closure (pkgx.go): first every demand on every
    reachable project is gathered, then each project gets a version, or
    several that coexist. */
module Closure {
  import opened Options
  import opened Sorting
  import opened Text
  import opened Versions
  import opened TagSelection
  import opened VersionPick
  import opened AbiLines
  import DG = DependencyGraph

  /** `ask.of` depends on `ask.on` under a constraint; "" asks for the roots. */
  datatype Ask = Ask(of: string, on: string, constraint: string)

  /** The recipes' dependencies, the published versions (no entry where the
      listing fails), the end-of-life lines, and the sonames a tag declares. */
  datatype Pantry = Pantry(
    recipes: map<string, map<string, string>>,
    catalogues: map<string, Catalogue>,
    dead: string -> seq<string>,
    declares: string -> string -> string)

  datatype Walk = Walk(constraints: map<string, seq<string>>, edges: seq<Ask>, order: seq<string>, queue: seq<string>)

  // ----- gathering the demands ---------------------------------------------------

  function Demands(constraints: map<string, seq<string>>, p: string): seq<string> {
    if p in constraints then constraints[p] else []
  }

  /** A demand that says something. */
  predicate Real(c: string) { c != "" && c != "*" }

  /** The same demand twice is one demand. */
  function Added(constraints: map<string, seq<string>>, p: string, c: string): map<string, seq<string>> {
    if !Real(c) || c in Demands(constraints, p) then constraints
    else constraints[p := Demands(constraints, p) + [c]]
  }

  /** One dependency of `of`: its demand, its edge, and its place in the queue. */
  function Asked(st: Walk, of: string, on: string, c: string): Walk {
    st.(constraints := Added(st.constraints, on, c),
        edges := st.edges + [Ask(of, on, c)],
        queue := if on in st.order then st.queue else st.queue + [on])
  }

  function AskAll(st: Walk, of: string, deps: map<string, string>, names: seq<string>): Walk
    requires forall n :: n in names ==> n in deps
  {
    if names == [] then st
    else
      var last := names[|names| - 1];
      Asked(AskAll(st, of, deps, names[..|names| - 1]), of, last, deps[last])
  }

  lemma AscendingKeys(deps: map<string, string>)
    ensures forall n :: n in Ascending(deps.Keys) <==> n in deps
  {
    AscendingMembers(deps.Keys);
  }

  /** A project taken from the queue for the first time. */
  ghost function Visited(st: Walk, p: string, deps: map<string, string>): Walk {
    AscendingKeys(deps);
    AskAll(st.(order := st.order + [p]), p, deps, Ascending(deps.Keys))
  }

  lemma {:induction false} AskAllOrder(st: Walk, of: string, deps: map<string, string>, names: seq<string>)
    requires forall n :: n in names ==> n in deps
    ensures AskAll(st, of, deps, names).order == st.order
  {
    hide Added;
    if names == [] {
    } else {
      AskAllOrder(st, of, deps, names[..|names| - 1]);
    }
  }

  lemma VisitedOrder(st: Walk, p: string, deps: map<string, string>)
    ensures Visited(st, p, deps).order == st.order + [p]
  {
    hide AskAll, Ascending;
    AscendingKeys(deps);
    AskAllOrder(st.(order := st.order + [p]), p, deps, Ascending(deps.Keys));
  }

  ghost function Unseen(recipes: map<string, map<string, string>>, order: seq<string>): set<string> {
    recipes.Keys - set x | x in order
  }

  lemma UnseenShrinks(recipes: map<string, map<string, string>>, order: seq<string>, p: string)
    requires p in recipes && p !in order
    ensures Unseen(recipes, order + [p]) < Unseen(recipes, order)
  {
    assert p in Unseen(recipes, order) && p !in Unseen(recipes, order + [p]);
  }

  /** The walk breadth first, until the queue is empty or a recipe is missing. */
  ghost function Gather(recipes: map<string, map<string, string>>, st: Walk): Option<Walk>
    decreases Unseen(recipes, st.order), |st.queue|
  {
    if st.queue == [] then Some(st)
    else
      var p, rest := st.queue[0], st.(queue := st.queue[1..]);
      if p in st.order then Gather(recipes, rest)
      else if p !in recipes then None
      else
        VisitedOrder(rest, p, recipes[p]);
        UnseenShrinks(recipes, st.order, p);
        Gather(recipes, Visited(rest, p, recipes[p]))
  }

  const START := Walk(map[], [], [], [])

  ghost function Collected(recipes: map<string, map<string, string>>, roots: map<string, string>): Option<Walk> {
    AscendingKeys(roots);
    Gather(recipes, AskAll(START, "", roots, Ascending(roots.Keys)))
  }

  method AskSorted(st: Walk, of: string, deps: map<string, string>) returns (after: Walk)
    ensures (AscendingKeys(deps); after == AskAll(st, of, deps, Ascending(deps.Keys)))
  {
    hide Added, Ascending;
    var names := SortedKeys(deps);
    AscendingKeys(deps);
    var constraints, edges, queue := st.constraints, st.edges, st.queue;
    for i := 0 to |names|
      invariant Walk(constraints, edges, st.order, queue) == AskAll(st, of, deps, names[..i])
    {
      assert names[..i + 1][..i] == names[..i];
      var n := names[i];
      assert n in names;
      constraints := Added(constraints, n, deps[n]);
      edges := edges + [Ask(of, n, deps[n])];
      if n !in st.order { queue := queue + [n]; }
      AskAllOrder(st, of, deps, names[..i]);
    }
    assert names[..|names|] == names;
    after := Walk(constraints, edges, st.order, queue);
  }

  method CollectGraph(recipes: map<string, map<string, string>>, roots: map<string, string>) returns (r: Option<Walk>)
    ensures r == Collected(recipes, roots)
  {
    hide *;
    var st := AskSorted(START, "", roots);
    CollectedIs(recipes, roots);
    while st.queue != []
      invariant Gather(recipes, st) == Collected(recipes, roots)
      decreases Unseen(recipes, st.order), |st.queue|
    {
      var p, rest := st.queue[0], st.(queue := st.queue[1..]);
      GatherStep(recipes, st);
      if p in st.order {
        st := rest;
      } else if p !in recipes {
        return None;
      } else {
        UnseenShrinks(recipes, st.order, p);
        VisitedOrder(rest, p, recipes[p]);
        VisitedIs(rest, p, recipes[p]);
        st := AskSorted(rest.(order := rest.order + [p]), p, recipes[p]);
      }
    }
    GatherStep(recipes, st);
    return Some(st);
  }

  lemma CollectedIs(recipes: map<string, map<string, string>>, roots: map<string, string>)
    ensures (AscendingKeys(roots); Collected(recipes, roots)
             == Gather(recipes, AskAll(START, "", roots, Ascending(roots.Keys))))
  {
    hide Gather, AskAll, Ascending;
  }

  lemma VisitedIs(st: Walk, p: string, deps: map<string, string>)
    ensures (AscendingKeys(deps); Visited(st, p, deps)
             == AskAll(st.(order := st.order + [p]), p, deps, Ascending(deps.Keys)))
  {
    hide AskAll, Ascending;
  }

  lemma GatherStep(recipes: map<string, map<string, string>>, st: Walk)
    ensures st.queue == [] ==> Gather(recipes, st) == Some(st)
    ensures st.queue != [] ==>
      var p, rest := st.queue[0], st.(queue := st.queue[1..]);
      Gather(recipes, st) ==
        if p in st.order then Gather(recipes, rest)
        else if p !in recipes then None
        else Gather(recipes, Visited(rest, p, recipes[p]))
  {
    hide Visited;
  }

  // ----- what the walk gathers ---------------------------------------------------------

  ghost function Deps(recipes: map<string, map<string, string>>): DG.Graph {
    map p | p in recipes :: Ascending(recipes[p].Keys)
  }

  lemma DepsEdge(recipes: map<string, map<string, string>>, a: string, b: string)
    ensures DG.Edge(Deps(recipes), a, b) <==> a in recipes && b in recipes[a]
  {
    hide Ascending;
    if a in recipes { AscendingKeys(recipes[a]); }
  }

  /** Reachable from a root along dependencies. */
  ghost predicate Reached(recipes: map<string, map<string, string>>, roots: map<string, string>, p: string) {
    exists r :: r in roots && DG.Reachable(Deps(recipes), r, p)
  }

  lemma ReachedRoot(recipes: map<string, map<string, string>>, roots: map<string, string>, p: string)
    requires p in roots
    ensures Reached(recipes, roots, p)
  {
    hide Deps;
    DG.ReachSelf(Deps(recipes), p);
  }

  lemma ReachedOn(recipes: map<string, map<string, string>>, roots: map<string, string>, p: string, d: string)
    requires Reached(recipes, roots, p) && p in recipes && d in recipes[p]
    ensures Reached(recipes, roots, d)
  {
    hide Deps, DG.Reachable, DG.Edge;
    var r :| r in roots && DG.Reachable(Deps(recipes), r, p);
    DepsEdge(recipes, p, d);
    DG.ReachExtends(Deps(recipes), r, p, d);
  }

  ghost predicate Waiting(st: Walk, p: string) { p in st.order || p in st.queue }

  /** Every project visited or queued is reachable, and nothing next to a
      visited one is forgotten. */
  ghost predicate Covers(recipes: map<string, map<string, string>>, roots: map<string, string>, st: Walk) {
    && Distinct(st.order) && (forall p :: p in st.order ==> p in recipes)
    && (forall p :: Waiting(st, p) ==> Reached(recipes, roots, p))
    && (forall p :: p in roots ==> Waiting(st, p))
    && (forall p, d :: p in st.order && d in recipes[p] ==> Waiting(st, d))
  }

  /** The edges asked so far: the roots', and those of visited projects. */
  ghost predicate IsAsk(recipes: map<string, map<string, string>>, roots: map<string, string>, order: seq<string>,
                        e: Ask)
  {
    || (e.of == "" && e.on in roots && roots[e.on] == e.constraint)
    || (e.of in order && e.of in recipes && e.on in recipes[e.of] && recipes[e.of][e.on] == e.constraint)
  }

  ghost predicate Demanded(constraints: map<string, seq<string>>, p: string, c: string) {
    c in Demands(constraints, p)
  }

  /** Some edge asks `c` of `p`. */
  ghost predicate Wanted(edges: seq<Ask>, p: string, c: string) { exists of :: Ask(of, p, c) in edges }

  /** The edges are exactly those asked, and the demands on a project exactly
      the constraints on edges to it, once each. */
  ghost predicate Tallies(recipes: map<string, map<string, string>>, roots: map<string, string>, st: Walk) {
    && (forall e :: e in st.edges <==> IsAsk(recipes, roots, st.order, e))
    && (forall p, c :: Demanded(st.constraints, p, c) <==> c != "" && c != "*" && Wanted(st.edges, p, c))
    && (forall p :: Distinct(Demands(st.constraints, p)))
  }

  lemma TalliesAre(recipes: map<string, map<string, string>>, roots: map<string, string>, st: Walk)
    ensures
      && (forall e :: e in st.edges <==> IsAsk(recipes, roots, st.order, e))
      && (forall p, c :: Demanded(st.constraints, p, c) <==> Real(c) && Wanted(st.edges, p, c))
      && (forall p :: Distinct(Demands(st.constraints, p)))
      <==> Tallies(recipes, roots, st)
  {
    RealsAre();
    hide Demands, Demanded, Real, Distinct, IsAsk, Wanted;
  }

  lemma AddedDemands(constraints: map<string, seq<string>>, p: string, c: string)
    ensures forall q, d :: Demanded(Added(constraints, p, c), q, d) <==>
      Demanded(constraints, q, d) || (q == p && d == c && Real(c))
    ensures (forall q :: Distinct(Demands(constraints, q))) ==>
      forall q :: Distinct(Demands(Added(constraints, p, c), q))
  {
    hide Real;
    if forall q :: Distinct(Demands(constraints, q)) {
      forall q ensures Distinct(Demands(Added(constraints, p, c), q)) {
        assert Distinct(Demands(constraints, q));
      }
    }
  }

  lemma {:induction false} AskAllTallies(st: Walk, of: string, deps: map<string, string>, names: seq<string>)
    requires forall n :: n in names ==> n in deps
    ensures var after := AskAll(st, of, deps, names);
      && (forall p, c :: Demanded(after.constraints, p, c) <==>
            Demanded(st.constraints, p, c) || (Real(c) && p in names && deps[p] == c))
      && ((forall p :: Distinct(Demands(st.constraints, p))) ==> forall p :: Distinct(Demands(after.constraints, p)))
      && (forall e :: e in after.edges <==>
            e in st.edges || (e.of == of && e.on in names && deps[e.on] == e.constraint))
  {
    hide Added, Distinct, Demands, Demanded, Real;
    if names == [] {
    } else {
      var front, last := names[..|names| - 1], names[|names| - 1];
      assert names == front + [last];
      AskAllTallies(st, of, deps, front);
      AddedDemands(AskAll(st, of, deps, front).constraints, last, deps[last]);
    }
  }

  lemma {:induction false} AskAllQueue(st: Walk, of: string, deps: map<string, string>, names: seq<string>)
    requires forall n :: n in names ==> n in deps
    ensures forall q :: q in AskAll(st, of, deps, names).queue <==> q in st.queue || (q in names && q !in st.order)
  {
    hide Added;
    if names == [] {
    } else {
      var front, last := names[..|names| - 1], names[|names| - 1];
      assert names == front + [last];
      AskAllQueue(st, of, deps, front);
      AskAllOrder(st, of, deps, front);
    }
  }

  /** What a visit adds, free of the order the names come in. */
  lemma VisitAdds(st: Walk, of: string, deps: map<string, string>)
    ensures (AscendingKeys(deps);
      var after := AskAll(st, of, deps, Ascending(deps.Keys));
      && after.order == st.order
      && (forall q :: q in after.queue <==> q in st.queue || (q in deps && q !in st.order))
      && (forall p, c :: Demanded(after.constraints, p, c) <==>
            Demanded(st.constraints, p, c) || (Real(c) && p in deps && deps[p] == c))
      && ((forall p :: Distinct(Demands(st.constraints, p))) ==> forall p :: Distinct(Demands(after.constraints, p)))
      && (forall e :: e in after.edges <==>
            e in st.edges || (e.of == of && e.on in deps && deps[e.on] == e.constraint)))
  {
    hide *;
    AscendingKeys(deps);
    AskAllOrder(st, of, deps, Ascending(deps.Keys));
    AskAllQueue(st, of, deps, Ascending(deps.Keys));
    AskAllTallies(st, of, deps, Ascending(deps.Keys));
  }

  lemma StartCovers(recipes: map<string, map<string, string>>, roots: map<string, string>, st: Walk)
    requires st.order == [] && forall q :: q in st.queue <==> q in roots
    ensures Covers(recipes, roots, st)
  {
    hide Reached;
    forall p | p in roots ensures Reached(recipes, roots, p) { ReachedRoot(recipes, roots, p); }
  }

  lemma StartTallies(recipes: map<string, map<string, string>>, roots: map<string, string>, st: Walk)
    requires st.order == [] && forall e :: e in st.edges <==> e.of == "" && e.on in roots && roots[e.on] == e.constraint
    requires forall p, c :: Demanded(st.constraints, p, c) <==> Real(c) && p in roots && roots[p] == c
    requires forall p :: Distinct(Demands(st.constraints, p))
    ensures Tallies(recipes, roots, st)
  {
    RealsAre();
    hide Demands, Demanded, Real, Distinct;
    forall p, c ensures Wanted(st.edges, p, c) <==> p in roots && roots[p] == c {
      assert p in roots && roots[p] == c ==> Ask("", p, c) in st.edges;
    }
  }

  lemma NoDemandsYet()
    ensures forall p :: Demands(START.constraints, p) == [] && Distinct(Demands(START.constraints, p))
    ensures forall p, c :: !Demanded(START.constraints, p, c)
    ensures START.order == [] && START.queue == [] && START.edges == []
  {
  }

  lemma Starts(recipes: map<string, map<string, string>>, roots: map<string, string>)
    ensures (AscendingKeys(roots);
      var st := AskAll(START, "", roots, Ascending(roots.Keys));
      Covers(recipes, roots, st) && Tallies(recipes, roots, st))
  {
    hide *;
    AscendingKeys(roots);
    NoDemandsYet();
    VisitAdds(START, "", roots);
    var st := AskAll(START, "", roots, Ascending(roots.Keys));
    StartCovers(recipes, roots, st);
    StartTallies(recipes, roots, st);
  }

  lemma VisitCovers(recipes: map<string, map<string, string>>, roots: map<string, string>, st: Walk, after: Walk)
    requires Covers(recipes, roots, st) && st.queue != [] && st.queue[0] !in st.order && st.queue[0] in recipes
    requires after.order == st.order + [st.queue[0]]
    requires forall q :: q in after.queue <==> q in st.queue[1..] || (q in recipes[st.queue[0]] && q !in after.order)
    ensures Covers(recipes, roots, after)
  {
    hide Reached;
    var p := st.queue[0];
    assert st.queue == [p] + st.queue[1..];
    assert Waiting(st, p);
    forall d | d in recipes[p] ensures Reached(recipes, roots, d) { ReachedOn(recipes, roots, p, d); }
    forall q ensures Waiting(st, q) ==> Waiting(after, q) {}
    forall q | Waiting(after, q) ensures Reached(recipes, roots, q) {
      assert Waiting(st, q) || q in recipes[p];
    }
  }

  lemma SkipCovers(recipes: map<string, map<string, string>>, roots: map<string, string>, st: Walk)
    requires Covers(recipes, roots, st) && st.queue != [] && st.queue[0] in st.order
    ensures Covers(recipes, roots, st.(queue := st.queue[1..]))
  {
    hide Reached, Distinct;
    var rest := st.(queue := st.queue[1..]);
    assert st.queue == [st.queue[0]] + st.queue[1..];
    forall p ensures Waiting(rest, p) <==> Waiting(st, p) {}
  }

  lemma VisitTallies(recipes: map<string, map<string, string>>, roots: map<string, string>, st: Walk, after: Walk,
                     q: string)
    requires Tallies(recipes, roots, st) && q in recipes && after.order == st.order + [q]
    requires forall p, c :: Demanded(after.constraints, p, c) <==>
      Demanded(st.constraints, p, c) || (Real(c) && p in recipes[q] && recipes[q][p] == c)
    requires (forall p :: Distinct(Demands(st.constraints, p))) ==> forall p :: Distinct(Demands(after.constraints, p))
    requires forall e :: e in after.edges <==>
      e in st.edges || (e.of == q && e.on in recipes[q] && recipes[q][e.on] == e.constraint)
    ensures Tallies(recipes, roots, after)
  {
    RealsAre();
    hide Demands, Demanded, Real, Distinct;
    forall p, c
      ensures Wanted(after.edges, p, c) <==> Wanted(st.edges, p, c) || (p in recipes[q] && recipes[q][p] == c)
    {
      assert p in recipes[q] && recipes[q][p] == c ==> Ask(q, p, c) in after.edges;
      if Wanted(st.edges, p, c) {
        var of :| Ask(of, p, c) in st.edges;
        assert Ask(of, p, c) in after.edges;
      }
    }
    TalliesAre(recipes, roots, after);
  }

  /** A walk that ends has covered and tallied, with nothing left to visit; one
      that fails met a reachable project without a recipe. */
  lemma {:induction false} GatherKeeps(recipes: map<string, map<string, string>>, roots: map<string, string>, st: Walk)
    requires Covers(recipes, roots, st) && Tallies(recipes, roots, st)
    ensures Gather(recipes, st).Some? ==>
      var g := Gather(recipes, st).value;
      Covers(recipes, roots, g) && Tallies(recipes, roots, g) && g.queue == []
    ensures Gather(recipes, st).None? ==> exists p :: Reached(recipes, roots, p) && p !in recipes
    decreases Unseen(recipes, st.order), |st.queue|
  {
    hide *;
    GatherStep(recipes, st);
    if st.queue == [] {
    } else {
      var p, rest := st.queue[0], st.(queue := st.queue[1..]);
      if p in st.order {
        SkipCovers(recipes, roots, st);
        SameTallies(recipes, roots, st, rest);
        GatherKeeps(recipes, roots, rest);
      } else if p !in recipes {
        QueuedReached(recipes, roots, st, p);
      } else {
        var now := rest.(order := rest.order + [p]);
        VisitedIs(rest, p, recipes[p]);
        VisitAdds(now, p, recipes[p]);
        var after := Visited(rest, p, recipes[p]);
        UnseenShrinks(recipes, st.order, p);
        VisitCovers(recipes, roots, st, after);
        VisitTallies(recipes, roots, st, after, p);
        GatherKeeps(recipes, roots, after);
      }
    }
  }

  lemma SameTallies(recipes: map<string, map<string, string>>, roots: map<string, string>, st: Walk, rest: Walk)
    requires Tallies(recipes, roots, st) && rest == st.(queue := rest.queue)
    ensures Tallies(recipes, roots, rest)
  {
    hide Demands, Demanded, Real, Distinct, IsAsk, Wanted;
    TalliesAre(recipes, roots, rest);
  }

  lemma QueuedReached(recipes: map<string, map<string, string>>, roots: map<string, string>, st: Walk, p: string)
    requires Covers(recipes, roots, st) && p in st.queue
    ensures Reached(recipes, roots, p)
  {
    hide Reached, Distinct;
    assert Waiting(st, p);
  }

  lemma AllReachedVisited(recipes: map<string, map<string, string>>, roots: map<string, string>, g: Walk, p: string)
    requires Covers(recipes, roots, g) && g.queue == []
    ensures p in g.order <==> Reached(recipes, roots, p)
  {
    hide Deps, DG.Edge, Distinct;
    assert Waiting(g, p) <==> p in g.order;
    if Reached(recipes, roots, p) {
      var r :| r in roots && DG.Reachable(Deps(recipes), r, p);
      var path :| DG.Joins(Deps(recipes), path, r, p);
      var visited := set q | q in g.order;
      assert Waiting(g, r);
      forall v, d | v in visited && DG.Edge(Deps(recipes), v, d) ensures d in visited {
        DepsEdge(recipes, v, d);
        assert Waiting(g, d);
      }
      DG.ClosedKeeps(Deps(recipes), visited, path);
    }
  }

  /** The walk succeeds exactly when every reachable project has a recipe. It
      visits those projects, once each; its edges are exactly those of the
      roots and of the projects visited; and the demands on a project are
      exactly the constraints on edges to it that say something, once each. */
  lemma CollectedExactly(recipes: map<string, map<string, string>>, roots: map<string, string>)
    ensures Collected(recipes, roots).Some? <==> forall p :: Reached(recipes, roots, p) ==> p in recipes
    ensures Collected(recipes, roots).Some? ==>
      var g := Collected(recipes, roots).value;
      && Distinct(g.order) && (forall p :: p in g.order <==> Reached(recipes, roots, p))
      && Tallies(recipes, roots, g)
  {
    hide *;
    Starts(recipes, roots);
    CollectedIs(recipes, roots);
    AscendingKeys(roots);
    GatherKeeps(recipes, roots, AskAll(START, "", roots, Ascending(roots.Keys)));
    if Collected(recipes, roots).Some? {
      var g := Collected(recipes, roots).value;
      forall p ensures p in g.order <==> Reached(recipes, roots, p) { AllReachedVisited(recipes, roots, g, p); }
      CoversMeans(recipes, roots, g);
    }
  }

  // ----- in which order ------------------------------------------------------------------

  /** Each name where it first stands. */
  function Firsts(s: seq<string>): seq<string> {
    if s == [] then []
    else
      var f, last := Firsts(s[..|s| - 1]), s[|s| - 1];
      if last in f then f else f + [last]
  }

  function Targets(edges: seq<Ask>): seq<string> { seq(|edges|, i requires 0 <= i < |edges| => edges[i].on) }

  /** What a project asks for, by name. */
  ghost function AsksOf(of: string, deps: map<string, string>): seq<Ask> {
    AscendingKeys(deps);
    var names := Ascending(deps.Keys);
    seq(|names|, i requires 0 <= i < |names| => Ask(of, names[i], deps[names[i]]))
  }

  /** What the roots ask for, and then the projects of a listing one by one. */
  ghost function AsksAlong(recipes: map<string, map<string, string>>, roots: map<string, string>,
                           order: seq<string>): seq<Ask>
    requires forall p :: p in order ==> p in recipes
  {
    if order == [] then AsksOf("", roots)
    else
      var p := order[|order| - 1];
      AsksAlong(recipes, roots, order[..|order| - 1]) + AsksOf(p, recipes[p])
  }

  lemma FirstsSnoc(s: seq<string>, p: string)
    ensures Firsts(s + [p]) == if p in Firsts(s) then Firsts(s) else Firsts(s) + [p]
  {
    assert (s + [p])[..|s|] == s;
  }

  lemma {:induction false} FirstsHold(s: seq<string>, p: string)
    ensures p in Firsts(s) <==> p in s
  {
    if s == [] {
    } else {
      assert s == s[..|s| - 1] + [s[|s| - 1]];
      FirstsHold(s[..|s| - 1], p);
    }
  }

  /** A name that stood before changes nothing where it stands again. */
  lemma {:induction false} FirstsSkip(a: seq<string>, p: string, b: seq<string>)
    requires p in a
    ensures Firsts(a + [p] + b) == Firsts(a + b)
    decreases |b|
  {
    hide Firsts;
    if b == [] {
      assert a + [p] + b == a + [p] && a + b == a;
      FirstsSnoc(a, p);
      FirstsHold(a, p);
    } else {
      var front, last := b[..|b| - 1], b[|b| - 1];
      assert a + [p] + b == (a + [p] + front) + [last] && a + b == (a + front) + [last];
      FirstsSkip(a, p, front);
      FirstsSnoc(a + [p] + front, last);
      FirstsSnoc(a + front, last);
    }
  }

  lemma {:induction false} FirstsOwn(s: seq<string>)
    requires Distinct(s)
    ensures Firsts(s) == s
  {
    if s == [] {
    } else {
      var front, last := s[..|s| - 1], s[|s| - 1];
      assert s == front + [last];
      FirstsOwn(front);
    }
  }

  /** The projects visited and those queued are, once each, what the edges lead
      to, in their order; and the edges are the asks along the visits. */
  ghost predicate InOrder(recipes: map<string, map<string, string>>, roots: map<string, string>, st: Walk) {
    && (forall p :: p in st.order ==> p in recipes)
    && Firsts(Targets(st.edges)) == Firsts(st.order + st.queue)
    && st.edges == AsksAlong(recipes, roots, st.order)
  }

  lemma AskedInOrder(st: Walk, of: string, on: string, c: string)
    requires Firsts(Targets(st.edges)) == Firsts(st.order + st.queue)
    ensures
      var after := Asked(st, of, on, c);
      && Firsts(Targets(after.edges)) == Firsts(after.order + after.queue)
      && after.edges == st.edges + [Ask(of, on, c)] && after.order == st.order
  {
    hide Added, Firsts;
    var after := Asked(st, of, on, c);
    assert Targets(after.edges) == Targets(st.edges) + [on];
    FirstsSnoc(Targets(st.edges), on);
    FirstsSnoc(st.order + st.queue, on);
    FirstsHold(st.order + st.queue, on);
    assert st.order + (st.queue + [on]) == st.order + st.queue + [on];
  }

  lemma {:induction false} AskAllInOrder(st: Walk, of: string, deps: map<string, string>, names: seq<string>)
    requires Firsts(Targets(st.edges)) == Firsts(st.order + st.queue) && forall n :: n in names ==> n in deps
    ensures
      var after := AskAll(st, of, deps, names);
      && Firsts(Targets(after.edges)) == Firsts(after.order + after.queue) && after.order == st.order
      && after.edges == st.edges + seq(|names|, i requires 0 <= i < |names| => Ask(of, names[i], deps[names[i]]))
  {
    hide Asked, Firsts;
    if names == [] {
    } else {
      var front, last := names[..|names| - 1], names[|names| - 1];
      AskAllInOrder(st, of, deps, front);
      AskedInOrder(AskAll(st, of, deps, front), of, last, deps[last]);
    }
  }

  lemma VisitedInOrder(recipes: map<string, map<string, string>>, roots: map<string, string>, st: Walk, p: string)
    requires InOrder(recipes, roots, st) && st.queue != [] && p == st.queue[0] && p in recipes
    ensures InOrder(recipes, roots, Visited(st.(queue := st.queue[1..]), p, recipes[p]))
  {
    hide Firsts, AskAll, Targets, Ascending;
    var rest := st.(queue := st.queue[1..]);
    var next := rest.(order := st.order + [p]);
    AscendingKeys(recipes[p]);
    assert next.order + next.queue == st.order + st.queue;
    AskAllInOrder(next, p, recipes[p], Ascending(recipes[p].Keys));
    VisitedIs(rest, p, recipes[p]);
    assert (st.order + [p])[..|st.order|] == st.order;
  }

  lemma SkippedInOrder(recipes: map<string, map<string, string>>, roots: map<string, string>, st: Walk)
    requires InOrder(recipes, roots, st) && st.queue != [] && st.queue[0] in st.order
    ensures InOrder(recipes, roots, st.(queue := st.queue[1..]))
  {
    hide Firsts, Targets, AsksAlong;
    var p, rest := st.queue[0], st.queue[1..];
    assert st.order + st.queue == st.order + [p] + rest;
    FirstsSkip(st.order, p, rest);
  }

  lemma {:induction false} GatherInOrder(recipes: map<string, map<string, string>>, roots: map<string, string>,
                                         st: Walk)
    requires InOrder(recipes, roots, st)
    ensures Gather(recipes, st).Some? ==>
      InOrder(recipes, roots, Gather(recipes, st).value) && Gather(recipes, st).value.queue == []
    decreases Unseen(recipes, st.order), |st.queue|
  {
    hide InOrder, Gather, Visited, Unseen;
    GatherStep(recipes, st);
    if st.queue == [] {
    } else {
      var p, rest := st.queue[0], st.(queue := st.queue[1..]);
      if p in st.order {
        SkippedInOrder(recipes, roots, st);
        GatherInOrder(recipes, roots, rest);
      } else if p in recipes {
        VisitedInOrder(recipes, roots, st, p);
        VisitedOrder(rest, p, recipes[p]);
        UnseenShrinks(recipes, st.order, p);
        GatherInOrder(recipes, roots, Visited(rest, p, recipes[p]));
      }
    }
  }

  /** The walk is breadth first and by name: its edges are what the roots ask for
      and then what each project asks for, in the order of the visits; and the
      visits are to what the edges lead to, each when it is first met. */
  lemma CollectedInOrder(recipes: map<string, map<string, string>>, roots: map<string, string>)
    requires Collected(recipes, roots).Some?
    ensures
      var g := Collected(recipes, roots).value;
      && (forall p :: p in g.order ==> p in recipes)
      && g.order == Firsts(Targets(g.edges)) && g.edges == AsksAlong(recipes, roots, g.order)
  {
    hide Firsts, Gather, AskAll, Ascending, Reached, Tallies;
    CollectedIs(recipes, roots);
    AscendingKeys(roots);
    CollectedExactly(recipes, roots);
    var st := AskAll(START, "", roots, Ascending(roots.Keys));
    assert Targets(START.edges) == START.order + START.queue == [];
    AskAllInOrder(START, "", roots, Ascending(roots.Keys));
    GatherInOrder(recipes, roots, st);
    var g := Collected(recipes, roots).value;
    assert g.order + g.queue == g.order;
    FirstsOwn(g.order);
  }

  lemma CoversMeans(recipes: map<string, map<string, string>>, roots: map<string, string>, g: Walk)
    requires Covers(recipes, roots, g)
    ensures Distinct(g.order) && forall p :: p in g.order ==> p in recipes
  {
    hide Reached, Waiting;
  }

  // ----- choosing the versions ------------------------------------------------------------

  datatype Resolved = Resolved(project: string, version: Ver)

  /** The versions a project gets: one for all its demands, or, when there is
      none, several lines that coexist. */
  ghost predicate Answers(pantry: Pantry, cs: seq<string>, p: string, vers: seq<Ver>) {
    && p in pantry.catalogues
    && if Resolves(pantry.catalogues[p], cs, pantry.dead(p))
       then |vers| == 1 && PickedFor(pantry.catalogues[p], cs, pantry.dead(p), vers[0])
       else Lines(pantry.catalogues[p], cs, pantry.dead(p), pantry.declares(p), vers)
  }

  /** No answer: the listing fails, or neither one version nor lines will do. */
  ghost predicate Unanswered(pantry: Pantry, cs: seq<string>, p: string) {
    p in pantry.catalogues ==>
      && !Resolves(pantry.catalogues[p], cs, pantry.dead(p))
      && (|cs| < 2 || NoLines(pantry.catalogues[p], cs, pantry.dead(p), pantry.declares(p)))
  }

  /** The demands do not split in two, or the lines they split into clash. */
  ghost predicate NoLines(cat: Catalogue, cs: seq<string>, dead: seq<string>, declares: string -> string) {
    || Partition(cat, dead, cs).None? || |Partition(cat, dead, cs).value| < 2
    || exists picks :: OnePerGroup(cat, cs, dead, picks) && !Coexist(picks, declares)
  }

  function Entries(p: string, vers: seq<Ver>): seq<Resolved> {
    seq(|vers|, i requires 0 <= i < |vers| => Resolved(p, vers[i]))
  }

  function AllEntries(order: seq<string>, answers: seq<seq<Ver>>): seq<Resolved>
    requires |order| == |answers|
  {
    if order == [] then []
    else
      var last := |order| - 1;
      AllEntries(order[..last], answers[..last]) + Entries(order[last], answers[last])
  }

  ghost predicate Answered(pantry: Pantry, g: Walk, order: seq<string>, answers: seq<seq<Ver>>) {
    && |answers| == |order|
    && forall k :: 0 <= k < |order| ==> Answers(pantry, Demands(g.constraints, order[k]), order[k], answers[k])
  }

  /** A resolved closure: an answer for every project visited, in order. */
  ghost predicate Closed(pantry: Pantry, roots: map<string, string>, out: seq<Resolved>) {
    && Collected(pantry.recipes, roots).Some?
    && var g := Collected(pantry.recipes, roots).value;
       exists answers :: Answered(pantry, g, g.order, answers) && out == AllEntries(g.order, answers)
  }

  method Answer(pantry: Pantry, cs: seq<string>, p: string) returns (vers: Option<seq<Ver>>)
    ensures vers.Some? ==> Answers(pantry, cs, p, vers.value)
    ensures vers.None? ==> Unanswered(pantry, cs, p)
  {
    hide *;
    if p !in pantry.catalogues {
      NoListing(pantry, cs, p);
      return None;
    }
    var cat := pantry.catalogues[p];
    var one := PickVersionForAll(cat, cs, pantry.dead(p));
    if one.Picked? {
      PickedForIs(cat, cs, pantry.dead(p), one);
      OneAnswers(pantry, cs, p, one.v);
      return Some([one.v]);
    }
    vers := PickAbiLines(cat, cs, pantry.dead(p), pantry.declares(p));
    if vers.Some? {
      LinesAnswer(pantry, cs, p, vers.value);
    } else {
      NothingAnswers(pantry, cs, p);
    }
  }

  lemma NoListing(pantry: Pantry, cs: seq<string>, p: string)
    requires p !in pantry.catalogues
    ensures Unanswered(pantry, cs, p)
  {
  }

  lemma OneAnswers(pantry: Pantry, cs: seq<string>, p: string, v: Ver)
    requires p in pantry.catalogues && Resolves(pantry.catalogues[p], cs, pantry.dead(p))
    requires PickedFor(pantry.catalogues[p], cs, pantry.dead(p), v)
    ensures Answers(pantry, cs, p, [v])
  {
    hide PickedFor, Resolves, Lines;
  }

  lemma LinesAnswer(pantry: Pantry, cs: seq<string>, p: string, vers: seq<Ver>)
    requires p in pantry.catalogues && !Resolves(pantry.catalogues[p], cs, pantry.dead(p))
    requires Lines(pantry.catalogues[p], cs, pantry.dead(p), pantry.declares(p), vers)
    ensures Answers(pantry, cs, p, vers)
  {
    hide PickedFor, Resolves, Lines;
  }

  lemma NothingAnswers(pantry: Pantry, cs: seq<string>, p: string)
    requires p in pantry.catalogues && !Resolves(pantry.catalogues[p], cs, pantry.dead(p))
    requires
      var cat, dead := pantry.catalogues[p], pantry.dead(p);
      || |cs| < 2 || Partition(cat, dead, cs).None? || |Partition(cat, dead, cs).value| < 2
      || exists picks :: OnePerGroup(cat, cs, dead, picks) && !Coexist(picks, pantry.declares(p))
    ensures Unanswered(pantry, cs, p)
  {
    hide Resolves, Partition, OnePerGroup, Coexist;
  }

  lemma AllEntriesStep(order: seq<string>, answers: seq<seq<Ver>>, p: string, vers: seq<Ver>)
    requires |order| == |answers|
    ensures AllEntries(order + [p], answers + [vers]) == AllEntries(order, answers) + Entries(p, vers)
  {
    hide Entries;
    assert (order + [p])[..|order|] == order && (answers + [vers])[..|order|] == answers;
  }

  lemma AnsweredStep(pantry: Pantry, g: Walk, order: seq<string>, answers: seq<seq<Ver>>, p: string, vers: seq<Ver>)
    requires Answered(pantry, g, order, answers) && Answers(pantry, Demands(g.constraints, p), p, vers)
    ensures Answered(pantry, g, order + [p], answers + [vers])
  {
    hide Answers, Demands;
  }

  lemma ClosedIs(pantry: Pantry, roots: map<string, string>, g: Walk, answers: seq<seq<Ver>>)
    requires Collected(pantry.recipes, roots) == Some(g) && Answered(pantry, g, g.order, answers)
    ensures Closed(pantry, roots, AllEntries(g.order, answers))
  {
    hide Collected, Answered, AllEntries;
    AnsweredLength(pantry, g, g.order, answers);
  }

  lemma AnsweredLength(pantry: Pantry, g: Walk, order: seq<string>, answers: seq<seq<Ver>>)
    requires Answered(pantry, g, order, answers)
    ensures |answers| == |order|
  {
    hide Answers;
  }

  lemma AnsweredNone(pantry: Pantry, g: Walk)
    ensures Answered(pantry, g, [], []) && AllEntries([], []) == []
  {
  }

  method ResolveClosureFor(pantry: Pantry, roots: map<string, string>) returns (out: Option<seq<Resolved>>)
    ensures out.Some? ==> Closed(pantry, roots, out.value)
    ensures out.None? ==>
      || Collected(pantry.recipes, roots).None?
      || var g := Collected(pantry.recipes, roots).value;
         exists p :: p in g.order && Unanswered(pantry, Demands(g.constraints, p), p)
  {
    hide *;
    var collected := CollectGraph(pantry.recipes, roots);
    if collected.None? { return None; }
    var g := collected.value;
    var entries := [];
    ghost var answers: seq<seq<Ver>> := [];
    AnsweredNone(pantry, g);
    assert g.order[..0] == [];
    for k := 0 to |g.order|
      invariant |answers| == k && Answered(pantry, g, g.order[..k], answers)
      invariant entries == AllEntries(g.order[..k], answers)
    {
      var p := g.order[k];
      var vers := Answer(pantry, Demands(g.constraints, p), p);
      if vers.None? {
        assert p in g.order;
        return None;
      }
      AllEntriesStep(g.order[..k], answers, p, vers.value);
      AnsweredStep(pantry, g, g.order[..k], answers, p, vers.value);
      assert g.order[..k + 1] == g.order[..k] + [p];
      EntriesAre(p, vers.value);
      entries := entries + seq(|vers.value|, i requires 0 <= i < |vers.value| => Resolved(p, vers.value[i]));
      answers := answers + [vers.value];
    }
    assert g.order[..|g.order|] == g.order;
    ClosedIs(pantry, roots, g, answers);
    return Some(entries);
  }

  lemma EntriesAre(p: string, vers: seq<Ver>)
    ensures Entries(p, vers) == seq(|vers|, i requires 0 <= i < |vers| => Resolved(p, vers[i]))
  {
  }

  // ----- what a closure holds ----------------------------------------------------------------

  lemma {:induction false} AllEntriesFrom(order: seq<string>, answers: seq<seq<Ver>>, r: Resolved)
    requires |order| == |answers|
    ensures r in AllEntries(order, answers)
      <==> exists k :: 0 <= k < |order| && order[k] == r.project && r.version in answers[k]
  {
    hide Entries;
    if order == [] {
    } else {
      var last := |order| - 1;
      AllEntriesFrom(order[..last], answers[..last], r);
      EntriesFrom(order[last], answers[last], r);
      assert forall k :: 0 <= k < last ==> order[..last][k] == order[k] && answers[..last][k] == answers[k];
    }
  }

  lemma EntriesFrom(p: string, vers: seq<Ver>, r: Resolved)
    ensures r in Entries(p, vers) <==> r.project == p && r.version in vers
  {
    var es := Entries(p, vers);
    if r.project == p && r.version in vers {
      var i :| 0 <= i < |vers| && vers[i] == r.version;
      assert es[i] == r;
    }
  }

  /** A project's answer has a version for each of its demands, and at least one. */
  lemma AnswersMeet(pantry: Pantry, cs: seq<string>, p: string, vers: seq<Ver>)
    requires Answers(pantry, cs, p, vers)
    ensures vers != []
    ensures forall c :: c in cs ==> exists v :: v in vers && Satisfies(v, c)
  {
    hide *;
    AnswersIs(pantry, cs, p, vers);
    var cat, dead := pantry.catalogues[p], pantry.dead(p);
    if Resolves(cat, cs, dead) {
      var i := ChosenUsable(cat, cs, dead, vers[0]);
      forall c | c in cs ensures exists v :: v in vers && Satisfies(v, c) {
        MetBy(cat, cs, i, c, vers[0]);
        assert vers[0] in vers;
      }
    } else {
      var picks := LinesPicks(cat, cs, dead, pantry.declares(p), vers);
      DemandsCovered(cat, cs, dead, picks);
      SortPermutes(picks, NewerFirst);
      forall v ensures v in vers <==> v in picks { assert v in multiset(vers) <==> v in multiset(picks); }
      assert picks[0] in picks;
    }
  }

  lemma AnswersIs(pantry: Pantry, cs: seq<string>, p: string, vers: seq<Ver>)
    requires Answers(pantry, cs, p, vers)
    ensures p in pantry.catalogues
    ensures
      if Resolves(pantry.catalogues[p], cs, pantry.dead(p))
      then |vers| == 1 && PickedFor(pantry.catalogues[p], cs, pantry.dead(p), vers[0])
      else Lines(pantry.catalogues[p], cs, pantry.dead(p), pantry.declares(p), vers)
  {
    hide PickedFor, Resolves, Lines;
  }

  /** Over listings in version order, without siblings, a project answered by
      one version gets one that competes, and no competitor is newer. */
  lemma AnswersNewest(pantry: Pantry, cs: seq<string>, p: string, vers: seq<Ver>)
    requires Answers(pantry, cs, p, vers) && Resolves(pantry.catalogues[p], cs, pantry.dead(p))
    requires NoSiblings(pantry.catalogues[p]) && Sorted(pantry.catalogues[p].vs, CompareLe)
    ensures |vers| == 1
    ensures forall j :: Competes(pantry.catalogues[p], cs, pantry.dead(p), j) ==>
      0 <= j < |pantry.catalogues[p].vs| && Compare(pantry.catalogues[p].vs[j], vers[0]) <= 0
  {
    hide *;
    AnswersIs(pantry, cs, p, vers);
    var cat, dead := pantry.catalogues[p], pantry.dead(p);
    var i := PickedIndex(cat, cs, dead, vers[0]);
    PickIsNewest(cat, cs, dead, i);
    forall j | Competes(cat, cs, dead, j) ensures 0 <= j < |cat.vs| && Compare(cat.vs[j], vers[0]) <= 0 {
      CompetesIndex(cat, cs, dead, j);
      PulledCompares(cat, cat.vs[i], vers[0], cat.vs[i], vers[0]);
      TiesCompareAlike(cat.vs[i], vers[0], cat.vs[j]);
      ComparePreorder(cat.vs[j], cat.vs[i], vers[0]);
      ComparePreorder(cat.vs[j], vers[0], cat.vs[i]);
    }
  }

  lemma PickedIndex(cat: Catalogue, cs: seq<string>, dead: seq<string>, v: Ver) returns (i: int)
    requires PickedFor(cat, cs, dead, v)
    ensures 0 <= i < |cat.vs| && Chosen(cat, cs, dead, i) && PulledAs(cat, cat.vs[i], v)
  {
    hide PulledAs, Published, SatisfiesAll, Ends, Blocked, Dead;
    i :| Chosen(cat, cs, dead, i) && PulledAs(cat, cat.vs[i], v);
  }

  lemma AnsweredAt(pantry: Pantry, g: Walk, answers: seq<seq<Ver>>, k: nat)
    requires Answered(pantry, g, g.order, answers) && k < |g.order|
    ensures |answers| == |g.order| && Answers(pantry, Demands(g.constraints, g.order[k]), g.order[k], answers[k])
  {
    hide Answers, Demands;
  }

  lemma ClosedAnswers(pantry: Pantry, roots: map<string, string>, out: seq<Resolved>)
    returns (g: Walk, answers: seq<seq<Ver>>)
    requires Closed(pantry, roots, out)
    ensures Collected(pantry.recipes, roots) == Some(g)
    ensures |answers| == |g.order| && Answered(pantry, g, g.order, answers) && out == AllEntries(g.order, answers)
  {
    hide Collected, AllEntries, Answers, Demands;
    g := Collected(pantry.recipes, roots).value;
    answers :| Answered(pantry, g, g.order, answers) && out == AllEntries(g.order, answers);
  }

  /** A demand that says nothing is met by every version. */
  lemma SilentDemands(v: Ver, c: string)
    requires !Real(c)
    ensures Satisfies(v, c)
  {
    hide *;
    BareSilent();
    RealIs(c);
    SilentSatisfied(v, c);
  }

  lemma RealsAre()
    ensures forall c :: Real(c) <==> c != "" && c != "*"
  {
  }

  lemma RealIs(c: string)
    ensures Real(c) <==> c != "" && c != "*"
  {
  }

  lemma SilentSatisfied(v: Ver, c: string)
    requires Bare(c) == "" || Bare(c) == "*"
    ensures Satisfies(v, c)
  {
    hide Bare, SplitBars, Comparators, MeetsOne;
  }

  lemma BareSilent()
    ensures Bare("") == "" && Bare("*") == "*"
  {
    hide Trim, TrimSpace;
    TrimOne(IsQuote);
    TrimSpaceFixed("*");
  }

  lemma TrimOne(drop: char -> bool)
    requires !drop('*')
    ensures Trim("*", drop) == "*"
  {
    assert TrimLeft("*", drop) == "*";
    assert TrimRight("*", drop) == "*";
  }

  ghost predicate Provided(out: seq<Resolved>, p: string, c: string) {
    exists r :: r in out && r.project == p && Satisfies(r.version, c)
  }

  /** A visited project has an entry for each of its demands. */
  lemma VisitedProvided(pantry: Pantry, g: Walk, answers: seq<seq<Ver>>, out: seq<Resolved>, p: string, c: string)
    requires |answers| == |g.order| && Answered(pantry, g, g.order, answers) && out == AllEntries(g.order, answers)
    requires p in g.order && (Real(c) ==> Demanded(g.constraints, p, c))
    ensures Provided(out, p, c)
  {
    hide *;
    var k :| 0 <= k < |g.order| && g.order[k] == p;
    AnsweredAt(pantry, g, answers, k);
    AnswersMeet(pantry, Demands(g.constraints, p), p, answers[k]);
    DemandedIs(g.constraints, p, c);
    if !Real(c) { SilentDemands(answers[k][0], c); }
    assert answers[k][0] in answers[k];
    var v :| v in answers[k] && Satisfies(v, c);
    AllEntriesFrom(g.order, answers, Resolved(p, v));
    ProvidedBy(out, p, c, v);
  }

  lemma DemandedIs(constraints: map<string, seq<string>>, p: string, c: string)
    ensures Demanded(constraints, p, c) <==> c in Demands(constraints, p)
  {
    hide Demands;
  }

  lemma ProvidedBy(out: seq<Resolved>, p: string, c: string, v: Ver)
    requires Resolved(p, v) in out && Satisfies(v, c)
    ensures Provided(out, p, c)
  {
    hide Satisfies;
  }

  lemma ProjectsVisited(pantry: Pantry, g: Walk, answers: seq<seq<Ver>>, out: seq<Resolved>, p: string)
    requires |answers| == |g.order| && Answered(pantry, g, g.order, answers) && out == AllEntries(g.order, answers)
    ensures (exists r :: r in out && r.project == p) <==> p in g.order
  {
    hide *;
    if exists r :: r in out && r.project == p {
      var r :| r in out && r.project == p;
      AllEntriesFrom(g.order, answers, r);
    }
    if p in g.order {
      var k :| 0 <= k < |g.order| && g.order[k] == p;
      AnsweredAt(pantry, g, answers, k);
      AnswersMeet(pantry, Demands(g.constraints, p), p, answers[k]);
      assert answers[k][0] in answers[k];
      AllEntriesFrom(g.order, answers, Resolved(p, answers[k][0]));
      assert Resolved(p, answers[k][0]) in out;
    }
  }

  /** What an ask demands is tallied, and its target is visited. */
  lemma AskTallied(recipes: map<string, map<string, string>>, roots: map<string, string>, g: Walk, of: string,
                   p: string, c: string)
    requires Tallies(recipes, roots, g) && IsAsk(recipes, roots, g.order, Ask(of, p, c)) && Real(c)
    ensures Demanded(g.constraints, p, c)
  {
    RealsAre();
    hide Demanded, Real, Distinct, IsAsk;
    assert Ask(of, p, c) in g.edges;
    assert Wanted(g.edges, p, c);
  }

  lemma IsAskOf(recipes: map<string, map<string, string>>, roots: map<string, string>, order: seq<string>, of: string,
                p: string)
    ensures p in roots ==> IsAsk(recipes, roots, order, Ask("", p, roots[p]))
    ensures of in order && of in recipes && p in recipes[of] ==>
      IsAsk(recipes, roots, order, Ask(of, p, recipes[of][p]))
  {
  }

  /** A resolved closure has versions for exactly the projects reachable from
      the roots; every demand of a root, and every dependency of a reachable
      project, is met by some version of its target. */
  lemma ClosureSound(pantry: Pantry, roots: map<string, string>, out: seq<Resolved>)
    requires Closed(pantry, roots, out)
    ensures forall p :: (exists r :: r in out && r.project == p) <==> Reached(pantry.recipes, roots, p)
    ensures forall p :: p in roots ==> Provided(out, p, roots[p])
    ensures forall q, d :: Reached(pantry.recipes, roots, q) && q in pantry.recipes && d in pantry.recipes[q] ==>
      Provided(out, d, pantry.recipes[q][d])
  {
    hide *;
    var recipes := pantry.recipes;
    var g, answers := ClosedAnswers(pantry, roots, out);
    CollectedExactly(recipes, roots);
    forall p ensures (exists r :: r in out && r.project == p) <==> Reached(recipes, roots, p) {
      ProjectsVisited(pantry, g, answers, out, p);
    }
    forall p | p in roots ensures Provided(out, p, roots[p]) {
      IsAskOf(recipes, roots, g.order, "", p);
      ReachedRoot(recipes, roots, p);
      if Real(roots[p]) { AskTallied(recipes, roots, g, "", p, roots[p]); }
      VisitedProvided(pantry, g, answers, out, p, roots[p]);
    }
    forall q, d | Reached(recipes, roots, q) && q in recipes && d in recipes[q]
      ensures Provided(out, d, recipes[q][d])
    {
      IsAskOf(recipes, roots, g.order, q, d);
      ReachedOn(recipes, roots, q, d);
      if Real(recipes[q][d]) { AskTallied(recipes, roots, g, q, d, recipes[q][d]); }
      VisitedProvided(pantry, g, answers, out, d, recipes[q][d]);
    }
  }
}
