/** Walks over the catalogue's dependency graph (catalog.go): the marked tree
    in both directions, and the shortest explanation of a dependency. */
module DependencyGraph {
  import opened Sorting
  import opened Text

  type Graph = map<string, seq<string>>

  function Kids(g: Graph, p: string): seq<string> { if p in g then g[p] else [] }

  predicate Edge(g: Graph, a: string, b: string) { b in Kids(g, a) }

  ghost predicate IsPath(g: Graph, p: seq<string>) {
    p != [] && forall i :: 0 <= i < |p| - 1 ==> Edge(g, p[i], p[i + 1])
  }

  ghost predicate Joins(g: Graph, p: seq<string>, a: string, b: string) {
    IsPath(g, p) && p[0] == a && p[|p| - 1] == b
  }

  ghost predicate Reachable(g: Graph, a: string, b: string) {
    exists p :: Joins(g, p, a, b)
  }

  lemma PathExtends(g: Graph, p: seq<string>, a: string, b: string, c: string)
    requires Joins(g, p, a, b) && Edge(g, b, c)
    ensures Joins(g, p + [c], a, c)
  {
  }

  lemma ReachExtends(g: Graph, a: string, b: string, c: string)
    requires Reachable(g, a, b) && Edge(g, b, c)
    ensures Reachable(g, a, c)
  {
    var p :| Joins(g, p, a, b);
    PathExtends(g, p, a, b, c);
  }

  lemma ReachSelf(g: Graph, a: string)
    ensures Reachable(g, a, a)
  {
    assert Joins(g, [a], a, a);
  }

  /** A set closed under edges keeps every path that starts in it. */
  lemma {:induction false} ClosedKeeps(g: Graph, s: set<string>, p: seq<string>)
    requires IsPath(g, p) && p[0] in s
    requires forall v, d :: v in s && Edge(g, v, d) ==> d in s
    ensures p[|p| - 1] in s
  {
    if |p| <= 1 {
    } else {
      var front := p[..|p| - 1];
      assert forall i :: 0 <= i < |front| - 1 ==> Edge(g, p[i], p[i + 1]);
      ClosedKeeps(g, s, front);
      assert Edge(g, p[|p| - 2], p[|p| - 1]);
    }
  }

  // ----- the shortest explanation --------------------------------------------

  ghost predicate Shortest(g: Graph, p: seq<string>, a: string, b: string) {
    Joins(g, p, a, b) && Distinct(p) && forall q :: Joins(g, q, a, b) ==> |p| <= |q|
  }

  /** What follows the last empty name: the empty string is the walk's own end
      mark, so a project named by it would cut the explanation there. */
  function AfterBlank(p: seq<string>): seq<string> {
    if p == [] || p[|p| - 1] == "" then [] else AfterBlank(p[..|p| - 1]) + [p[|p| - 1]]
  }

  lemma {:induction false} AfterBlankWhole(p: seq<string>)
    ensures AfterBlank(p) == p <==> "" !in p
    ensures |AfterBlank(p)| <= |p| && (|AfterBlank(p)| == |p| <==> "" !in p)
  {
    if p == [] {
    } else {
      var front := p[..|p| - 1];
      AfterBlankWhole(front);
      assert p == front + [p[|p| - 1]];
      if AfterBlank(p) == p && p[|p| - 1] != "" { assert AfterBlank(p)[..|p| - 1] == front; }
    }
  }

  lemma {:induction false} AfterBlankCut(p: seq<string>, k: nat)
    requires k <= |p| && "" !in p[k..] && (k == 0 || p[k - 1] == "")
    ensures AfterBlank(p) == p[k..]
  {
    if k >= |p| {
    } else {
      var front := p[..|p| - 1];
      assert p[k..] == front[k..] + [p[|p| - 1]];
      AfterBlankCut(front, k);
    }
  }

  /** What a breadth-first search has found so far: for every name seen, a
      trail of real edges from the start, each extending its predecessor's. */
  ghost predicate Found(g: Graph, from: string, prev: map<string, string>, trail: map<string, seq<string>>) {
    && from in prev && prev[from] == "" && prev.Keys == trail.Keys
    && trail[from] == [from]
    && Linked(from, prev, trail) && AllJoin(g, from, trail) && TrailsWithin(trail)
  }

  /** Every trail but the first extends its predecessor's. */
  ghost predicate Linked(from: string, prev: map<string, string>, trail: map<string, seq<string>>)
    requires prev.Keys == trail.Keys
  {
    forall v :: v in trail && v != from ==> prev[v] in trail && trail[v] == trail[prev[v]] + [v]
  }

  ghost predicate AllJoin(g: Graph, from: string, trail: map<string, seq<string>>) {
    forall v :: v in trail ==> Joins(g, trail[v], from, v) && Distinct(trail[v])
  }

  lemma LinkedHold(from: string, prev: map<string, string>, trail: map<string, seq<string>>, p: string, d: string)
    requires prev.Keys == trail.Keys && Linked(from, prev, trail) && p in trail && d !in trail
    ensures prev[d := p].Keys == trail[d := trail[p] + [d]].Keys
    ensures Linked(from, prev[d := p], trail[d := trail[p] + [d]])
  {
  }

  /** Trails pass through found names only. */
  ghost predicate TrailsWithin(trail: map<string, seq<string>>) {
    forall v, x :: v in trail && x in trail[v] ==> x in trail
  }

  lemma TrailsHold(trail: map<string, seq<string>>, p: string, d: string, t: seq<string>)
    requires TrailsWithin(trail) && p in trail && t == trail[p] + [d]
    ensures TrailsWithin(trail[d := t])
  {
  }

  lemma FoundGrows(g: Graph, from: string, prev: map<string, string>, trail: map<string, seq<string>>, p: string,
                   d: string)
    requires Found(g, from, prev, trail) && p in trail && d !in trail && Edge(g, p, d)
    ensures Found(g, from, prev[d := p], trail[d := trail[p] + [d]])
  {
    var t := trail[p] + [d];
    assert d !in trail[p];
    hide Edge, Joins, Distinct, TrailsWithin, Linked;
    TrailGrows(g, from, trail[p], p, d);
    TrailsHold(trail, p, d, t);
    LinkedHold(from, prev, trail, p, d);
  }

  lemma TrailGrows(g: Graph, from: string, t: seq<string>, p: string, d: string)
    requires Joins(g, t, from, p) && Distinct(t) && Edge(g, p, d) && d !in t
    ensures Joins(g, t + [d], from, d) && Distinct(t + [d])
  {
    hide Edge, Joins, Distinct;
    PathExtends(g, t, from, p, d);
    DistinctSnoc(t, d);
  }

  /** Every expanded name's children are found, one step further at most. */
  ghost predicate Expanded(g: Graph, trail: map<string, seq<string>>, v: string) {
    v in trail && forall d :: Edge(g, v, d) ==> d in trail && |trail[d]| <= |trail[v]| + 1
  }

  /** Within the expanded distance no path is shorter than its trail. */
  lemma {:induction false} TrailsShortest(g: Graph, from: string, trail: map<string, seq<string>>, reach: nat,
                                          q: seq<string>)
    requires from in trail && trail[from] == [from]
    requires forall v :: v in trail && |trail[v]| < reach ==> Expanded(g, trail, v)
    requires IsPath(g, q) && q[0] == from && |q| <= reach
    ensures q[|q| - 1] in trail && |trail[q[|q| - 1]]| <= |q|
  {
    if |q| <= 1 {
    } else {
      var front := q[..|q| - 1];
      assert forall i :: 0 <= i < |front| - 1 ==> Edge(g, q[i], q[i + 1]);
      TrailsShortest(g, from, trail, reach, front);
      assert Expanded(g, trail, q[|q| - 2]);
      assert Edge(g, q[|q| - 2], q[|q| - 1]);
    }
  }

  /** The queue: found names, nearest first, at most one level apart. */
  ghost predicate Queued(trail: map<string, seq<string>>, queue: seq<string>, level: nat) {
    && (forall i :: 0 <= i < |queue| ==> queue[i] in trail && level <= |trail[queue[i]]| <= level + 1)
    && (forall i, j :: 0 <= i < j < |queue| ==> |trail[queue[i]]| <= |trail[queue[j]]|)
    && Distinct(queue)
  }

  /** One step back along a trail: to the predecessor, or off the start. */
  lemma StepBack(g: Graph, from: string, prev: map<string, string>, trail: map<string, seq<string>>,
                 t: seq<string>, k: nat, n: string)
    requires Found(g, from, prev, trail) && 0 < k <= |t|
    requires n in trail && trail[n] == t[..k]
    ensures n == t[k - 1] && n in prev
    ensures if k == 1 then prev[n] == ""
            else prev[n] == t[k - 2] && prev[n] in trail && trail[prev[n]] == t[..k - 1]
  {
    var p := prev[n];
    assert Joins(g, trail[n], from, n);
    assert t[..k][k - 1] == t[k - 1];
    if n == from {
      assert |t[..k]| == |[from]|;
    } else {
      assert Joins(g, trail[p], from, p);
      assert (trail[p] + [n])[..k - 1] == trail[p];
      assert t[..k][..k - 1] == t[..k - 1];
      assert t[..k - 1][k - 2] == t[k - 2];
    }
  }

  lemma TrailWhole(g: Graph, from: string, prev: map<string, string>, trail: map<string, seq<string>>, v: string)
    requires Found(g, from, prev, trail) && v in prev
    ensures v in trail && trail[v] != []
  {
    assert Joins(g, trail[v], from, v);
  }

  /** Reads the trail back from `to` by way of the predecessors. */
  method ReadBack(g: Graph, from: string, to: string, prev: map<string, string>,
                  ghost trail: map<string, seq<string>>) returns (path: seq<string>)
    requires Found(g, from, prev, trail) && to in prev
    ensures path == AfterBlank(trail[to])
  {
    hide Found, Joins, IsPath, Distinct, AfterBlank, Reversed;
    TrailWhole(g, from, prev, trail, to);
    ghost var t := trail[to];
    ghost var k: nat := |t|;
    assert t[..k] == t && t[k..] == [];
    var n := to;
    var back: seq<string> := [];
    ReversedNone();
    while n != ""
      invariant k <= |t|
      invariant if k == 0 then n == "" else n in trail && trail[n] == t[..k]
      invariant "" !in t[k..]
      invariant back == Reversed(t[k..])
      decreases k
    {
      StepBack(g, from, prev, trail, t, k, n);
      ReversedCons(n, t[k..]);
      assert [n] + t[k..] == t[k - 1..];
      back := back + [n];
      n := Lookup(prev, n);
      k := k - 1;
    }
    if k > 0 { StepBack(g, from, prev, trail, t, k, n); }
    AfterBlankCut(t, k);
    path := Reverse(back);
    ReversedTwice(t[k..]);
  }

  /** A Go map lookup: the empty string for a missing key. */
  function Lookup(m: map<string, string>, k: string): string { if k in m then m[k] else "" }

  lemma ReversedNone()
    ensures Reversed([]) == []
  {
  }

  function Reversed(s: seq<string>): (r: seq<string>)
    ensures |r| == |s| && forall i :: 0 <= i < |s| ==> r[i] == s[|s| - 1 - i]
  {
    if s == [] then [] else Reversed(s[1..]) + [s[0]]
  }

  lemma ReversedCons(n: string, s: seq<string>)
    ensures Reversed([n] + s) == Reversed(s) + [n]
  {
    assert ([n] + s)[1..] == s;
  }

  lemma ReversedTwice(s: seq<string>)
    ensures Reversed(Reversed(s)) == s
  {
  }

  /** Swaps from both ends inwards. */
  method Reverse(s: seq<string>) returns (r: seq<string>)
    ensures r == Reversed(s)
  {
    r := s;
    var i, j := 0, |s| - 1;
    while i < j
      invariant 0 <= i <= |s| && j == |s| - 1 - i && |r| == |s|
      invariant forall k :: 0 <= k < i ==> r[k] == s[|s| - 1 - k] && r[|s| - 1 - k] == s[k]
      invariant forall k :: i <= k <= j ==> r[k] == s[k]
    {
      r := r[i := r[j]][j := r[i]];
      i, j := i + 1, j - 1;
    }
  }

  ghost function Universe(g: Graph): set<string> {
    set p, d | p in g && d in g[p] :: d
  }

  /** The search while `p`, at distance `level`, is being expanded. */
  ghost predicate Searching(g: Graph, from: string, to: string, prev: map<string, string>,
                            trail: map<string, seq<string>>, queue: seq<string>, p: string, level: nat)
  {
    && Found(g, from, prev, trail)
    && prev.Keys <= Universe(g) + {from}
    && p in trail && |trail[p]| == level && p !in queue
    && Queued(trail, queue, level)
    && (forall v :: v in trail ==> |trail[v]| <= level + 1)
    && (forall v :: v in trail && v !in queue && v != p ==> Expanded(g, trail, v))
    && to !in prev
  }

  /** The search between two expansions. */
  ghost predicate Resting(g: Graph, from: string, to: string, prev: map<string, string>,
                          trail: map<string, seq<string>>, queue: seq<string>)
  {
    && Found(g, from, prev, trail)
    && prev.Keys <= Universe(g) + {from}
    && (queue != [] ==>
          (queue[0] in trail && Queued(trail, queue, |trail[queue[0]]|)
           && forall v :: v in trail ==> |trail[v]| <= |trail[queue[0]]| + 1))
    && (forall v :: v in trail && v !in queue ==> Expanded(g, trail, v))
    && to !in prev
  }

  lemma StartsResting(g: Graph, from: string, to: string)
    requires from != to
    ensures Resting(g, from, to, map[from := ""], map[from := [from]], [from])
  {
    assert Joins(g, [from], from, from);
  }

  lemma BeginsSearching(g: Graph, from: string, to: string, prev: map<string, string>,
                        trail: map<string, seq<string>>, queue: seq<string>)
    requires Resting(g, from, to, prev, trail, queue) && queue != []
    ensures queue[0] in trail && prev.Keys == trail.Keys
    ensures Searching(g, from, to, prev, trail, queue[1..], queue[0], |trail[queue[0]]|)
  {
    KeysAgree(g, from, prev, trail);
    hide Found, Expanded;
    QueueTail(trail, queue, |trail[queue[0]]|);
    hide Queued;
    assert forall v :: v in queue ==> v == queue[0] || v in queue[1..];
  }

  lemma QueueTail(trail: map<string, seq<string>>, queue: seq<string>, level: nat)
    requires Queued(trail, queue, level) && queue != []
    ensures Queued(trail, queue[1..], level) && queue[0] !in queue[1..]
  {
    assert forall i :: 0 <= i < |queue| - 1 ==> queue[1..][i] == queue[i + 1];
  }

  lemma ExpandedGrows(g: Graph, trail: map<string, seq<string>>, v: string, d: string, t: seq<string>)
    requires Expanded(g, trail, v) && d !in trail
    ensures Expanded(g, trail[d := t], v)
  {
  }

  /** Recording one new child keeps the search in order. */
  lemma SearchGrows(g: Graph, from: string, to: string, prev: map<string, string>,
                    trail: map<string, seq<string>>, queue: seq<string>, p: string, level: nat, d: string)
    requires Searching(g, from, to, prev, trail, queue, p, level)
    requires d !in prev && d != to && Edge(g, p, d)
    ensures Searching(g, from, to, prev[d := p], trail[d := trail[p] + [d]], queue + [d], p, level)
    ensures d in Universe(g)
  {
    hide Found, Distinct, Queued, Expanded, Edge, Universe;
    KeysAgree(g, from, prev, trail);
    FoundGrows(g, from, prev, trail, p, d);
    InUniverse(g, p, d);
    var t := trail[p] + [d];
    ExpansionsGrow(g, trail, queue, p, d, t);
    QueueGrows(trail, queue, level, d, t);
  }

  lemma InUniverse(g: Graph, p: string, d: string)
    requires Edge(g, p, d)
    ensures d in Universe(g)
  {
    assert d in g[p];
  }

  lemma ExpansionsGrow(g: Graph, trail: map<string, seq<string>>, queue: seq<string>, p: string, d: string,
                       t: seq<string>)
    requires forall v :: v in trail && v !in queue && v != p ==> Expanded(g, trail, v)
    requires d !in trail
    ensures forall v :: v in trail[d := t] && v !in queue + [d] && v != p ==> Expanded(g, trail[d := t], v)
  {
    hide Expanded;
    forall v | v in trail[d := t] && v !in queue + [d] && v != p ensures Expanded(g, trail[d := t], v) {
      assert d in queue + [d];
      ExpandedGrows(g, trail, v, d, t);
    }
  }

  lemma KeysAgree(g: Graph, from: string, prev: map<string, string>, trail: map<string, seq<string>>)
    requires Found(g, from, prev, trail)
    ensures prev.Keys == trail.Keys
  {
    hide Joins, Distinct;
  }

  lemma QueueGrows(trail: map<string, seq<string>>, queue: seq<string>, level: nat, d: string, t: seq<string>)
    requires Queued(trail, queue, level) && d !in trail && |t| == level + 1
    ensures Queued(trail[d := t], queue + [d], level)
  {
    assert d !in queue;
    DistinctSnoc(queue, d);
    hide Distinct;
  }

  lemma DistinctSnoc<T>(s: seq<T>, x: T)
    requires Distinct(s) && x !in s
    ensures Distinct(s + [x])
  {
  }

  lemma SearchRests(g: Graph, from: string, to: string, prev: map<string, string>,
                    trail: map<string, seq<string>>, queue: seq<string>, p: string, level: nat)
    requires Searching(g, from, to, prev, trail, queue, p, level)
    requires Expanded(g, trail, p)
    ensures Resting(g, from, to, prev, trail, queue)
  {
    hide Found, Expanded, Distinct;
  }

  /** The first child equal to the target closes a shortest path. */
  lemma TargetReached(g: Graph, from: string, to: string, prev: map<string, string>,
                      trail: map<string, seq<string>>, queue: seq<string>, p: string, level: nat)
    requires Searching(g, from, to, prev, trail, queue, p, level) && Edge(g, p, to)
    ensures Found(g, from, prev[to := p], trail[to := trail[p] + [to]])
    ensures Shortest(g, trail[p] + [to], from, to)
  {
    FoundGrows(g, from, prev, trail, p, to);
    var full := trail[p] + [to];
    PathExtends(g, trail[p], from, p, to);
    DistinctSnoc(trail[p], to);
    forall q | Joins(g, q, from, to) ensures |full| <= |q| {
      if |q| <= level {
        forall v | v in trail && |trail[v]| < level ensures Expanded(g, trail, v) {
          NearIsExpanded(g, trail, queue, p, level, v);
        }
        TrailsShortest(g, from, trail, level, q);
      }
    }
  }

  lemma NearIsExpanded(g: Graph, trail: map<string, seq<string>>, queue: seq<string>, p: string, level: nat, v: string)
    requires Queued(trail, queue, level) && p in trail && |trail[p]| == level
    requires forall u :: u in trail && u !in queue && u != p ==> Expanded(g, trail, u)
    requires v in trail && |trail[v]| < level
    ensures Expanded(g, trail, v)
  {
    hide Expanded;
  }

  /** With nothing left to expand, what was found is all that is reachable. */
  lemma SearchExhausted(g: Graph, from: string, to: string, prev: map<string, string>, trail: map<string, seq<string>>)
    requires Resting(g, from, to, prev, trail, [])
    ensures !Reachable(g, from, to)
  {
    forall q ensures !Joins(g, q, from, to) {
      if Joins(g, q, from, to) {
        ClosedKeeps(g, trail.Keys, q);
      }
    }
  }

  // ----- ties are broken by name ---------------------------------------------------

  function Front(p: seq<string>): seq<string> { if p == [] then [] else p[..|p| - 1] }

  /** Paths of one length in the order of their names, the first difference
      deciding. */
  predicate NameLe(p: seq<string>, q: seq<string>)
    requires |p| == |q|
  {
    p == [] || if Front(p) == Front(q) then Le(p[|p| - 1], q[|q| - 1]) else NameLe(Front(p), Front(q))
  }

  lemma NameLeSelf(p: seq<string>)
    ensures NameLe(p, p)
  {
    if p != [] { LeTotal(p[|p| - 1], p[|p| - 1]); }
  }

  lemma {:induction false} NameLeAntiSymmetric(p: seq<string>, q: seq<string>)
    requires |p| == |q| && NameLe(p, q) && NameLe(q, p)
    ensures p == q
  {
    hide Le;
    if p == [] {
      assert q == [];
    } else if Front(p) == Front(q) {
      LeAntiSymmetric(p[|p| - 1], q[|q| - 1]);
      assert p == Front(p) + [p[|p| - 1]] && q == Front(q) + [q[|q| - 1]];
    } else {
      NameLeAntiSymmetric(Front(p), Front(q));
    }
  }

  lemma {:induction false} NameLeTransitive(p: seq<string>, q: seq<string>, r: seq<string>)
    requires |p| == |q| == |r| && NameLe(p, q) && NameLe(q, r)
    ensures NameLe(p, r)
  {
    hide Le;
    if p == [] {
      assert NameLe(p, r);
    } else if Front(p) == Front(q) == Front(r) {
      LeTransitive(p[|p| - 1], q[|q| - 1], r[|r| - 1]);
    } else if Front(p) != Front(q) && Front(q) != Front(r) {
      NameLeTransitive(Front(p), Front(q), Front(r));
      if Front(p) == Front(r) { NameLeAntiSymmetric(Front(p), Front(q)); }
    }
  }

  lemma NameLeSnoc(p: seq<string>, q: seq<string>, x: string, y: string)
    requires |p| == |q| && NameLe(p, q) && (p == q ==> Le(x, y))
    ensures NameLe(p + [x], q + [y])
  {
    hide Le;
    assert Front(p + [x]) == p && Front(q + [y]) == q;
  }

  /** `t` comes first by name among the real paths of its length to its end. */
  ghost predicate Least(g: Graph, from: string, t: seq<string>) {
    forall q :: |q| == |t| && t != [] && Joins(g, q, from, t[|t| - 1]) ==> NameLe(t, q)
  }

  ghost predicate AllLeast(g: Graph, from: string, trail: map<string, seq<string>>) {
    forall v :: v in trail ==> Least(g, from, trail[v])
  }

  /** The queue is in the order of trails. */
  ghost predicate Ranked(trail: map<string, seq<string>>, queue: seq<string>) {
    && (forall i :: 0 <= i < |queue| ==> queue[i] in trail)
    && forall i, j :: 0 <= i < j < |queue| && |trail[queue[i]]| == |trail[queue[j]]| ==>
         NameLe(trail[queue[i]], trail[queue[j]])
  }

  /** Trails one step longer than `t` pass through trails that do not come after it. */
  ghost predicate PassedBy(trail: map<string, seq<string>>, t: seq<string>) {
    forall v :: v in trail && |trail[v]| == |t| + 1 ==> NameLe(Front(trail[v]), t)
  }

  /** No queued name is on the way to another. */
  ghost predicate ParentsDone(trail: map<string, seq<string>>, queue: seq<string>) {
    forall v, w :: v in trail && w in queue && w in trail && v != w && |trail[v]| > 0 ==> Front(trail[v]) != trail[w]
  }

  /** The search between two expansions, as far as names go. */
  ghost predicate InOrder(g: Graph, from: string, trail: map<string, seq<string>>, queue: seq<string>) {
    && AllLeast(g, from, trail) && Ranked(trail, queue) && ParentsDone(trail, queue)
    && (queue != [] ==> PassedBy(trail, trail[queue[0]]))
  }

  /** While `p` is being expanded: those found through it are among `kids`. */
  ghost predicate InTurn(g: Graph, from: string, trail: map<string, seq<string>>, queue: seq<string>, p: string,
                         kids: seq<string>)
  {
    && p in trail && AllLeast(g, from, trail) && Ranked(trail, [p] + queue) && ParentsDone(trail, queue)
    && PassedBy(trail, trail[p])
    && forall v :: v in trail && |trail[v]| == |trail[p]| + 1 && Front(trail[v]) == trail[p] ==> v in kids
  }

  lemma StartsInOrder(g: Graph, from: string)
    ensures InOrder(g, from, map[from := [from]], [from])
  {
    forall q | |q| == 1 && Joins(g, q, from, from) ensures NameLe([from], q) {
      assert q == [from];
      NameLeSelf(q);
    }
  }

  lemma BeginsInTurn(g: Graph, from: string, trail: map<string, seq<string>>, queue: seq<string>)
    requires InOrder(g, from, trail, queue) && queue != []
    ensures InTurn(g, from, trail, queue[1..], queue[0], [])
  {
    hide NameLe, Least;
    assert queue == [queue[0]] + queue[1..];
  }

  lemma TurnEnds(g: Graph, from: string, trail: map<string, seq<string>>, queue: seq<string>, p: string,
                 kids: seq<string>)
    requires p in trail && InTurn(g, from, trail, queue, p, kids)
    requires forall v :: v in trail ==> |trail[v]| <= |trail[p]| + 1
    requires queue != [] ==> queue[0] in trail && |trail[p]| <= |trail[queue[0]]|
    ensures InOrder(g, from, trail, queue)
  {
    hide NameLe, Least;
    var all := [p] + queue;
    assert forall i :: 0 <= i < |queue| ==> all[i + 1] == queue[i];
    if queue != [] && |trail[queue[0]]| == |trail[p]| {
      assert NameLe(trail[all[0]], trail[all[1]]);
      forall v | v in trail && |trail[v]| == |trail[p]| + 1 ensures NameLe(Front(trail[v]), trail[queue[0]]) {
        NameLeTransitive(Front(trail[v]), trail[p], trail[queue[0]]);
      }
    }
  }

  /** A name found through `p` is found by the first of the shortest paths to it. */
  lemma NewIsLeast(g: Graph, from: string, to: string, prev: map<string, string>,
                   trail: map<string, seq<string>>, queue: seq<string>, p: string, level: nat,
                   kids: seq<string>, d: string)
    requires Searching(g, from, to, prev, trail, queue, p, level) && InTurn(g, from, trail, queue, p, kids)
    requires d !in trail && Edge(g, p, d)
    ensures Least(g, from, trail[p] + [d])
  {
    hide *;
    SearchingIs(g, from, to, prev, trail, queue, p, level);
    InTurnIs(g, from, trail, queue, p, kids);
    forall q | |q| == level + 1 && Joins(g, q, from, d) ensures NameLe(trail[p] + [d], q) {
      PathFront(g, q, from, d);
      var u := q[level - 1];
      forall v | v in trail && |trail[v]| < level ensures Expanded(g, trail, v) {
        NearIsExpanded(g, trail, queue, p, level, v);
      }
      JoinsIs(g, Front(q), from, u);
      TrailsShortest(g, from, trail, level, Front(q));
      NewFromHere(g, trail, queue, p, level, u, d);
      RankedFirst(trail, p, queue, u);
      LeastAt(g, from, trail, u, Front(q));
      NameLeTransitive(trail[p], trail[u], Front(q));
      LeTotal(d, d);
      NameLeSnoc(trail[p], Front(q), d, d);
    }
    LeastIs(g, from, trail[p] + [d]);
  }

  lemma SearchingIs(g: Graph, from: string, to: string, prev: map<string, string>,
                    trail: map<string, seq<string>>, queue: seq<string>, p: string, level: nat)
    requires Searching(g, from, to, prev, trail, queue, p, level)
    ensures p in trail && |trail[p]| == level && Queued(trail, queue, level) && p !in queue
    ensures from in trail && trail[from] == [from]
    ensures forall v :: v in trail && v !in queue && v != p ==> Expanded(g, trail, v)
    ensures level > 0 && forall v :: v in trail ==> trail[v] != [] && trail[v][|trail[v]| - 1] == v
  {
    hide Expanded, Queued, Edge, Distinct;
    forall v | v in trail ensures trail[v] != [] && trail[v][|trail[v]| - 1] == v {
      assert Joins(g, trail[v], from, v);
    }
  }

  lemma InTurnIs(g: Graph, from: string, trail: map<string, seq<string>>, queue: seq<string>, p: string,
                 kids: seq<string>)
    requires p in trail && InTurn(g, from, trail, queue, p, kids)
    ensures AllLeast(g, from, trail) && Ranked(trail, [p] + queue)
      && ParentsDone(trail, queue) && PassedBy(trail, trail[p])
    ensures forall v :: v in trail && |trail[v]| == |trail[p]| + 1 && Front(trail[v]) == trail[p] ==> v in kids
  {
    hide AllLeast, Ranked, ParentsDone, PassedBy;
  }

  lemma JoinsIs(g: Graph, q: seq<string>, a: string, b: string)
    requires Joins(g, q, a, b)
    ensures IsPath(g, q) && q != [] && q[0] == a && q[|q| - 1] == b
  {
  }

  lemma LeastIs(g: Graph, from: string, t: seq<string>)
    requires t != [] && forall q :: |q| == |t| && Joins(g, q, from, t[|t| - 1]) ==> NameLe(t, q)
    ensures Least(g, from, t)
  {
    hide NameLe, Joins;
  }

  lemma PathFront(g: Graph, q: seq<string>, a: string, b: string)
    requires Joins(g, q, a, b) && |q| > 1
    ensures |Front(q)| == |q| - 1 && Joins(g, Front(q), a, q[|q| - 2]) && Edge(g, q[|q| - 2], b)
    ensures q == Front(q) + [b]
  {
    hide Edge;
    var f := Front(q);
    assert forall i :: 0 <= i < |f| - 1 ==> Edge(g, q[i], q[i + 1]);
  }

  /** A name that leads to a new one at the next distance is not expanded yet. */
  lemma NewFromHere(g: Graph, trail: map<string, seq<string>>, queue: seq<string>, p: string, level: nat, u: string,
                    d: string)
    requires Queued(trail, queue, level) && p in trail && |trail[p]| == level
    requires forall v :: v in trail && v !in queue && v != p ==> Expanded(g, trail, v)
    requires u in trail && |trail[u]| <= level && Edge(g, u, d) && d !in trail
    ensures |trail[u]| == level && u in [p] + queue
  {
    hide Edge;
    assert u == p || u in queue;
  }

  lemma RankedFirst(trail: map<string, seq<string>>, p: string, queue: seq<string>, u: string)
    requires p in trail && u in trail && Ranked(trail, [p] + queue) && u in [p] + queue && |trail[u]| == |trail[p]|
    ensures NameLe(trail[p], trail[u])
  {
    hide NameLe;
    var all := [p] + queue;
    var i :| 0 <= i < |all| && all[i] == u;
    if i == 0 { NameLeSelf(trail[p]); } else { assert all[0] == p; }
  }

  lemma LeastAt(g: Graph, from: string, trail: map<string, seq<string>>, u: string, q: seq<string>)
    requires AllLeast(g, from, trail) && u in trail && |trail[u]| == |q| && Joins(g, q, from, u)
    requires trail[u] != [] && trail[u][|trail[u]| - 1] == u
    ensures NameLe(trail[u], q)
  {
    hide NameLe, Joins;
    assert Least(g, from, trail[u]);
  }

  lemma RankedGrows(trail: map<string, seq<string>>, queue: seq<string>, p: string, kids: seq<string>, d: string)
    requires p in trail && d !in trail && Ranked(trail, [p] + queue) && PassedBy(trail, trail[p])
    requires forall v :: v in trail && |trail[v]| == |trail[p]| + 1 && Front(trail[v]) == trail[p] ==> v in kids
    requires forall v :: v in trail ==> trail[v] != [] && trail[v][|trail[v]| - 1] == v
    requires forall k :: k in kids ==> Le(k, d)
    ensures Ranked(trail[d := trail[p] + [d]], [p] + (queue + [d]))
  {
    hide NameLe, Le;
    var t, all := trail[p] + [d], [p] + queue;
    assert [p] + (queue + [d]) == all + [d];
    forall i | 0 <= i < |all| && |trail[all[i]]| == |t| ensures NameLe(trail[all[i]], t) {
      var v := all[i];
      assert trail[v] == Front(trail[v]) + [v];
      NameLeSnoc(Front(trail[v]), trail[p], v, d);
    }
  }

  lemma ParentsGrow(trail: map<string, seq<string>>, queue: seq<string>, p: string, d: string)
    requires p in trail && d !in trail && ParentsDone(trail, queue) && p !in queue
    requires forall v :: v in trail ==> |trail[v]| <= |trail[p]| + 1
    requires forall v :: v in trail ==> trail[v] != [] && trail[v][|trail[v]| - 1] == v
    ensures ParentsDone(trail[d := trail[p] + [d]], queue + [d])
  {
    var t := trail[p] + [d];
    assert Front(t) == trail[p];
    forall w | w in queue && w in trail ensures trail[p] != trail[w] {
      assert trail[p][|trail[p]| - 1] == p && trail[w][|trail[w]| - 1] == w;
    }
  }

  lemma PassedGrows(trail: map<string, seq<string>>, p: string, d: string)
    requires p in trail && d !in trail && PassedBy(trail, trail[p])
    ensures PassedBy(trail[d := trail[p] + [d]], trail[p])
  {
    hide NameLe;
    assert Front(trail[p] + [d]) == trail[p];
    NameLeSelf(trail[p]);
  }

  lemma LeastGrows(g: Graph, from: string, trail: map<string, seq<string>>, d: string, t: seq<string>)
    requires AllLeast(g, from, trail) && Least(g, from, t)
    ensures AllLeast(g, from, trail[d := t])
  {
    hide Least;
  }

  /** Recording the next child keeps the search in the order of names. */
  lemma TurnGrows(g: Graph, from: string, to: string, prev: map<string, string>, trail: map<string, seq<string>>,
                  queue: seq<string>, p: string, level: nat, kids: seq<string>, d: string)
    requires Searching(g, from, to, prev, trail, queue, p, level) && InTurn(g, from, trail, queue, p, kids)
    requires d !in trail && Edge(g, p, d) && forall k :: k in kids ==> Le(k, d)
    ensures p in trail && InTurn(g, from, trail[d := trail[p] + [d]], queue + [d], p, kids + [d])
  {
    hide *;
    SearchingIs(g, from, to, prev, trail, queue, p, level);
    SearchingNear(g, from, to, prev, trail, queue, p, level);
    InTurnIs(g, from, trail, queue, p, kids);
    NewIsLeast(g, from, to, prev, trail, queue, p, level, kids, d);
    LeastGrows(g, from, trail, d, trail[p] + [d]);
    RankedGrows(trail, queue, p, kids, d);
    ParentsGrow(trail, queue, p, d);
    PassedGrows(trail, p, d);
    AreInTurn(g, from, trail[d := trail[p] + [d]], queue + [d], p, kids + [d]);
  }

  lemma AreInTurn(g: Graph, from: string, trail: map<string, seq<string>>, queue: seq<string>, p: string,
                  kids: seq<string>)
    requires p in trail && AllLeast(g, from, trail) && Ranked(trail, [p] + queue) && ParentsDone(trail, queue)
    requires PassedBy(trail, trail[p])
    requires forall v :: v in trail && |trail[v]| == |trail[p]| + 1 && Front(trail[v]) == trail[p] ==> v in kids
    ensures InTurn(g, from, trail, queue, p, kids)
  {
    hide AllLeast, Ranked, ParentsDone, PassedBy;
  }

  lemma SearchingNear(g: Graph, from: string, to: string, prev: map<string, string>,
                      trail: map<string, seq<string>>, queue: seq<string>, p: string, level: nat)
    requires Searching(g, from, to, prev, trail, queue, p, level)
    ensures p in trail && forall v :: v in trail ==> |trail[v]| <= |trail[p]| + 1
    ensures queue != [] ==> queue[0] in trail && |trail[p]| <= |trail[queue[0]]|
  {
    hide Found, Expanded, Distinct;
  }

  /** A child found before changes nothing but the place in the list. */
  lemma TurnPasses(g: Graph, from: string, trail: map<string, seq<string>>, queue: seq<string>, p: string,
                   kids: seq<string>, d: string)
    requires InTurn(g, from, trail, queue, p, kids)
    ensures InTurn(g, from, trail, queue, p, kids + [d])
  {
    hide AllLeast, Ranked, ParentsDone, PassedBy;
  }

  lemma SortedUpTo(kids: seq<string>, i: nat)
    requires Sorted(kids, Le) && i < |kids|
    ensures forall k :: k in kids[..i] ==> Le(k, kids[i])
  {
    hide Le;
  }

  /** Looks at the children of `p`: records the new ones, stops at the target. */
  method Expand(g: Graph, from: string, to: string, prev0: map<string, string>,
                ghost trail0: map<string, seq<string>>, queue0: seq<string>, p: string)
    returns (hit: bool, prev: map<string, string>, ghost trail: map<string, seq<string>>, queue: seq<string>)
    requires p in trail0 && prev0.Keys == trail0.Keys
    requires Searching(g, from, to, prev0, trail0, queue0, p, |trail0[p]|) && InTurn(g, from, trail0, queue0, p, [])
    ensures hit ==> Found(g, from, prev, trail) && to in prev && to in trail && Shortest(g, trail[to], from, to)
    ensures hit ==> Least(g, from, trail[to])
    ensures !hit ==> Resting(g, from, to, prev, trail, queue) && prev0.Keys <= prev.Keys
    ensures !hit ==> InOrder(g, from, trail, queue)
    ensures !hit && prev.Keys == prev0.Keys ==> |queue| == |queue0|
  {
    hide *;
    prev, trail, queue := prev0, trail0, queue0;
    ghost var level := |trail[p]|;
    var kids := Sort(Kids(g, p), Le);
    SortMembers(Kids(g, p), Le);
    LeOrders();
    SortSorted(Kids(g, p), Le);
    EdgeIsKid(g, p);
    var i := 0;
    assert kids[..0] == [];
    while i < |kids|
      invariant 0 <= i <= |kids|
      invariant Searching(g, from, to, prev, trail, queue, p, level)
      invariant InTurn(g, from, trail, queue, p, kids[..i])
      invariant prev0.Keys <= prev.Keys
      invariant prev.Keys == prev0.Keys ==> |queue| == |queue0|
      invariant p in trail && prev.Keys == trail.Keys && |trail[p]| == level
      invariant forall k :: 0 <= k < i ==> kids[k] in trail && |trail[kids[k]]| <= level + 1
    {
      var d := kids[i];
      assert d in kids && kids[..i + 1] == kids[..i] + [d];
      SortedUpTo(kids, i);
      if d !in prev {
        if d == to {
          NewIsLeast(g, from, to, prev, trail, queue, p, level, kids[..i], d);
          TargetReached(g, from, to, prev, trail, queue, p, level);
          prev, trail := prev[d := p], trail[d := trail[p] + [d]];
          return true, prev, trail, queue;
        }
        TurnGrows(g, from, to, prev, trail, queue, p, level, kids[..i], d);
        SearchGrows(g, from, to, prev, trail, queue, p, level, d);
        prev, trail, queue := prev[d := p], trail[d := trail[p] + [d]], queue + [d];
      } else {
        SeenNear(g, from, to, prev, trail, queue, p, level, d);
        TurnPasses(g, from, trail, queue, p, kids[..i], d);
      }
      i := i + 1;
    }
    AllKidsExpanded(g, trail, p, kids, level);
    SearchingNear(g, from, to, prev, trail, queue, p, level);
    TurnEnds(g, from, trail, queue, p, kids[..i]);
    SearchRests(g, from, to, prev, trail, queue, p, level);
    hit := false;
  }

  lemma EdgeIsKid(g: Graph, p: string)
    ensures forall d :: Edge(g, p, d) <==> d in Kids(g, p)
  {
  }

  /** What an explanation is: the project itself, nothing when there is no path,
      and else the shortest path first by name, cut after an empty name. */
  ghost predicate Explains(g: Graph, from: string, to: string, path: seq<string>) {
    if from == to then path == [from]
    else if !Reachable(g, from, to) then path == []
    else exists full :: Shortest(g, full, from, to) && Least(g, from, full) && path == AfterBlank(full)
  }

  lemma ExplainsIs(g: Graph, from: string, to: string)
    ensures from == to ==> Explains(g, from, to, [from])
    ensures from != to && !Reachable(g, from, to) ==> Explains(g, from, to, [])
    ensures from != to && Reachable(g, from, to) ==>
      forall full :: Shortest(g, full, from, to) && Least(g, from, full) ==> Explains(g, from, to, AfterBlank(full))
  {
    hide Reachable, Shortest, Least, AfterBlank;
  }

  /** The shortest chain of dependencies from one project to another, of those
      the first by name, or the empty list when there is none. */
  method WhyDepends(g: Graph, from: string, to: string) returns (path: seq<string>)
    ensures Explains(g, from, to, path)
  {
    hide *;
    ExplainsIs(g, from, to);
    if from == to {
      ReachSelf(g, from);
      return [from];
    }
    var prev := map[from := ""];
    ghost var trail := map[from := [from]];
    var queue := [from];
    StartsResting(g, from, to);
    StartsInOrder(g, from);
    while queue != []
      invariant Resting(g, from, to, prev, trail, queue) && InOrder(g, from, trail, queue)
      decreases Universe(g) + {from} - prev.Keys, |queue|
    {
      BeginsSearching(g, from, to, prev, trail, queue);
      BeginsInTurn(g, from, trail, queue);
      ghost var known := prev.Keys;
      var hit;
      hit, prev, trail, queue := Expand(g, from, to, prev, trail, queue[1..], queue[0]);
      if hit {
        path := ReadBack(g, from, to, prev, trail);
        ShortestJoins(g, trail[to], from, to);
        return;
      }
      RestingWithin(g, from, to, prev, trail, queue);
    }
    SearchExhausted(g, from, to, prev, trail);
    return [];
  }

  // ----- one explanation, and when it is whole ------------------------------------------

  /** The paths from a project with a given number of edges. */
  ghost function PathsFrom(g: Graph, from: string, n: nat): set<seq<string>> {
    if n == 0 then {[from]}
    else set p, d | p in PathsFrom(g, from, n - 1) && p != [] && d in Kids(g, p[|p| - 1]) :: p + [d]
  }

  lemma PathsStep(g: Graph, from: string, n: nat, front: seq<string>, d: string)
    requires n > 0
    ensures front + [d] in PathsFrom(g, from, n)
      <==> front in PathsFrom(g, from, n - 1) && front != [] && d in Kids(g, front[|front| - 1])
  {
    hide Kids;
    var shorter, p := PathsFrom(g, from, n - 1), front + [d];
    if q, e :| q in shorter && q != [] && e in Kids(g, q[|q| - 1]) && p == q + [e] {
      assert p[..|p| - 1] == front && p[|p| - 1] == d && (q + [e])[..|q|] == q;
    }
  }

  lemma PathsStart(g: Graph, from: string, p: seq<string>)
    ensures p in PathsFrom(g, from, 0) <==> |p| == 1 && IsPath(g, p) && p[0] == from
  {
    if |p| == 1 { assert p == [p[0]]; }
  }

  lemma {:induction false} NoEmptyPath(g: Graph, from: string, n: nat)
    ensures [] !in PathsFrom(g, from, n)
  {
  }

  lemma {:induction false} PathsAre(g: Graph, from: string, n: nat, p: seq<string>)
    ensures p in PathsFrom(g, from, n) <==> |p| == n + 1 && IsPath(g, p) && p[0] == from
  {
    hide *;
    PathsStart(g, from, p);
    NoEmptyPath(g, from, n);
    if n > 0 && p != [] {
      var front, d := p[..|p| - 1], p[|p| - 1];
      assert p == front + [d];
      PathsAre(g, from, n - 1, front);
      PathsStep(g, from, n, front, d);
      if front != [] { PathSnoc(g, front, d); }
    }
  }

  lemma PathSnoc(g: Graph, front: seq<string>, d: string)
    requires front != []
    ensures IsPath(g, front + [d]) <==> IsPath(g, front) && d in Kids(g, front[|front| - 1])
  {
    var p := front + [d];
    if IsPath(g, p) {
      forall i | 0 <= i < |front| - 1 ensures Edge(g, front[i], front[i + 1]) { assert Edge(g, p[i], p[i + 1]); }
      assert Edge(g, p[|p| - 2], p[|p| - 2 + 1]);
    }
  }

  lemma {:induction false} NameLeTotal(p: seq<string>, q: seq<string>)
    requires |p| == |q|
    ensures NameLe(p, q) || NameLe(q, p)
  {
    hide Le;
    if p == [] {
      assert NameLe(p, q);
    } else if Front(p) == Front(q) {
      LeTotal(p[|p| - 1], q[|q| - 1]);
    } else {
      NameLeTotal(Front(p), Front(q));
    }
  }

  /** Of paths of one length one is the first by name. */
  lemma {:induction false} FirstByName(paths: set<seq<string>>, n: nat) returns (least: seq<string>)
    requires paths != {} && forall p :: p in paths ==> |p| == n
    ensures least in paths && forall p :: p in paths ==> |p| == n && NameLe(least, p)
    decreases paths
  {
    hide NameLe;
    var q :| q in paths;
    NameLeSelf(q);
    if paths == {q} { return q; }
    least := FirstByName(paths - {q}, n);
    NameLeTotal(least, q);
    if !NameLe(least, q) {
      forall p | p in paths - {q} ensures NameLe(q, p) { NameLeTransitive(q, least, p); }
      least := q;
    }
  }

  /** Between the ends of a path one of the fewest edges exists. */
  lemma {:induction false} FewestEdges(g: Graph, from: string, to: string, p: seq<string>) returns (q: seq<string>)
    requires Joins(g, p, from, to)
    ensures Joins(g, q, from, to) && forall r :: Joins(g, r, from, to) ==> |q| <= |r|
    decreases |p|
  {
    hide Joins;
    if r :| Joins(g, r, from, to) && |r| < |p| {
      q := FewestEdges(g, from, to, r);
    } else {
      q := p;
    }
  }

  lemma FewestDistinct(g: Graph, from: string, to: string, p: seq<string>)
    requires Joins(g, p, from, to) && forall r :: Joins(g, r, from, to) ==> |p| <= |r|
    ensures Distinct(p)
  {
    hide Edge;
    forall i, j | 0 <= i < j < |p| ensures p[i] != p[j] {
      if p[i] == p[j] {
        var r := p[..i] + p[j..];
        forall k | 0 <= k < |r| - 1 ensures Edge(g, r[k], r[k + 1]) {
          var m := if k < i then k else k + j - i;
          assert Edge(g, p[m], p[m + 1]);
        }
        StepsJoin(g, r);
      }
    }
  }

  lemma StepsJoin(g: Graph, p: seq<string>)
    requires p != [] && forall i :: 0 <= i < |p| - 1 ==> Edge(g, p[i], p[i + 1])
    ensures Joins(g, p, p[0], p[|p| - 1])
  {
    hide Edge;
  }

  /** Where there is a path there is a shortest one that is first by name. */
  lemma ExplanationExists(g: Graph, from: string, to: string) returns (full: seq<string>)
    requires Reachable(g, from, to)
    ensures Shortest(g, full, from, to) && Least(g, from, full)
  {
    hide IsPath, NameLe, Distinct;
    var p :| Joins(g, p, from, to);
    var q := FewestEdges(g, from, to, p);
    JoinsIs(g, q, from, to);
    PathsAre(g, from, |q| - 1, q);
    var paths := set r | r in PathsFrom(g, from, |q| - 1) && r != [] && r[|r| - 1] == to;
    forall r ensures r in paths <==> |r| == |q| && Joins(g, r, from, to) { PathsAre(g, from, |q| - 1, r); }
    full := FirstByName(paths, |q|);
    FewestDistinct(g, from, to, full);
  }

  /** There is one such path, so the explanation is a function of the graph. */
  lemma ExplanationUnique(g: Graph, from: string, to: string, p: seq<string>, q: seq<string>)
    requires Explains(g, from, to, p) && Explains(g, from, to, q)
    ensures p == q
  {
    hide NameLe, Distinct, Edge, Reachable, AfterBlank;
    if from != to && Reachable(g, from, to) {
      var f :| Shortest(g, f, from, to) && Least(g, from, f) && p == AfterBlank(f);
      var h :| Shortest(g, h, from, to) && Least(g, from, h) && q == AfterBlank(h);
      assert |f| == |h|;
      NameLeAntiSymmetric(f, h);
    }
  }

  /** Everything on a path is reached from its start. */
  lemma OnPath(g: Graph, p: seq<string>, from: string, to: string, x: string)
    requires Joins(g, p, from, to) && x in p
    ensures Reachable(g, from, x)
  {
    var i :| 0 <= i < |p| && p[i] == x;
    var q := p[..i + 1];
    forall k | 0 <= k < |q| - 1 ensures Edge(g, q[k], q[k + 1]) { assert Edge(g, p[k], p[k + 1]); }
    assert Joins(g, q, from, x);
  }

  /** An explanation that is one: it joins its ends and no path is shorter, or it
      is empty because there is none. */
  ghost predicate Whole(g: Graph, from: string, to: string, path: seq<string>) {
    if Reachable(g, from, to) then Shortest(g, path, from, to) else path == []
  }

  /** No empty name is met on the way to another project. */
  ghost predicate Unbroken(g: Graph, from: string) {
    if from == "" then forall d :: d in Kids(g, "") ==> d == "" else !Reachable(g, from, "")
  }

  lemma SelfWhole(g: Graph, a: string)
    ensures Whole(g, a, a, [a])
  {
    assert Joins(g, [a], a, a);
  }

  lemma UnbrokenWhole(g: Graph, from: string, to: string, path: seq<string>)
    requires Unbroken(g, from) && Explains(g, from, to, path)
    ensures Whole(g, from, to, path)
  {
    hide Joins, Least, AfterBlank, Distinct;
    if from == to {
      SelfWhole(g, from);
    } else if Reachable(g, from, to) {
      var full :| Shortest(g, full, from, to) && Least(g, from, full) && path == AfterBlank(full);
      if from == "" { OnlyBlank(g, full, to); }
      if "" in full { OnPath(g, full, from, to, ""); }
      AfterBlankWhole(full);
    }
  }

  lemma OnlyBlank(g: Graph, p: seq<string>, to: string)
    requires Joins(g, p, "", to) && forall d :: d in Kids(g, "") ==> d == ""
    ensures to == ""
  {
    ClosedKeeps(g, {""}, p);
  }

  lemma BrokenCut(g: Graph, from: string) returns (to: string, path: seq<string>)
    requires !Unbroken(g, from)
    ensures Explains(g, from, to, path) && !Whole(g, from, to, path)
  {
    to := "";
    if from == "" {
      to :| to in Kids(g, "") && to != "";
      EdgeReaches(g, "", to);
    }
    var full := ExplanationExists(g, from, to);
    path := AfterBlank(full);
    AfterBlankWhole(full);
    ExplainsIs(g, from, to);
    BlankOnIt(g, full, from, to);
    hide AfterBlank, Least;
    if Whole(g, from, to, path) { SameLength(g, path, full, from, to); }
  }

  lemma EdgeReaches(g: Graph, a: string, b: string)
    requires b in Kids(g, a)
    ensures Reachable(g, a, b)
  {
    assert Edge(g, a, b);
    assert Joins(g, [a, b], a, b);
  }

  lemma BlankOnIt(g: Graph, p: seq<string>, from: string, to: string)
    requires Shortest(g, p, from, to) && (from == "" || to == "")
    ensures "" in p && Reachable(g, from, to)
  {
    hide Edge;
  }

  lemma SameLength(g: Graph, p: seq<string>, q: seq<string>, from: string, to: string)
    requires Shortest(g, p, from, to) && Shortest(g, q, from, to)
    ensures |p| == |q|
  {
    hide Edge;
  }

  /** The explanations from a project are whole, whatever the other end, exactly
      when it reaches no project without a name; from such a project itself,
      when it depends on no other. */
  lemma WholeExactly(g: Graph, from: string)
    ensures (forall to, path :: Explains(g, from, to, path) ==> Whole(g, from, to, path)) <==> Unbroken(g, from)
  {
    hide *;
    if Unbroken(g, from) {
      forall to, path | Explains(g, from, to, path) ensures Whole(g, from, to, path) {
        UnbrokenWhole(g, from, to, path);
      }
    } else {
      var to, path := BrokenCut(g, from);
    }
  }

  /** A graph whose dependency lists hold no empty name keeps it out of its paths. */
  lemma {:induction false} NamedPath(g: Graph, p: seq<string>)
    requires IsPath(g, p) && p[0] != "" && forall v :: v in g ==> "" !in g[v]
    ensures "" !in p
  {
    if |p| <= 1 {
    } else {
      assert Edge(g, p[0], p[1]);
      var rest := p[1..];
      forall i | 0 <= i < |rest| - 1 ensures Edge(g, rest[i], rest[i + 1]) {
        assert Edge(g, p[i + 1], p[i + 1 + 1]);
      }
      NamedPath(g, rest);
    }
  }

  /** In such a graph every explanation is whole. */
  lemma NamedWhole(g: Graph, from: string)
    requires from != "" && forall v :: v in g ==> "" !in g[v]
    ensures Unbroken(g, from)
  {
    hide IsPath;
    if p :| Joins(g, p, from, "") {
      PathEnds(g, p, from, "");
      NamedPath(g, p);
    }
  }

  lemma PathEnds(g: Graph, p: seq<string>, a: string, b: string)
    requires Joins(g, p, a, b)
    ensures IsPath(g, p) && p != [] && p[0] == a && b in p
  {
    hide Edge;
  }

  /** Over a project without a name the explanation of "b" by "a" is "b" alone. */
  lemma BlankCuts()
    ensures
      var g, full := map["a" := [""], "" := ["b"]], ["a", "", "b"];
      Shortest(g, full, "a", "b") && Explains(g, "a", "b", ["b"])
  {
    hide *;
    var g, full := map["a" := [""], "" := ["b"]], ["a", "", "b"];
    BlankJoins(g, full);
    forall q | Joins(g, q, "a", "b") ensures |q| >= 3 && (|q| == 3 ==> q == full) { BlankPath(g, q); }
    forall q | |q| == 3 && Joins(g, q, "a", full[2]) ensures NameLe(full, q) { NameLeSelf(full); }
    OnlyPathShortest(g, "a", "b", full);
    AfterBlankCut(full, 2);
    assert full[2..] == ["b"];
    ShortestJoins(g, full, "a", "b");
    ExplainsIs(g, "a", "b");
  }

  lemma BlankJoins(g: Graph, full: seq<string>)
    requires g == map["a" := [""], "" := ["b"]] && full == ["a", "", "b"]
    ensures Joins(g, full, "a", "b") && Distinct(full)
  {
    assert Edge(g, "a", "") && Edge(g, "", "b");
  }

  lemma OnlyPathShortest(g: Graph, a: string, b: string, full: seq<string>)
    requires Joins(g, full, a, b) && Distinct(full) && full != [] && full[|full| - 1] == b
    requires forall q :: Joins(g, q, a, b) ==> |full| <= |q|
    requires forall q :: |q| == |full| && Joins(g, q, a, b) ==> NameLe(full, q)
    ensures Shortest(g, full, a, b) && Least(g, a, full)
  {
    hide Joins, NameLe, Distinct;
  }

  lemma BlankPath(g: Graph, q: seq<string>)
    requires g == map["a" := [""], "" := ["b"]] && Joins(g, q, "a", "b")
    ensures |q| >= 3 && q[0] == "a" && q[1] == "" && q[2] == "b"
  {
    if |q| > 1 { assert Edge(g, q[0], q[1]); }
    if |q| > 2 { assert Edge(g, q[1], q[2]); }
  }

  lemma RestingWithin(g: Graph, from: string, to: string, prev: map<string, string>,
                      trail: map<string, seq<string>>, queue: seq<string>)
    requires Resting(g, from, to, prev, trail, queue)
    ensures prev.Keys <= Universe(g) + {from}
  {
    hide Found, Queued, Expanded, Universe;
  }

  lemma SeenNear(g: Graph, from: string, to: string, prev: map<string, string>,
                 trail: map<string, seq<string>>, queue: seq<string>, p: string, level: nat, d: string)
    requires Searching(g, from, to, prev, trail, queue, p, level) && d in prev
    ensures d in trail && |trail[d]| <= level + 1
  {
    KeysAgree(g, from, prev, trail);
  }

  lemma ShortestJoins(g: Graph, p: seq<string>, a: string, b: string)
    requires Shortest(g, p, a, b)
    ensures Reachable(g, a, b)
  {
  }

  lemma AllKidsExpanded(g: Graph, trail: map<string, seq<string>>, p: string, kids: seq<string>, level: nat)
    requires p in trail && |trail[p]| == level && forall d :: d in kids <==> Edge(g, p, d)
    requires forall k :: 0 <= k < |kids| ==> kids[k] in trail && |trail[kids[k]]| <= level + 1
    ensures Expanded(g, trail, p)
  {
    forall d | Edge(g, p, d) ensures d in trail && |trail[d]| <= level + 1 {
      assert d in kids;
    }
  }
}
