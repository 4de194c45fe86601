/** Choosing one version of a project for all the demands on it (pkgx.go,
    deprecated.go): the newest that satisfies and is published here, with
    end-of-life lines ranked last and never removed. */
module VersionPick {
  import opened Options
  import opened Sorting
  import opened Text
  import opened Versions
  import opened TagSelection

  // ----- end-of-life lines ---------------------------------------------------

  /** A line holds a version it prefixes on a component boundary. */
  predicate OnLine(raw: string, line: string) {
    line != "" && HasPrefix(raw, line) && (raw == line || !IsDigit(raw[|line|]))
  }

  function DeprecatedLine(raw: string, lines: seq<string>): (r: Option<string>)
    ensures r.Some? ==> r.value in lines && OnLine(raw, r.value)
    ensures r.None? ==> forall l :: l in lines ==> !OnLine(raw, l)
  {
    if lines == [] then None
    else if OnLine(raw, lines[0]) then Some(lines[0])
    else DeprecatedLine(raw, lines[1..])
  }

  method FindLine(raw: string, lines: seq<string>) returns (line: Option<string>)
    ensures line == DeprecatedLine(raw, lines)
  {
    hide OnLine;
    var i := 0;
    assert lines[0..] == lines;
    while i < |lines|
      invariant 0 <= i <= |lines|
      invariant DeprecatedLine(raw, lines) == DeprecatedLine(raw, lines[i..])
    {
      assert lines[i..][0] == lines[i] && lines[i..][1..] == lines[i + 1..];
      if OnLine(raw, lines[i]) { return Some(lines[i]); }
      i := i + 1;
    }
    return None;
  }

  predicate Dead(v: Ver, dead: seq<string>) { DeprecatedLine(v.raw, dead).Some? }

  lemma DottedCons(nums: seq<nat>)
    requires nums != []
    ensures Dotted(nums) == Itoa(nums[0]) + if |nums| == 1 then "" else "." + Dotted(nums[1..])
    ensures Dotted(nums) != "" && IsDigit(Dotted(nums)[0])
  {
    assert Numerals(nums)[1..] == Numerals(nums[1..]);
  }

  /** A digit run before a boundary is matched by the same run only. */
  lemma RunsMatch(a: nat, x: string, b: nat, y: string)
    requires (x == "" || !IsDigit(x[0])) && (y == "" || !IsDigit(y[0]))
    requires HasPrefix(Itoa(b) + y, Itoa(a) + x)
    requires var rest := (Itoa(b) + y)[|Itoa(a) + x|..]; x == "" ==> rest == "" || !IsDigit(rest[0])
    ensures a == b && HasPrefix(y, x) && (Itoa(b) + y)[|Itoa(a) + x|..] == y[|x|..]
  {
    hide Itoa;
    var t := Itoa(b) + y;
    var rest := t[|Itoa(a) + x|..];
    assert t == (Itoa(a) + x) + rest == Itoa(a) + (x + rest);
    SpanUnique(Itoa(a), x + rest, Itoa(b), y, IsDigit);
    NumeralItoa(a);
    NumeralItoa(b);
    assert y == x + rest;
  }

  /** A line ends where a number does. */
  lemma LineEnds(line: string, rest: string)
    ensures OnLine(line + rest, line) <==> line != "" && (rest == "" || !('0' <= rest[0] <= '9'))
  {
    var raw := line + rest;
    assert raw[..|line|] == line;
    if rest == "" { assert raw == line; } else { assert raw[|line|] == rest[0]; }
  }

  /** A line holds exactly the versions whose numbers extend its own: 3.6 holds
      3.6.4 and not 3.60. */
  lemma {:induction false} LineIsPrefix(line: seq<nat>, nums: seq<nat>)
    requires line != [] && nums != []
    ensures OnLine(Dotted(nums), Dotted(line)) <==> line <= nums
  {
    hide *;
    PrefixCons(line, nums);
    if OnLine(Dotted(nums), Dotted(line)) { HeadsMatch(line, nums); }
    if |line| > 1 && |nums| > 1 && line[0] == nums[0] {
      LineIsPrefix(line[1..], nums[1..]);
      DottedCons(line);
      DottedCons(nums);
      DottedCons(line[1..]);
      DottedCons(nums[1..]);
      var head := Itoa(line[0]) + ".";
      Shifted(head, Dotted(nums[1..]), Dotted(line[1..]));
      assert Dotted(nums) == head + Dotted(nums[1..]) && Dotted(line) == head + Dotted(line[1..]);
    }
    if |line| == 1 && line[0] == nums[0] { HeadOnLine(line, nums); }
  }

  lemma PrefixCons(x: seq<nat>, y: seq<nat>)
    requires x != [] && y != []
    ensures x <= y <==> x[0] == y[0] && x[1..] <= y[1..]
    ensures |x| == 1 ==> x[1..] <= y[1..]
    ensures |x| > 1 && |y| == 1 ==> !(x[1..] <= y[1..])
  {
    assert x == [x[0]] + x[1..] && y == [y[0]] + y[1..];
    if x[0] == y[0] && x[1..] <= y[1..] { assert y == x + y[|x|..]; }
  }

  lemma HeadsMatch(line: seq<nat>, nums: seq<nat>)
    requires line != [] && nums != [] && OnLine(Dotted(nums), Dotted(line))
    ensures line[0] == nums[0] && (|line| > 1 ==> |nums| > 1)
  {
    hide Dotted;
    DottedCons(line);
    DottedCons(nums);
    var x := if |line| == 1 then "" else "." + Dotted(line[1..]);
    var y := if |nums| == 1 then "" else "." + Dotted(nums[1..]);
    RunsMatch(line[0], x, nums[0], y);
  }

  lemma HeadOnLine(line: seq<nat>, nums: seq<nat>)
    requires |line| == 1 && nums != [] && line[0] == nums[0]
    ensures OnLine(Dotted(nums), Dotted(line))
  {
    hide Dotted, Itoa;
    DottedCons(line);
    DottedCons(nums);
    assert Dotted(nums)[..|Dotted(line)|] == Dotted(line);
  }

  lemma Shifted(head: string, s: string, p: string)
    requires s != "" && p != ""
    ensures OnLine(head + s, head + p) <==> OnLine(s, p)
  {
    if HasPrefix(head + s, head + p) {
      assert s == (head + s)[|head|..] && p == (head + p)[|head|..];
      assert s[..|p|] == (head + s)[..|head + p|][|head|..] == p;
    }
    if HasPrefix(s, p) {
      assert s == p + s[|p|..];
      assert head + s == (head + p) + s[|p|..];
    }
  }

  // ----- the candidates -----------------------------------------------------------

  /** A project's versions, oldest first; whether they came from our registry;
      and which of its tags carry this platform. */
  datatype Catalogue = Catalogue(vs: seq<Ver>, fromRegistry: bool, published: string -> bool)

  /** Other builds of the same version and rebuild. */
  predicate IsSibling(o: Ver, v: Ver) {
    o.variant != v.variant && o.raw == v.raw && o.rebuild == v.rebuild
  }

  function SiblingName(o: Ver): string { if o.variant == "" then "(no variant)" else o.variant }

  function SiblingNames(vs: seq<Ver>, v: Ver): seq<string> {
    if vs == [] then []
    else
      SiblingNames(vs[..|vs| - 1], v)
      + if IsSibling(vs[|vs| - 1], v) then [SiblingName(vs[|vs| - 1])] else []
  }

  predicate HasSiblings(vs: seq<Ver>, v: Ver) { exists k :: 0 <= k < |vs| && IsSibling(vs[k], v) }

  lemma {:induction false} SiblingNamesEmpty(vs: seq<Ver>, v: Ver)
    ensures SiblingNames(vs, v) != [] <==> HasSiblings(vs, v)
  {
    if vs == [] {
    } else {
      var front := vs[..|vs| - 1];
      SiblingNamesEmpty(front, v);
      assert forall k :: 0 <= k < |front| ==> front[k] == vs[k];
    }
  }

  lemma {:induction false} SiblingsNamed(vs: seq<Ver>, v: Ver)
    ensures forall n :: n in SiblingNames(vs, v) <==>
      exists o :: o in vs && o.raw == v.raw && o.rebuild == v.rebuild && o.variant != v.variant
                  && n == if o.variant == "" then "(no variant)" else o.variant
  {
    if vs == [] {
    } else {
      var front, last := vs[..|vs| - 1], vs[|vs| - 1];
      assert vs == front + [last];
      SiblingsNamed(front, v);
    }
  }

  method VariantSiblings(vs: seq<Ver>, v: Ver) returns (out: seq<string>)
    ensures out == Sort(SiblingNames(vs, v), Le)
    ensures out != [] <==> HasSiblings(vs, v)
    ensures forall n :: n in out <==>
      exists o :: o in vs && o.raw == v.raw && o.rebuild == v.rebuild && o.variant != v.variant
                  && n == if o.variant == "" then "(no variant)" else o.variant
  {
    SiblingsNamed(vs, v);
    SortMembers(SiblingNames(vs, v), Le);
    hide IsSibling, HasSiblings, Sort;
    out := [];
    for i := 0 to |vs|
      invariant out == SiblingNames(vs[..i], v)
    {
      assert vs[..i + 1][..i] == vs[..i];
      if IsSibling(vs[i], v) { out := out + [SiblingName(vs[i])]; }
    }
    assert vs[..|vs|] == vs;
    SiblingNamesEmpty(vs, v);
    out := Sort(out, Le);
  }

  /** Some tag that denotes the version carries this platform. */
  ghost predicate Published(cat: Catalogue, v: Ver) {
    exists t :: Denotes(v, t) && cat.published(t)
  }

  /** The version's own tag when that is published, else another spelling's. */
  ghost predicate PublishedAs(cat: Catalogue, v: Ver, tag: string) {
    Denotes(v, tag) && cat.published(tag) && (cat.published(v.PullTag()) ==> tag == v.PullTag())
  }

  method PublishedTagFor(cat: Catalogue, v: Ver) returns (tag: Option<string>)
    ensures tag.None? ==> !Published(cat, v)
    ensures tag.Some? ==> Published(cat, v) && PublishedAs(cat, v, tag.value)
  {
    hide Denotes;
    var spellings := TagSpellings(v);
    var i := 0;
    while i < |spellings|
      invariant 0 <= i <= |spellings|
      invariant forall k :: 0 <= k < i ==> !cat.published(spellings[k])
    {
      if cat.published(spellings[i]) {
        assert spellings[i] in spellings;
        return Some(spellings[i]);
      }
      i := i + 1;
    }
    return None;
  }

  // ----- what a pick means --------------------------------------------------------

  /** Candidate `i` meets the demands and can be installed here. */
  ghost predicate Usable(cat: Catalogue, cs: seq<string>, i: int) {
    0 <= i < |cat.vs| && SatisfiesAll(cat.vs[i], cs) && (cat.fromRegistry ==> Published(cat, cat.vs[i]))
  }

  /** Candidate `i` meets the demands in several builds nobody can tell apart. */
  ghost predicate Blocked(cat: Catalogue, cs: seq<string>, i: int) {
    0 <= i < |cat.vs| && SatisfiesAll(cat.vs[i], cs) && HasSiblings(cat.vs, cat.vs[i])
  }

  /** Where the search from the newest ends. */
  ghost predicate Ends(cat: Catalogue, cs: seq<string>, dead: seq<string>, i: int) {
    Blocked(cat, cs, i) || (Usable(cat, cs, i) && !Dead(cat.vs[i], dead))
  }

  /** The candidate chosen: the newest usable one off every dead line, if
      nothing newer is blocked; the newest usable one, if the search ends nowhere. */
  ghost predicate Chosen(cat: Catalogue, cs: seq<string>, dead: seq<string>, i: int) {
    && Usable(cat, cs, i)
    && if Dead(cat.vs[i], dead) then
         (forall j :: i < j ==> !Usable(cat, cs, j)) && forall j :: !Ends(cat, cs, dead, j)
       else
         !Blocked(cat, cs, i) && forall j :: i < j ==> !Ends(cat, cs, dead, j)
  }

  ghost predicate Resolves(cat: Catalogue, cs: seq<string>, dead: seq<string>) {
    exists i :: Chosen(cat, cs, dead, i)
  }

  datatype Pick =
    | Picked(v: Ver, line: Option<string>)
    | Ambiguous(v: Ver, siblings: seq<string>)
    | NotPublishedHere(absent: seq<string>)
    | NoVersions
    | NoneSatisfies

  /** The version as it is pulled: from the tag that carries it. */
  ghost predicate PulledAs(cat: Catalogue, v: Ver, w: Ver) {
    if cat.fromRegistry then w == v.(tag := w.tag) && PublishedAs(cat, v, w.tag) else w == v
  }

  /** The versions from `i` on that meet the demands, newest first. */
  function MeetingRaws(vs: seq<Ver>, cs: seq<string>, i: nat): seq<string>
    decreases |vs| - i
  {
    if i >= |vs| then []
    else MeetingRaws(vs, cs, i + 1) + if SatisfiesAll(vs[i], cs) then [vs[i].raw] else []
  }

  lemma {:induction false} MeetingRawsEmpty(vs: seq<Ver>, cs: seq<string>, i: nat)
    ensures MeetingRaws(vs, cs, i) == [] <==> forall j :: i <= j < |vs| ==> !SatisfiesAll(vs[j], cs)
    decreases |vs| - i
  {
    hide SatisfiesAll;
    if i >= |vs| {
      assert MeetingRaws(vs, cs, i) == [];
    } else {
      MeetingRawsEmpty(vs, cs, i + 1);
    }
  }

  /** The pick so far: what the candidates from `i` on have decided. */
  ghost predicate Passed(cat: Catalogue, cs: seq<string>, dead: seq<string>, i: nat,
                         fallback: Option<Ver>, absent: seq<string>)
  {
    && (forall j :: i <= j ==> !Ends(cat, cs, dead, j))
    && (fallback.None? ==> forall j :: i <= j ==> !Usable(cat, cs, j))
    && (fallback.Some? ==> exists k :: i <= k && FellTo(cat, cs, dead, k, fallback.value))
    && (fallback.None? ==> absent == MeetingRaws(cat.vs, cs, i))
  }

  /** The newest usable candidate is `k`, on a dead line, pulled as `w`. */
  ghost predicate FellTo(cat: Catalogue, cs: seq<string>, dead: seq<string>, k: int, w: Ver) {
    && Usable(cat, cs, k) && (forall j :: k < j ==> !Usable(cat, cs, j))
    && Dead(cat.vs[k], dead) && PulledAs(cat, cat.vs[k], w)
  }

  lemma PulledRaw(cat: Catalogue, v: Ver, w: Ver)
    requires PulledAs(cat, v, w)
    ensures w.raw == v.raw && w.nums == v.nums && w.rebuild == v.rebuild && w.variant == v.variant
  {
  }

  /** The newest version all demands accept, for one platform. The warning says
      which end-of-life line it is on. */
  method PickVersionForAll(cat: Catalogue, cs: seq<string>, dead: seq<string>) returns (r: Pick)
    ensures r.Picked? <==> Resolves(cat, cs, dead)
    ensures r.Picked? ==>
      exists i ::
        && Chosen(cat, cs, dead, i) && PulledAs(cat, cat.vs[i], r.v)
        && r.line == DeprecatedLine(cat.vs[i].raw, dead)
    ensures r.Ambiguous? ==>
      exists i ::
        && Blocked(cat, cs, i) && (forall j :: i < j ==> !Ends(cat, cs, dead, j))
        && r.v == cat.vs[i] && r.siblings == Sort(SiblingNames(cat.vs, cat.vs[i]), Le)
    ensures r.NotPublishedHere? ==>
      r.absent == MeetingRaws(cat.vs, cs, 0) && r.absent != [] && forall i :: !Usable(cat, cs, i)
    ensures r.NoneSatisfies? || r.NoVersions? ==> forall i :: 0 <= i < |cat.vs| ==> !SatisfiesAll(cat.vs[i], cs)
    ensures r.NoVersions? ==> cs == [] && cat.vs == []
  {
    hide *;
    var fallback: Option<Ver> := None;
    var absent := [];
    var i := |cat.vs|;
    PassedStart(cat, cs, dead);
    while i > 0
      invariant 0 <= i <= |cat.vs|
      invariant Passed(cat, cs, dead, i, fallback, absent)
    {
      i := i - 1;
      var v := cat.vs[i];
      if SatisfiesAll(v, cs) {
        var siblings := VariantSiblings(cat.vs, v);
        if siblings != [] {
          StopsBlocked(cat, cs, dead, i, fallback, absent);
          return Ambiguous(v, siblings);
        }
        var there := true;
        var w := v;
        if cat.fromRegistry {
          var tag := PublishedTagFor(cat, v);
          there := tag.Some?;
          if there { w := v.(tag := tag.value); }
        }
        if !there {
          PassAbsent(cat, cs, dead, i, fallback, absent, v.raw);
          absent := absent + [v.raw];
        } else {
          PulledIs(cat, v, w);
          var line := FindLine(w.raw, dead);
          if line.None? {
            StopsFresh(cat, cs, dead, i, fallback, absent, w);
            return Picked(w, None);
          }
          PassDead(cat, cs, dead, i, fallback, absent, w);
          if fallback.None? { fallback := Some(w); }
        }
      } else {
        PassUnmet(cat, cs, dead, i, fallback, absent);
      }
    }
    PassedAll(cat, cs, dead, fallback, absent);
    if fallback.Some? {
      return Picked(fallback.value, DeprecatedLine(fallback.value.raw, dead));
    }
    if absent != [] { return NotPublishedHere(absent); }
    if cs == [] {
      NoDemands(cat);
      return NoVersions;
    }
    return NoneSatisfies;
  }

  lemma NoDemands(cat: Catalogue)
    ensures cat.vs != [] ==> exists i :: 0 <= i < |cat.vs| && SatisfiesAll(cat.vs[i], [])
  {
    assert cat.vs != [] ==> SatisfiesAll(cat.vs[0], []);
  }

  lemma PassedStart(cat: Catalogue, cs: seq<string>, dead: seq<string>)
    ensures Passed(cat, cs, dead, |cat.vs|, None, [])
  {
    hide SatisfiesAll, Published, HasSiblings, Dead;
  }

  lemma PulledIs(cat: Catalogue, v: Ver, w: Ver)
    requires if cat.fromRegistry then PublishedAs(cat, v, w.tag) && w == v.(tag := w.tag) else w == v
    ensures PulledAs(cat, v, w) && w.raw == v.raw
    ensures cat.fromRegistry ==> Published(cat, v)
  {
  }

  lemma PassUnmet(cat: Catalogue, cs: seq<string>, dead: seq<string>, i: nat, fallback: Option<Ver>,
                  absent: seq<string>)
    requires i < |cat.vs| && !SatisfiesAll(cat.vs[i], cs) && Passed(cat, cs, dead, i + 1, fallback, absent)
    ensures Passed(cat, cs, dead, i, fallback, absent)
  {
    hide SatisfiesAll, Published, HasSiblings, Dead, FellTo;
    assert absent + [] == absent;
  }

  lemma PassAbsent(cat: Catalogue, cs: seq<string>, dead: seq<string>, i: nat, fallback: Option<Ver>,
                   absent: seq<string>, raw: string)
    requires i < |cat.vs| && SatisfiesAll(cat.vs[i], cs) && Passed(cat, cs, dead, i + 1, fallback, absent)
    requires cat.fromRegistry && !Published(cat, cat.vs[i]) && !HasSiblings(cat.vs, cat.vs[i])
    requires raw == cat.vs[i].raw
    ensures Passed(cat, cs, dead, i, fallback, absent + [raw])
  {
    hide SatisfiesAll, Published, HasSiblings, Dead, FellTo;
  }

  lemma PassDead(cat: Catalogue, cs: seq<string>, dead: seq<string>, i: nat, fallback: Option<Ver>,
                 absent: seq<string>, w: Ver)
    requires i < |cat.vs| && SatisfiesAll(cat.vs[i], cs) && Passed(cat, cs, dead, i + 1, fallback, absent)
    requires !HasSiblings(cat.vs, cat.vs[i]) && (cat.fromRegistry ==> Published(cat, cat.vs[i]))
    requires PulledAs(cat, cat.vs[i], w) && DeprecatedLine(w.raw, dead).Some? && w.raw == cat.vs[i].raw
    ensures Passed(cat, cs, dead, i, if fallback.None? then Some(w) else fallback, absent)
  {
    hide SatisfiesAll, Published, HasSiblings, PulledAs, DeprecatedLine;
    if fallback.None? {
      assert FellTo(cat, cs, dead, i, w);
    }
  }

  lemma StopsFresh(cat: Catalogue, cs: seq<string>, dead: seq<string>, i: nat, fallback: Option<Ver>,
                   absent: seq<string>, w: Ver)
    requires i < |cat.vs| && SatisfiesAll(cat.vs[i], cs) && Passed(cat, cs, dead, i + 1, fallback, absent)
    requires !HasSiblings(cat.vs, cat.vs[i]) && (cat.fromRegistry ==> Published(cat, cat.vs[i]))
    requires w.raw == cat.vs[i].raw && DeprecatedLine(w.raw, dead).None?
    ensures Chosen(cat, cs, dead, i) && Resolves(cat, cs, dead)
  {
    hide SatisfiesAll, Published, HasSiblings, DeprecatedLine, FellTo;
    assert Chosen(cat, cs, dead, i);
  }

  lemma StopsBlocked(cat: Catalogue, cs: seq<string>, dead: seq<string>, i: nat, fallback: Option<Ver>,
                     absent: seq<string>)
    requires i < |cat.vs| && SatisfiesAll(cat.vs[i], cs) && Passed(cat, cs, dead, i + 1, fallback, absent)
    requires HasSiblings(cat.vs, cat.vs[i])
    ensures Blocked(cat, cs, i) && (forall j :: i < j ==> !Ends(cat, cs, dead, j))
    ensures !Resolves(cat, cs, dead)
  {
    hide SatisfiesAll, Published, HasSiblings, Dead, FellTo;
    assert Ends(cat, cs, dead, i);
    forall k ensures !Chosen(cat, cs, dead, k) {
      assert k > i && Usable(cat, cs, k) ==> Ends(cat, cs, dead, k) || Dead(cat.vs[k], dead);
    }
  }

  lemma PassedAll(cat: Catalogue, cs: seq<string>, dead: seq<string>, fallback: Option<Ver>, absent: seq<string>)
    requires Passed(cat, cs, dead, 0, fallback, absent)
    ensures fallback.Some? ==>
      exists i ::
        && Chosen(cat, cs, dead, i) && PulledAs(cat, cat.vs[i], fallback.value)
        && fallback.value.raw == cat.vs[i].raw
    ensures fallback.Some? <==> Resolves(cat, cs, dead)
    ensures fallback.None? && absent == [] ==> forall i :: 0 <= i < |cat.vs| ==> !SatisfiesAll(cat.vs[i], cs)
    ensures fallback.None? ==> absent == MeetingRaws(cat.vs, cs, 0) && forall i :: !Usable(cat, cs, i)
  {
    MeetingRawsEmpty(cat.vs, cs, 0);
    hide MeetingRaws, SatisfiesAll, Published, HasSiblings, Dead, PulledAs;
    NothingBelow(cat, cs, dead);
    if fallback.Some? {
      var k :| 0 <= k && FellTo(cat, cs, dead, k, fallback.value);
      PulledRaw(cat, cat.vs[k], fallback.value);
      assert Chosen(cat, cs, dead, k);
    }
  }

  lemma NothingBelow(cat: Catalogue, cs: seq<string>, dead: seq<string>)
    ensures forall j :: j < 0 ==> !Ends(cat, cs, dead, j) && !Usable(cat, cs, j)
  {
    hide SatisfiesAll, Published, HasSiblings, Dead;
  }

  // ----- the preference never decides whether ------------------------------------------

  ghost predicate NoSiblings(cat: Catalogue) {
    forall i :: 0 <= i < |cat.vs| ==> !HasSiblings(cat.vs, cat.vs[i])
  }

  /** Some version meets the whole set of demands and is published here. */
  ghost predicate Common(cat: Catalogue, cs: seq<string>) { exists i :: Usable(cat, cs, i) }

  /** The newest of the indices below `n` with a property. */
  lemma {:induction false} Newest(ok: int -> bool, n: nat) returns (i: int)
    requires exists j :: 0 <= j < n && ok(j)
    ensures 0 <= i < n && ok(i) && forall j :: i < j < n ==> !ok(j)
  {
    if ok(n - 1) { return n - 1; }
    i := Newest(ok, n - 1);
  }

  lemma NewestUsable(cat: Catalogue, cs: seq<string>) returns (i: int)
    requires Common(cat, cs)
    ensures Usable(cat, cs, i) && forall j :: i < j ==> !Usable(cat, cs, j)
  {
    hide SatisfiesAll, Published;
    var ok := k => Usable(cat, cs, k);
    var k :| Usable(cat, cs, k);
    assert ok(k);
    i := Newest(ok, |cat.vs|);
    forall j | i < j ensures !Usable(cat, cs, j) { assert ok(j) == Usable(cat, cs, j); }
  }

  lemma NewestAlive(cat: Catalogue, cs: seq<string>, dead: seq<string>) returns (i: int)
    requires exists k :: Usable(cat, cs, k) && !Dead(cat.vs[k], dead)
    ensures Usable(cat, cs, i) && !Dead(cat.vs[i], dead)
    ensures forall j :: i < j ==> !(Usable(cat, cs, j) && !Dead(cat.vs[j], dead))
  {
    hide SatisfiesAll, Published, Dead;
    var ok := k => Usable(cat, cs, k) && !Dead(cat.vs[k], dead);
    var k :| Usable(cat, cs, k) && !Dead(cat.vs[k], dead);
    assert ok(k);
    i := Newest(ok, |cat.vs|);
    forall j | i < j ensures !(Usable(cat, cs, j) && !Dead(cat.vs[j], dead)) {
      assert ok(j) == (Usable(cat, cs, j) && !Dead(cat.vs[j], dead));
    }
  }

  lemma NoneBlocked(cat: Catalogue, cs: seq<string>, dead: seq<string>)
    requires forall i :: !Blocked(cat, cs, i)
    ensures forall i :: Ends(cat, cs, dead, i) <==> Usable(cat, cs, i) && !Dead(cat.vs[i], dead)
  {
    hide SatisfiesAll, Published, Dead, HasSiblings;
  }

  /** With no siblings the pick is the last usable candidate off every dead
      line, and where there is none of those the last usable candidate. */
  lemma ChosenIsLast(cat: Catalogue, cs: seq<string>, dead: seq<string>, i: int)
    requires NoSiblings(cat)
    ensures Chosen(cat, cs, dead, i)
      <==> Usable(cat, cs, i)
           && if exists k :: Usable(cat, cs, k) && !Dead(cat.vs[k], dead)
              then !Dead(cat.vs[i], dead) && forall j :: i < j ==> !(Usable(cat, cs, j) && !Dead(cat.vs[j], dead))
              else forall j :: i < j ==> !Usable(cat, cs, j)
  {
    assert forall k :: !Blocked(cat, cs, k);
    NoneBlocked(cat, cs, dead);
    hide Usable, Blocked, Ends, Dead;
  }

  /** Where nothing is blocked a request resolves exactly when some version can
      be used, whatever the list of dead lines. */
  lemma ResolvesIffCommon(cat: Catalogue, cs: seq<string>, dead: seq<string>)
    requires forall i :: !Blocked(cat, cs, i)
    ensures Resolves(cat, cs, dead) <==> Common(cat, cs)
  {
    NoneBlocked(cat, cs, dead);
    hide Usable, Blocked, Ends, Dead;
    if Common(cat, cs) {
      if exists k :: Usable(cat, cs, k) && !Dead(cat.vs[k], dead) {
        var i := NewestAlive(cat, cs, dead);
        assert Chosen(cat, cs, dead, i);
      } else {
        var i := NewestUsable(cat, cs);
        assert Chosen(cat, cs, dead, i);
      }
    }
  }

  lemma NoSiblingsNoneBlocked(cat: Catalogue, cs: seq<string>)
    requires NoSiblings(cat)
    ensures forall i :: !Blocked(cat, cs, i)
  {
    hide SatisfiesAll, HasSiblings;
  }

  lemma NothingDead(v: Ver)
    ensures !Dead(v, [])
  {
  }

  /** A list of dead lines never makes a request resolve. */
  lemma ListNeverHelps(cat: Catalogue, cs: seq<string>, dead: seq<string>)
    requires Resolves(cat, cs, dead)
    ensures Resolves(cat, cs, [])
  {
    hide SatisfiesAll, Published, Dead, HasSiblings;
    var i :| Chosen(cat, cs, dead, i);
    forall v ensures !Dead(v, []) { NothingDead(v); }
    var k := NewestUsable(cat, cs);
    assert i <= k && (Ends(cat, cs, dead, k) ==> i == k);
    assert !Blocked(cat, cs, k);
    forall j | k < j ensures !Ends(cat, cs, [], j) { assert !Ends(cat, cs, dead, j); }
    assert Chosen(cat, cs, [], k);
  }

  function Raws(vs: seq<Ver>): seq<string> { seq(|vs|, i requires 0 <= i < |vs| => vs[i].raw) }

  lemma AllDead(vs: seq<Ver>, k: nat)
    requires k < |vs| && vs[k].raw != ""
    ensures Dead(vs[k], Raws(vs))
  {
    assert Raws(vs)[k] == vs[k].raw;
    assert OnLine(vs[k].raw, vs[k].raw);
  }

  /** Whether a request resolves depends on the list exactly when it resolves
      without one and some candidate meets the demands in several builds: a
      newer version on a dead line is then passed over on the way to the refusal. */
  lemma ListMatters(cat: Catalogue, cs: seq<string>)
    requires forall k :: 0 <= k < |cat.vs| ==> cat.vs[k].raw != ""
    ensures (exists dead :: Resolves(cat, cs, dead) != Resolves(cat, cs, []))
      <==> Resolves(cat, cs, []) && exists k :: Blocked(cat, cs, k)
  {
    hide SatisfiesAll, Published, HasSiblings, Dead;
    if forall k :: !Blocked(cat, cs, k) {
      forall dead ensures Resolves(cat, cs, dead) == Resolves(cat, cs, []) {
        ResolvesIffCommon(cat, cs, dead);
        ResolvesIffCommon(cat, cs, []);
      }
    }
    forall dead ensures Resolves(cat, cs, dead) ==> Resolves(cat, cs, []) {
      if Resolves(cat, cs, dead) { ListNeverHelps(cat, cs, dead); }
    }
    var all := Raws(cat.vs);
    forall k | 0 <= k < |cat.vs| ensures Dead(cat.vs[k], all) { AllDead(cat.vs, k); }
    if exists k :: Blocked(cat, cs, k) {
      var k :| Blocked(cat, cs, k);
      assert Ends(cat, cs, all, k);
      assert !Resolves(cat, cs, all);
    }
  }

  // ----- the newest of a tag listing ---------------------------------------------------

  /** Candidate `j` competes with the pick: it is usable, and off every dead
      line unless no usable candidate is. */
  ghost predicate Competes(cat: Catalogue, cs: seq<string>, dead: seq<string>, j: int) {
    Usable(cat, cs, j)
    && ((exists k :: Usable(cat, cs, k) && !Dead(cat.vs[k], dead)) ==> !Dead(cat.vs[j], dead))
  }

  /** Over candidates in version order, without siblings, what is picked
      competes, and no competitor is newer. */
  lemma PickIsNewest(cat: Catalogue, cs: seq<string>, dead: seq<string>, i: int)
    requires NoSiblings(cat) && Sorted(cat.vs, CompareLe) && Chosen(cat, cs, dead, i)
    ensures Competes(cat, cs, dead, i)
    ensures forall j :: Competes(cat, cs, dead, j) ==> Compare(cat.vs[j], cat.vs[i]) <= 0
  {
    hide Usable, Dead, NoSiblings, Compare;
    ChosenIsLast(cat, cs, dead, i);
    UsableIndex(cat, cs, i);
    forall j | Competes(cat, cs, dead, j) ensures 0 <= j < |cat.vs| && Compare(cat.vs[j], cat.vs[i]) <= 0 {
      UsableIndex(cat, cs, j);
      SortedCompare(cat.vs, j, i);
    }
  }

  lemma UsableIndex(cat: Catalogue, cs: seq<string>, i: int)
    requires Usable(cat, cs, i)
    ensures 0 <= i < |cat.vs|
  {
  }

  lemma SortedCompare(vs: seq<Ver>, j: nat, i: nat)
    requires Sorted(vs, CompareLe) && j <= i < |vs|
    ensures Compare(vs[j], vs[i]) <= 0
  {
    hide Compare;
    if j < i { assert CompareLe(vs[j], vs[i]); } else { ComparePreorder(vs[i], vs[i], vs[i]); }
  }

  lemma PlainNoSiblings(tags: seq<string>, want: string, cat: Catalogue)
    requires Selected(tags, want, cat.vs) && NoVariants(tags)
    ensures NoSiblings(cat) && Sorted(cat.vs, CompareLe)
  {
    hide FromTag, NumericKey, Eligible, Candidate, Stands, CompareLe, NoVariants;
    forall v | v in cat.vs ensures v.variant == "" { PlainEntry(v, tags, want); }
  }

  /** Over what a tag listing without variants selects: the pick is some
      eligible tag's version, and every eligible tag whose entry competes reads
      as a version not newer. */
  lemma PickFromTags(tags: seq<string>, want: string, cat: Catalogue, cs: seq<string>, dead: seq<string>, i: int,
                     t: string, j: int)
    requires Selected(tags, want, cat.vs) && NoVariants(tags) && Chosen(cat, cs, dead, i)
    ensures 0 <= i < |cat.vs| && FromTag(cat.vs[i], tags, want)
    ensures (
        && t in tags && Eligible(t, want) && Competes(cat, cs, dead, j)
        && NumericKey(cat.vs[j]) == NumericKey(Candidate(t))
      ) ==> Compare(Candidate(t), cat.vs[i]) <= 0
  {
    hide *;
    PlainNoSiblings(tags, want, cat);
    PickIsNewest(cat, cs, dead, i);
    CompetesIndex(cat, cs, dead, i);
    SelectedFrom(tags, want, cat.vs, i);
    if Competes(cat, cs, dead, j) {
      CompetesIndex(cat, cs, dead, j);
      SelectedFrom(tags, want, cat.vs, j);
      CandidateNums(cat.vs[j], tags, want);
      KeyIdentifies(cat.vs[j], Candidate(t));
      if Compare(cat.vs[j], Candidate(t)) == 0 { TiesCompareAlike(cat.vs[j], Candidate(t), cat.vs[i]); }
    }
  }

  lemma CompetesIndex(cat: Catalogue, cs: seq<string>, dead: seq<string>, j: int)
    requires Competes(cat, cs, dead, j)
    ensures 0 <= j < |cat.vs|
  {
    hide Dead, SatisfiesAll, Published;
  }

  lemma SelectedFrom(tags: seq<string>, want: string, vs: seq<Ver>, i: nat)
    requires Selected(tags, want, vs) && i < |vs|
    ensures FromTag(vs[i], tags, want)
  {
    hide FromTag, NumericKey, Eligible, Candidate, Stands, CompareLe;
    assert vs[i] in vs;
  }

  lemma CandidateNums(v: Ver, tags: seq<string>, want: string)
    requires FromTag(v, tags, want)
    ensures v.nums != []
  {
    hide Eligible, Candidate;
  }

  // ----- the order of listing ----------------------------------------------------------

  /** One catalogue and another of the same versions, both in version order:
      ties may stand in another order. */
  ghost predicate Rearranged(cat: Catalogue, cat': Catalogue) {
    && cat'.fromRegistry == cat.fromRegistry && cat'.published == cat.published
    && Sorted(cat.vs, CompareLe) && Distinct(cat.vs) && Sorted(cat'.vs, CompareLe) && Distinct(cat'.vs)
    && forall v :: v in cat.vs <==> v in cat'.vs
  }

  ghost predicate Picks(cat: Catalogue, cs: seq<string>, dead: seq<string>, v: Ver) {
    exists i :: 0 <= i < |cat.vs| && cat.vs[i] == v && Chosen(cat, cs, dead, i)
  }

  /** The same pick, or none in either. */
  ghost predicate SamePick(cat: Catalogue, cat': Catalogue, cs: seq<string>, dead: seq<string>) {
    forall v :: Picks(cat, cs, dead, v) <==> Picks(cat', cs, dead, v)
  }

  /** Candidate `j` counts: it can end the search, or, if none can, it can be
      used. */
  ghost predicate Counts(cat: Catalogue, cs: seq<string>, dead: seq<string>, j: int) {
    Ends(cat, cs, dead, j) || (Usable(cat, cs, j) && forall k :: !Ends(cat, cs, dead, k))
  }

  /** Candidate `i` counts, and none that counts is newer. */
  ghost predicate Deciding(cat: Catalogue, cs: seq<string>, dead: seq<string>, i: int) {
    && 0 <= i < |cat.vs| && Counts(cat, cs, dead, i)
    && forall j :: 0 <= j < |cat.vs| && Counts(cat, cs, dead, j) ==> Compare(cat.vs[j], cat.vs[i]) <= 0
  }

  /** The newest candidates that count are one, or all of them refused. */
  ghost predicate TiesAgree(cat: Catalogue, cs: seq<string>, dead: seq<string>) {
    forall i, j :: Deciding(cat, cs, dead, i) && Deciding(cat, cs, dead, j) && i != j ==>
      Blocked(cat, cs, i) && Blocked(cat, cs, j)
  }

  /** What the pick looks at in a candidate, apart from its place. */
  lemma SamePlace(cat: Catalogue, cat': Catalogue, cs: seq<string>, dead: seq<string>, i: int, i': int)
    requires cat'.fromRegistry == cat.fromRegistry && cat'.published == cat.published
    requires forall v :: v in cat.vs <==> v in cat'.vs
    requires 0 <= i < |cat.vs| && 0 <= i' < |cat'.vs| && cat.vs[i] == cat'.vs[i']
    ensures Usable(cat, cs, i) <==> Usable(cat', cs, i')
    ensures Blocked(cat, cs, i) <==> Blocked(cat', cs, i')
    ensures Ends(cat, cs, dead, i) <==> Ends(cat', cs, dead, i')
  {
    hide SatisfiesAll, Denotes, Dead, IsSibling;
    var v := cat.vs[i];
    forall k | 0 <= k < |cat.vs| && IsSibling(cat.vs[k], v) ensures HasSiblings(cat'.vs, v) {
      assert cat.vs[k] in cat'.vs;
    }
    forall k | 0 <= k < |cat'.vs| && IsSibling(cat'.vs[k], v) ensures HasSiblings(cat.vs, v) {
      assert cat'.vs[k] in cat.vs;
    }
  }

  lemma PlaceOf(vs: seq<Ver>, v: Ver) returns (i: nat)
    requires v in vs
    ensures i < |vs| && vs[i] == v
  {
    i :| i < |vs| && vs[i] == v;
  }

  lemma CountsInRange(cat: Catalogue, cs: seq<string>, dead: seq<string>, j: int)
    requires Ends(cat, cs, dead, j) || Usable(cat, cs, j)
    ensures 0 <= j < |cat.vs|
  {
    hide SatisfiesAll, Published, HasSiblings, Dead;
  }

  lemma NoEndsMoves(cat: Catalogue, cat': Catalogue, cs: seq<string>, dead: seq<string>)
    requires Rearranged(cat, cat') && forall k :: !Ends(cat, cs, dead, k)
    ensures forall k :: !Ends(cat', cs, dead, k)
  {
    hide Usable, Blocked, Ends, Dead, Compare, CompareLe;
    forall k ensures !Ends(cat', cs, dead, k) {
      if Ends(cat', cs, dead, k) {
        CountsInRange(cat', cs, dead, k);
        var j := PlaceOf(cat.vs, cat'.vs[k]);
        SamePlace(cat, cat', cs, dead, j, k);
      }
    }
  }

  lemma RearrangedBack(cat: Catalogue, cat': Catalogue)
    requires Rearranged(cat, cat')
    ensures Rearranged(cat', cat)
    ensures forall v :: v in cat.vs <==> v in cat'.vs
    ensures cat'.fromRegistry == cat.fromRegistry && cat'.published == cat.published
  {
    hide CompareLe;
  }

  lemma CountsMoves(cat: Catalogue, cat': Catalogue, cs: seq<string>, dead: seq<string>, i: int, i': int)
    requires Rearranged(cat, cat') && 0 <= i < |cat.vs| && 0 <= i' < |cat'.vs| && cat.vs[i] == cat'.vs[i']
    ensures Counts(cat, cs, dead, i) ==> Counts(cat', cs, dead, i')
  {
    hide Usable, Blocked, Ends, Rearranged;
    RearrangedBack(cat, cat');
    SamePlace(cat, cat', cs, dead, i, i');
    if forall k :: !Ends(cat, cs, dead, k) { NoEndsMoves(cat, cat', cs, dead); }
  }

  /** Whether a candidate decides does not depend on where its ties stand. */
  lemma DecidingMoves(cat: Catalogue, cat': Catalogue, cs: seq<string>, dead: seq<string>, i: int) returns (i': int)
    requires Rearranged(cat, cat') && Deciding(cat, cs, dead, i)
    ensures Deciding(cat', cs, dead, i') && cat'.vs[i'] == cat.vs[i]
    ensures Blocked(cat, cs, i) <==> Blocked(cat', cs, i')
  {
    hide Counts, Blocked, Compare, Rearranged;
    RearrangedBack(cat, cat');
    i' := PlaceOf(cat'.vs, cat.vs[i]);
    SamePlace(cat, cat', cs, dead, i, i');
    CountsMoves(cat, cat', cs, dead, i, i');
    forall j' | 0 <= j' < |cat'.vs| && Counts(cat', cs, dead, j') ensures Compare(cat'.vs[j'], cat'.vs[i']) <= 0 {
      var j := PlaceOf(cat.vs, cat'.vs[j']);
      CountsMoves(cat', cat, cs, dead, j', j);
    }
  }

  /** What counts after a deciding candidate decides as well. */
  lemma DecidingUp(cat: Catalogue, cs: seq<string>, dead: seq<string>, i: int, j: int)
    requires Sorted(cat.vs, CompareLe) && Deciding(cat, cs, dead, i) && i < j && Counts(cat, cs, dead, j)
    ensures Deciding(cat, cs, dead, j)
  {
    assert 0 <= j < |cat.vs| by { CountsInRange(cat, cs, dead, j); }
    hide Counts, Compare;
    SortedCompare(cat.vs, i, j);
    forall k | 0 <= k < |cat.vs| && Counts(cat, cs, dead, k) ensures Compare(cat.vs[k], cat.vs[j]) <= 0 {
      ComparePreorder(cat.vs[k], cat.vs[i], cat.vs[j]);
    }
  }

  lemma ChosenCounts(cat: Catalogue, cs: seq<string>, dead: seq<string>, i: int)
    ensures Chosen(cat, cs, dead, i)
      <==> 0 <= i < |cat.vs| && Counts(cat, cs, dead, i) && !Blocked(cat, cs, i)
           && forall j :: i < j ==> !Counts(cat, cs, dead, j)
  {
    hide Usable, Blocked, Dead;
    if Chosen(cat, cs, dead, i) {
      CountsInRange(cat, cs, dead, i);
      assert Dead(cat.vs[i], dead) ==> !Ends(cat, cs, dead, i);
      forall j | i < j ensures !Counts(cat, cs, dead, j) {
        assert Dead(cat.vs[i], dead) || Ends(cat, cs, dead, i);
      }
    } else if 0 <= i < |cat.vs| && Counts(cat, cs, dead, i) && !Blocked(cat, cs, i)
           && forall j :: i < j ==> !Counts(cat, cs, dead, j) {
      forall j | i < j ensures !Ends(cat, cs, dead, j) { assert !Counts(cat, cs, dead, j); }
      if Ends(cat, cs, dead, i) {
        assert false;
      } else {
        forall j | i < j ensures !Usable(cat, cs, j) { assert !Counts(cat, cs, dead, j); }
        assert false;
      }
    }
  }

  /** The pick is the last deciding candidate, unless that is refused. */
  lemma ChosenDecides(cat: Catalogue, cs: seq<string>, dead: seq<string>, i: int)
    requires Sorted(cat.vs, CompareLe)
    ensures Chosen(cat, cs, dead, i)
      <==> Deciding(cat, cs, dead, i) && !Blocked(cat, cs, i) && forall j :: i < j ==> !Deciding(cat, cs, dead, j)
  {
    hide Chosen, Counts, Blocked, Compare;
    ChosenCounts(cat, cs, dead, i);
    if Chosen(cat, cs, dead, i) {
      forall j | 0 <= j < |cat.vs| && Counts(cat, cs, dead, j) ensures Compare(cat.vs[j], cat.vs[i]) <= 0 {
        SortedCompare(cat.vs, j, i);
      }
    } else if Deciding(cat, cs, dead, i) && forall j :: i < j ==> !Deciding(cat, cs, dead, j) {
      forall j | i < j ensures !Counts(cat, cs, dead, j) {
        if Counts(cat, cs, dead, j) { DecidingUp(cat, cs, dead, i, j); }
      }
    }
  }

  lemma PickMoves(cat: Catalogue, cat': Catalogue, cs: seq<string>, dead: seq<string>, v: Ver)
    requires Rearranged(cat, cat') && TiesAgree(cat, cs, dead) && Picks(cat, cs, dead, v)
    ensures Picks(cat', cs, dead, v)
  {
    hide Deciding, Chosen, Blocked, CompareLe;
    var i :| 0 <= i < |cat.vs| && cat.vs[i] == v && Chosen(cat, cs, dead, i);
    ChosenDecides(cat, cs, dead, i);
    var i' := DecidingMoves(cat, cat', cs, dead, i);
    InRange(cat', cs, dead, i');
    forall j' | i' < j' ensures !Deciding(cat', cs, dead, j') {
      if Deciding(cat', cs, dead, j') {
        InRange(cat', cs, dead, j');
        var j := DecidingMoves(cat', cat, cs, dead, j');
      }
    }
    ChosenDecides(cat', cs, dead, i');
  }

  lemma InRange(cat: Catalogue, cs: seq<string>, dead: seq<string>, i: int)
    requires Deciding(cat, cs, dead, i)
    ensures 0 <= i < |cat.vs|
  {
    hide Counts, Compare;
  }

  lemma TiesAgreeMoves(cat: Catalogue, cat': Catalogue, cs: seq<string>, dead: seq<string>)
    requires Rearranged(cat, cat') && TiesAgree(cat, cs, dead)
    ensures TiesAgree(cat', cs, dead)
  {
    hide Deciding, Blocked, CompareLe;
    forall i', j' | Deciding(cat', cs, dead, i') && Deciding(cat', cs, dead, j') && i' != j'
      ensures Blocked(cat', cs, i') && Blocked(cat', cs, j')
    {
      InRange(cat', cs, dead, i');
      InRange(cat', cs, dead, j');
      var i := DecidingMoves(cat', cat, cs, dead, i');
      var j := DecidingMoves(cat', cat, cs, dead, j');
      assert i != j;
    }
  }

  /** Put last among its ties, a deciding candidate alone decides. */
  lemma LastDecides(cat: Catalogue, cs: seq<string>, dead: seq<string>, i: int) returns (cat': Catalogue, i': int)
    requires Sorted(cat.vs, CompareLe) && Distinct(cat.vs) && Deciding(cat, cs, dead, i)
    ensures Rearranged(cat, cat') && Sorted(cat'.vs, CompareLe)
    ensures Deciding(cat', cs, dead, i') && 0 <= i' < |cat'.vs| && cat'.vs[i'] == cat.vs[i]
    ensures forall j :: i' < j ==> !Deciding(cat', cs, dead, j)
    ensures Blocked(cat, cs, i) <==> Blocked(cat', cs, i')
  {
    hide Counts, Blocked, Compare, CompareLe;
    var vs', k := LastOfTies(cat.vs, cat.vs[i]);
    cat' := cat.(vs := vs');
    i' := DecidingMoves(cat, cat', cs, dead, i);
    assert i' == k;
    forall j | i' < j ensures !Deciding(cat', cs, dead, j) {
      if Deciding(cat', cs, dead, j) { ComparePreorder(cat'.vs[i'], cat'.vs[j], cat'.vs[i']); }
    }
  }

  /** One pick for every order of the ties exactly when the newest candidates
      that count are one, or all refused. */
  lemma PickOrderFree(cat: Catalogue, cs: seq<string>, dead: seq<string>)
    requires Sorted(cat.vs, CompareLe) && Distinct(cat.vs)
    ensures (forall cat' :: Rearranged(cat, cat') ==> SamePick(cat, cat', cs, dead)) <==> TiesAgree(cat, cs, dead)
  {
    hide *;
    if TiesAgree(cat, cs, dead) {
      forall cat' | Rearranged(cat, cat') ensures SamePick(cat, cat', cs, dead) {
        AgreedPick(cat, cat', cs, dead);
      }
    } else {
      var i, j := Disagreeing(cat, cs, dead);
      var first, k := LastDecides(cat, cs, dead, i);
      var second, l := LastDecides(cat, cs, dead, j);
      PickedLast(first, cs, dead, k);
      NotPickedLast(second, cs, dead, l, cat.vs[i]);
      PicksAlike(cat, first, second, cs, dead, cat.vs[i]);
    }
  }

  lemma AgreedPick(cat: Catalogue, cat': Catalogue, cs: seq<string>, dead: seq<string>)
    requires TiesAgree(cat, cs, dead) && Rearranged(cat, cat')
    ensures SamePick(cat, cat', cs, dead)
  {
    hide TiesAgree, Picks, Rearranged;
    RearrangedBack(cat, cat');
    TiesAgreeMoves(cat, cat', cs, dead);
    forall v ensures Picks(cat, cs, dead, v) <==> Picks(cat', cs, dead, v) {
      if Picks(cat, cs, dead, v) { PickMoves(cat, cat', cs, dead, v); }
      if Picks(cat', cs, dead, v) { PickMoves(cat', cat, cs, dead, v); }
    }
  }

  lemma Disagreeing(cat: Catalogue, cs: seq<string>, dead: seq<string>) returns (i: int, j: int)
    requires !TiesAgree(cat, cs, dead) && Distinct(cat.vs)
    ensures Deciding(cat, cs, dead, i) && Deciding(cat, cs, dead, j) && !Blocked(cat, cs, i)
    ensures 0 <= i < |cat.vs| && 0 <= j < |cat.vs| && cat.vs[i] != cat.vs[j]
  {
    hide Deciding, Blocked;
    i, j :| Deciding(cat, cs, dead, i) && Deciding(cat, cs, dead, j) && i != j
            && !(Blocked(cat, cs, i) && Blocked(cat, cs, j));
    if Blocked(cat, cs, i) { i, j := j, i; }
    InRange(cat, cs, dead, i);
    InRange(cat, cs, dead, j);
  }

  lemma PickedLast(cat: Catalogue, cs: seq<string>, dead: seq<string>, i: int)
    requires Sorted(cat.vs, CompareLe) && Deciding(cat, cs, dead, i) && !Blocked(cat, cs, i)
    requires forall j :: i < j ==> !Deciding(cat, cs, dead, j)
    ensures 0 <= i < |cat.vs| && Picks(cat, cs, dead, cat.vs[i])
  {
    hide Deciding, Blocked, Chosen, CompareLe;
    InRange(cat, cs, dead, i);
    ChosenDecides(cat, cs, dead, i);
  }

  lemma NotPickedLast(cat: Catalogue, cs: seq<string>, dead: seq<string>, j: int, v: Ver)
    requires Sorted(cat.vs, CompareLe) && Deciding(cat, cs, dead, j) && 0 <= j < |cat.vs| && cat.vs[j] != v
    requires forall k :: j < k ==> !Deciding(cat, cs, dead, k)
    ensures !Picks(cat, cs, dead, v)
  {
    hide Deciding, Blocked, Chosen, CompareLe;
    forall m | 0 <= m < |cat.vs| && cat.vs[m] == v ensures !Chosen(cat, cs, dead, m) {
      ChosenDecides(cat, cs, dead, m);
    }
  }

  lemma PicksAlike(cat: Catalogue, first: Catalogue, second: Catalogue, cs: seq<string>, dead: seq<string>, v: Ver)
    requires Picks(first, cs, dead, v) && !Picks(second, cs, dead, v)
    ensures !SamePick(cat, first, cs, dead) || !SamePick(cat, second, cs, dead)
  {
    hide Picks;
  }

  // ----- the refusal as well ----------------------------------------------------------

  /** The request is refused over candidate `v`, published in several builds. */
  ghost predicate Refuses(cat: Catalogue, cs: seq<string>, dead: seq<string>, v: Ver) {
    exists i :: 0 <= i < |cat.vs| && cat.vs[i] == v && Blocked(cat, cs, i)
      && forall j :: i < j ==> !Ends(cat, cs, dead, j)
  }

  /** The same pick, or a refusal over the same version, or neither. */
  ghost predicate SameAnswer(cat: Catalogue, cat': Catalogue, cs: seq<string>, dead: seq<string>) {
    forall v ::
      && (Picks(cat, cs, dead, v) <==> Picks(cat', cs, dead, v))
      && (Refuses(cat, cs, dead, v) <==> Refuses(cat', cs, dead, v))
  }

  ghost predicate LastDeciding(cat: Catalogue, cs: seq<string>, dead: seq<string>, i: int) {
    Deciding(cat, cs, dead, i) && forall j :: i < j ==> !Deciding(cat, cs, dead, j)
  }

  ghost predicate OneDeciding(cat: Catalogue, cs: seq<string>, dead: seq<string>) {
    forall i, j :: Deciding(cat, cs, dead, i) && Deciding(cat, cs, dead, j) ==> i == j
  }

  /** A refusal is over the last deciding candidate. */
  lemma RefusedDecides(cat: Catalogue, cs: seq<string>, dead: seq<string>, i: int)
    requires Sorted(cat.vs, CompareLe) && Blocked(cat, cs, i)
    ensures (forall j :: i < j ==> !Ends(cat, cs, dead, j)) <==> LastDeciding(cat, cs, dead, i)
  {
    hide Blocked, Usable, Dead, Compare, CompareLe;
    assert Ends(cat, cs, dead, i) && Counts(cat, cs, dead, i);
    CountsInRange(cat, cs, dead, i);
    EndsCount(cat, cs, dead, i);
    if forall j :: i < j ==> !Ends(cat, cs, dead, j) {
      forall j | 0 <= j < |cat.vs| && Counts(cat, cs, dead, j) ensures Compare(cat.vs[j], cat.vs[i]) <= 0 {
        SortedCompare(cat.vs, j, i);
      }
    } else if LastDeciding(cat, cs, dead, i) {
      forall j | i < j ensures !Ends(cat, cs, dead, j) {
        if Ends(cat, cs, dead, j) { DecidingUp(cat, cs, dead, i, j); }
      }
    }
  }

  lemma EndsCount(cat: Catalogue, cs: seq<string>, dead: seq<string>, i: int)
    requires Ends(cat, cs, dead, i)
    ensures forall j :: Counts(cat, cs, dead, j) <==> Ends(cat, cs, dead, j)
  {
    hide Ends, Usable;
  }

  lemma LastAnswers(cat: Catalogue, cs: seq<string>, dead: seq<string>, i: int)
    requires Sorted(cat.vs, CompareLe) && LastDeciding(cat, cs, dead, i)
    ensures 0 <= i < |cat.vs|
    ensures if Blocked(cat, cs, i) then Refuses(cat, cs, dead, cat.vs[i]) else Picks(cat, cs, dead, cat.vs[i])
  {
    hide Deciding, Blocked, Chosen, Ends, CompareLe;
    InRange(cat, cs, dead, i);
    if Blocked(cat, cs, i) { RefusedDecides(cat, cs, dead, i); } else { ChosenDecides(cat, cs, dead, i); }
  }

  lemma AnswersLast(cat: Catalogue, cs: seq<string>, dead: seq<string>, v: Ver, refused: bool) returns (i: int)
    requires Sorted(cat.vs, CompareLe) && if refused then Refuses(cat, cs, dead, v) else Picks(cat, cs, dead, v)
    ensures 0 <= i < |cat.vs| && cat.vs[i] == v && LastDeciding(cat, cs, dead, i) && (refused <==> Blocked(cat, cs, i))
  {
    hide Deciding, Blocked, Chosen, Ends, CompareLe;
    if refused {
      i :| 0 <= i < |cat.vs| && cat.vs[i] == v && Blocked(cat, cs, i) && forall j :: i < j ==> !Ends(cat, cs, dead, j);
      RefusedDecides(cat, cs, dead, i);
    } else {
      i :| 0 <= i < |cat.vs| && cat.vs[i] == v && Chosen(cat, cs, dead, i);
      ChosenDecides(cat, cs, dead, i);
    }
  }

  lemma AnswerMoves(cat: Catalogue, cat': Catalogue, cs: seq<string>, dead: seq<string>, v: Ver, refused: bool)
    requires Rearranged(cat, cat') && OneDeciding(cat, cs, dead)
    requires if refused then Refuses(cat, cs, dead, v) else Picks(cat, cs, dead, v)
    ensures if refused then Refuses(cat', cs, dead, v) else Picks(cat', cs, dead, v)
  {
    hide Deciding, Blocked, Picks, Refuses, CompareLe;
    var i := AnswersLast(cat, cs, dead, v, refused);
    var i' := DecidingMoves(cat, cat', cs, dead, i);
    InRange(cat', cs, dead, i');
    forall j' | i' < j' ensures !Deciding(cat', cs, dead, j') {
      if Deciding(cat', cs, dead, j') {
        InRange(cat', cs, dead, j');
        var j := DecidingMoves(cat', cat, cs, dead, j');
      }
    }
    LastAnswers(cat', cs, dead, i');
  }

  lemma OneDecidingMoves(cat: Catalogue, cat': Catalogue, cs: seq<string>, dead: seq<string>)
    requires Rearranged(cat, cat') && OneDeciding(cat, cs, dead)
    ensures OneDeciding(cat', cs, dead)
  {
    hide Deciding, Blocked, CompareLe;
    forall i', j' | Deciding(cat', cs, dead, i') && Deciding(cat', cs, dead, j') ensures i' == j' {
      InRange(cat', cs, dead, i');
      InRange(cat', cs, dead, j');
      var i := DecidingMoves(cat', cat, cs, dead, i');
      var j := DecidingMoves(cat', cat, cs, dead, j');
      assert cat'.vs[i'] == cat'.vs[j'];
    }
  }

  /** One answer for every order of the ties, the version a refusal names with it,
      exactly when a single candidate decides. */
  lemma AnswerOrderFree(cat: Catalogue, cs: seq<string>, dead: seq<string>)
    requires Sorted(cat.vs, CompareLe) && Distinct(cat.vs)
    ensures (forall cat' :: Rearranged(cat, cat') ==> SameAnswer(cat, cat', cs, dead)) <==> OneDeciding(cat, cs, dead)
  {
    hide *;
    if OneDeciding(cat, cs, dead) {
      forall cat' | Rearranged(cat, cat') ensures SameAnswer(cat, cat', cs, dead) { OneAnswer(cat, cat', cs, dead); }
    } else {
      var i, j := TwoDeciding(cat, cs, dead);
      var first, k := LastDecides(cat, cs, dead, i);
      var second, l := LastDecides(cat, cs, dead, j);
      LastIs(first, cs, dead, k);
      LastIs(second, cs, dead, l);
      LastAnswers(first, cs, dead, k);
      AnswersApart(cat, first, second, cs, dead, k, l);
    }
  }

  lemma LastIs(cat: Catalogue, cs: seq<string>, dead: seq<string>, i: int)
    ensures LastDeciding(cat, cs, dead, i)
      <==> Deciding(cat, cs, dead, i) && forall j :: i < j ==> !Deciding(cat, cs, dead, j)
  {
    hide Deciding;
  }

  lemma OneAnswer(cat: Catalogue, cat': Catalogue, cs: seq<string>, dead: seq<string>)
    requires OneDeciding(cat, cs, dead) && Rearranged(cat, cat')
    ensures SameAnswer(cat, cat', cs, dead)
  {
    hide OneDeciding, Picks, Refuses, Rearranged;
    RearrangedBack(cat, cat');
    OneDecidingMoves(cat, cat', cs, dead);
    forall v ensures Picks(cat, cs, dead, v) <==> Picks(cat', cs, dead, v) {
      if Picks(cat, cs, dead, v) { AnswerMoves(cat, cat', cs, dead, v, false); }
      if Picks(cat', cs, dead, v) { AnswerMoves(cat', cat, cs, dead, v, false); }
    }
    forall v ensures Refuses(cat, cs, dead, v) <==> Refuses(cat', cs, dead, v) {
      if Refuses(cat, cs, dead, v) { AnswerMoves(cat, cat', cs, dead, v, true); }
      if Refuses(cat', cs, dead, v) { AnswerMoves(cat', cat, cs, dead, v, true); }
    }
  }

  lemma TwoDeciding(cat: Catalogue, cs: seq<string>, dead: seq<string>) returns (i: int, j: int)
    requires !OneDeciding(cat, cs, dead) && Distinct(cat.vs)
    ensures Deciding(cat, cs, dead, i) && Deciding(cat, cs, dead, j)
    ensures 0 <= i < |cat.vs| && 0 <= j < |cat.vs| && cat.vs[i] != cat.vs[j]
  {
    hide Deciding;
    i, j :| Deciding(cat, cs, dead, i) && Deciding(cat, cs, dead, j) && i != j;
    InRange(cat, cs, dead, i);
    InRange(cat, cs, dead, j);
  }

  lemma AnswersApart(cat: Catalogue, first: Catalogue, second: Catalogue, cs: seq<string>, dead: seq<string>, k: int,
                     l: int)
    requires 0 <= k < |first.vs| && 0 <= l < |second.vs| && first.vs[k] != second.vs[l]
    requires Picks(first, cs, dead, first.vs[k]) || Refuses(first, cs, dead, first.vs[k])
    requires Sorted(second.vs, CompareLe) && LastDeciding(second, cs, dead, l)
    ensures !SameAnswer(cat, first, cs, dead) || !SameAnswer(cat, second, cs, dead)
  {
    hide Picks, Refuses, Deciding, Blocked, CompareLe;
    var v := first.vs[k];
    if Picks(second, cs, dead, v) {
      var m := AnswersLast(second, cs, dead, v, false);
    } else if Refuses(second, cs, dead, v) {
      var m := AnswersLast(second, cs, dead, v, true);
    }
  }

  /** Where versions that tie are builds of one spelling, no request's pick
      depends on their order. */
  lemma SiblingTiesAgree(cat: Catalogue, cs: seq<string>, dead: seq<string>)
    requires Distinct(cat.vs)
    requires forall i, j :: 0 <= i < |cat.vs| && 0 <= j < |cat.vs| && i != j && Compare(cat.vs[i], cat.vs[j]) == 0 ==>
      IsSibling(cat.vs[j], cat.vs[i])
    ensures TiesAgree(cat, cs, dead)
  {
    hide SatisfiesAll, Published, Dead, Compare, IsSibling;
    forall i, j | Deciding(cat, cs, dead, i) && Deciding(cat, cs, dead, j) && i != j
      ensures Blocked(cat, cs, i) && Blocked(cat, cs, j)
    {
      ComparePreorder(cat.vs[i], cat.vs[j], cat.vs[i]);
      SiblingSeen(cat.vs, j, cat.vs[i]);
      SiblingSeen(cat.vs, i, cat.vs[j]);
    }
  }

  lemma SiblingSeen(vs: seq<Ver>, k: nat, v: Ver)
    requires k < |vs|
    ensures IsSibling(vs[k], v) ==> HasSiblings(vs, v)
  {
    hide IsSibling;
  }

  /** Every listing of one set of tags leads to one pick exactly when that is so
      for one selection of it, if at most one tag of the wanted flavour stands
      for a version. */
  lemma PickFromTagSet(tags: seq<string>, want: string, cat: Catalogue, cs: seq<string>, dead: seq<string>)
    requires OneFlavoured(tags, want) && Selected(tags, want, cat.vs)
    ensures (forall tags', vs' :: SameTags(tags, tags') && Selected(tags', want, vs') ==>
               SamePick(cat, cat.(vs := vs'), cs, dead))
      <==> TiesAgree(cat, cs, dead)
  {
    hide *;
    SelectedSorted(tags, want, cat.vs);
    SameTagsMeans(tags, tags);
    PickOrderFree(cat, cs, dead);
    if TiesAgree(cat, cs, dead) {
      forall tags', vs' | SameTags(tags, tags') && Selected(tags', want, vs')
        ensures SamePick(cat, cat.(vs := vs'), cs, dead)
      {
        SameTagsMeans(tags, tags');
        SelectionSame(tags, tags', want, cat.vs, vs');
        SelectedSorted(tags', want, vs');
        RearrangedMeans(cat, cat.(vs := vs'));
      }
    } else if forall tags', vs' :: SameTags(tags, tags') && Selected(tags', want, vs') ==>
              SamePick(cat, cat.(vs := vs'), cs, dead)
    {
      forall cat' | Rearranged(cat, cat') ensures SamePick(cat, cat', cs, dead) {
        RearrangedSelected(tags, want, cat, cat');
        assert cat' == cat.(vs := cat'.vs);
      }
    }
  }

  lemma RearrangedMeans(cat: Catalogue, cat': Catalogue)
    requires cat'.fromRegistry == cat.fromRegistry && cat'.published == cat.published
    requires Sorted(cat.vs, CompareLe) && Distinct(cat.vs) && Sorted(cat'.vs, CompareLe) && Distinct(cat'.vs)
    requires forall v :: v in cat.vs <==> v in cat'.vs
    ensures Rearranged(cat, cat')
  {
    hide CompareLe;
  }

  lemma RearrangedSelected(tags: seq<string>, want: string, cat: Catalogue, cat': Catalogue)
    requires Rearranged(cat, cat') && Selected(tags, want, cat.vs)
    ensures Selected(tags, want, cat'.vs) && cat' == cat.(vs := cat'.vs)
  {
    hide CompareLe, Selected;
    SelectedRearranged(tags, want, cat.vs, cat'.vs);
  }

  /** So it is where versions that tie are builds of one spelling. */
  lemma PickFromSiblings(tags: seq<string>, want: string, cat: Catalogue, cs: seq<string>, dead: seq<string>,
                         tags': seq<string>, vs': seq<Ver>)
    requires OneFlavoured(tags, want) && Selected(tags, want, cat.vs)
    requires forall i, j :: 0 <= i < |cat.vs| && 0 <= j < |cat.vs| && i != j && Compare(cat.vs[i], cat.vs[j]) == 0 ==>
      IsSibling(cat.vs[j], cat.vs[i])
    requires SameTags(tags, tags') && Selected(tags', want, vs')
    ensures SamePick(cat, cat.(vs := vs'), cs, dead)
  {
    hide *;
    SelectedSorted(tags, want, cat.vs);
    SiblingTiesAgree(cat, cs, dead);
    PickFromTagSet(tags, want, cat, cs, dead);
  }

  // ----- two listings that show it -----------------------------------------------------

  /** Two builds spelled "1.0" and "1.0.0" tie and are not siblings. One listing
      of their tags leads to two selections, and to two picks. */
  lemma SpellingsFlip(x: string, y: string, published: string -> bool)
    requires IsVariantHash(x) && IsVariantHash(y) && x != y
    requires published("1.0-h" + x) && published("1.0.0-h" + y)
    ensures
      var tags := ["1.0-h" + x, "1.0.0-h" + y];
      var v, w := Candidate(tags[0]), Candidate(tags[1]);
      && v != w && Selected(tags, "", [v, w]) && Selected(tags, "", [w, v])
      && Picks(Catalogue([v, w], true, published), [], [], w) && Picks(Catalogue([w, v], true, published), [], [], v)
  {
    hide *;
    var tags := ["1.0-h" + x, "1.0.0-h" + y];
    var v, w := Candidate(tags[0]), Candidate(tags[1]);
    SmallTags();
    assert "1.0-h" == "1.0" + "-h" && "1.0.0-h" == "1.0.0" + "-h";
    HashedTag([1, 0], "1.0", x, tags[0]);
    HashedTag([1, 0, 0], "1.0.0", y, tags[1]);
    SpellingsTie(v, w);
    KeyIdentifies(v, w);
    TwoSelected(tags, v, w);
    TwoSelected(tags, w, v);
    NotSpelledAlike(v, w);
    NotSpelledAlike(w, v);
    assert |tags[0]| > 0 && |tags[1]| > 0;
    LastPicked(v, w, published);
    LastPicked(w, v, published);
  }

  /** A small tag with a hash: eligible, and what it reads as. */
  lemma HashedTag(nums: seq<nat>, d: string, hash: string, t: string)
    requires nums != [] && d == Dotted(nums) && |d| <= 40 && IsVariantHash(hash) && t == d + "-h" + hash
    ensures Eligible(t, "") && Candidate(t) == Ver(d, nums, t, 0, hash)
  {
    assert hash != "";
    hide *;
    BuildTagIs(nums, hash);
    Separator();
    assert t == BuildTag(nums, hash);
    BuildTagReads(nums, hash);
    BuildTagEligible(nums, hash, "");
  }

  lemma Separator()
    ensures VARIANT_SEP == "-h"
  {
  }

  lemma PlainTag(nums: seq<nat>, d: string)
    requires nums != [] && d == Dotted(nums) && |d| <= 40
    ensures Eligible(d, "") && Candidate(d) == Ver(d, nums, "", 0, "")
  {
    hide *;
    BuildTagIs(nums, "");
    assert d == BuildTag(nums, "");
    BuildTagReads(nums, "");
    BuildTagEligible(nums, "", "");
  }

  lemma SpellingsTie(v: Ver, w: Ver)
    requires v.nums == [1, 0] && w.nums == [1, 0, 0] && v.rebuild == 0 == w.rebuild
    ensures Compare(v, w) == 0 == Compare(w, v)
  {
    CompareNumsZero([1, 0], [1, 0, 0]);
    CompareNumsFlip([1, 0, 0], [1, 0]);
  }

  lemma TwoSelected(tags: seq<string>, v: Ver, w: Ver)
    requires |tags| == 2 && Eligible(tags[0], "") && Eligible(tags[1], "") && Compare(v, w) <= 0
    requires {v, w} == {Candidate(tags[0]), Candidate(tags[1])} && NumericKey(v) != NumericKey(w)
    ensures Selected(tags, "", [v, w])
  {
    hide NumericKey, Eligible, Candidate, Compare;
    assert tags[0] in tags && tags[1] in tags;
    assert Candidate(tags[0]) in {v, w} && Candidate(tags[1]) in {v, w};
    assert v in {Candidate(tags[0]), Candidate(tags[1])} && w in {Candidate(tags[0]), Candidate(tags[1])};
    SelectedAll(tags, "", [v, w]);
  }

  lemma SpelledAlike(v: Ver, w: Ver)
    requires v.raw == w.raw && v.rebuild == w.rebuild && v.variant != w.variant
    ensures IsSibling(v, w) && IsSibling(w, v)
  {
  }

  lemma NotSpelledAlike(v: Ver, w: Ver)
    requires v.raw != w.raw
    ensures !IsSibling(v, w)
  {
  }

  lemma LastPicked(v: Ver, w: Ver, published: string -> bool)
    requires !IsSibling(v, w) && w.tag != "" && published(w.tag)
    ensures Picks(Catalogue([v, w], true, published), [], [], w)
  {
    NothingDead(w);
    assert Denotes(w, w.PullTag());
    hide Dead, Denotes;
    var cat := Catalogue([v, w], true, published);
    assert !IsSibling(w, w);
    assert SatisfiesAll(w, []);
    assert Published(cat, w);
    assert Chosen(cat, [], [], 1) && cat.vs[1] == w;
  }

  /** A list of dead lines can turn an answer into a refusal: with two builds of
      version 1 and one of version 2, calling line 2 dead leaves nothing. */
  lemma ListFilters(x: string, y: string, published: string -> bool)
    requires IsVariantHash(x) && IsVariantHash(y) && x != y && published("2")
    ensures
      var tags := ["1-h" + x, "1-h" + y, "2"];
      var vs := [Candidate(tags[0]), Candidate(tags[1]), Candidate(tags[2])];
      var cat := Catalogue(vs, true, published);
      Selected(tags, "", vs) && Resolves(cat, [], []) && !Resolves(cat, [], ["2"])
  {
    hide *;
    var tags := ["1-h" + x, "1-h" + y, "2"];
    var u, v, w := Candidate(tags[0]), Candidate(tags[1]), Candidate(tags[2]);
    SmallTags();
    assert "1-h" == "1" + "-h";
    HashedTag([1], "1", x, tags[0]);
    HashedTag([1], "1", y, tags[1]);
    PlainTag([2], "2");
    OneBelowTwo(u, v, w);
    ThreeSelected(tags, u, v, w);
    SpelledAlike(u, v);
    BlockedBelow(u, v, w, published);
  }

  lemma OneBelowTwo(u: Ver, v: Ver, w: Ver)
    requires u.nums == [1] == v.nums && w.nums == [2] && u.rebuild == 0 == v.rebuild && w.rebuild == 0
    ensures Compare(u, v) == 0 && Compare(v, w) < 0 && Compare(u, w) < 0
    ensures u.variant != v.variant ==> NumericKey(u) != NumericKey(v)
    ensures NumericKey(u) != NumericKey(w) && NumericKey(v) != NumericKey(w)
  {
    assert CompareNums([1], [2]) < 0;
    CompareNumsSelf([1]);
    hide NumericKey, CompareNums;
    KeyIdentifies(u, v);
    KeyIdentifies(u, w);
    KeyIdentifies(v, w);
  }

  lemma ThreeSelected(tags: seq<string>, u: Ver, v: Ver, w: Ver)
    requires |tags| == 3 && forall t :: t in tags ==> Eligible(t, "")
    requires u == Candidate(tags[0]) && v == Candidate(tags[1]) && w == Candidate(tags[2])
    requires Compare(u, v) <= 0 && Compare(v, w) <= 0 && Compare(u, w) <= 0
    requires NumericKey(u) != NumericKey(v) && NumericKey(u) != NumericKey(w) && NumericKey(v) != NumericKey(w)
    ensures Selected(tags, "", [u, v, w])
  {
    hide NumericKey, Eligible, Candidate, Compare;
    assert tags[0] in tags && tags[1] in tags && tags[2] in tags;
    SelectedAll(tags, "", [u, v, w]);
  }

  lemma BlockedBelow(u: Ver, v: Ver, w: Ver, published: string -> bool)
    requires IsSibling(u, v) && IsSibling(v, u) && w.raw == "2" && w.tag == "" && u.raw == "1" == v.raw
    requires published("2")
    ensures
      var cat := Catalogue([u, v, w], true, published);
      Resolves(cat, [], []) && !Resolves(cat, [], ["2"])
  {
    var vs := [u, v, w];
    var cat := Catalogue(vs, true, published);
    forall z ensures SatisfiesAll(z, []) && !Dead(z, []) { NothingDead(z); }
    assert OnLine("2", "2") && Dead(w, ["2"]);
    assert Denotes(w, "2") && Published(cat, w);
    hide SatisfiesAll, Published, Dead;
    assert !IsSibling(u, w) && !IsSibling(v, w) && !IsSibling(w, w);
    assert Chosen(cat, [], [], 2);
    assert IsSibling(vs[0], vs[1]) && IsSibling(vs[1], vs[0]);
    assert Blocked(cat, [], 0) && Blocked(cat, [], 1);
    assert Ends(cat, [], ["2"], 0) && Ends(cat, [], ["2"], 1);
    forall i ensures !Chosen(cat, [], ["2"], i) {
      assert Usable(cat, [], i) ==> i == 0 || i == 1 || i == 2;
    }
  }
}
