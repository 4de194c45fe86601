/** Several publishers of one version at work at once: every call one of them
    makes on the registry is one step, and the steps interleave in any way
    (oci.go). Reads and listings succeed; any other call may fail and end its
    publisher. */
module PublisherRuns {
  import opened Options
  import opened Text
  import opened IndexProtocol

  /** One machine's part: the manifest it publishes and its attestations. */
  datatype Job = Job(os: string, arch: string, digest: string, refs: seq<string>)

  datatype World = World(ver: string, jobs: seq<Job>)

  /** Where a publisher stands, with what it holds in its hands. */
  datatype Stage =
    | Packing
    | Attaching(next: nat)
    | Reading(attempt: nat)
    | Listing(attempt: nat, read: seq<Descriptor>)
    | Fetching(attempt: nat, read: seq<Descriptor>, order: seq<string>, next: nat, seen: map<string, Descriptor>)
    | Writing(attempt: nat, read: seq<Descriptor>, seen: map<string, Descriptor>, order: seq<string>)
    | Checking(attempt: nat)
    | Confirming(attempt: nat)
    | Finished
    | GaveUp

  datatype State = State(
    index: Option<seq<Descriptor>>,
    tags: map<string, Descriptor>,
    stored: set<string>,
    attached: set<(string, string)>,
    stages: seq<Stage>)

  /** Publisher `p` makes its next call, or fails for good. A listing arrives in
      some order; it names every tag there is when it begins, and may name tags
      placed while it goes on. */
  datatype Action = Go(p: nat, order: seq<string>) | Crash(p: nat)

  function Own(j: Job): Descriptor { Descriptor(j.digest, Some(Platform(j.os, OciArch(j.arch)))) }

  function Bare(j: Job): Descriptor { Descriptor(j.digest, None) }

  function TagOf(w: World, j: Job): string { PlatformTag(w.ver, j.os, j.arch) }

  function Retry(attempt: nat): Stage { if attempt + 1 < ATTEMPTS then Reading(attempt + 1) else GaveUp }

  ghost predicate Enabled(w: World, s: State, a: Action) {
    && |s.stages| == |w.jobs| && a.p < |w.jobs|
    && !s.stages[a.p].Finished? && !s.stages[a.p].GaveUp?
    && (a.Go? && s.stages[a.p].Listing? ==> IsListing(a.order, s.tags))
  }

  /** The stage after a check of the index. */
  function Checked(s: State, j: Job, attempt: nat, next: Stage): Stage {
    if HasManifest(Fetch(s.index), Own(j)) then next else Retry(attempt)
  }

  /** The index a publisher writes. */
  function Composed(w: World, j: Job, h: Stage): seq<Descriptor>
    requires h.Writing?
  {
    Compose(h.read, Listed(w.ver, h.seen, h.order), Own(j))
  }

  /** What a step does to the registry. */
  function Effect(w: World, s: State, a: Action): State
    requires a.p < |s.stages| == |w.jobs|
  {
    var j := w.jobs[a.p];
    var h := s.stages[a.p];
    if a.Crash? then s
    else if h.Packing? then s.(stored := s.stored + {j.digest})
    else if h.Attaching? && h.next < |j.refs| then s.(attached := s.attached + {(j.digest, j.refs[h.next])})
    else if h.Attaching? then s.(tags := s.tags[TagOf(w, j) := Bare(j)])
    else if h.Writing? then s.(index := Some(Composed(w, j, h)))
    else s
  }

  /** One tag of a listing read, as it stands now. */
  function Fetched(seen: map<string, Descriptor>, tags: map<string, Descriptor>, t: string): map<string, Descriptor> {
    if t in tags then seen[t := tags[t]] else seen
  }

  /** Where it leaves its publisher. */
  function NextStage(w: World, s: State, a: Action): Stage
    requires a.p < |s.stages| == |w.jobs|
  {
    var j := w.jobs[a.p];
    if a.Crash? then GaveUp
    else
      match s.stages[a.p]
      case Packing => Attaching(0)
      case Attaching(next) => if next < |j.refs| then Attaching(next + 1) else Reading(0)
      case Reading(k) => Listing(k, Fetch(s.index))
      case Listing(k, read) => Fetching(k, read, a.order, 0, map[])
      case Fetching(k, read, order, next, seen) =>
        if next < |order| then Fetching(k, read, order, next + 1, Fetched(seen, s.tags, order[next]))
        else Writing(k, read, seen, order)
      case Writing(k, _, _, _) => Checking(k)
      case Checking(k) => Checked(s, j, k, Confirming(k))
      case Confirming(k) => Checked(s, j, k, Finished)
      case Finished => Finished
      case GaveUp => GaveUp
  }

  function Act(w: World, s: State, a: Action): State
    requires a.p < |s.stages| == |w.jobs|
  {
    Effect(w, s, a).(stages := s.stages[a.p := NextStage(w, s, a)])
  }

  /** A run: any interleaving of enabled steps. */
  ghost predicate IsRun(w: World, states: seq<State>, actions: seq<Action>) {
    && |states| == |actions| + 1
    && forall k :: 0 <= k < |actions| ==>
         Enabled(w, states[k], actions[k]) && states[k + 1] == Act(w, states[k], actions[k])
  }

  ghost predicate Writes(s: State, a: Action) {
    a.Go? && a.p < |s.stages| && s.stages[a.p].Writing?
  }

  // ----- assumptions ----------------------------------------------------------

  /** One publisher for each platform, and systems named without a dash. */
  ghost predicate OneEach(w: World) {
    && (forall p :: 0 <= p < |w.jobs| ==> '-' !in w.jobs[p].os)
    && (forall p, q :: 0 <= p < q < |w.jobs| ==> Own(w.jobs[p]).platform != Own(w.jobs[q]).platform)
  }

  /** No tag but its own reads as the platform of `j`. */
  ghost predicate Alone(w: World, j: Job, tags: map<string, Descriptor>) {
    forall t, d :: Reads(w.ver, tags, t, d) && d.platform == Own(j).platform ==> t == TagOf(w, j)
  }

  ghost predicate Placed(w: World, j: Job, tags: map<string, Descriptor>) {
    TagOf(w, j) in tags && tags[TagOf(w, j)] == Bare(j)
  }

  /** What a publisher has read of a listing is among what was listed. */
  ghost predicate SoundStage(w: World, j: Job, h: Stage) {
    && (h.Fetching? ==> Alone(w, j, h.seen) && h.next <= |h.order| && IsListing(h.order, h.seen))
    && (h.Writing? ==> Alone(w, j, h.seen) && IsListing(h.order, h.seen))
  }

  /** What holds about a platform from the start: no other tag claims it. */
  ghost predicate Sound(w: World, s: State, j: Job) {
    && |s.stages| == |w.jobs|
    && Alone(w, j, s.tags)
    && forall p :: 0 <= p < |s.stages| ==> SoundStage(w, j, s.stages[p])
  }

  /** A listing in a publisher's hands has the tag of `j`, read or still to read. */
  ghost predicate SettledStage(w: World, j: Job, h: Stage) {
    && (h.Fetching? ==> Placed(w, j, h.seen) || (h.next <= |h.order| && TagOf(w, j) in h.order[h.next..]))
    && (h.Writing? ==> Placed(w, j, h.seen))
  }

  /** The tag of `j` is placed and no publisher holds an older listing. */
  ghost predicate Settled(w: World, s: State, j: Job) {
    && Placed(w, j, s.tags)
    && forall p :: 0 <= p < |s.stages| ==> SettledStage(w, j, s.stages[p])
  }

  // ----- the platform tags are uncontended --------------------------------------

  lemma OwnTagReads(w: World, j: Job, tags: map<string, Descriptor>)
    requires '-' !in j.os && Placed(w, j, tags)
    ensures Reads(w.ver, tags, TagOf(w, j), Own(j))
  {
    hide ReadTag, PlatformTag;
    TagReadsBack(w.ver, j.os, j.arch, j.digest);
  }

  lemma ReadsIs(w: World, tags: map<string, Descriptor>, t: string, d: Descriptor)
    ensures Reads(w.ver, tags, t, d) <==> t in tags && ReadTag(w.ver, t, tags[t]) == Some(d)
  {
  }

  /** Placing another publisher's tag leaves a platform alone. */
  lemma AloneKept(w: World, p: nat, q: nat, tags: map<string, Descriptor>)
    requires OneEach(w) && p < |w.jobs| && q < |w.jobs| && Alone(w, w.jobs[p], tags)
    ensures Alone(w, w.jobs[p], tags[TagOf(w, w.jobs[q]) := Bare(w.jobs[q])])
  {
    hide ReadTag, PlatformTag, Reads;
    var j, i := w.jobs[p], w.jobs[q];
    var tags' := tags[TagOf(w, i) := Bare(i)];
    OwnTagReads(w, i, tags');
    forall t, d | Reads(w.ver, tags', t, d) && d.platform == Own(j).platform ensures t == TagOf(w, j) {
      ReadsIs(w, tags', t, d);
      ReadsIs(w, tags, t, d);
      ReadsIs(w, tags', t, Own(i));
      if t != TagOf(w, i) { assert Reads(w.ver, tags, t, d); }
    }
  }

  /** A tag once placed is only ever placed again. */
  lemma PlacedKept(w: World, p: nat, q: nat, tags: map<string, Descriptor>)
    requires OneEach(w) && p < |w.jobs| && q < |w.jobs| && Placed(w, w.jobs[p], tags)
    ensures Placed(w, w.jobs[p], tags[TagOf(w, w.jobs[q]) := Bare(w.jobs[q])])
  {
    hide PlatformTag, OciArch;
    var j, i := w.jobs[p], w.jobs[q];
    TagsDistinct(w.ver, j.os, j.arch, i.os, i.arch);
  }

  lemma AloneFetched(w: World, j: Job, seen: map<string, Descriptor>, tags: map<string, Descriptor>, t: string)
    requires Alone(w, j, seen) && Alone(w, j, tags)
    ensures Alone(w, j, Fetched(seen, tags, t))
  {
    hide ReadTag, PlatformTag, Reads;
    var seen' := Fetched(seen, tags, t);
    forall u, d | Reads(w.ver, seen', u, d) && d.platform == Own(j).platform ensures u == TagOf(w, j) {
      ReadsIs(w, seen', u, d);
      ReadsIs(w, seen, u, d);
      ReadsIs(w, tags, u, d);
    }
  }

  lemma AloneNone(w: World, j: Job)
    ensures Alone(w, j, map[])
  {
    hide ReadTag;
  }

  lemma SoundNext(w: World, s: State, a: Action, j: Job)
    requires Enabled(w, s, a) && Sound(w, s, j)
    ensures SoundStage(w, j, NextStage(w, s, a))
  {
    hide Alone, HasManifest, PlatformTag;
    var h := s.stages[a.p];
    assert SoundStage(w, j, h);
    AloneNone(w, j);
    if h.Fetching? && h.next < |h.order| { AloneFetched(w, j, h.seen, s.tags, h.order[h.next]); }
  }

  lemma SoundKept(w: World, s: State, a: Action, p: nat)
    requires OneEach(w) && p < |w.jobs| && Enabled(w, s, a) && Sound(w, s, w.jobs[p])
    ensures Sound(w, Act(w, s, a), w.jobs[p])
  {
    hide Alone, SoundStage, NextStage, IsListing, Compose, Listed, PlatformTag, OneEach;
    AloneKept(w, p, a.p, s.tags);
    SoundNext(w, s, a, w.jobs[p]);
  }

  lemma SettledNext(w: World, s: State, a: Action, j: Job)
    requires Enabled(w, s, a) && Settled(w, s, j)
    ensures SettledStage(w, j, NextStage(w, s, a))
  {
    hide HasManifest, PlatformTag;
    var h := s.stages[a.p];
    assert SettledStage(w, j, h);
    if a.Go? && h.Listing? {
      assert a.order[0..] == a.order;
    }
    if h.Fetching? && h.next < |h.order| {
      assert h.order[h.next..] == [h.order[h.next]] + h.order[h.next + 1..];
    }
  }

  lemma SettledKept(w: World, s: State, a: Action, p: nat)
    requires OneEach(w) && p < |w.jobs| && Enabled(w, s, a) && Settled(w, s, w.jobs[p])
    ensures Settled(w, Act(w, s, a), w.jobs[p])
  {
    hide Placed, SettledStage, NextStage, IsListing, Compose, Listed, PlatformTag, OneEach;
    PlacedKept(w, p, a.p, s.tags);
    SettledNext(w, s, a, w.jobs[p]);
  }

  // ----- every index written --------------------------------------------------------

  /** The index a publisher writes has exactly the platforms of the index it
      read, of the tags it listed, and its own. */
  lemma WriteCovers(w: World, s: State, a: Action, pl: Option<Platform>)
    requires Enabled(w, s, a) && Writes(s, a)
    requires IsListing(s.stages[a.p].order, s.stages[a.p].seen)
    ensures
      var h := s.stages[a.p];
      HasPlatform(Fetch(Act(w, s, a).index), pl)
      <==> HasPlatform(h.read, pl) || Own(w.jobs[a.p]).platform == pl
           || exists t, d :: Reads(w.ver, h.seen, t, d) && d.platform == pl
  {
    hide Compose, Listed, HasPlatform, Reads;
    var h := s.stages[a.p];
    var listed := Listed(w.ver, h.seen, h.order);
    ComposePlatforms(h.read, listed, Own(w.jobs[a.p]), pl);
    PlatformIn(listed, pl);
    forall d ensures d in listed <==> exists t :: Reads(w.ver, h.seen, t, d) {
      ListedMembers(w.ver, h.seen, h.order, d);
    }
  }

  /** Publisher `p` read the index at moment `a` and listed the tags at `b`; of
      those it has read all up to some place, each as it stood in between. */
  ghost predicate Remembers(states: seq<State>, a: nat, b: nat, m: nat, h: Stage, upTo: nat)
    requires a < b < m < |states| && (h.Fetching? || h.Writing?) && upTo <= |h.order|
  {
    && h.read == Fetch(states[a].index) && IsListing(h.order, states[b].tags) && IsListing(h.order, h.seen)
    && (forall t :: t in h.seen ==>
          exists c :: b <= c < m && t in states[c].tags && h.seen[t] == states[c].tags[t])
    && (forall t :: t in h.order[..upTo] && t in states[b].tags ==> t in h.seen)
  }

  lemma {:induction false} TagsStay(w: World, states: seq<State>, actions: seq<Action>, b: nat, m: nat)
    requires IsRun(w, states, actions) && b <= m < |states|
    ensures states[b].tags.Keys <= states[m].tags.Keys
    decreases m - b
  {
    hide NextStage, Composed, Enabled;
    if b == m {
      assert states[b] == states[m];
    } else {
      TagsStay(w, states, actions, b, m - 1);
      EnabledHas(w, states[m - 1], actions[m - 1]);
      assert states[m - 1 + 1] == Act(w, states[m - 1], actions[m - 1]);
    }
  }

  lemma EnabledHas(w: World, s: State, a: Action)
    requires Enabled(w, s, a)
    ensures a.p < |s.stages| == |w.jobs|
  {
  }

  /** What a writer composes from is the index as it stood when it was read,
      and, of all tags that stood later when they were listed, what each said
      at some moment between then and the writing. */
  lemma {:induction false} WritersRemember(w: World, states: seq<State>, actions: seq<Action>, p: nat, m: nat)
    requires IsRun(w, states, actions) && m < |states|
    requires p < |states[0].stages| && states[0].stages[p].Packing? && |states[0].stages| == |w.jobs|
    ensures |states[m].stages| == |w.jobs|
    ensures
      var h := states[m].stages[p];
      && (h.Listing? ==> exists a :: 0 <= a < m && h.read == Fetch(states[a].index))
      && (h.Fetching? ==> h.next <= |h.order| && exists a, b :: 0 <= a < b < m && Remembers(states, a, b, m, h, h.next))
      && (h.Writing? ==> exists a, b :: 0 <= a < b < m && Remembers(states, a, b, m, h, |h.order|))
  {
    hide Effect, HasManifest, IsListing, Remembers, NextStage;
    if m == 0 {
      assert states[m].stages[p].Packing?;
    } else {
      WritersRemember(w, states, actions, p, m - 1);
      assert states[m - 1 + 1] == Act(w, states[m - 1], actions[m - 1]);
      StageAfter(w, states[m - 1], actions[m - 1], p);
      var g, h := states[m - 1].stages[p], states[m].stages[p];
      NextIs(w, states[m - 1], actions[m - 1]);
      if actions[m - 1].p != p || !(actions[m - 1].Go? && (g.Listing? || g.Fetching?)) {
        if h.Fetching? || h.Writing? {
          var upTo := if h.Fetching? then h.next else |h.order|;
          var a, b :| 0 <= a < b < m - 1 && Remembers(states, a, b, m - 1, h, upTo);
          RemembersOn(states, a, b, m, h, upTo);
        }
      } else if g.Listing? {
        var a :| 0 <= a < m - 1 && g.read == Fetch(states[a].index);
        RemembersFirst(states, a, m, h);
      } else {
        var a, b :| 0 <= a < b < m - 1 && Remembers(states, a, b, m - 1, g, g.next);
        TagsStay(w, states, actions, b, m - 1);
        RemembersNext(states, a, b, m, g, h);
      }
    }
  }

  lemma NextIs(w: World, s: State, a: Action)
    requires Enabled(w, s, a)
    ensures
      var g, h := s.stages[a.p], NextStage(w, s, a);
      && (a.Go? && g.Listing? ==> h == Fetching(g.attempt, g.read, a.order, 0, map[]) && IsListing(a.order, s.tags))
      && (a.Go? && g.Fetching? ==>
            h == if g.next < |g.order|
                 then Fetching(g.attempt, g.read, g.order, g.next + 1, Fetched(g.seen, s.tags, g.order[g.next]))
                 else Writing(g.attempt, g.read, g.seen, g.order))
      && (a.Go? && g.Reading? ==> h == Listing(g.attempt, Fetch(s.index)))
      && (!(a.Go? && (g.Listing? || g.Fetching? || g.Reading?)) ==> !h.Listing? && !h.Fetching? && !h.Writing?)
  {
    hide HasManifest, IsListing, Fetched;
  }

  lemma RemembersOn(states: seq<State>, a: nat, b: nat, m: nat, h: Stage, upTo: nat)
    requires a < b < m - 1 && m < |states| && (h.Fetching? || h.Writing?) && upTo <= |h.order|
    requires Remembers(states, a, b, m - 1, h, upTo)
    ensures Remembers(states, a, b, m, h, upTo)
  {
    hide IsListing, Fetch;
    forall t | t in h.seen ensures exists c :: b <= c < m && t in states[c].tags && h.seen[t] == states[c].tags[t] {
      var c :| b <= c < m - 1 && t in states[c].tags && h.seen[t] == states[c].tags[t];
    }
  }

  lemma RemembersFirst(states: seq<State>, a: nat, m: nat, h: Stage)
    requires a < m - 1 && m < |states| && h.Fetching? && h.next == 0 && h.seen == map[]
    requires h.read == Fetch(states[a].index) && IsListing(h.order, states[m - 1].tags)
    ensures Remembers(states, a, m - 1, m, h, 0)
  {
    hide Fetch;
  }

  lemma RemembersNext(states: seq<State>, a: nat, b: nat, m: nat, g: Stage, h: Stage)
    requires a < b < m - 1 && m < |states| && g.Fetching? && g.next <= |g.order|
    requires Remembers(states, a, b, m - 1, g, g.next) && states[b].tags.Keys <= states[m - 1].tags.Keys
    requires h == if g.next < |g.order|
                  then Fetching(g.attempt, g.read, g.order, g.next + 1,
                                 Fetched(g.seen, states[m - 1].tags, g.order[g.next]))
                  else Writing(g.attempt, g.read, g.seen, g.order)
    ensures Remembers(states, a, b, m, h, if h.Fetching? then h.next else |h.order|)
  {
    hide Fetch;
    var upTo := if h.Fetching? then h.next else |h.order|;
    forall t | t in h.seen ensures exists c :: b <= c < m && t in states[c].tags && h.seen[t] == states[c].tags[t] {
      if t in g.seen && h.seen[t] == g.seen[t] {
        var c :| b <= c < m - 1 && t in states[c].tags && g.seen[t] == states[c].tags[t];
      } else {
        assert t in states[m - 1].tags && h.seen[t] == states[m - 1].tags[t];
      }
    }
    if g.next < |g.order| {
      assert g.order[..g.next + 1] == g.order[..g.next] + [g.order[g.next]];
    }
  }

  /** Resolved tags carry no platform of their own. */
  ghost predicate BareTags(tags: map<string, Descriptor>) { forall t :: t in tags ==> tags[t].platform == None }

  lemma {:induction false} TagsStayBare(w: World, states: seq<State>, actions: seq<Action>, m: nat)
    requires IsRun(w, states, actions) && m < |states| && BareTags(states[0].tags)
    ensures BareTags(states[m].tags)
  {
    hide NextStage, Composed, Enabled;
    if m == 0 {
      assert BareTags(states[m].tags);
    } else {
      TagsStayBare(w, states, actions, m - 1);
      EnabledHas(w, states[m - 1], actions[m - 1]);
      assert states[m - 1 + 1] == Act(w, states[m - 1], actions[m - 1]);
    }
  }

  /** A bare tag reads as one platform, whatever it points to. */
  lemma BareReads(w: World, tags: map<string, Descriptor>, seen: map<string, Descriptor>, t: string, d: Descriptor)
    requires Reads(w.ver, tags, t, d) && t in seen && tags[t].platform == None && seen[t].platform == None
    ensures Reads(w.ver, seen, t, d.(digest := seen[t].digest))
  {
    hide Cut, OciArch;
  }

  /** The list has every platform of another list and of some tags. */
  ghost predicate Spans(w: World, list: seq<Descriptor>, read: seq<Descriptor>, tags: map<string, Descriptor>) {
    && (forall pl :: HasPlatform(read, pl) ==> HasPlatform(list, pl))
    && (forall t, d :: Reads(w.ver, tags, t, d) ==> HasPlatform(list, d.platform))
  }

  /** Every index written has the platforms of the index its writer read at
      some earlier moment, and of all tags that stood when, later, it listed
      them. */
  lemma WrittenCovers(w: World, states: seq<State>, actions: seq<Action>, m: nat)
    requires IsRun(w, states, actions) && m < |actions| && Writes(states[m], actions[m])
    requires |states[0].stages| == |w.jobs| && BareTags(states[0].tags)
    requires forall p :: 0 <= p < |w.jobs| ==> states[0].stages[p].Packing?
    ensures exists a, b ::
      0 <= a < b < m && Spans(w, Fetch(states[m + 1].index), Fetch(states[a].index), states[b].tags)
  {
    hide HasPlatform, Reads, NextStage, Composed, BareTags, IsListing, Fetch, Effect, Remembers, Spans;
    EnabledHas(w, states[m], actions[m]);
    var p := actions[m].p;
    WritersRemember(w, states, actions, p, m);
    var h := states[m].stages[p];
    var a, b :| 0 <= a < b < m && Remembers(states, a, b, m, h, |h.order|);
    RememberedSpans(w, states, actions, a, b, m);
  }

  lemma RememberedSpans(w: World, states: seq<State>, actions: seq<Action>, a: nat, b: nat, m: nat)
    requires IsRun(w, states, actions) && m < |actions| && Writes(states[m], actions[m]) && a < b < m
    requires BareTags(states[0].tags)
    requires Remembers(states, a, b, m, states[m].stages[actions[m].p], |states[m].stages[actions[m].p].order|)
    ensures Spans(w, Fetch(states[m + 1].index), Fetch(states[a].index), states[b].tags)
  {
    hide HasPlatform, Reads, NextStage, Composed, BareTags, IsListing, Fetch, Effect;
    var h := states[m].stages[actions[m].p];
    forall pl ensures HasPlatform(Fetch(states[a].index), pl) ==> HasPlatform(Fetch(states[m + 1].index), pl) {
      WriteCovers(w, states[m], actions[m], pl);
    }
    forall t, d | Reads(w.ver, states[b].tags, t, d) ensures HasPlatform(Fetch(states[m + 1].index), d.platform) {
      SeenReads(w, states, actions, a, b, m, h, t, d);
      WriteCovers(w, states[m], actions[m], d.platform);
    }
  }

  lemma SeenReads(w: World, states: seq<State>, actions: seq<Action>, a: nat, b: nat, m: nat, h: Stage, t: string,
                  d: Descriptor)
    requires IsRun(w, states, actions) && BareTags(states[0].tags) && a < b < m < |states| && h.Writing?
    requires Remembers(states, a, b, m, h, |h.order|) && Reads(w.ver, states[b].tags, t, d)
    ensures exists t, e :: Reads(w.ver, h.seen, t, e) && e.platform == d.platform
  {
    hide Reads, IsRun, Fetch, ReadTag;
    assert h.order[..|h.order|] == h.order;
    ReadsIs(w, states[b].tags, t, d);
    var c :| b <= c < m && t in states[c].tags && h.seen[t] == states[c].tags[t];
    TagsStayBare(w, states, actions, b);
    TagsStayBare(w, states, actions, c);
    BareReads(w, states[b].tags, h.seen, t, d);
  }

  lemma StageAfter(w: World, s: State, a: Action, p: nat)
    requires Enabled(w, s, a) && p < |w.jobs|
    ensures |Act(w, s, a).stages| == |w.jobs|
    ensures a.p != p ==> Act(w, s, a).stages[p] == s.stages[p]
    ensures a.p == p ==> Act(w, s, a).stages[p] == NextStage(w, s, a)
  {
    hide NextStage, Effect;
  }

  // ----- complete, and complete for good ------------------------------------------------

  /** An index composed from a listing with the platform's tag lists its manifest. */
  lemma ComposeLists(w: World, seen: map<string, Descriptor>, order: seq<string>, read: seq<Descriptor>, p: nat, q: nat)
    requires OneEach(w) && p < |w.jobs| && q < |w.jobs| && IsListing(order, seen)
    requires Alone(w, w.jobs[p], seen) && Placed(w, w.jobs[p], seen)
    ensures Own(w.jobs[p]) in Compose(read, Listed(w.ver, seen, order), Own(w.jobs[q]))
  {
    hide Compose, Listed, Reads, Alone, OciArch, PlatformTag, Placed;
    var j, own := w.jobs[p], Own(w.jobs[q]);
    ComposeMembers(read, Listed(w.ver, seen, order), own, Own(j));
    if p != q {
      OwnTagReads(w, j, seen);
      ListedMembers(w.ver, seen, order, Own(j));
      OwnOnly(w, j, seen, order);
      assert !SamePlatform(Own(j), own);
    }
  }

  lemma WriteLists(w: World, s: State, a: Action, p: nat)
    requires OneEach(w) && p < |w.jobs| && Enabled(w, s, a) && Writes(s, a)
    requires Sound(w, s, w.jobs[p]) && Settled(w, s, w.jobs[p])
    ensures Own(w.jobs[p]) in Fetch(Act(w, s, a).index)
  {
    hide Compose, Listed, Alone, Own, OneEach, Placed;
    var h := s.stages[a.p];
    ComposeLists(w, h.seen, h.order, h.read, p, a.p);
  }

  /** Nothing else listed has the platform. */
  lemma OwnOnly(w: World, j: Job, seen: map<string, Descriptor>, order: seq<string>)
    requires '-' !in j.os && Alone(w, j, seen) && Placed(w, j, seen) && IsListing(order, seen)
    ensures forall d :: d in Listed(w.ver, seen, order) && SamePlatform(Own(j), d) ==> d == Own(j)
  {
    hide Listed, ReadTag, Reads, PlatformTag, OciArch;
    OwnTagReads(w, j, seen);
    forall d | d in Listed(w.ver, seen, order) && SamePlatform(Own(j), d) ensures d == Own(j) {
      ListedMembers(w.ver, seen, order, d);
      var t :| Reads(w.ver, seen, t, d);
      ReadsIs(w, seen, t, d);
      ReadsIs(w, seen, t, Own(j));
    }
  }

  lemma {:induction false} StaysSettled(w: World, states: seq<State>, actions: seq<Action>, p: nat, k: nat, m: nat)
    requires OneEach(w) && IsRun(w, states, actions) && p < |w.jobs| && k <= m < |states|
    requires Sound(w, states[0], w.jobs[p]) && Settled(w, states[k], w.jobs[p])
    ensures Sound(w, states[m], w.jobs[p]) && Settled(w, states[m], w.jobs[p])
    decreases m
  {
    hide Sound, Settled, Enabled, Act, OneEach;
    StaysSound(w, states, actions, p, m);
    if k >= m {
    } else {
      StaysSettled(w, states, actions, p, k, m - 1);
      SettledKept(w, states[m - 1], actions[m - 1], p);
    }
  }

  lemma {:induction false} StaysSound(w: World, states: seq<State>, actions: seq<Action>, p: nat, m: nat)
    requires OneEach(w) && IsRun(w, states, actions) && p < |w.jobs| && m < |states|
    requires Sound(w, states[0], w.jobs[p])
    ensures Sound(w, states[m], w.jobs[p])
  {
    hide Sound, Enabled, Act, OneEach;
    if m == 0 {
    } else {
      StaysSound(w, states, actions, p, m - 1);
      SoundKept(w, states[m - 1], actions[m - 1], p);
    }
  }

  lemma IndexKept(w: World, s: State, a: Action)
    requires Enabled(w, s, a) && !Writes(s, a)
    ensures Act(w, s, a).index == s.index
  {
    hide NextStage;
  }

  /** Once a platform's tag stands and no writer holds an older listing, the
      first write lists the platform and every later index keeps it. */
  lemma {:induction false} ListedForGood(w: World, states: seq<State>, actions: seq<Action>, p: nat, k: nat, m: nat,
                                         n: nat)
    requires OneEach(w) && IsRun(w, states, actions) && p < |w.jobs|
    requires k <= m < n < |states| && Writes(states[m], actions[m])
    requires Sound(w, states[0], w.jobs[p]) && Settled(w, states[k], w.jobs[p])
    ensures Own(w.jobs[p]) in Fetch(states[n].index)
    decreases n
  {
    hide Sound, Settled, Enabled, Act, OneEach, Writes, Own;
    StaysSettled(w, states, actions, p, k, n - 1);
    if Writes(states[n - 1], actions[n - 1]) {
      WriteLists(w, states[n - 1], actions[n - 1], p);
    } else {
      ListedForGood(w, states, actions, p, k, m, n - 1);
      IndexKept(w, states[n - 1], actions[n - 1]);
    }
  }

  /** Every publisher's manifest is listed for its platform. */
  ghost predicate Complete(w: World, index: Option<seq<Descriptor>>) {
    forall p :: 0 <= p < |w.jobs| ==> Own(w.jobs[p]) in Fetch(index)
  }

  /** With all tags placed and no older listing in anyone's hands, any write
      makes the index complete, and complete it stays. */
  lemma CompleteForGood(w: World, states: seq<State>, actions: seq<Action>, k: nat, m: nat)
    requires OneEach(w) && IsRun(w, states, actions)
    requires k <= m < |actions| && Writes(states[m], actions[m])
    requires forall p :: 0 <= p < |w.jobs| ==>
      Sound(w, states[0], w.jobs[p]) && Settled(w, states[k], w.jobs[p])
    ensures forall n :: m < n < |states| ==> Complete(w, states[n].index)
  {
    hide Sound, Settled, Enabled, Act, OneEach, Writes, Own;
    forall n, p | m < n < |states| && 0 <= p < |w.jobs| ensures Own(w.jobs[p]) in Fetch(states[n].index) {
      ListedForGood(w, states, actions, p, k, m, n);
    }
  }

  // ----- attested before named ------------------------------------------------------------

  /** The manifest and all its attestations are in the registry. */
  ghost predicate Attested(s: State, j: Job) {
    j.digest in s.stored && forall r :: r in j.refs ==> (j.digest, r) in s.attached
  }

  ghost predicate Genuine(w: World, s: State, d: Descriptor) {
    exists p :: 0 <= p < |w.jobs| && d == Own(w.jobs[p]) && Attested(s, w.jobs[p])
  }

  ghost predicate GenuineList(w: World, s: State, list: seq<Descriptor>) {
    OnePerPlatform(list) && forall d :: d in list ==> Genuine(w, s, d)
  }

  ghost predicate GenuineTags(w: World, s: State, tags: map<string, Descriptor>) {
    forall t, d :: Reads(w.ver, tags, t, d) ==> Genuine(w, s, d)
  }

  /** What a publisher holds is genuine, and it names nothing before all its
      attestations are pushed. */
  ghost predicate GenuineStage(w: World, s: State, j: Job, h: Stage) {
    match h
    case Packing => true
    case Attaching(n) =>
      n <= |j.refs| && j.digest in s.stored && forall i :: 0 <= i < n ==> (j.digest, j.refs[i]) in s.attached
    case Listing(_, read) => Attested(s, j) && GenuineList(w, s, read)
    case Fetching(_, read, order, next, seen) =>
      Attested(s, j) && GenuineList(w, s, read) && GenuineTags(w, s, seen) && IsListing(order, seen)
    case Writing(_, read, seen, order) =>
      Attested(s, j) && GenuineList(w, s, read) && GenuineTags(w, s, seen) && IsListing(order, seen)
    case GaveUp => true
    case _ => Attested(s, j)
  }

  ghost predicate AllGenuine(w: World, s: State) {
    && |s.stages| == |w.jobs|
    && GenuineList(w, s, Fetch(s.index)) && GenuineTags(w, s, s.tags)
    && forall p :: 0 <= p < |w.jobs| ==> GenuineStage(w, s, w.jobs[p], s.stages[p])
  }

  /** Nothing is published yet: no index, and no tag that reads as a platform's. */
  ghost predicate Untouched(w: World, s: State) {
    && s.index == None && |s.stages| == |w.jobs|
    && (forall t, d :: !Reads(w.ver, s.tags, t, d))
    && forall p :: 0 <= p < |s.stages| ==> s.stages[p].Packing?
  }

  /** Only the content of the registry grew. */
  ghost predicate Grew(s: State, s': State) { s.stored <= s'.stored && s.attached <= s'.attached }

  lemma AttestedGrows(s: State, s': State, j: Job)
    requires Grew(s, s') && Attested(s, j)
    ensures Attested(s', j)
  {
  }

  lemma GenuineGrows(w: World, s: State, s': State)
    requires Grew(s, s')
    ensures forall d :: Genuine(w, s, d) ==> Genuine(w, s', d)
  {
    hide Grew, Attested, Own;
    forall d | Genuine(w, s, d) ensures Genuine(w, s', d) {
      var p :| 0 <= p < |w.jobs| && d == Own(w.jobs[p]) && Attested(s, w.jobs[p]);
      AttestedGrows(s, s', w.jobs[p]);
    }
  }

  lemma GenuineStageGrows(w: World, s: State, s': State, j: Job, h: Stage)
    requires Grew(s, s') && GenuineStage(w, s, j, h)
    ensures GenuineStage(w, s', j, h)
  {
    hide Genuine, OnePerPlatform, Reads, IsListing;
    GenuineGrows(w, s, s');
  }

  lemma GenuineIs(w: World, s: State, p: nat)
    requires p < |w.jobs| && Attested(s, w.jobs[p])
    ensures Genuine(w, s, Own(w.jobs[p]))
  {
  }

  lemma ComposedGenuine(w: World, s: State, p: nat, h: Stage)
    requires p < |w.jobs| && h.Writing? && GenuineStage(w, s, w.jobs[p], h)
    ensures GenuineList(w, s, Composed(w, w.jobs[p], h))
  {
    hide Compose, Listed, Reads, Own, OnePerPlatform, Attested, Genuine;
    var own, listed := Own(w.jobs[p]), Listed(w.ver, h.seen, h.order);
    GenuineIs(w, s, p);
    ComposeUnique(h.read, listed, own);
    forall d | d in Compose(h.read, listed, own) ensures Genuine(w, s, d) {
      ComposeMembers(h.read, listed, own, d);
      ListedMembers(w.ver, h.seen, h.order, d);
    }
  }

  lemma TaggedGenuine(w: World, s: State, p: nat)
    requires OneEach(w) && p < |w.jobs| && GenuineTags(w, s, s.tags) && Attested(s, w.jobs[p])
    ensures GenuineTags(w, s, s.tags[TagOf(w, w.jobs[p]) := Bare(w.jobs[p])])
  {
    hide ReadTag, PlatformTag, Reads, Own, Attested, Genuine;
    var j := w.jobs[p];
    var tags' := s.tags[TagOf(w, j) := Bare(j)];
    GenuineIs(w, s, p);
    OwnTagReads(w, j, tags');
    forall t, d | Reads(w.ver, tags', t, d) ensures Genuine(w, s, d) {
      ReadsIs(w, tags', t, d);
      ReadsIs(w, s.tags, t, d);
      ReadsIs(w, tags', t, Own(j));
    }
  }

  lemma EffectGrows(w: World, s: State, a: Action)
    requires Enabled(w, s, a)
    ensures Grew(s, Effect(w, s, a)) && Grew(s, Act(w, s, a))
    ensures Act(w, s, a).index == Effect(w, s, a).index && Act(w, s, a).tags == Effect(w, s, a).tags
    ensures Grew(Effect(w, s, a), Act(w, s, a))
  {
    hide NextStage, Composed;
  }

  /** The publisher that made the step has its next stage earned. */
  lemma NextGenuine(w: World, s: State, a: Action)
    requires Enabled(w, s, a) && AllGenuine(w, s)
    ensures GenuineStage(w, Effect(w, s, a), w.jobs[a.p], NextStage(w, s, a))
  {
    hide Genuine, OnePerPlatform, Reads, HasManifest, Composed;
    EffectGrows(w, s, a);
    GenuineGrows(w, s, Effect(w, s, a));
    NoneGenuine(w, Effect(w, s, a));
    var h := s.stages[a.p];
    assert GenuineStage(w, s, w.jobs[a.p], h);
    if h.Fetching? && h.next < |h.order| { GenuineFetched(w, s, h.seen, h.order[h.next]); }
  }

  lemma NoneGenuine(w: World, s: State)
    ensures GenuineTags(w, s, map[])
  {
    hide Genuine, ReadTag;
  }

  lemma GenuineFetched(w: World, s: State, seen: map<string, Descriptor>, t: string)
    requires GenuineTags(w, s, seen) && GenuineTags(w, s, s.tags)
    ensures GenuineTags(w, s, Fetched(seen, s.tags, t))
  {
    hide Genuine, Reads, ReadTag;
    var seen' := Fetched(seen, s.tags, t);
    forall u, d | Reads(w.ver, seen', u, d) ensures Genuine(w, s, d) {
      ReadsIs(w, seen', u, d);
      ReadsIs(w, seen, u, d);
      ReadsIs(w, s.tags, u, d);
    }
  }

  lemma EffectGenuine(w: World, s: State, a: Action)
    requires OneEach(w) && Enabled(w, s, a) && AllGenuine(w, s)
    ensures GenuineList(w, Effect(w, s, a), Fetch(Effect(w, s, a).index))
    ensures GenuineTags(w, Effect(w, s, a), Effect(w, s, a).tags)
  {
    hide Genuine, OnePerPlatform, Reads, IsListing, HasManifest, Composed, OneEach, TagOf;
    EffectGrows(w, s, a);
    GenuineGrows(w, s, Effect(w, s, a));
    var j, h := w.jobs[a.p], s.stages[a.p];
    assert GenuineStage(w, s, j, h);
    if a.Go? && h.Attaching? && h.next >= |j.refs| { TaggedGenuine(w, s, a.p); }
    if a.Go? && h.Writing? { ComposedGenuine(w, s, a.p, h); }
  }

  lemma StepGenuine(w: World, s: State, a: Action)
    requires OneEach(w) && Enabled(w, s, a) && AllGenuine(w, s)
    ensures AllGenuine(w, Act(w, s, a))
  {
    hide Genuine, GenuineStage, Effect, NextStage, Grew, Reads, OnePerPlatform, OneEach;
    var e, s' := Effect(w, s, a), Act(w, s, a);
    EffectGrows(w, s, a);
    EffectGenuine(w, s, a);
    GenuineGrows(w, e, s');
    NextGenuine(w, s, a);
    GenuineStageGrows(w, e, s', w.jobs[a.p], NextStage(w, s, a));
    forall p | 0 <= p < |w.jobs| ensures GenuineStage(w, s', w.jobs[p], s'.stages[p]) {
      StageAfter(w, s, a, p);
      GenuineStageGrows(w, s, s', w.jobs[p], s.stages[p]);
    }
  }

  lemma UntouchedGenuine(w: World, s: State)
    requires Untouched(w, s)
    ensures AllGenuine(w, s)
    ensures forall p :: 0 <= p < |w.jobs| ==> Sound(w, s, w.jobs[p])
  {
    hide Reads;
  }

  lemma {:induction false} RunGenuine(w: World, states: seq<State>, actions: seq<Action>, m: nat)
    requires OneEach(w) && IsRun(w, states, actions) && Untouched(w, states[0]) && m < |states|
    ensures AllGenuine(w, states[m])
  {
    hide AllGenuine, Untouched, OneEach, Act, Enabled;
    if m == 0 {
      UntouchedGenuine(w, states[0]);
    } else {
      RunGenuine(w, states, actions, m - 1);
      StepGenuine(w, states[m - 1], actions[m - 1]);
    }
  }

  /** In every reachable state, whatever the index or a platform tag names is
      one publisher's manifest, stored and with all attestations attached, and
      the index has at most one entry for a platform. */
  lemma NamedIsAttested(w: World, states: seq<State>, actions: seq<Action>, m: nat, d: Descriptor)
    requires OneEach(w) && IsRun(w, states, actions) && Untouched(w, states[0]) && m < |states|
    ensures OnePerPlatform(Fetch(states[m].index))
    ensures d in Fetch(states[m].index) || (exists t :: Reads(w.ver, states[m].tags, t, d)) ==>
      exists p :: 0 <= p < |w.jobs| && d == Own(w.jobs[p]) && Attested(states[m], w.jobs[p])
  {
    hide Reads, Own, OnePerPlatform, Untouched, OneEach, IsRun;
    RunGenuine(w, states, actions, m);
    assert d in Fetch(states[m].index) || (exists t :: Reads(w.ver, states[m].tags, t, d)) ==> Genuine(w, states[m], d);
  }

  // ----- why a pass is needed -----------------------------------------------------------------

  /** One more step of a run. */
  lemma Extend(w: World, states: seq<State>, actions: seq<Action>, a: Action)
    returns (longer: seq<State>, more: seq<Action>)
    requires IsRun(w, states, actions) && Enabled(w, states[|actions|], a)
    ensures IsRun(w, longer, more) && |longer| == |more| + 1 == |actions| + 2 && longer[0] == states[0]
    ensures longer[|more|] == Act(w, states[|actions|], a)
  {
    hide Act;
    longer, more := states + [Act(w, states[|actions|], a)], actions + [a];
  }

  /** A publisher with nothing to attach runs up to its write. */
  lemma UpToWrite(w: World, states: seq<State>, actions: seq<Action>, p: nat, order: seq<string>)
    returns (longer: seq<State>, more: seq<Action>)
    requires IsRun(w, states, actions) && p < |w.jobs| && w.jobs[p].refs == []
    requires
      var s := states[|actions|];
      |s.stages| == |w.jobs| && s.stages[p] == Packing
      && IsListing(order, s.tags[TagOf(w, w.jobs[p]) := Bare(w.jobs[p])])
    ensures IsRun(w, longer, more) && |longer| == |more| + 1 && longer[0] == states[0]
    ensures
      var s, s' := states[|actions|], longer[|more|];
      var tags := s.tags[TagOf(w, w.jobs[p]) := Bare(w.jobs[p])];
      && s'.index == s.index && s'.tags == tags
      && s'.stages == s.stages[p := Writing(0, Fetch(s.index), tags, order)]
  {
    hide IsRun, IsListing, PlatformTag, HasManifest, Composed;
    longer, more := Extend(w, states, actions, Go(p, []));
    longer, more := Extend(w, longer, more, Go(p, []));
    longer, more := Extend(w, longer, more, Go(p, []));
    longer, more := Extend(w, longer, more, Go(p, order));
    longer, more := UpToFetched(w, longer, more, p);
  }

  /** Undisturbed, a listing is read to its end. */
  lemma {:induction false} UpToFetched(w: World, states: seq<State>, actions: seq<Action>, p: nat)
    returns (longer: seq<State>, more: seq<Action>)
    requires IsRun(w, states, actions) && |states| == |actions| + 1 && p < |w.jobs|
    requires
      var s := states[|actions|];
      |s.stages| == |w.jobs| && s.stages[p].Fetching? && IsListing(s.stages[p].order, s.tags)
    requires
      var s, h := states[|actions|], states[|actions|].stages[p];
      h.next <= |h.order| && h.seen == map t | t in s.tags && t in h.order[..h.next] :: s.tags[t]
    ensures IsRun(w, longer, more) && |longer| == |more| + 1 && longer[0] == states[0]
    ensures
      var s, s', h := states[|actions|], longer[|more|], states[|actions|].stages[p];
      && s'.index == s.index && s'.tags == s.tags
      && s'.stages == s.stages[p := Writing(h.attempt, h.read, s.tags, h.order)]
    decreases var h := states[|actions|].stages[p]; |h.order| - h.next
  {
    hide IsRun, PlatformTag, HasManifest, Composed;
    var s, h := states[|actions|], states[|actions|].stages[p];
    longer, more := Extend(w, states, actions, Go(p, []));
    if h.next < |h.order| {
      assert h.order[..h.next + 1] == h.order[..h.next] + [h.order[h.next]];
      longer, more := UpToFetched(w, longer, more, p);
    } else {
      assert h.order[..h.next] == h.order;
      assert h.seen == s.tags;
    }
  }

  /** Undisturbed, it writes, confirms twice and is done. */
  lemma FromWrite(w: World, states: seq<State>, actions: seq<Action>, p: nat)
    returns (longer: seq<State>, more: seq<Action>)
    requires IsRun(w, states, actions) && |states| == |actions| + 1 && p < |w.jobs|
    requires |states[|actions|].stages| == |w.jobs| && states[|actions|].stages[p].Writing?
    ensures IsRun(w, longer, more) && |longer| == |more| + 1 && longer[0] == states[0]
    ensures
      var s, s' := states[|actions|], longer[|more|];
      && s'.index == Some(Composed(w, w.jobs[p], s.stages[p])) && s'.tags == s.tags
      && s'.stages == s.stages[p := Finished]
  {
    hide IsRun, IsListing, PlatformTag, HasManifest, Listed, Compose;
    var h := states[|actions|].stages[p];
    ComposedHas(h.read, Listed(w.ver, h.seen, h.order), Own(w.jobs[p]));
    longer, more := Extend(w, states, actions, Go(p, []));
    longer, more := Extend(w, longer, more, Go(p, []));
    longer, more := Extend(w, longer, more, Go(p, []));
  }

  /** Both publishers can finish, each having seen its manifest listed twice,
      with one of them missing from the index: the other's listing was older. */
  lemma FinishedButLost(w: World, s: State) returns (states: seq<State>, actions: seq<Action>)
    requires OneEach(w) && |w.jobs| == 2 && w.jobs[0].refs == [] && w.jobs[1].refs == []
    requires Untouched(w, s) && s.tags == map[]
    ensures IsRun(w, states, actions) && states[0] == s
    ensures states[|actions|].stages == [Finished, Finished]
    ensures AllPlaced(w, states[|actions|].tags)
    ensures states[|actions|].index == Some([Own(w.jobs[0])]) && !Complete(w, states[|actions|].index)
  {
    hide IsRun, PlatformTag, Compose, Listed, Reads, OciArch, OneEach, HasManifest, Alone, Placed;
    var t0, t1 := TagOf(w, w.jobs[0]), TagOf(w, w.jobs[1]);
    var one := map[t0 := Bare(w.jobs[0])];
    states, actions := [s], [];
    IsRunStart(w, s);
    states, actions := UpToWrite(w, states, actions, 0, [t0]);
    states, actions := UpToWrite(w, states, actions, 1, [t0, t1]);
    states, actions := FromWrite(w, states, actions, 1);
    states, actions := FromWrite(w, states, actions, 0);
    TwoPlaced(w);
    OnlyFirst(w, [t0]);
    assert Own(w.jobs[1]) !in Fetch(states[|actions|].index);
  }

  lemma IsRunStart(w: World, s: State)
    ensures IsRun(w, [s], [])
  {
  }

  lemma TwoPlaced(w: World)
    requires OneEach(w) && |w.jobs| == 2
    ensures AllPlaced(w, map[TagOf(w, w.jobs[0]) := Bare(w.jobs[0])][TagOf(w, w.jobs[1]) := Bare(w.jobs[1])])
  {
    hide PlatformTag, Reads, OciArch;
    var none: map<string, Descriptor> := map[];
    var one := none[TagOf(w, w.jobs[0]) := Bare(w.jobs[0])];
    NoTagsAlone(w, w.jobs[0]);
    NoTagsAlone(w, w.jobs[1]);
    AloneKept(w, 0, 0, none);
    AloneKept(w, 1, 0, none);
    AloneKept(w, 0, 1, one);
    AloneKept(w, 1, 1, one);
    PlacedKept(w, 0, 1, one);
  }

  lemma NoTagsAlone(w: World, j: Job)
    ensures Alone(w, j, map[])
  {
    hide ReadTag;
  }

  /** From a listing of one tag the index has that entry alone. */
  lemma OnlyFirst(w: World, order: seq<string>)
    requires OneEach(w) && |w.jobs| == 2 && order == [TagOf(w, w.jobs[0])]
    ensures
      var one := map[TagOf(w, w.jobs[0]) := Bare(w.jobs[0])];
      Compose([], Listed(w.ver, one, order), Own(w.jobs[0])) == [Own(w.jobs[0])]
    ensures Own(w.jobs[1]) != Own(w.jobs[0])
  {
    hide PlatformTag, Reads, ReadTag, Listed, Compose;
    var one := map[TagOf(w, w.jobs[0]) := Bare(w.jobs[0])];
    OwnTagReads(w, w.jobs[0], one);
    var index := Compose([], Listed(w.ver, one, order), Own(w.jobs[0]));
    forall d | d in index ensures d == Own(w.jobs[0]) {
      ComposeMembers([], Listed(w.ver, one, order), Own(w.jobs[0]), d);
      ListedMembers(w.ver, one, order, d);
      if t :| Reads(w.ver, one, t, d) {
        ReadsIs(w, one, t, d);
        ReadsIs(w, one, t, Own(w.jobs[0]));
      }
    }
    ComposeUnique([], Listed(w.ver, one, order), Own(w.jobs[0]));
    ComposeMembers([], Listed(w.ver, one, order), Own(w.jobs[0]), Own(w.jobs[0]));
    SingleEntry(index, Own(w.jobs[0]));
  }

  lemma SingleEntry(list: seq<Descriptor>, d: Descriptor)
    requires OnePerPlatform(list) && d in list && d.platform.Some? && forall e :: e in list ==> e == d
    ensures list == [d]
  {
    assert |list| > 1 ==> !SamePlatform(list[0], list[1]);
    forall k | 0 <= k < |list| ensures list[k] == d { assert list[k] in list; }
  }

  // ----- confirmed twice, six times at most ---------------------------------------------

  /** Publisher `p` writes the index at moment `k`, and not again before `m`. */
  ghost predicate LastWrite(states: seq<State>, actions: seq<Action>, p: nat, k: nat, m: nat)
    requires m < |states| == |actions| + 1
  {
    && k < m && actions[k].p == p && Writes(states[k], actions[k])
    && forall i :: k < i < m && actions[i].p == p ==> !Writes(states[i], actions[i])
  }

  /** At moment `a` publisher `p` makes a call other than a write and the index
      lists its manifest. */
  ghost predicate Confirms(w: World, states: seq<State>, actions: seq<Action>, p: nat, a: nat)
    requires a < |actions| < |states| && p < |w.jobs|
  {
    && actions[a].Go? && actions[a].p == p && !Writes(states[a], actions[a])
    && HasManifest(Fetch(states[a].index), Own(w.jobs[p]))
  }

  /** How far the confirmation of the last write has come. */
  ghost predicate Confirmed(w: World, states: seq<State>, actions: seq<Action>, p: nat, m: nat, k: nat, a: nat, b: nat)
    requires m < |states| == |actions| + 1 && p < |w.jobs| == |states[m].stages|
  {
    var h := states[m].stages[p];
    && (h.Checking? || h.Confirming? || h.Finished? ==> LastWrite(states, actions, p, k, m))
    && (h.Confirming? || h.Finished? ==> k < a < m && Confirms(w, states, actions, p, a))
    && (h.Finished? ==> a < b < m && Confirms(w, states, actions, p, b))
  }

  lemma Moved(w: World, states: seq<State>, actions: seq<Action>, m: nat)
    requires IsRun(w, states, actions) && 0 < m < |states|
    ensures Enabled(w, states[m - 1], actions[m - 1])
    ensures actions[m - 1].p < |states[m - 1].stages| == |states[m].stages| == |w.jobs|
    ensures states[m] == Act(w, states[m - 1], actions[m - 1])
    ensures forall p :: 0 <= p < |w.jobs| ==>
      states[m].stages[p]
      == if p == actions[m - 1].p then NextStage(w, states[m - 1], actions[m - 1]) else states[m - 1].stages[p]
  {
    hide NextStage, Effect;
    assert states[m - 1 + 1] == Act(w, states[m - 1], actions[m - 1]);
  }

  lemma {:induction false} ConfirmationGoes(w: World, states: seq<State>, actions: seq<Action>, p: nat, m: nat)
    returns (k: nat, a: nat, b: nat)
    requires IsRun(w, states, actions) && m < |states| && |states[0].stages| == |w.jobs|
    requires p < |w.jobs| && states[0].stages[p].Packing?
    ensures |states[m].stages| == |w.jobs| && Confirmed(w, states, actions, p, m, k, a, b)
  {
    hide IsRun, Effect, HasManifest, Enabled, Composed, Fetched;
    k, a, b := 0, 0, 0;
    RunLength(w, states, actions);
    if m > 0 {
      Moved(w, states, actions, m);
      k, a, b := ConfirmationGoes(w, states, actions, p, m - 1);
      if actions[m - 1].Go? && actions[m - 1].p == p {
        match states[m - 1].stages[p]
        case Writing(_, _, _, _) => k := m - 1;
        case Checking(_) => a := m - 1;
        case Confirming(_) => b := m - 1;
        case _ =>
      }
    }
  }

  lemma RunLength(w: World, states: seq<State>, actions: seq<Action>)
    requires IsRun(w, states, actions)
    ensures |states| == |actions| + 1
  {
  }

  /** A publisher that finished found its manifest listed at two different calls
      after its last write. */
  lemma ConfirmedTwice(w: World, states: seq<State>, actions: seq<Action>, p: nat, m: nat)
    returns (k: nat, a: nat, b: nat)
    requires IsRun(w, states, actions) && Untouched(w, states[0]) && m < |states|
    requires p < |w.jobs| && |states[m].stages| == |w.jobs| && states[m].stages[p].Finished?
    ensures k < a < b < m && LastWrite(states, actions, p, k, m)
    ensures Confirms(w, states, actions, p, a) && Confirms(w, states, actions, p, b)
  {
    hide Reads, LastWrite, Confirms;
    k, a, b := ConfirmationGoes(w, states, actions, p, m);
  }

  /** How often publisher `p` has written the index. */
  ghost function WriteCount(states: seq<State>, actions: seq<Action>, p: nat, m: nat): nat
    requires m < |states| == |actions| + 1
  {
    if m == 0 then 0
    else
      WriteCount(states, actions, p, m - 1)
      + if actions[m - 1].p == p && Writes(states[m - 1], actions[m - 1]) then 1 else 0
  }

  ghost predicate Crashed(actions: seq<Action>, p: nat, m: nat)
    requires m <= |actions|
  {
    exists i :: 0 <= i < m && actions[i] == Crash(p)
  }

  /** The stage tells how often its publisher has written. */
  ghost predicate CountedAs(h: Stage, writes: nat, crashed: bool) {
    && (h.Packing? || h.Attaching? ==> writes == 0)
    && (h.Reading? || h.Listing? || h.Fetching? || h.Writing? ==> writes == h.attempt < 6)
    && (h.Checking? || h.Confirming? ==> writes == h.attempt + 1 <= 6)
    && (h.Finished? ==> 1 <= writes <= 6)
    && (h.GaveUp? ==> writes <= 6 && (crashed || writes == 6))
  }

  lemma {:induction false} WritesCounted(w: World, states: seq<State>, actions: seq<Action>, p: nat, m: nat)
    requires IsRun(w, states, actions) && m < |states| && |states[0].stages| == |w.jobs|
    requires p < |w.jobs| && states[0].stages[p].Packing?
    ensures |states| == |actions| + 1 && |states[m].stages| == |w.jobs|
    ensures CountedAs(states[m].stages[p], WriteCount(states, actions, p, m), Crashed(actions, p, m))
  {
    hide IsRun, Effect, HasManifest, Composed, Fetched;
    RunLength(w, states, actions);
    if m == 0 {
      assert WriteCount(states, actions, p, m) == 0;
    } else {
      Moved(w, states, actions, m);
      WritesCounted(w, states, actions, p, m - 1);
      if actions[m - 1] == Crash(p) { assert Crashed(actions, p, m); }
    }
  }

  /** A publisher writes six times at most, and gives up without a failing call
      only after the sixth. */
  lemma SixAttempts(w: World, states: seq<State>, actions: seq<Action>, p: nat, m: nat)
    requires IsRun(w, states, actions) && Untouched(w, states[0]) && p < |w.jobs| && m < |states|
    ensures |states| == |actions| + 1 && |states[m].stages| == |w.jobs|
    ensures WriteCount(states, actions, p, m) <= 6
    ensures states[m].stages[p].Finished? ==> WriteCount(states, actions, p, m) >= 1
    ensures states[m].stages[p].GaveUp? && !Crashed(actions, p, m) ==> WriteCount(states, actions, p, m) == 6
  {
    hide Reads, IsRun, WriteCount, Crashed;
    WritesCounted(w, states, actions, p, m);
  }

  // ----- the pass after the batch ---------------------------------------------------------

  /** Each of the first `n` publishers ensures its manifest is listed, one after
      the other, with nobody else at work. */
  function Pass(w: World, tags: map<string, Descriptor>, order: seq<string>,
                index: Option<seq<Descriptor>>, n: nat): Option<seq<Descriptor>>
    requires n <= |w.jobs|
  {
    if n == 0 then index
    else Ensure(w.ver, tags, order, Pass(w, tags, order, index, n - 1), Own(w.jobs[n - 1]))
  }

  ghost predicate AllPlaced(w: World, tags: map<string, Descriptor>) {
    forall p :: 0 <= p < |w.jobs| ==> Placed(w, w.jobs[p], tags) && Alone(w, w.jobs[p], tags)
  }

  /** Some publisher's digest is not in the index at all. */
  ghost predicate DigestMissing(w: World, index: Option<seq<Descriptor>>, n: nat)
    requires n <= |w.jobs|
  {
    exists p :: 0 <= p < n && !HasManifest(Fetch(index), Own(w.jobs[p]))
  }

  lemma CompleteHas(w: World, index: Option<seq<Descriptor>>, p: nat)
    requires Complete(w, index) && p < |w.jobs|
    ensures HasManifest(Fetch(index), Own(w.jobs[p]))
  {
    var list := Fetch(index);
    assert Own(w.jobs[p]) in list;
    var i :| 0 <= i < |list| && list[i] == Own(w.jobs[p]);
  }

  lemma {:induction false} PassSoFar(w: World, tags: map<string, Descriptor>, order: seq<string>,
                                     index: Option<seq<Descriptor>>, n: nat)
    requires OneEach(w) && AllPlaced(w, tags) && IsListing(order, tags) && n <= |w.jobs|
    ensures DigestMissing(w, index, n) ==> Complete(w, Pass(w, tags, order, index, n))
    ensures !DigestMissing(w, index, n) ==> Pass(w, tags, order, index, n) == index
  {
    hide HasManifest, Compose, Listed, Own, OneEach, Placed, Alone, IsListing;
    if n == 0 {
    } else {
      PassSoFar(w, tags, order, index, n - 1);
      var before := Pass(w, tags, order, index, n - 1);
      if Complete(w, before) { CompleteHas(w, before, n - 1); }
      if !HasManifest(Fetch(before), Own(w.jobs[n - 1])) {
        forall p | 0 <= p < |w.jobs|
          ensures Own(w.jobs[p]) in Compose(Fetch(before), Listed(w.ver, tags, order), Own(w.jobs[n - 1]))
        {
          ComposeLists(w, tags, order, Fetch(before), p, n - 1);
        }
      }
    }
  }

  /** The pass lists every manifest's digest; it lists every platform exactly
      when the index did already or lacks some manifest's digest. */
  lemma PassCompletes(w: World, tags: map<string, Descriptor>, order: seq<string>, index: Option<seq<Descriptor>>)
    requires OneEach(w) && AllPlaced(w, tags) && IsListing(order, tags)
    ensures
      var after := Pass(w, tags, order, index, |w.jobs|);
      && (forall p :: 0 <= p < |w.jobs| ==> HasManifest(Fetch(after), Own(w.jobs[p])))
      && (Complete(w, after) <==> Complete(w, index) || DigestMissing(w, index, |w.jobs|))
  {
    hide HasManifest, Own, OneEach, AllPlaced, Complete, Pass, IsListing;
    PassSoFar(w, tags, order, index, |w.jobs|);
    var after := Pass(w, tags, order, index, |w.jobs|);
    if Complete(w, after) {
      forall p | 0 <= p < |w.jobs| ensures HasManifest(Fetch(after), Own(w.jobs[p])) { CompleteHas(w, after, p); }
    }
  }

  /** After any run from an untouched registry, once all tags are placed, the
      pass leaves every platform listed if no two platforms share a digest. */
  lemma PassRepairs(w: World, states: seq<State>, actions: seq<Action>, m: nat, order: seq<string>)
    requires OneEach(w) && IsRun(w, states, actions) && Untouched(w, states[0]) && m < |states|
    requires AllPlaced(w, states[m].tags) && IsListing(order, states[m].tags)
    requires forall p, q :: 0 <= p < q < |w.jobs| ==> w.jobs[p].digest != w.jobs[q].digest
    ensures Complete(w, Pass(w, states[m].tags, order, states[m].index, |w.jobs|))
  {
    hide Untouched, OneEach, AllPlaced, Pass, IsListing, IsRun, Attested, OnePerPlatform, GenuineTags, GenuineStage;
    var index := states[m].index;
    RunGenuine(w, states, actions, m);
    PassCompletes(w, states[m].tags, order, index);
    if !DigestMissing(w, index, |w.jobs|) {
      forall p | 0 <= p < |w.jobs| ensures Own(w.jobs[p]) in Fetch(index) {
        assert HasManifest(Fetch(index), Own(w.jobs[p]));
        var i :| 0 <= i < |Fetch(index)| && Fetch(index)[i].digest == Own(w.jobs[p]).digest;
        assert Fetch(index)[i] in Fetch(index);
        var q :| 0 <= q < |w.jobs| && Fetch(index)[i] == Own(w.jobs[q]);
        assert q == p;
      }
    }
  }

  /** Two platforms with the same bytes: one entry satisfies both publishers,
      and the pass leaves the other platform out. */
  lemma SharedDigestStaysOut(w: World, tags: map<string, Descriptor>, order: seq<string>)
    requires OneEach(w) && AllPlaced(w, tags) && IsListing(order, tags)
    requires |w.jobs| == 2 && w.jobs[0].digest == w.jobs[1].digest
    ensures var before := Some([Own(w.jobs[0])]);
      Pass(w, tags, order, before, 2) == before && !Complete(w, before)
  {
    hide AllPlaced, IsListing, Pass, OciArch;
    var before := Some([Own(w.jobs[0])]);
    PassSoFar(w, tags, order, before, 2);
    assert Fetch(before)[0].digest == Own(w.jobs[1]).digest;
    assert !(Own(w.jobs[1]) in Fetch(before));
  }

  /** It comes to this: both finish, one platform is missing, and the pass sees
      nothing to repair. */
  lemma SharedDigestLost(w: World, s: State) returns (states: seq<State>, actions: seq<Action>)
    requires OneEach(w) && |w.jobs| == 2 && w.jobs[0].refs == [] && w.jobs[1].refs == []
    requires w.jobs[0].digest == w.jobs[1].digest && Untouched(w, s) && s.tags == map[]
    ensures IsRun(w, states, actions) && states[0] == s
    ensures
      var last := states[|actions|];
      && last.stages == [Finished, Finished] && AllPlaced(w, last.tags) && !Complete(w, last.index)
      && forall order :: IsListing(order, last.tags) ==> Pass(w, last.tags, order, last.index, 2) == last.index
  {
    hide PlatformTag, Reads, OciArch, OneEach, Untouched, AllPlaced, Complete, IsListing, Pass, Enabled, Act;
    states, actions := FinishedButLost(w, s);
    var last := states[|actions|];
    forall order | IsListing(order, last.tags) ensures Pass(w, last.tags, order, last.index, 2) == last.index {
      SharedDigestStaysOut(w, last.tags, order);
    }
  }
}
