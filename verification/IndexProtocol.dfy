/** Publishing one version from several machines at once (oci.go, ensure.go).
    The version tag's index is rewritten by every publisher with no lock; the
    platform tags are written by one publisher each. Publishers are programs
    over a shared registry whose steps interleave in any way. */
module IndexProtocol {
  import opened Options
  import opened Sorting
  import opened Text

  datatype Platform = Platform(os: string, arch: string)

  datatype Descriptor = Descriptor(digest: string, platform: Option<Platform>)

  // ----- platform tags ------------------------------------------------------

  function OciArch(arch: string): string {
    if arch == "x86-64" then "amd64" else if arch == "aarch64" then "arm64" else arch
  }

  function PlatformTag(ver: string, os: string, arch: string): string {
    ver + "--" + os + "-" + arch
  }

  /** `strings.Cut`: around the first separator. */
  function Cut(s: string, sep: char): Option<(string, string)> {
    if s == "" then None
    else if s[0] == sep then Some(("", s[1..]))
    else
      match Cut(s[1..], sep)
      case None => None
      case Some(p) => Some(([s[0]] + p.0, p.1))
  }

  /** The descriptor a tag stands for in the index of `ver`; the platform of a
      bare one comes from the tag. */
  function ReadTag(ver: string, tag: string, d: Descriptor): Option<Descriptor> {
    if !HasPrefix(tag, ver + "--") then None
    else if d.platform.Some? then Some(d)
    else
      match Cut(TrimPrefix(tag, ver + "--"), '-')
      case None => None
      case Some(p) => Some(d.(platform := Some(Platform(p.0, OciArch(p.1)))))
  }

  lemma {:induction false} CutAtFirst(a: string, b: string, sep: char)
    requires sep !in a
    ensures Cut(a + [sep] + b, sep) == Some((a, b))
  {
    var s := a + [sep] + b;
    if a == "" {
      assert s[1..] == b;
    } else {
      assert s[1..] == a[1..] + [sep] + b;
      CutAtFirst(a[1..], b, sep);
      assert [a[0]] + a[1..] == a;
    }
  }

  lemma {:induction false} CutHead(s: string, sep: char)
    ensures Cut(s, sep).Some? ==> sep !in Cut(s, sep).value.0
  {
    if s == "" {
    } else {
      CutHead(s[1..], sep);
    }
  }

  lemma TagSuffix(ver: string, os: string, arch: string)
    ensures HasPrefix(PlatformTag(ver, os, arch), ver + "--")
    ensures TrimPrefix(PlatformTag(ver, os, arch), ver + "--") == os + ['-'] + arch
  {
    assert PlatformTag(ver, os, arch) == (ver + "--") + (os + "-" + arch);
  }

  /** A platform tag is read back as its own platform, in the index's names,
      exactly when the system's name has no dash. */
  lemma TagReadsBack(ver: string, os: string, arch: string, digest: string)
    ensures
      var own := Descriptor(digest, Some(Platform(os, OciArch(arch))));
      ReadTag(ver, PlatformTag(ver, os, arch), own.(platform := None)) == Some(own) <==> '-' !in os
  {
    hide PlatformTag, Cut, OciArch;
    TagSuffix(ver, os, arch);
    var rest := os + ['-'] + arch;
    if '-' !in os { CutAtFirst(os, arch, '-'); }
    CutHead(rest, '-');
  }

  /** The architectures the index has other names for, as the tags are read. */
  lemma ArchesInTags(ver: string, os: string, arch: string, digest: string)
    requires '-' !in os
    ensures
      var read := ReadTag(ver, ver + "--" + os + "-" + arch, Descriptor(digest, None));
      && (arch == "x86-64" ==> read == Some(Descriptor(digest, Some(Platform(os, "amd64")))))
      && (arch == "aarch64" ==> read == Some(Descriptor(digest, Some(Platform(os, "arm64")))))
      && (arch !in {"x86-64", "aarch64"} ==> read == Some(Descriptor(digest, Some(Platform(os, arch)))))
  {
    hide ReadTag, PlatformTag;
    TagReadsBack(ver, os, arch, digest);
    TagTextIs(ver, os, arch);
  }

  /** A descriptor that names its platform is taken as it is; a tag of another
      version, or one that names no system and architecture, stands for none. */
  lemma TagsRead(ver: string, tag: string, rest: string, d: Descriptor)
    ensures d.platform.Some? ==> ReadTag(ver, ver + "--" + rest, d) == Some(d)
    ensures !(ver + "--" <= tag) ==> ReadTag(ver, tag, d) == None
    ensures d.platform.None? && '-' !in rest ==> ReadTag(ver, ver + "--" + rest, d) == None
  {
    hide Cut, OciArch;
    var s := ver + "--" + rest;
    assert s[..|ver + "--"|] == ver + "--" && s[|ver + "--"|..] == rest;
    if '-' !in rest { CutNone(rest, '-'); }
  }

  lemma {:induction false} CutNone(s: string, sep: char)
    requires sep !in s
    ensures Cut(s, sep) == None
  {
    if s == "" {
    } else {
      CutNone(s[1..], sep);
    }
  }

  lemma TagTextIs(ver: string, os: string, arch: string)
    ensures PlatformTag(ver, os, arch) == ver + "--" + os + "-" + arch
  {
  }

  lemma TagsDistinct(ver: string, os: string, arch: string, os': string, arch': string)
    requires '-' !in os && '-' !in os'
    ensures PlatformTag(ver, os, arch) == PlatformTag(ver, os', arch') <==> os == os' && arch == arch'
  {
    hide Cut;
    TagSuffix(ver, os, arch);
    TagSuffix(ver, os', arch');
    CutAtFirst(os, arch, '-');
    CutAtFirst(os', arch', '-');
  }

  // ----- manifest lists -----------------------------------------------------

  predicate SamePlatform(a: Descriptor, b: Descriptor) {
    a.platform.Some? && a.platform == b.platform
  }

  function Others(list: seq<Descriptor>, d: Descriptor): seq<Descriptor> {
    if list == [] then []
    else
      var last := list[|list| - 1];
      Others(list[..|list| - 1], d) + (if SamePlatform(last, d) then [] else [last])
  }

  function Upsert(list: seq<Descriptor>, d: Descriptor): seq<Descriptor> { Others(list, d) + [d] }

  function UpsertAll(list: seq<Descriptor>, ds: seq<Descriptor>): seq<Descriptor> {
    if ds == [] then list else Upsert(UpsertAll(list, ds[..|ds| - 1]), ds[|ds| - 1])
  }

  /** A new index: what was read, then what the tags list, then one's own. */
  function Compose(read: seq<Descriptor>, listed: seq<Descriptor>, own: Descriptor): seq<Descriptor> {
    Upsert(UpsertAll(read, listed), own)
  }

  predicate HasManifest(list: seq<Descriptor>, d: Descriptor) {
    exists i :: 0 <= i < |list| && list[i].digest == d.digest
  }

  predicate HasPlatform(list: seq<Descriptor>, p: Option<Platform>) {
    exists i :: 0 <= i < |list| && list[i].platform == p
  }

  predicate OnePerPlatform(list: seq<Descriptor>) {
    forall i, j :: 0 <= i < j < |list| ==> !SamePlatform(list[i], list[j])
  }

  /** The list filtered and extended in its own buffer, as a slice of it; a
      buffer without room to grow is replaced. */
  method UpsertPlatform(list: array<Descriptor>, n: nat, d: Descriptor) returns (out: array<Descriptor>, k: nat)
    requires n <= list.Length
    modifies list
    ensures k <= out.Length && out[..k] == Upsert(old(list[..n]), d)
    ensures out == list || fresh(out)
  {
    hide SamePlatform, Others;
    ghost var was := list[..n];
    OthersNone(d);
    k := 0;
    var i := 0;
    while i < n
      invariant k <= i <= n <= list.Length
      invariant list[..k] == Others(was[..i], d)
      invariant forall j :: i <= j < n ==> list[j] == was[j]
    {
      OthersStep(was, i, d);
      var m := list[i];
      if !SamePlatform(m, d) {
        list[k] := m;
        k := k + 1;
      }
      i := i + 1;
    }
    assert was[..n] == was;
    assert list[..k] == Others(was, d);
    out, k := Append(list, k, d);
  }

  lemma OthersNone(d: Descriptor)
    ensures Others([], d) == []
  {
  }

  lemma OthersStep(list: seq<Descriptor>, i: nat, d: Descriptor)
    requires i < |list|
    ensures Others(list[..i + 1], d) == Others(list[..i], d) + if SamePlatform(list[i], d) then [] else [list[i]]
  {
    assert list[..i + 1][..i] == list[..i];
  }

  /** `append` on the first `n` places of a buffer. */
  method Append(list: array<Descriptor>, n: nat, d: Descriptor) returns (out: array<Descriptor>, k: nat)
    requires n <= list.Length
    modifies list
    ensures k == n + 1 <= out.Length && out[..k] == old(list[..n]) + [d]
    ensures out == list || fresh(out)
  {
    var all := list[..n] + [d];
    k := n + 1;
    if n < list.Length {
      list[n] := d;
      out := list;
    } else {
      out := new Descriptor[k](i requires 0 <= i < |all| => all[i]);
    }
    assert out[..k] == all;
  }

  lemma {:induction false} OthersMembers(list: seq<Descriptor>, d: Descriptor)
    ensures forall e :: e in Others(list, d) <==> e in list && !SamePlatform(e, d)
  {
    if list == [] {
    } else {
      var front := list[..|list| - 1];
      assert list == front + [list[|list| - 1]];
      OthersMembers(front, d);
    }
  }

  lemma {:induction false} OthersUnique(list: seq<Descriptor>, d: Descriptor)
    requires OnePerPlatform(list)
    ensures OnePerPlatform(Others(list, d))
  {
    if list == [] {
    } else {
      var front, last := list[..|list| - 1], list[|list| - 1];
      OthersUnique(front, d);
      OthersMembers(front, d);
      forall i | 0 <= i < |Others(front, d)| ensures !SamePlatform(Others(front, d)[i], last) {
        assert Others(front, d)[i] in front;
        var k :| 0 <= k < |front| && front[k] == Others(front, d)[i];
        assert !SamePlatform(list[k], list[|list| - 1]);
      }
    }
  }

  lemma UpsertUnique(list: seq<Descriptor>, d: Descriptor)
    requires OnePerPlatform(list)
    ensures OnePerPlatform(Upsert(list, d))
  {
    hide Others;
    OthersUnique(list, d);
    OthersMembers(list, d);
    var r := Others(list, d);
    forall i | 0 <= i < |r| ensures !SamePlatform(r[i], d) { assert r[i] in r; }
  }

  lemma UpsertMembers(list: seq<Descriptor>, d: Descriptor)
    ensures forall e :: e in Upsert(list, d) <==> e == d || (e in list && !SamePlatform(e, d))
    ensures Upsert(list, d)[|Upsert(list, d)| - 1] == d
  {
    hide Others, SamePlatform;
    OthersMembers(list, d);
  }

  lemma {:induction false} UpsertAllUnique(list: seq<Descriptor>, ds: seq<Descriptor>)
    requires OnePerPlatform(list)
    ensures OnePerPlatform(UpsertAll(list, ds))
  {
    hide Upsert, OnePerPlatform;
    if ds == [] {
    } else {
      UpsertAllUnique(list, ds[..|ds| - 1]);
      UpsertUnique(UpsertAll(list, ds[..|ds| - 1]), ds[|ds| - 1]);
    }
  }

  /** Composing keeps one entry for each platform. */
  lemma ComposeUnique(read: seq<Descriptor>, listed: seq<Descriptor>, own: Descriptor)
    requires OnePerPlatform(read)
    ensures OnePerPlatform(Compose(read, listed, own))
  {
    hide Upsert, UpsertAll, OnePerPlatform;
    UpsertAllUnique(read, listed);
    UpsertUnique(UpsertAll(read, listed), own);
  }

  lemma {:induction false} UpsertAllMembers(list: seq<Descriptor>, ds: seq<Descriptor>, e: Descriptor)
    ensures e in UpsertAll(list, ds) ==> e in list || e in ds
    ensures e in list && (forall d :: d in ds ==> !SamePlatform(e, d)) ==> e in UpsertAll(list, ds)
    ensures e in ds && (forall d :: d in ds && SamePlatform(e, d) ==> d == e) ==> e in UpsertAll(list, ds)
  {
    hide Upsert, SamePlatform;
    if ds == [] {
    } else {
      var front, last := ds[..|ds| - 1], ds[|ds| - 1];
      assert ds == front + [last];
      UpsertAllMembers(list, front, e);
      UpsertMembers(UpsertAll(list, front), last);
    }
  }

  /** Which entries a composed index has: only read, listed or own ones; those
      read that nothing replaces; those listed that nothing contradicts. */
  lemma ComposeMembers(read: seq<Descriptor>, listed: seq<Descriptor>, own: Descriptor, e: Descriptor)
    ensures own in Compose(read, listed, own)
    ensures e in Compose(read, listed, own) ==> e in read || e in listed || e == own
    ensures e in read && !SamePlatform(e, own) && (forall d :: d in listed ==> !SamePlatform(e, d))
      ==> e in Compose(read, listed, own)
    ensures e in listed && !SamePlatform(e, own) && (forall d :: d in listed && SamePlatform(e, d) ==> d == e)
      ==> e in Compose(read, listed, own)
  {
    hide Upsert, UpsertAll, SamePlatform;
    UpsertAllMembers(read, listed, e);
    UpsertMembers(UpsertAll(read, listed), own);
  }

  lemma UpsertPlatforms(list: seq<Descriptor>, d: Descriptor, p: Option<Platform>)
    ensures HasPlatform(Upsert(list, d), p) <==> HasPlatform(list, p) || d.platform == p
  {
    hide Upsert;
    UpsertMembers(list, d);
    PlatformIn(list, p);
    PlatformIn(Upsert(list, d), p);
    if HasPlatform(list, p) && d.platform != p {
      var e :| e in list && e.platform == p;
      assert e in Upsert(list, d);
    }
    assert d in Upsert(list, d);
  }

  lemma PlatformIn(list: seq<Descriptor>, p: Option<Platform>)
    ensures HasPlatform(list, p) <==> exists e :: e in list && e.platform == p
  {
    if HasPlatform(list, p) {
      var i :| 0 <= i < |list| && list[i].platform == p;
      assert list[i] in list;
    }
  }

  lemma {:induction false} UpsertAllPlatforms(list: seq<Descriptor>, ds: seq<Descriptor>, p: Option<Platform>)
    ensures HasPlatform(UpsertAll(list, ds), p) <==> HasPlatform(list, p) || HasPlatform(ds, p)
  {
    hide Upsert;
    if ds == [] {
    } else {
      var front, last := ds[..|ds| - 1], ds[|ds| - 1];
      assert ds == front + [last];
      UpsertAllPlatforms(list, front, p);
      UpsertPlatforms(UpsertAll(list, front), last, p);
      assert HasPlatform(ds, p) <==> HasPlatform(front, p) || last.platform == p;
    }
  }

  /** A composed index has exactly the platforms of what was read, of what the
      tags list, and its writer's own. */
  lemma ComposePlatforms(read: seq<Descriptor>, listed: seq<Descriptor>, own: Descriptor, p: Option<Platform>)
    ensures HasPlatform(Compose(read, listed, own), p)
      <==> HasPlatform(read, p) || HasPlatform(listed, p) || own.platform == p
  {
    hide Upsert, UpsertAll, HasPlatform;
    UpsertAllPlatforms(read, listed, p);
    UpsertPlatforms(UpsertAll(read, listed), own, p);
  }

  // ----- listing the platform tags -------------------------------------------

  /** The manifests listed for a version, in the order the registry lists tags. */
  function Listed(ver: string, tags: map<string, Descriptor>, order: seq<string>): seq<Descriptor> {
    if order == [] then []
    else
      var t := order[|order| - 1];
      Listed(ver, tags, order[..|order| - 1])
      + if t !in tags then []
        else match ReadTag(ver, t, tags[t])
             case None => []
             case Some(d) => [d]
  }

  /** Every tag is listed; a name that is not a tag is passed over. */
  ghost predicate IsListing(order: seq<string>, tags: map<string, Descriptor>) {
    forall t :: t in tags ==> t in order
  }

  predicate Reads(ver: string, tags: map<string, Descriptor>, t: string, d: Descriptor) {
    t in tags && ReadTag(ver, t, tags[t]) == Some(d)
  }

  lemma {:induction false} ListedFrom(ver: string, tags: map<string, Descriptor>, order: seq<string>, d: Descriptor)
    ensures d in Listed(ver, tags, order) <==> exists t :: t in order && Reads(ver, tags, t, d)
  {
    hide ReadTag, Reads, Listed;
    ListedStep(ver, tags, order, d);
    if order == [] {
    } else {
      var front, last := order[..|order| - 1], order[|order| - 1];
      assert order == front + [last];
      ListedFrom(ver, tags, front, d);
    }
  }

  lemma ListedStep(ver: string, tags: map<string, Descriptor>, order: seq<string>, d: Descriptor)
    ensures order == [] ==> d !in Listed(ver, tags, order)
    ensures order != [] ==>
      (d in Listed(ver, tags, order)
       <==> d in Listed(ver, tags, order[..|order| - 1]) || Reads(ver, tags, order[|order| - 1], d))
  {
    hide ReadTag;
  }

  /** A listing says exactly what the tags say. */
  lemma ListedMembers(ver: string, tags: map<string, Descriptor>, order: seq<string>, d: Descriptor)
    requires IsListing(order, tags)
    ensures d in Listed(ver, tags, order) <==> exists t :: Reads(ver, tags, t, d)
  {
    hide ReadTag, Listed;
    ListedFrom(ver, tags, order, d);
  }

  function Fetch(index: Option<seq<Descriptor>>): seq<Descriptor> {
    if index.Some? then index.value else []
  }

  // ----- one machine at a time -------------------------------------------------

  /** Puts `d` back into the index when it is not there. */
  function Ensure(ver: string, tags: map<string, Descriptor>, order: seq<string>,
                  index: Option<seq<Descriptor>>, d: Descriptor): Option<seq<Descriptor>>
  {
    if HasManifest(Fetch(index), d) then index
    else Some(Compose(Fetch(index), Listed(ver, tags, order), d))
  }

  /** How often a publisher composes an index before it gives up. */
  const ATTEMPTS := 6

  /** A call on the index, or a moment in which another machine may write; each
      with the entries then listed. */
  datatype Call = Read(list: seq<Descriptor>) | Wrote(list: seq<Descriptor>) | Moment(list: seq<Descriptor>)

  /** A round begins by reading the index and writing what is composed of it. */
  ghost predicate Begins(calls: seq<Call>, listed: seq<Descriptor>, d: Descriptor) {
    && |calls| >= 4 && calls[0].Read? && calls[1].Moment? && calls[2].Moment?
    && calls[3] == Wrote(Compose(calls[0].list, listed, d))
  }

  /** A check: a moment passes, and what then stands is read. */
  ghost predicate Checks(calls: seq<Call>, i: nat, d: Descriptor, listed: bool) {
    && i + 2 <= |calls| && calls[i].Moment? && calls[i + 1] == Read(calls[i].list)
    && (HasManifest(calls[i].list, d) <==> listed)
  }

  /** A round that is confirmed twice. */
  ghost predicate Confirmed(calls: seq<Call>, listed: seq<Descriptor>, d: Descriptor) {
    |calls| == 8 && Begins(calls, listed, d) && Checks(calls, 4, d, true) && Checks(calls, 6, d, true)
  }

  /** A round whose first or second check fails, and the pause after it. */
  ghost predicate Taken(calls: seq<Call>, listed: seq<Descriptor>, d: Descriptor) {
    && Begins(calls, listed, d)
    && ((|calls| == 7 && Checks(calls, 4, d, false) && calls[6].Moment?)
        || (|calls| == 9 && Checks(calls, 4, d, true) && Checks(calls, 6, d, false) && calls[8].Moment?))
  }

  /** So many rounds, each of them taken back. */
  ghost predicate AllTaken(calls: seq<Call>, n: nat, listed: seq<Descriptor>, d: Descriptor)
    decreases n
  {
    if n == 0 then calls == []
    else exists k :: 0 <= k <= |calls| && AllTaken(calls[..k], n - 1, listed, d) && Taken(calls[k..], listed, d)
  }

  lemma OneMoreTaken(calls: seq<Call>, n: nat, round: seq<Call>, listed: seq<Descriptor>, d: Descriptor)
    requires AllTaken(calls, n, listed, d) && Taken(round, listed, d)
    ensures AllTaken(calls + round, n + 1, listed, d)
  {
    hide Taken;
    var all := calls + round;
    assert all[..|calls|] == calls && all[|calls|..] == round;
  }

  class Registry {
    /** The calls on the index and the moments between them, so far. */
    ghost var log: seq<Call>
    var index: Option<seq<Descriptor>>
    var tags: map<string, Descriptor>
    /** What the other machines do to the index at the moments to come: the
        index one of them writes, or nothing. */
    var pending: seq<Option<seq<Descriptor>>>

    constructor (tags: map<string, Descriptor>, pending: seq<Option<seq<Descriptor>>>)
      ensures this.tags == tags && this.pending == pending && index == None && log == []
    {
      this.tags := tags;
      this.pending := pending;
      index := None;
      log := [];
    }

    method FetchIndex() returns (list: seq<Descriptor>)
      modifies this`log
      ensures list == Fetch(index) && log == old(log) + [Read(list)]
    {
      list := Fetch(index);
      log := log + [Read(list)];
    }

    method TagIndex(list: seq<Descriptor>)
      modifies this`index, this`log
      ensures index == Some(list) && log == old(log) + [Wrote(list)]
    {
      index := Some(list);
      log := log + [Wrote(list)];
    }

    /** A moment in which another machine may write. */
    method Settle()
      modifies this`index, this`pending, this`log
      ensures log == old(log) + [Moment(Fetch(index))]
      ensures old(pending) == [] ==> index == old(index) && pending == []
      ensures old(pending) != [] ==>
        && pending == old(pending)[1..]
        && index == if old(pending)[0].Some? then old(pending)[0] else old(index)
    {
      if pending != [] {
        if pending[0].Some? { index := pending[0]; }
        pending := pending[1..];
      }
      log := log + [Moment(Fetch(index))];
    }

    method PlatformManifests(ver: string) returns (out: seq<Descriptor>)
      ensures out == Listed(ver, tags, Ascending(tags.Keys))
    {
      hide ReadTag, Ascending;
      var names := SortedKeys(tags);
      AscendingMembers(tags.Keys);
      out := [];
      var i := 0;
      while i < |names|
        invariant 0 <= i <= |names|
        invariant out == Listed(ver, tags, names[..i])
      {
        assert names[..i + 1][..i] == names[..i];
        assert names[i] in names;
        match ReadTag(ver, names[i], tags[names[i]]) {
          case None =>
          case Some(d) => out := out + [d];
        }
        i := i + 1;
      }
      assert names[..i] == names;
    }

    /** One composition of the index, in a slice that grows in place. */
    method ComposeIndex(idx: seq<Descriptor>, ver: string, d: Descriptor) returns (list: seq<Descriptor>)
      ensures list == Compose(idx, Listed(ver, tags, Ascending(tags.Keys)), d)
    {
      hide Listed, Upsert, UpsertAll, Ascending;
      var listed := PlatformManifests(ver);
      var buf := new Descriptor[|idx|](i requires 0 <= i < |idx| => idx[i]);
      var n: nat, i := |idx|, 0;
      assert buf[..n] == idx && listed[..0] == [];
      UpsertNone(idx);
      while i < |listed|
        invariant 0 <= i <= |listed| && n <= buf.Length && fresh(buf)
        invariant buf[..n] == UpsertAll(idx, listed[..i])
      {
        UpsertOne(idx, listed, i);
        buf, n := UpsertPlatform(buf, n, listed[i]);
        i := i + 1;
      }
      assert listed[..i] == listed;
      buf, n := UpsertPlatform(buf, n, d);
      list := buf[..n];
    }

    /** The calls since `before` are at most five rounds taken back and one
        confirmed twice, the second time by the index that now stands. */
    ghost predicate Merged(before: seq<Call>, listed: seq<Descriptor>, d: Descriptor)
      reads this
    {
      exists n: nat, calls: seq<Call>, round: seq<Call> ::
        && n < 6 && AllTaken(calls, n, listed, d) && Confirmed(round, listed, d)
        && log == before + calls + round && Fetch(index) == round[7].list
    }

    /** The calls since `before` are six rounds, all of them taken back. */
    ghost predicate Defeated(before: seq<Call>, listed: seq<Descriptor>, d: Descriptor)
      reads this
    {
      exists calls: seq<Call> :: AllTaken(calls, 6, listed, d) && log == before + calls
    }

    /** Reads the index, writes what is composed of it, and looks once. */
    method WriteIndex(ver: string, d: Descriptor) returns (found: seq<Descriptor>, ghost calls: seq<Call>)
      modifies this`index, this`pending, this`log
      ensures |calls| == 6 && calls[4] == Moment(found) && log == old(log) + calls
      ensures Begun(calls, Listed(ver, tags, Ascending(tags.Keys)), d) && found == Fetch(index)
      ensures old(pending) == [] ==>
        && index == Some(Compose(Fetch(old(index)), Listed(ver, tags, Ascending(tags.Keys)), d)) && pending == []
        && HasManifest(found, d)
    {
      hide *;
      ghost var listed := Listed(ver, tags, Ascending(tags.Keys));
      var idx := FetchIndex();
      Settle();
      ghost var m1 := Fetch(index);
      var list := ComposeIndex(idx, ver, d);
      ComposedHas(idx, listed, d);
      Settle();
      ghost var m2 := Fetch(index);
      TagIndex(list);
      FetchSome(list);
      Settle();
      found := FetchIndex();
      calls := [Read(idx), Moment(m1), Moment(m2), Wrote(list), Moment(found), Read(found)];
      SixCalls(old(log), calls);
      BegunIs(idx, m1, m2, found, listed, d);
    }

    /** Writes a composed index and confirms it twice, again and again while
        others take it back. */
    method MergePlatform(ver: string, d: Descriptor) returns (ok: bool)
      modifies this`index, this`pending, this`log
      ensures ok ==> HasManifest(Fetch(index), d)
      ensures
        var listed := Listed(ver, tags, Ascending(tags.Keys));
        if ok then Merged(old(log), listed, d) else Defeated(old(log), listed, d)
      ensures old(pending) == [] ==>
        ok && index == Some(Compose(Fetch(old(index)), Listed(ver, tags, Ascending(tags.Keys)), d)) && pending == []
    {
      hide *;
      ghost var listed := Listed(ver, tags, Ascending(tags.Keys));
      ghost var calls: seq<Call> := [];
      NoneTaken(listed, d);
      var attempt := 0;
      while attempt < ATTEMPTS
        invariant 0 <= attempt <= 6 && AllTaken(calls, attempt, listed, d) && log == old(log) + calls
        invariant old(pending) == [] ==> attempt == 0 && index == old(index) && pending == []
      {
        AttemptsAre();
        ghost var start := log;
        var found; ghost var begun;
        found, begun := WriteIndex(ver, d);
        ghost var more: seq<Call> := [];
        if HasManifest(found, d) {
          Settle();
          var again := FetchIndex();
          more := [Moment(again), Read(again)];
          TwoCalls(start, begun, more);
          if HasManifest(again, d) {
            RoundConfirmed(begun, again, listed, d);
            MergedIs(old(log), calls, begun + more, attempt, listed, d);
            return true;
          }
          SecondIs(again, d);
        } else {
          NoCalls(start, begun);
        }
        Settle();
        RoundTaken(begun, more, Fetch(index), listed, d);
        ghost var round := begun + more + [Moment(Fetch(index))];
        OneMoreTaken(calls, attempt, round, listed, d);
        OneCall(old(log), calls, begun + more, Moment(Fetch(index)));
        calls := calls + round;
        attempt := attempt + 1;
      }
      AttemptsAre();
      DefeatedIs(old(log), calls, listed, d);
      return false;
    }

    lemma MergedIs(before: seq<Call>, calls: seq<Call>, round: seq<Call>, n: nat, listed: seq<Descriptor>,
                   d: Descriptor)
      requires n < 6 && AllTaken(calls, n, listed, d) && Confirmed(round, listed, d)
      requires log == before + calls + round && |round| == 8 && Fetch(index) == round[7].list
      ensures Merged(before, listed, d)
    {
      hide AllTaken, Confirmed;
    }

    lemma DefeatedIs(before: seq<Call>, calls: seq<Call>, listed: seq<Descriptor>, d: Descriptor)
      requires AllTaken(calls, 6, listed, d) && log == before + calls
      ensures Defeated(before, listed, d)
    {
      hide AllTaken;
    }

    /** Puts `d` back into the index when it is not there. */
    method EnsureIndexed(ver: string, d: Descriptor) returns (repaired: bool, ok: bool)
      modifies this`index, this`pending, this`log
      ensures ok ==> HasManifest(Fetch(index), d)
      ensures ok ==> (repaired <==> !HasManifest(Fetch(old(index)), d))
      ensures !repaired && ok ==> index == old(index) && pending == old(pending)
      ensures repaired ==>
        Merged(old(log) + [Read(Fetch(old(index)))], Listed(ver, tags, Ascending(tags.Keys)), d)
      ensures old(pending) == [] ==>
        ok && index == Ensure(ver, tags, Ascending(tags.Keys), old(index), d) && pending == []
    {
      hide Listed, Compose, HasManifest, Ascending, AllTaken, Confirmed;
      var idx := FetchIndex();
      if HasManifest(idx, d) { return false, true; }
      ok := MergePlatform(ver, d);
      repaired := ok;
    }
  }

  lemma SixCalls(start: seq<Call>, s: seq<Call>)
    requires |s| == 6
    ensures start + [s[0]] + [s[1]] + [s[2]] + [s[3]] + [s[4]] + [s[5]] == start + s
  {
  }

  lemma TwoCalls(start: seq<Call>, s: seq<Call>, t: seq<Call>)
    requires |t| == 2
    ensures start + s + [t[0]] + [t[1]] == start + (s + t)
  {
  }

  lemma NoCalls(start: seq<Call>, s: seq<Call>)
    ensures start + s == start + (s + [])
  {
  }

  lemma OneCall(before: seq<Call>, calls: seq<Call>, s: seq<Call>, c: Call)
    ensures before + calls + s + [c] == before + (calls + (s + [c]))
    ensures before + calls + (s + [c]) == before + (calls + (s + [c]))
  {
  }

  lemma AttemptsAre()
    ensures ATTEMPTS == 6
  {
  }

  lemma FetchSome(list: seq<Descriptor>)
    ensures Fetch(Some(list)) == list
  {
  }

  /** Six calls begin a round whose first check has been made. */
  ghost predicate Begun(calls: seq<Call>, listed: seq<Descriptor>, d: Descriptor) {
    && |calls| == 6 && Begins(calls, listed, d)
    && calls[4].Moment? && calls[5] == Read(calls[4].list)
  }

  lemma BegunIs(idx: seq<Descriptor>, m1: seq<Descriptor>, m2: seq<Descriptor>, m3: seq<Descriptor>,
                listed: seq<Descriptor>, d: Descriptor)
    ensures
      Begun([Read(idx), Moment(m1), Moment(m2), Wrote(Compose(idx, listed, d)), Moment(m3), Read(m3)], listed, d)
  {
    hide Compose;
  }

  lemma RoundConfirmed(begun: seq<Call>, m: seq<Descriptor>, listed: seq<Descriptor>, d: Descriptor)
    requires Begun(begun, listed, d) && |begun| == 6 && begun[4].Moment?
    requires HasManifest(begun[4].list, d) && HasManifest(m, d)
    ensures Confirmed(begun + [Moment(m), Read(m)], listed, d)
  {
    hide Compose, HasManifest;
  }

  lemma RoundTaken(begun: seq<Call>, more: seq<Call>, m: seq<Descriptor>, listed: seq<Descriptor>, d: Descriptor)
    requires Begun(begun, listed, d) && |begun| == 6 && begun[4].Moment?
    requires if HasManifest(begun[4].list, d) then |more| == 2 && Second(more, d) else more == []
    ensures Taken(begun + more + [Moment(m)], listed, d)
  {
    hide Compose, HasManifest;
  }

  /** A second check that fails. */
  ghost predicate Second(more: seq<Call>, d: Descriptor)
    requires |more| == 2
  {
    more[0].Moment? && more[1] == Read(more[0].list) && !HasManifest(more[0].list, d)
  }

  lemma SecondIs(m: seq<Descriptor>, d: Descriptor)
    ensures Second([Moment(m), Read(m)], d) <==> !HasManifest(m, d)
  {
    hide HasManifest;
  }

  lemma NoneTaken(listed: seq<Descriptor>, d: Descriptor)
    ensures AllTaken([], 0, listed, d)
  {
  }

  lemma ComposedHas(read: seq<Descriptor>, listed: seq<Descriptor>, d: Descriptor)
    ensures HasManifest(Compose(read, listed, d), d)
  {
    hide Compose;
    ComposeMembers(read, listed, d, d);
    var list := Compose(read, listed, d);
    var i :| 0 <= i < |list| && list[i] == d;
  }

  lemma UpsertNone(list: seq<Descriptor>)
    ensures UpsertAll(list, []) == list
  {
  }

  lemma UpsertOne(list: seq<Descriptor>, ds: seq<Descriptor>, i: nat)
    requires i < |ds|
    ensures UpsertAll(list, ds[..i + 1]) == Upsert(UpsertAll(list, ds[..i]), ds[i])
  {
    hide Upsert;
    assert ds[..i + 1][..i] == ds[..i];
  }
}
