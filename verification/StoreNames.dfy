/** Directory names in the store (storepath.go, concrete.go): a build's
    directory carries its version and its hash, and is read back from them. */
module StoreNames {
  import opened Options
  import opened Text
  import opened Versions
  import opened TagSelection

  /** The directory a reader computes: hashed only when the variant is known. */
  function StoreDirName(v: Ver): string {
    "v" + v.raw + (if v.variant != "" then VARIANT_SEP + v.variant else "")
  }

  /** The directory a build occupies: always hashed. */
  function StoreBuildDirName(v: Ver, hash: string): string
    requires hash != ""
  {
    "v" + v.raw + VARIANT_SEP + hash
  }

  /** What a directory name says about the bottle inside it. */
  function ParseStoreDirName(name: string): Option<Ver> {
    if !HasPrefix(name, "v") then None
    else
      var body := name[1..];
      if body == "" || !IsDigit(body[0]) then None
      else
        var (raw, hash) := SplitVariantHash(body);
        Some(Parsed(raw).(variant := hash))
  }

  /** The names as they stand on disk. */
  lemma NamesOnDisk(v: Ver, hash: string)
    requires v.raw == "1.2" && v.variant == "" && hash != ""
    ensures StoreDirName(v) == "v1.2" && StoreBuildDirName(v, hash) == "v1.2-h" + hash
  {
    assert "v" + "1.2" == "v1.2" && "v1.2" + "-h" == "v1.2-h";
  }

  /** A version the directory name preserves: led by a digit, no outer space. */
  predicate Nameable(raw: string) { raw != "" && IsDigit(raw[0]) && Trimmed(raw) }

  lemma ParsedRawKept(raw: string)
    requires raw != "" && IsDigit(raw[0])
    ensures Parsed(raw).raw == raw <==> Trimmed(raw)
  {
    TrimSpaceFixed(raw);
    hide RebuildSplit, Split, Components;
    var t := TrimSpace(raw);
    assert raw[..1] == [raw[0]];
    LeadKept(raw);
    hide TrimSpace;
    assert t[..1] == [t[0]];
  }

  lemma LeadKept(raw: string)
    requires raw != "" && IsDigit(raw[0])
    ensures TrimSpace(raw) != "" && TrimSpace(raw)[0] == raw[0]
  {
    TrimLeftKeeps(raw);
    TrimRightKeeps(raw);
    hide TrimLeft, TrimRight;
  }

  lemma TrimLeftKeeps(s: string)
    requires s != "" && !IsSpace(s[0])
    ensures TrimLeft(s, IsSpace) == s
  {
  }

  lemma {:induction false} TrimRightKeeps(s: string)
    requires s != "" && !IsSpace(s[0])
    ensures TrimRight(s, IsSpace) != "" && TrimRight(s, IsSpace)[0] == s[0]
  {
    if !IsSpace(s[|s| - 1]) {
    } else {
      TrimRightKeeps(s[..|s| - 1]);
    }
  }

  /** The directory of a build reads back as that build exactly when its
      version is one a directory name preserves. */
  lemma BuildNameRoundTrip(v: Ver, hash: string)
    requires IsVariantHash(hash)
    ensures var w := ParseStoreDirName(StoreBuildDirName(v, hash));
      (w.Some? && w.value.raw == v.raw && w.value.variant == hash) <==> Nameable(v.raw)
  {
    assert hash != "";
    hide *;
    BuildNameBody(v, hash);
    NameableIs(v.raw);
    if v.raw != "" {
      SplitJoined(v.raw, hash);
      if IsDigit(v.raw[0]) { ParsedRawKept(v.raw); }
    }
  }

  lemma NameableIs(raw: string)
    ensures Nameable(raw) <==> raw != "" && IsDigit(raw[0]) && Trimmed(raw)
  {
    hide Trimmed;
  }

  lemma BuildNameBody(v: Ver, hash: string)
    requires hash != ""
    ensures
      var (raw, h) := SplitVariantHash(v.raw + VARIANT_SEP + hash);
      ParseStoreDirName(StoreBuildDirName(v, hash)) ==
        if v.raw != "" && IsDigit(v.raw[0]) then Some(Parsed(raw).(variant := h)) else None
  {
    hide Parsed, SplitVariantHash;
    var name, body := StoreBuildDirName(v, hash), v.raw + VARIANT_SEP + hash;
    assert name[..1] == "v" && name[1..] == body;
    assert body[0] == if v.raw == "" then '-' else v.raw[0];
  }

  /** A version's plain directory name reads back as it exactly when the name
      preserves the version and no part of that looks like a hash; a hashed
      version's name is its build's. */
  lemma DirNameRoundTrip(v: Ver)
    ensures v.variant != "" ==> StoreDirName(v) == StoreBuildDirName(v, v.variant)
    ensures
      var w := ParseStoreDirName(StoreDirName(v.(variant := "")));
      (w.Some? && w.value.raw == v.raw && w.value.variant == "")
      <==> Nameable(v.raw) && SplitVariantHash(v.raw) == (v.raw, "")
  {
    hide Parsed, SplitVariantHash, Trimmed;
    var name := StoreDirName(v.(variant := ""));
    assert name[..1] == "v" && name[1..] == v.raw;
    SplitVariantWhole(v.raw);
    if v.raw != "" && IsDigit(v.raw[0]) { ParsedRawKept(v.raw); }
  }

  lemma SplitVariantWhole(s: string)
    ensures SplitVariantHash(s).1 == "" ==> SplitVariantHash(s).0 == s
  {
  }

  /** Two builds share a directory only when they are one version and one hash. */
  lemma BuildNamesDistinct(v: Ver, hash: string, w: Ver, hash': string)
    requires IsVariantHash(hash) && IsVariantHash(hash')
    requires v.raw != "" && w.raw != ""
    ensures StoreBuildDirName(v, hash) == StoreBuildDirName(w, hash') <==> v.raw == w.raw && hash == hash'
  {
    if StoreBuildDirName(v, hash) == StoreBuildDirName(w, hash') {
      var s, s' := v.raw + VARIANT_SEP + hash, w.raw + VARIANT_SEP + hash';
      assert StoreBuildDirName(v, hash)[1..] == s && StoreBuildDirName(w, hash')[1..] == s';
      SplitJoined(v.raw, hash);
      SplitJoined(w.raw, hash');
    }
  }

  /** Finds the installed build a version names. `onDisk` says which directories
      exist under the project; several builds of one version are ambiguous. */
  method ResolveBuild(v: Ver, installed: seq<Ver>, onDisk: string -> bool) returns (dir: Option<string>)
    ensures v.variant != "" ==>
      dir == if onDisk(StoreBuildDirName(v, v.variant)) then Some(StoreBuildDirName(v, v.variant)) else None
    ensures v.variant == "" ==>
      (dir.Some? <==> exists i :: OnlyBuild(installed, v.raw, i) && installed[i].variant != "")
    ensures v.variant == "" && dir.Some? ==>
      exists i :: OnlyBuild(installed, v.raw, i) && installed[i].variant != ""
                  && dir.value == StoreBuildDirName(installed[i], installed[i].variant)
  {
    if v.variant != "" {
      return if onDisk(StoreBuildDirName(v, v.variant)) then Some(StoreBuildDirName(v, v.variant)) else None;
    }
    var found, where := BuildsOf(installed, v.raw);
    if |found| == 1 { assert OnlyBuild(installed, v.raw, where[0]); }
    if |found| > 1 { assert where[0] != where[1]; }
    if |found| != 1 || found[0].variant == "" { return None; }
    return Some(StoreBuildDirName(found[0], found[0].variant));
  }

  /** The installed builds of a version, and where they stand. */
  method BuildsOf(installed: seq<Ver>, raw: string) returns (found: seq<Ver>, ghost where: seq<nat>)
    ensures |where| == |found|
    ensures forall k :: 0 <= k < |found| ==>
      where[k] < |installed| && installed[where[k]] == found[k] && found[k].raw == raw
    ensures forall j, k :: 0 <= j < k < |where| ==> where[j] < where[k]
    ensures forall j :: 0 <= j < |installed| && installed[j].raw == raw ==> j in where
  {
    found, where := [], [];
    var i := 0;
    while i < |installed|
      invariant 0 <= i <= |installed| && |where| == |found|
      invariant forall k :: 0 <= k < |found| ==> where[k] < i && installed[where[k]] == found[k] && found[k].raw == raw
      invariant forall j, k :: 0 <= j < k < |where| ==> where[j] < where[k]
      invariant forall j :: 0 <= j < i && installed[j].raw == raw ==> j in where
    {
      if installed[i].raw == raw {
        found := found + [installed[i]];
        where := where + [i];
      }
      i := i + 1;
    }
  }

  /** The entry at `i` is the one installed build of that version. */
  ghost predicate OnlyBuild(installed: seq<Ver>, raw: string, i: int) {
    0 <= i < |installed| && installed[i].raw == raw
    && forall j :: 0 <= j < |installed| && installed[j].raw == raw ==> j == i
  }
}
