/** From a registry's tag listing to the candidate versions (pkgx.go,
    glibc.go, versionstring.go), and back to the tags a version may live
    under. */
module TagSelection {
  import opened Sorting
  import opened Text
  import opened Versions
  import Identity

  // ----- what a tag says ----------------------------------------------------

  const MAX_VERSION_STRING := 64

  predicate VersionChar(c: char) {
    IsDigit(c) || 'a' <= c <= 'z' || 'A' <= c <= 'Z' || c == '.' || c == '-' || c == '+' || c == '_' || c == '~'
  }

  predicate IsVersionTag(tag: string) {
    && 0 < |tag| <= MAX_VERSION_STRING
    && (forall i :: 0 <= i < |tag| ==> VersionChar(tag[i]))
    && var s := TrimPrefix(TrimPrefix(tag, "v"), "V");
       s != "" && IsDigit(s[0])
  }

  const FLAVOR_SEP := "-glibc"

  /** The version and the glibc it was built against, "" for an ordinary tag. */
  function SplitFlavor(tag: string): (string, string) {
    var i := LastIndex(tag, FLAVOR_SEP);
    if i <= 0 then (tag, "") else (tag[..i], tag[i + |FLAVOR_SEP|..])
  }

  const VARIANT_SEP := "-h"
  predicate IsVariantHash(s: string) {
    |s| == Identity.HASH_LEN && forall i :: 0 <= i < |s| ==> 'a' <= s[i] <= 'z' || '2' <= s[i] <= '7'
  }

  /** Cuts a trailing variant hash; anything else is part of the version. */
  function SplitVariantHash(tag: string): (string, string) {
    var i := LastIndex(tag, VARIANT_SEP);
    if i <= 0 || !IsVariantHash(tag[i + |VARIANT_SEP|..]) then (tag, "")
    else (tag[..i], tag[i + |VARIANT_SEP|..])
  }

  /** A hash after a version is cut off again, whatever the version holds. */
  lemma SplitJoined(raw: string, hash: string)
    requires IsVariantHash(hash) && raw != ""
    ensures SplitVariantHash(raw + VARIANT_SEP + hash) == (raw, hash)
  {
    var s := raw + VARIANT_SEP + hash;
    var at := |raw|;
    assert s[at..at + 2] == VARIANT_SEP;
    assert OccursAt(s, VARIANT_SEP, at);
    assert s[at + 1] == 'h';
    assert forall j :: 0 <= j < |hash| ==> s[at + 2 + j] == hash[j] != '-';
    forall k | at < k && k + 2 <= |s| ensures !OccursAt(s, VARIANT_SEP, k) {
      assert s[k] != '-' by { if k > at + 1 { assert s[at + 2 + (k - at - 2)] != '-'; } }
      assert s[k..k + 2][0] == s[k];
    }
    var i := LastIndex(s, VARIANT_SEP);
    assert i == at;
    assert s[..i] == raw && s[i + 2..] == hash;
  }

  // ----- numeric identity ---------------------------------------------------

  /** The components without trailing zeros; one component always stays. */
  function Significant(nums: seq<nat>): (r: seq<nat>)
    ensures |r| <= |nums| && (nums != [] ==> r != [])
  {
    if |nums| > 1 && nums[|nums| - 1] == 0 then Significant(nums[..|nums| - 1]) else nums
  }

  function Numerals(nums: seq<nat>): (r: seq<string>)
    ensures |r| == |nums| && forall i :: 0 <= i < |nums| ==> r[i] == Itoa(nums[i])
  {
    seq(|nums|, i requires 0 <= i < |nums| => Itoa(nums[i]))
  }

  function Dotted(nums: seq<nat>): string { Join(Numerals(nums), '.') }

  function RebuildSuffix(rebuild: nat): string { if rebuild != 0 then "_" + Itoa(rebuild) else "" }

  function VariantSuffix(variant: string): string { if variant != "" then VARIANT_SEP + variant else "" }

  /** A version's identity: its significant numbers, its rebuild, its variant. */
  function NumericKey(v: Ver): string {
    Dotted(Significant(v.nums)) + (RebuildSuffix(v.rebuild) + VariantSuffix(v.variant))
  }

  method MakeNumericKey(v: Ver) returns (key: string)
    requires v.nums != []
    ensures key == NumericKey(v)
  {
    hide *;
    var n := |v.nums|;
    assert v.nums[..n] == v.nums;
    while n > 1 && v.nums[n - 1] == 0
      invariant 1 <= n <= |v.nums|
      invariant Significant(v.nums) == Significant(v.nums[..n])
    {
      assert v.nums[..n][..n - 1] == v.nums[..n - 1];
      SignificantStep(v.nums[..n]);
      n := n - 1;
    }
    SignificantStep(v.nums[..n]);
    var parts := Render(v.nums[..n]);
    key := Join(parts, '.');
    var suffix := "";
    if v.rebuild != 0 { suffix := suffix + "_" + Itoa(v.rebuild); }
    if v.variant != "" { suffix := suffix + VARIANT_SEP + v.variant; }
    KeyIs(v, suffix);
    key := key + suffix;
  }

  lemma KeyIs(v: Ver, suffix: string)
    requires suffix
      == (if v.rebuild != 0 then "" + "_" + Itoa(v.rebuild) else "")
         + if v.variant != "" then VARIANT_SEP + v.variant else ""
    ensures NumericKey(v) == Join(Numerals(Significant(v.nums)), '.') + suffix
  {
    hide Join, Numerals, Significant, Itoa;
  }

  lemma SignificantStep(nums: seq<nat>)
    requires nums != []
    ensures
      Significant(nums)
      == if |nums| > 1 && nums[|nums| - 1] == 0 then Significant(nums[..|nums| - 1]) else nums
  {
  }

  method Render(nums: seq<nat>) returns (parts: seq<string>)
    ensures parts == Numerals(nums)
  {
    hide Itoa, Numerals;
    parts := [];
    var i := 0;
    while i < |nums|
      invariant 0 <= i <= |nums| && |parts| == i
      invariant forall k :: 0 <= k < i ==> parts[k] == Itoa(nums[k])
    {
      parts := parts + [Itoa(nums[i])];
      i := i + 1;
    }
  }

  lemma {:induction false} SignificantAt(nums: seq<nat>)
    ensures forall i: nat :: At(Significant(nums), i) == At(nums, i)
    ensures var r := Significant(nums); |r| > 1 ==> r[|r| - 1] != 0
  {
    if |nums| <= 1 || nums[|nums| - 1] != 0 {
    } else {
      SignificantAt(nums[..|nums| - 1]);
    }
  }

  lemma SignificantDecides(x: seq<nat>, y: seq<nat>)
    requires x != [] && y != []
    ensures CompareNums(x, y) == 0 <==> Significant(x) == Significant(y)
  {
    var a, b := Significant(x), Significant(y);
    SignificantAt(x);
    SignificantAt(y);
    CompareNumsZero(x, y);
    if CompareNums(x, y) == 0 {
      forall i: nat ensures At(a, i) == At(b, i) {
        assert At(a, i) == At(x, i) == At(y, i) == At(b, i);
      }
      assert At(a, |a| - 1) == At(b, |a| - 1);
      assert At(a, |b| - 1) == At(b, |b| - 1);
      assert |a| == |b|;
      forall i | 0 <= i < |a| ensures a[i] == b[i] { assert At(a, i) == At(b, i); }
    }
    if a == b {
      forall i: nat ensures At(x, i) == At(y, i) { assert At(a, i) == At(b, i); }
    }
  }

  /** A run in a class, then something outside it, splits one way only. */
  lemma {:induction false} SpanUnique(a: string, x: string, b: string, y: string, inside: char -> bool)
    requires forall i :: 0 <= i < |a| ==> inside(a[i])
    requires forall i :: 0 <= i < |b| ==> inside(b[i])
    requires x == [] || !inside(x[0])
    requires y == [] || !inside(y[0])
    requires a + x == b + y
    ensures a == b && x == y
  {
    assert a + x == if a == [] then x else [a[0]] + (a[1..] + x);
    assert b + y == if b == [] then y else [b[0]] + (b[1..] + y);
    if a == [] || b == [] {
    } else {
      Cut(a[0], a[1..] + x, b[0], b[1..] + y);
      SpanUnique(a[1..], x, b[1..], y, inside);
      assert a == [a[0]] + a[1..] && b == [b[0]] + b[1..];
    }
  }

  lemma Cut(c: char, x: string, d: char, y: string)
    requires [c] + x == [d] + y
    ensures c == d && x == y
  {
    assert ([c] + x)[0] == c && ([c] + x)[1..] == x;
    assert ([d] + y)[0] == d && ([d] + y)[1..] == y;
  }

  predicate DigitOrDot(c: char) { IsDigit(c) || c == '.' }

  lemma {:induction false} DottedChars(nums: seq<nat>)
    requires nums != []
    ensures var d := Dotted(nums);
            d != [] && IsDigit(d[0]) && IsDigit(d[|d| - 1]) && forall i :: 0 <= i < |d| ==> DigitOrDot(d[i])
  {
    if |nums| <= 1 {
    } else {
      DottedChars(nums[1..]);
      assert Numerals(nums)[1..] == Numerals(nums[1..]);
    }
  }

  lemma DottedSplits(nums: seq<nat>)
    requires nums != []
    ensures Split(Dotted(nums), '.') == Numerals(nums)
  {
    forall p | p in Numerals(nums) ensures '.' !in p {
      var i :| 0 <= i < |nums| && p == Itoa(nums[i]);
      assert forall k :: 0 <= k < |p| ==> IsDigit(p[k]);
    }
    SplitJoin(Numerals(nums), '.');
  }

  lemma DottedInjective(x: seq<nat>, y: seq<nat>)
    requires x != [] && y != [] && Dotted(x) == Dotted(y)
    ensures x == y
  {
    DottedSplits(x);
    DottedSplits(y);
    forall i | 0 <= i < |x| ensures x[i] == y[i] {
      assert Numerals(x)[i] == Numerals(y)[i];
      NumeralItoa(x[i]);
      NumeralItoa(y[i]);
    }
  }

  predicate DigitOrBar(c: char) { IsDigit(c) || c == '_' }

  lemma SuffixesDecide(ra: nat, va: string, rb: nat, vb: string)
    requires RebuildSuffix(ra) + VariantSuffix(va) == RebuildSuffix(rb) + VariantSuffix(vb)
    ensures ra == rb && va == vb
  {
    SpanUnique(RebuildSuffix(ra), VariantSuffix(va), RebuildSuffix(rb), VariantSuffix(vb), DigitOrBar);
    NumeralItoa(ra);
    NumeralItoa(rb);
    assert ra != 0 ==> RebuildSuffix(ra)[1..] == Itoa(ra);
    assert rb != 0 ==> RebuildSuffix(rb)[1..] == Itoa(rb);
    assert va != "" ==> VariantSuffix(va)[2..] == va;
    assert vb != "" ==> VariantSuffix(vb)[2..] == vb;
  }

  lemma SuffixLeads(rebuild: nat, variant: string)
    ensures var s := RebuildSuffix(rebuild) + VariantSuffix(variant); s == [] || !DigitOrDot(s[0])
  {
  }

  /** The key is the identity: equal keys are equal versions, builds apart. */
  lemma KeyIdentifies(a: Ver, b: Ver)
    requires a.nums != [] && b.nums != []
    ensures NumericKey(a) == NumericKey(b) <==> Compare(a, b) == 0 && a.variant == b.variant
  {
    var x, y := Significant(a.nums), Significant(b.nums);
    SignificantDecides(a.nums, b.nums);
    if NumericKey(a) == NumericKey(b) {
      hide Dotted, Significant, RebuildSuffix, VariantSuffix;
      DottedChars(x);
      DottedChars(y);
      SuffixLeads(a.rebuild, a.variant);
      SuffixLeads(b.rebuild, b.variant);
      SpanUnique(Dotted(x), RebuildSuffix(a.rebuild) + VariantSuffix(a.variant),
                 Dotted(y), RebuildSuffix(b.rebuild) + VariantSuffix(b.variant), DigitOrDot);
      DottedInjective(x, y);
      SuffixesDecide(a.rebuild, a.variant, b.rebuild, b.variant);
    }
  }

  // ----- spellings -------------------------------------------------------

  predicate AllZero(nums: seq<nat>, n: nat) { forall k :: n <= k < |nums| ==> nums[k] == 0 }

  /** The numbers written to some length that drops only zeros, or one longer. */
  ghost predicate IsSpelling(nums: seq<nat>, t: string) {
    exists n :: 0 < n <= |nums| && AllZero(nums, n) && (t == Dotted(nums[..n]) || t == Dotted(nums[..n]) + ".0")
  }

  /** The tags that may carry this version. A tagged build and a rebuild have
      their own tag only. */
  ghost predicate Denotes(v: Ver, t: string) {
    t == v.PullTag() || (v.tag == "" && v.rebuild == 0 && IsSpelling(v.nums, t))
  }

  method TagSpellings(v: Ver) returns (out: seq<string>)
    ensures out != [] && out[0] == v.PullTag()
    ensures Distinct(out)
    ensures forall t :: t in out <==> Denotes(v, t)
  {
    var first := v.PullTag();
    out := [first];
    if v.tag != "" || v.rebuild != 0 { return; }
    var seen := {first};
    var n := |v.nums|;
    while n > 0
      invariant 0 <= n <= |v.nums|
      invariant out != [] && out[0] == first && Distinct(out)
      invariant forall t :: t in seen <==> t in out
      invariant forall t :: t in out ==> Denotes(v, t)
      invariant forall m :: n < m <= |v.nums| && AllZero(v.nums, m) ==>
        Dotted(v.nums[..m]) in out && Dotted(v.nums[..m]) + ".0" in out
    {
      if AllZero(v.nums, n) {
        var short := Dotted(v.nums[..n]);
        var long := short + ".0";
        if short !in seen { seen := seen + {short}; out := out + [short]; }
        if long !in seen { seen := seen + {long}; out := out + [long]; }
      }
      n := n - 1;
    }
  }

  lemma PlainReadsItself(t: string)
    requires t != "" && IsDigit(t[0]) && !IsSpace(t[|t| - 1])
    ensures BareVersion(t) == t
  {
    TrimSpaceFixed(t);
    hide TrimSpace;
    assert t[..1] == [t[0]];
  }

  lemma ParsedRaw(s: string)
    requires Parsed(s).raw != "" && IsDigit(Parsed(s).raw[0])
    ensures Parsed(Parsed(s).raw) == Parsed(s)
  {
    hide TrimSpace, RebuildSplit, Split, Components;
    var raw := Parsed(s).raw;
    var t := TrimSpace(s);
    assert raw == t || raw == t[1..];
    assert raw[|raw| - 1] == t[|t| - 1];
    PlainReadsItself(raw);
  }

  lemma ParsedDotted(nums: seq<nat>)
    requires nums != []
    ensures Parsed(Dotted(nums)) == Ver(Dotted(nums), nums, "", 0, "")
  {
    hide Dotted, LeadingNumber, BareVersion, Numerals;
    var d := Dotted(nums);
    DottedChars(nums);
    PlainReadsItself(d);
    NoRebuild(d);
    DottedSplits(nums);
    forall i | 0 <= i < |nums| ensures LeadingNumber(Numerals(nums)[i]) == nums[i] {
      ItoaReads(nums[i]);
    }
  }

  lemma NoRebuild(d: string)
    requires forall i :: 0 <= i < |d| ==> DigitOrDot(d[i])
    ensures RebuildSplit(d) == (d, 0)
  {
    forall k ensures !OccursAt(d, "_", k) {
      if 0 <= k < |d| { assert DigitOrDot(d[k]); assert d[k..k + 1] == [d[k]]; }
    }
  }

  lemma ItoaReads(n: nat)
    ensures LeadingNumber(Itoa(n)) == n
  {
    hide Itoa;
    var p := Itoa(n);
    assert p[..|p|] == p;
    DigitRunIs(p, |p|);
    NumeralItoa(n);
  }

  lemma {:induction false} DottedLonger(nums: seq<nat>)
    requires nums != []
    ensures Dotted(nums + [0]) == Dotted(nums) + ".0"
  {
    assert Itoa(0) == "0";
    var longer := nums + [0];
    assert Numerals(longer) == Numerals(nums) + ["0"];
    if |nums| == 1 {
      assert Join(["0"], '.') == "0";
      assert Numerals(longer)[1..] == ["0"];
    } else {
      DottedLonger(nums[1..]);
      assert longer[1..] == nums[1..] + [0];
      assert Numerals(longer)[1..] == Numerals(longer[1..]);
      assert Numerals(nums)[1..] == Numerals(nums[1..]);
    }
  }

  lemma PrefixTies(nums: seq<nat>, n: nat)
    requires n <= |nums| && AllZero(nums, n)
    ensures CompareNums(nums[..n], nums) == 0
    ensures CompareNums(nums[..n] + [0], nums) == 0
  {
    CompareNumsZero(nums[..n], nums);
    CompareNumsZero(nums[..n] + [0], nums);
  }

  lemma SpellingReads(v: Ver, n: nat, t: string)
    requires 0 < n <= |v.nums| && AllZero(v.nums, n) && v.rebuild == 0
    requires t == Dotted(v.nums[..n]) || t == Dotted(v.nums[..n]) + ".0"
    ensures Compare(Parsed(t), v) == 0
  {
    hide Parsed, Dotted, CompareNums;
    PrefixTies(v.nums, n);
    ParsedDotted(v.nums[..n]);
    ParsedDotted(v.nums[..n] + [0]);
    DottedLonger(v.nums[..n]);
  }

  /** Every spelling offered for an untagged version reads back as it. */
  lemma SpellingsReadBack(s: string, t: string)
    requires Parsed(s).raw != "" && IsDigit(Parsed(s).raw[0])
    requires Denotes(Parsed(s), t)
    ensures Compare(Parsed(t), Parsed(s)) == 0
  {
    var v := Parsed(s);
    assert v.tag == "";
    hide Parsed, Dotted, AllZero, Compare;
    if t == v.raw {
      ParsedRaw(s);
      ComparePreorder(v, v, v);
    } else {
      var n :| 0 < n <= |v.nums| && AllZero(v.nums, n)
        && (t == Dotted(v.nums[..n]) || t == Dotted(v.nums[..n]) + ".0");
      SpellingReads(v, n, t);
    }
  }

  // ----- collapsing a listing ------------------------------------------------

  function Flavor(t: string): string { SplitFlavor(t).1 }

  predicate Eligible(t: string, want: string) {
    IsVersionTag(t) && (Flavor(t) == "" || Flavor(t) == want)
  }

  /** The candidate a tag stands for. */
  function Candidate(t: string): (v: Ver)
    ensures v.nums != []
    ensures v.variant != "" ==> v.tag != ""
  {
    var (version, flavor) := SplitFlavor(t);
    var (base, variant) := SplitVariantHash(version);
    var v := Parsed(base);
    assert variant != "" ==> t != "" by { if t == "" { assert LastIndex(t, FLAVOR_SEP) <= 0; } }
    v.(variant := variant, tag := if flavor != "" || variant != "" then t else "")
  }

  /** Strictly more specific: more components, then the later spelling. */
  predicate MoreSpecific(v: Ver, prev: Ver) {
    |v.nums| > |prev.nums| || (|v.nums| == |prev.nums| && !Le(v.raw, prev.raw))
  }

  predicate Supersedes(v: Ver, prev: Ver, flavor: string) {
    prev.tag == "" && (flavor != "" || MoreSpecific(v, prev))
  }

  /** `w` stands for `c`: it is `c`, it is flavoured, or both are plain and it
      is the more specific spelling. */
  ghost predicate Stands(w: Ver, c: Ver) {
    w == c || w.tag != "" || (c.tag == "" && MoreSpecific(w, c))
  }

  ghost predicate FromTag(v: Ver, tags: seq<string>, want: string) {
    exists t :: t in tags && Eligible(t, want) && v == Candidate(t)
  }

  ghost predicate OnePerKey(vs: seq<Ver>) {
    forall i, j :: 0 <= i < j < |vs| ==> NumericKey(vs[i]) != NumericKey(vs[j])
  }

  predicate CompareLe(a: Ver, b: Ver) { Compare(a, b) <= 0 }

  /** What the collapsed listing is. */
  ghost predicate Selected(tags: seq<string>, want: string, vs: seq<Ver>) {
    && (forall v :: v in vs ==> FromTag(v, tags, want))
    && (forall t :: t in tags && Eligible(t, want) ==>
          exists v :: v in vs && NumericKey(v) == NumericKey(Candidate(t)) && Stands(v, Candidate(t)))
    && OnePerKey(vs)
    && Sorted(vs, CompareLe)
  }

  lemma CompareLeOrders()
    ensures PreOrder(CompareLe)
  {
    forall a, b, c ensures (CompareLe(a, b) || CompareLe(b, a))
                           && (CompareLe(a, b) && CompareLe(b, c) ==> CompareLe(a, c)) {
      ComparePreorder(a, b, c);
    }
  }

  lemma SameRawSameVersion(a: string, b: string)
    requires Candidate(a).raw == Candidate(b).raw && Candidate(a).variant == Candidate(b).variant
    requires Candidate(a).tag == Candidate(b).tag
    ensures Candidate(a) == Candidate(b)
  {
  }

  lemma StandsTransitive(w: Ver, prev: Ver, c: Ver, flavor: string)
    requires Supersedes(w, prev, flavor) && Stands(prev, c)
    requires flavor != "" ==> w.tag != ""
    ensures Stands(w, c)
  {
    if flavor == "" && w != c && prev != c && c.tag == "" {
      LeTotal(w.raw, prev.raw);
      LeTotal(prev.raw, c.raw);
      if Le(w.raw, c.raw) && Le(prev.raw, w.raw) { LeTransitive(prev.raw, w.raw, c.raw); }
    }
  }

  /** What the map holds after some tags: one version per key, from a tag, and
      standing for every candidate of that key. */
  ghost predicate Holds(byVersion: map<string, Ver>, seen: seq<string>, tags: seq<string>, want: string) {
    && (forall k :: k in byVersion ==> NumericKey(byVersion[k]) == k && FromTag(byVersion[k], tags, want))
    && (forall t :: t in seen && Eligible(t, want) ==>
          NumericKey(Candidate(t)) in byVersion && Stands(byVersion[NumericKey(Candidate(t))], Candidate(t)))
  }

  lemma HoldsKept(byVersion: map<string, Ver>, seen: seq<string>, t: string, tags: seq<string>, want: string)
    requires Holds(byVersion, seen, tags, want) && t in tags
    requires Eligible(t, want) ==>
      (NumericKey(Candidate(t)) in byVersion
       && !Supersedes(Candidate(t), byVersion[NumericKey(Candidate(t))], Flavor(t)))
    ensures Holds(byVersion, seen + [t], tags, want)
  {
    hide NumericKey, FromTag, Candidate, Supersedes, Stands, Flavor, Eligible;
    if Eligible(t, want) {
      HeldStands(t, byVersion[NumericKey(Candidate(t))], tags, want);
    }
  }

  lemma HoldsReplaced(byVersion: map<string, Ver>, seen: seq<string>, t: string, tags: seq<string>, want: string)
    requires Holds(byVersion, seen, tags, want) && t in tags && Eligible(t, want)
    requires var key := NumericKey(Candidate(t));
             key in byVersion ==> Supersedes(Candidate(t), byVersion[key], Flavor(t))
    ensures Holds(byVersion[NumericKey(Candidate(t)) := Candidate(t)], seen + [t], tags, want)
  {
    hide NumericKey, Candidate, Supersedes, Stands, Flavor, Eligible;
    FlavouredIsTagged(t, want);
    var v := Candidate(t);
    var key := NumericKey(v);
    assert FromTag(v, tags, want);
    assert Stands(v, v) by { StandsItself(v); }
    forall u | u in seen && Eligible(u, want) && NumericKey(Candidate(u)) == key ensures Stands(v, Candidate(u)) {
      StandsTransitive(v, byVersion[key], Candidate(u), Flavor(t));
    }
  }

  lemma FlavouredIsTagged(t: string, want: string)
    requires Eligible(t, want)
    ensures Flavor(t) != "" ==> Candidate(t).tag != ""
  {
    hide SplitFlavor, SplitVariantHash, Parsed;
  }

  lemma StandsItself(v: Ver)
    ensures Stands(v, v)
  {
  }

  method KeyedVersions(tags: seq<string>, want: string) returns (byVersion: map<string, Ver>)
    ensures Holds(byVersion, tags, tags, want)
  {
    hide NumericKey, FromTag, Candidate, Supersedes, Stands, Flavor, Eligible, CompareLe;
    byVersion := map[];
    var i := 0;
    while i < |tags|
      invariant 0 <= i <= |tags|
      invariant Holds(byVersion, tags[..i], tags, want)
    {
      var t := tags[i];
      assert tags[..i + 1] == tags[..i] + [t];
      if Eligible(t, want) {
        var v := Candidate(t);
        var key := MakeNumericKey(v);
        if key in byVersion && !Supersedes(v, byVersion[key], Flavor(t)) {
          HoldsKept(byVersion, tags[..i], t, tags, want);
        } else {
          HoldsReplaced(byVersion, tags[..i], t, tags, want);
          byVersion := byVersion[key := v];
        }
      } else {
        HoldsKept(byVersion, tags[..i], t, tags, want);
      }
      i := i + 1;
    }
    assert tags[..i] == tags;
  }

  /** A candidate that does not supersede the one held is stood for by it. */
  lemma HeldStands(t: string, prev: Ver, tags: seq<string>, want: string)
    requires FromTag(prev, tags, want) && NumericKey(prev) == NumericKey(Candidate(t))
    requires !Supersedes(Candidate(t), prev, Flavor(t))
    ensures Stands(prev, Candidate(t))
  {
    var v := Candidate(t);
    var u :| u in tags && Eligible(u, want) && prev == Candidate(u);
    KeyIdentifies(prev, v);
    if prev.tag == "" {
      if |v.nums| == |prev.nums| && Le(prev.raw, v.raw) {
        LeAntiSymmetric(v.raw, prev.raw);
        SameRawSameVersion(u, t);
      }
    }
  }

  /** The map's versions, in whatever order the map yields them. */
  method Values(byVersion: map<string, Ver>) returns (all: seq<Ver>)
    requires forall k :: k in byVersion ==> NumericKey(byVersion[k]) == k
    ensures forall v :: v in all ==> NumericKey(v) in byVersion && byVersion[NumericKey(v)] == v
    ensures forall k :: k in byVersion ==> byVersion[k] in all
    ensures Distinct(all)
  {
    hide *;
    all := [];
    var todo := byVersion.Keys;
    while todo != {}
      invariant todo <= byVersion.Keys
      invariant forall v :: v in all ==> NumericKey(v) in byVersion.Keys - todo && byVersion[NumericKey(v)] == v
      invariant forall k :: k in byVersion.Keys - todo ==> byVersion[k] in all
      invariant forall i, j :: 0 <= i < j < |all| ==> all[i] != all[j]
      decreases todo
    {
      var k :| k in todo;
      all := all + [byVersion[k]];
      todo := todo - {k};
    }
    DistinctMeans(all);
  }

  lemma DistinctMeans<T>(s: seq<T>)
    requires forall i, j :: 0 <= i < j < |s| ==> s[i] != s[j]
    ensures Distinct(s)
  {
  }

  method SelectVersions(tags: seq<string>, want: string) returns (vs: seq<Ver>)
    ensures Selected(tags, want, vs)
  {
    hide NumericKey, FromTag, Candidate, Stands, Eligible, CompareLe, Sort;
    var byVersion := KeyedVersions(tags, want);
    var all := Values(byVersion);
    vs := Sort(all, CompareLe);
    CompareLeOrders();
    SortSorted(all, CompareLe);
    SortPermutes(all, CompareLe);
    PermutedDistinct(all, vs);
    forall v | v in vs ensures FromTag(v, tags, want) {
      assert v in all;
      assert NumericKey(v) in byVersion;
    }
    SelectedMeans(tags, want, vs, byVersion);
  }

  lemma SelectedMeans(tags: seq<string>, want: string, vs: seq<Ver>, byVersion: map<string, Ver>)
    requires forall v :: v in vs ==> FromTag(v, tags, want)
    requires forall v :: v in vs ==> NumericKey(v) in byVersion && byVersion[NumericKey(v)] == v
    requires forall k :: k in byVersion ==> byVersion[k] in vs && NumericKey(byVersion[k]) == k
    requires forall t :: t in tags && Eligible(t, want) ==>
      NumericKey(Candidate(t)) in byVersion && Stands(byVersion[NumericKey(Candidate(t))], Candidate(t))
    requires Distinct(vs) && Sorted(vs, CompareLe)
    ensures Selected(tags, want, vs)
  {
    hide FromTag, NumericKey, Eligible, Candidate, Stands, CompareLe;
    forall i, j | 0 <= i < j < |vs| ensures NumericKey(vs[i]) != NumericKey(vs[j]) {
      assert vs[i] in vs && vs[j] in vs && vs[i] != vs[j];
    }
  }

  // ----- the selection depends on the set of tags only -------------------------

  ghost predicate NoVariants(tags: seq<string>) {
    forall t :: t in tags ==> Candidate(t).variant == ""
  }

  ghost predicate FlavouredEntry(t: string, tags: seq<string>, want: string, key: string) {
    t in tags && Eligible(t, want) && Candidate(t).tag != "" && NumericKey(Candidate(t)) == key
  }

  /** At most one tag of the wanted flavour per version. */
  ghost predicate OneFlavoured(tags: seq<string>, want: string) {
    forall t, u, key :: FlavouredEntry(t, tags, want, key) && FlavouredEntry(u, tags, want, key) ==> t == u
  }

  lemma PlainEntry(v: Ver, tags: seq<string>, want: string)
    requires FromTag(v, tags, want) && NoVariants(tags)
    ensures v.variant == "" && v.nums != []
  {
    hide NumericKey, Candidate, Eligible;
    var t :| t in tags && Eligible(t, want) && v == Candidate(t);
  }

  /** One entry per version, each strictly newer than the one before. */
  lemma Ascends(tags: seq<string>, want: string, vs: seq<Ver>)
    requires Selected(tags, want, vs) && NoVariants(tags)
    ensures forall i, j :: 0 <= i < j < |vs| ==> Compare(vs[i], vs[j]) < 0
  {
    hide FromTag, NumericKey, Eligible, Candidate, Stands, Compare, NoVariants;
    forall i, j | 0 <= i < j < |vs| ensures Compare(vs[i], vs[j]) < 0 {
      assert CompareLe(vs[i], vs[j]);
      assert vs[i] in vs && vs[j] in vs;
      PlainEntry(vs[i], tags, want);
      PlainEntry(vs[j], tags, want);
      KeyIdentifies(vs[i], vs[j]);
    }
  }

  /** Two candidates that stand for each other are one. */
  lemma MutualStand(t: string, u: string, tags: seq<string>, want: string)
    requires t in tags && u in tags && Eligible(t, want) && Eligible(u, want)
    requires OneFlavoured(tags, want)
    requires NumericKey(Candidate(t)) == NumericKey(Candidate(u))
    requires Stands(Candidate(t), Candidate(u)) && Stands(Candidate(u), Candidate(t))
    ensures Candidate(t) == Candidate(u)
  {
    var key := NumericKey(Candidate(t));
    hide NumericKey, Eligible, Candidate, Le;
    var v, w := Candidate(t), Candidate(u);
    if v.tag != "" && w.tag != "" {
      assert FlavouredEntry(t, tags, want, key) && FlavouredEntry(u, tags, want, key);
    } else {
      LeTotal(v.raw, w.raw);
    }
  }

  lemma EntryFor(tags: seq<string>, want: string, vs: seq<Ver>, t: string) returns (v: Ver)
    requires Selected(tags, want, vs) && t in tags && Eligible(t, want)
    ensures v in vs && NumericKey(v) == NumericKey(Candidate(t)) && Stands(v, Candidate(t))
  {
    hide NumericKey, Eligible, Candidate, Stands, FromTag;
    v :| v in vs && NumericKey(v) == NumericKey(Candidate(t)) && Stands(v, Candidate(t));
  }

  lemma TagOf(tags: seq<string>, want: string, vs: seq<Ver>, v: Ver) returns (t: string)
    requires Selected(tags, want, vs) && v in vs
    ensures t in tags && Eligible(t, want) && v == Candidate(t)
  {
    hide NumericKey, Eligible, Candidate, Stands;
    assert FromTag(v, tags, want);
    t :| t in tags && Eligible(t, want) && v == Candidate(t);
  }

  lemma SelectionIncluded(tags: seq<string>, tags': seq<string>, want: string, vs: seq<Ver>, ws: seq<Ver>, v: Ver)
    requires forall t :: t in tags <==> t in tags'
    requires OneFlavoured(tags, want)
    requires Selected(tags, want, vs) && Selected(tags', want, ws)
    requires v in vs
    ensures v in ws
  {
    assert OnePerKey(vs) by { hide NumericKey, Eligible, Candidate, Stands, FromTag; }
    hide *;
    var t := TagOf(tags, want, vs, v);
    var w := EntryFor(tags', want, ws, t);
    var u := TagOf(tags', want, ws, w);
    var v' := EntryFor(tags, want, vs, u);
    SameEntry(vs, v', v);
    MutualStand(t, u, tags, want);
  }

  lemma SameEntry(vs: seq<Ver>, v: Ver, w: Ver)
    requires OnePerKey(vs) && v in vs && w in vs && NumericKey(v) == NumericKey(w)
    ensures v == w
  {
    hide NumericKey;
    var i :| 0 <= i < |vs| && vs[i] == v;
    var j :| 0 <= j < |vs| && vs[j] == w;
  }

  lemma SelectedSorted(tags: seq<string>, want: string, vs: seq<Ver>)
    requires Selected(tags, want, vs)
    ensures Distinct(vs) && Sorted(vs, CompareLe)
  {
    hide NumericKey, Eligible, Candidate, Stands, FromTag;
  }

  /** Tags whose versions the order calls equal carry one variant. */
  ghost predicate OneVariant(tags: seq<string>, want: string) {
    forall t, u :: VariantTie(t, u, tags, want) ==> Candidate(t).variant == Candidate(u).variant
  }

  ghost predicate VariantTie(t: string, u: string, tags: seq<string>, want: string) {
    && t in tags && u in tags && Eligible(t, want) && Eligible(u, want)
    && Compare(Candidate(t), Candidate(u)) == 0
  }

  lemma SelectedTies(tags: seq<string>, want: string, vs: seq<Ver>)
    requires Selected(tags, want, vs) && OneVariant(tags, want)
    ensures AntiSymmetricOn(vs, CompareLe)
  {
    hide *;
    forall x, y | x in vs && y in vs && CompareLe(x, y) && CompareLe(y, x) ensures x == y {
      TieMeans(x, y);
      var t := TagOf(tags, want, vs, x);
      var u := TagOf(tags, want, vs, y);
      TieVariants(tags, want, t, u);
      KeyIdentifies(x, y);
      KeyedOnce(tags, want, vs);
      SameEntry(vs, x, y);
    }
    TiesAreOne(vs);
  }

  lemma TieMeans(x: Ver, y: Ver)
    ensures CompareLe(x, y) && CompareLe(y, x) <==> Compare(x, y) == 0
  {
    hide Compare;
    ComparePreorder(x, y, x);
  }

  lemma TieVariants(tags: seq<string>, want: string, t: string, u: string)
    requires OneVariant(tags, want) && t in tags && u in tags && Eligible(t, want) && Eligible(u, want)
    requires Compare(Candidate(t), Candidate(u)) == 0
    ensures Candidate(t).variant == Candidate(u).variant
    ensures Candidate(t).nums != [] && Candidate(u).nums != []
  {
    hide Candidate, Compare, Eligible;
    assert VariantTie(t, u, tags, want);
  }

  lemma KeyedOnce(tags: seq<string>, want: string, vs: seq<Ver>)
    requires Selected(tags, want, vs)
    ensures OnePerKey(vs)
  {
    hide NumericKey, Eligible, Candidate, Stands, FromTag;
  }

  lemma TiesAreOne(vs: seq<Ver>)
    requires forall x, y :: x in vs && y in vs && CompareLe(x, y) && CompareLe(y, x) ==> x == y
    ensures AntiSymmetricOn(vs, CompareLe)
  {
    hide CompareLe;
  }

  lemma SelectionSame(tags: seq<string>, tags': seq<string>, want: string, vs: seq<Ver>, ws: seq<Ver>)
    requires forall t :: t in tags <==> t in tags'
    requires OneFlavoured(tags, want)
    requires Selected(tags, want, vs) && Selected(tags', want, ws)
    ensures forall v :: v in vs <==> v in ws
  {
    hide *;
    FlavoursAgree(tags, tags', want);
    forall v ensures v in vs <==> v in ws {
      if v in vs { SelectionIncluded(tags, tags', want, vs, ws, v); }
      if v in ws { SelectionIncluded(tags', tags, want, ws, vs, v); }
    }
  }

  /** Two listings of the same tags, in any order and with any repeats, select
      the same versions. */
  lemma SelectionOrderFree(tags: seq<string>, tags': seq<string>, want: string, vs: seq<Ver>, ws: seq<Ver>)
    requires forall t :: t in tags <==> t in tags'
    requires OneFlavoured(tags, want) && OneVariant(tags, want)
    requires Selected(tags, want, vs) && Selected(tags', want, ws)
    ensures vs == ws
  {
    hide *;
    SelectionSame(tags, tags', want, vs, ws);
    SelectedSorted(tags, want, vs);
    SelectedSorted(tags', want, ws);
    SelectedTies(tags, want, vs);
    SameMembers(vs, ws);
    CompareLeOrders();
    PreOrderTotal(CompareLe);
    SortedUnique(vs, ws, CompareLe);
  }

  lemma PreOrderTotal<T(!new)>(le: (T, T) -> bool)
    requires PreOrder(le)
    ensures Total(le)
  {
  }

  lemma FlavoursAgree(tags: seq<string>, tags': seq<string>, want: string)
    requires forall t :: t in tags <==> t in tags'
    requires OneFlavoured(tags, want)
    ensures OneFlavoured(tags', want)
  {
    forall t, u, key | FlavouredEntry(t, tags', want, key) && FlavouredEntry(u, tags', want, key) ensures t == u {
      assert FlavouredEntry(t, tags, want, key) && FlavouredEntry(u, tags, want, key);
    }
  }

  // ----- when the listing's order shows ------------------------------------------------

  /** The version order with `v` put after everything it ties with. */
  predicate TiesBelow(v: Ver, a: Ver, b: Ver) {
    Compare(a, b) < 0 || (Compare(a, b) == 0 && (b == v || a != v))
  }

  lemma TiesBelowOrders(v: Ver)
    ensures PreOrder((a, b) => TiesBelow(v, a, b))
  {
    hide Compare;
    forall a, b, c ensures (TiesBelow(v, a, b) || TiesBelow(v, b, a))
                           && (TiesBelow(v, a, b) && TiesBelow(v, b, c) ==> TiesBelow(v, a, c)) {
      ComparePreorder(a, b, c);
      ComparePreorder(b, a, c);
      ComparePreorder(c, b, a);
    }
  }

  /** The same versions, sorted, with one of them last among its ties. */
  lemma LastOfTies(vs: seq<Ver>, v: Ver) returns (ws: seq<Ver>, i: nat)
    requires Distinct(vs) && v in vs
    ensures Distinct(ws) && Sorted(ws, CompareLe) && forall x :: x in ws <==> x in vs
    ensures i < |ws| && ws[i] == v && forall k :: i < k < |ws| ==> Compare(v, ws[k]) < 0
  {
    hide Compare, Sort;
    var le := (a, b) => TiesBelow(v, a, b);
    ws := Sort(vs, le);
    TiesBelowOrders(v);
    SortSorted(vs, le);
    SortPermutes(vs, le);
    PermutedDistinct(vs, ws);
    i :| i < |ws| && ws[i] == v;
    forall j, k | 0 <= j < k < |ws| ensures CompareLe(ws[j], ws[k]) { assert le(ws[j], ws[k]); }
    forall k | i < k < |ws| ensures Compare(v, ws[k]) < 0 { assert le(ws[i], ws[k]) && ws[i] != ws[k]; }
  }

  /** Ties in another order are a selection as well. */
  lemma SelectedRearranged(tags: seq<string>, want: string, vs: seq<Ver>, ws: seq<Ver>)
    requires Selected(tags, want, vs)
    requires Distinct(ws) && Sorted(ws, CompareLe) && forall x :: x in ws <==> x in vs
    ensures Selected(tags, want, ws)
  {
    hide NumericKey, Eligible, Candidate, Stands, FromTag, CompareLe;
    forall i, j | 0 <= i < j < |ws| ensures NumericKey(ws[i]) != NumericKey(ws[j]) {
      assert ws[i] in vs && ws[j] in vs;
      if NumericKey(ws[i]) == NumericKey(ws[j]) { SameEntry(vs, ws[i], ws[j]); }
    }
  }

  /** A tagged candidate can take the place of the entry of its key. */
  lemma Exchanged(tags: seq<string>, want: string, vs: seq<Ver>, k: nat, t: string)
    requires Selected(tags, want, vs) && k < |vs| && t in tags && Eligible(t, want) && Candidate(t).tag != ""
    requires NumericKey(vs[k]) == NumericKey(Candidate(t)) && Compare(vs[k], Candidate(t)) == 0
    ensures Selected(tags, want, vs[k := Candidate(t)])
  {
    hide *;
    var c := Candidate(t);
    var ws := vs[k := c];
    KeyedOnce(tags, want, vs);
    SelectedSorted(tags, want, vs);
    forall v | v in ws ensures FromTag(v, tags, want) {
      CandidateFrom(tags, want, t);
      if v != c { EntryFrom(tags, want, vs, v); }
    }
    forall u | u in tags && Eligible(u, want) ensures Represented(ws, Candidate(u)) {
      var v := EntryFor(tags, want, vs, u);
      TaggedStands(c, Candidate(u));
      StoodFor(vs, ws, k, c, v, Candidate(u));
    }
    ExchangedSorted(vs, k, c);
    ExchangedKeys(vs, k, c);
    SelectedParts(tags, want, ws);
  }

  ghost predicate Represented(vs: seq<Ver>, c: Ver) {
    exists v :: v in vs && NumericKey(v) == NumericKey(c) && Stands(v, c)
  }

  lemma SelectedParts(tags: seq<string>, want: string, vs: seq<Ver>)
    requires forall v :: v in vs ==> FromTag(v, tags, want)
    requires forall t :: t in tags && Eligible(t, want) ==> Represented(vs, Candidate(t))
    requires OnePerKey(vs) && Sorted(vs, CompareLe)
    ensures Selected(tags, want, vs)
  {
    hide NumericKey, Eligible, Candidate, Stands, FromTag, CompareLe;
  }

  lemma StoodFor(vs: seq<Ver>, ws: seq<Ver>, k: nat, c: Ver, v: Ver, d: Ver)
    requires k < |vs| && ws == vs[k := c] && NumericKey(vs[k]) == NumericKey(c)
    requires v in vs && NumericKey(v) == NumericKey(d) && Stands(v, d) && Stands(c, d)
    ensures Represented(ws, d)
  {
    hide NumericKey, Stands;
    if v == vs[k] {
      assert ws[k] == c;
    } else {
      var i :| 0 <= i < |vs| && vs[i] == v;
      assert ws[i] == v;
    }
  }

  lemma ExchangedSorted(vs: seq<Ver>, k: nat, c: Ver)
    requires k < |vs| && Sorted(vs, CompareLe) && Compare(vs[k], c) == 0
    ensures Sorted(vs[k := c], CompareLe)
  {
    hide Compare, CompareLe;
    var ws := vs[k := c];
    forall i, j | 0 <= i < j < |ws| ensures CompareLe(ws[i], ws[j]) {
      assert CompareLe(vs[i], vs[j]);
      TiesLeAlike(vs[k], c, vs[if i == k then j else i]);
    }
  }

  lemma ExchangedKeys(vs: seq<Ver>, k: nat, c: Ver)
    requires k < |vs| && OnePerKey(vs) && NumericKey(vs[k]) == NumericKey(c)
    ensures OnePerKey(vs[k := c])
  {
    hide NumericKey;
    var ws := vs[k := c];
    assert forall i :: 0 <= i < |ws| ==> NumericKey(ws[i]) == NumericKey(vs[i]);
  }

  lemma EntryFrom(tags: seq<string>, want: string, vs: seq<Ver>, v: Ver)
    requires Selected(tags, want, vs) && v in vs
    ensures FromTag(v, tags, want)
  {
    hide FromTag, NumericKey, Eligible, Candidate, Stands, CompareLe;
  }

  lemma CandidateFrom(tags: seq<string>, want: string, t: string)
    requires t in tags && Eligible(t, want)
    ensures FromTag(Candidate(t), tags, want)
  {
    hide Candidate, Eligible;
  }

  lemma TaggedStands(w: Ver, c: Ver)
    requires w.tag != ""
    ensures Stands(w, c)
  {
  }

  lemma TiesLeAlike(a: Ver, b: Ver, x: Ver)
    requires Compare(a, b) == 0
    ensures CompareLe(a, x) == CompareLe(b, x) && CompareLe(x, a) == CompareLe(x, b)
  {
    hide Compare;
    TiesCompareAlike(a, b, x);
    ComparePreorder(a, x, a);
    ComparePreorder(b, x, b);
  }

  /** With a second tag of one version and flavour another selection exists. */
  lemma SecondFlavour(tags: seq<string>, want: string, vs: seq<Ver>) returns (ws: seq<Ver>)
    requires Selected(tags, want, vs) && !OneFlavoured(tags, want)
    ensures Selected(tags, want, ws) && ws != vs
  {
    hide NumericKey, Eligible, Candidate, Compare, Stands, FromTag;
    var t, u, key :| FlavouredEntry(t, tags, want, key) && FlavouredEntry(u, tags, want, key) && t != u;
    var v := EntryFor(tags, want, vs, t);
    TagKept(t);
    TagKept(u);
    var x := if v == Candidate(t) then u else t;
    assert v != Candidate(x) && NumericKey(v) == NumericKey(Candidate(x));
    var k :| 0 <= k < |vs| && vs[k] == v;
    EntryNums(tags, want, vs, v);
    CandidateHasNums(x);
    KeyIdentifies(v, Candidate(x));
    Exchanged(tags, want, vs, k, x);
    ws := vs[k := Candidate(x)];
    assert ws[k] != vs[k];
  }

  lemma TagKept(t: string)
    ensures Candidate(t).tag == "" || Candidate(t).tag == t
  {
  }

  lemma CandidateHasNums(t: string)
    ensures Candidate(t).nums != []
  {
    hide *;
  }

  lemma EntryNums(tags: seq<string>, want: string, vs: seq<Ver>, v: Ver)
    requires Selected(tags, want, vs) && v in vs
    ensures v.nums != []
  {
    hide *;
    var t := TagOf(tags, want, vs, v);
    CandidateHasNums(t);
  }

  /** With variants of tied versions another order of the entries is selected. */
  lemma SecondOrder(tags: seq<string>, want: string, vs: seq<Ver>) returns (ws: seq<Ver>)
    requires Selected(tags, want, vs) && !OneVariant(tags, want)
    ensures Selected(tags, want, ws) && ws != vs
  {
    hide *;
    var t, u := TiedTags(tags, want);
    var v := EntryFor(tags, want, vs, t);
    var w := EntryFor(tags, want, vs, u);
    EntryNums(tags, want, vs, v);
    EntryNums(tags, want, vs, w);
    CandidateHasNums(t);
    CandidateHasNums(u);
    KeyIdentifies(v, Candidate(t));
    KeyIdentifies(w, Candidate(u));
    TiesCompareAlike(v, Candidate(t), Candidate(u));
    ComparePreorder(w, Candidate(u), w);
    TiesCompareAlike(Candidate(u), w, v);
    ComparePreorder(v, Candidate(u), v);
    ComparePreorder(w, v, w);
    SelectedSorted(tags, want, vs);
    var ws', i := LastOfTies(vs, v);
    var ws'', j := LastOfTies(vs, w);
    SelectedRearranged(tags, want, vs, ws');
    SelectedRearranged(tags, want, vs, ws'');
    OrdersDiffer(ws', i, ws'', j, v, w);
    ws := if ws' == vs then ws'' else ws';
  }

  lemma TiedTags(tags: seq<string>, want: string) returns (t: string, u: string)
    requires !OneVariant(tags, want)
    ensures t in tags && u in tags && Eligible(t, want) && Eligible(u, want)
    ensures Compare(Candidate(t), Candidate(u)) == 0 && Candidate(t).variant != Candidate(u).variant
  {
    hide Candidate, Compare, Eligible;
    t, u :| VariantTie(t, u, tags, want) && Candidate(t).variant != Candidate(u).variant;
  }

  lemma OrdersDiffer(ws: seq<Ver>, i: nat, xs: seq<Ver>, j: nat, v: Ver, w: Ver)
    requires i < |ws| && ws[i] == v && forall k :: i < k < |ws| ==> Compare(v, ws[k]) < 0
    requires j < |xs| && xs[j] == w && forall k :: j < k < |xs| ==> Compare(w, xs[k]) < 0
    requires v != w && Compare(v, w) == 0 && Compare(w, v) == 0
    ensures ws != xs
  {
    hide Compare;
  }

  /** The selection is a function of the set of tags exactly when no version has
      two tags of the wanted flavour, nor an equal one of another variant. */
  lemma SelectionExactly(tags: seq<string>, want: string, vs: seq<Ver>)
    requires Selected(tags, want, vs)
    ensures (forall tags', ws :: SameTags(tags, tags') && Selected(tags', want, ws) ==> ws == vs)
      <==> OneFlavoured(tags, want) && OneVariant(tags, want)
  {
    hide *;
    SameTagsMeans(tags, tags);
    if !OneFlavoured(tags, want) {
      var ws := SecondFlavour(tags, want, vs);
    } else if !OneVariant(tags, want) {
      var ws := SecondOrder(tags, want, vs);
    } else {
      forall tags', ws | SameTags(tags, tags') && Selected(tags', want, ws) ensures ws == vs {
        SameTagsMeans(tags, tags');
        SelectionOrderFree(tags, tags', want, vs, ws);
      }
    }
  }

  ghost predicate SameTags(tags: seq<string>, tags': seq<string>) { forall t :: t in tags <==> t in tags' }

  lemma SameTagsMeans(tags: seq<string>, tags': seq<string>)
    ensures SameTags(tags, tags)
    ensures SameTags(tags, tags') ==> forall t :: t in tags <==> t in tags'
  {
  }

  // ----- tags as they are published ----------------------------------------------------

  /** A tag of digits and dots with a hash after it, or nothing. */
  function BuildTag(nums: seq<nat>, hash: string): string {
    Dotted(nums) + if hash == "" then "" else VARIANT_SEP + hash
  }

  lemma BuildTagReads(nums: seq<nat>, hash: string)
    requires nums != [] && (hash == "" || IsVariantHash(hash))
    ensures
      var t := BuildTag(nums, hash);
      Candidate(t) == Ver(Dotted(nums), nums, if hash == "" then "" else t, 0, hash) && Flavor(t) == ""
  {
    hide *;
    var d, t := Dotted(nums), BuildTag(nums, hash);
    BuildTagIs(nums, hash);
    DottedChars(nums);
    NoFlavor(d, hash);
    NoDash(d);
    if hash == "" {
      assert t == d;
    } else {
      SplitJoined(d, hash);
      assert t == d + VARIANT_SEP + hash;
    }
    ParsedDotted(nums);
    CutsGive(t, d, hash);
  }

  lemma BuildTagIs(nums: seq<nat>, hash: string)
    ensures BuildTag(nums, hash) == Dotted(nums) + if hash == "" then "" else VARIANT_SEP + hash
  {
    hide Dotted;
  }

  lemma CutsGive(t: string, base: string, variant: string)
    requires SplitFlavor(t) == (t, "") && SplitVariantHash(t) == (base, variant)
    ensures Candidate(t) == Parsed(base).(variant := variant, tag := if variant != "" then t else "")
    ensures Flavor(t) == ""
  {
    hide Parsed, SplitFlavor, SplitVariantHash;
  }

  lemma NoDash(d: string)
    requires forall i :: 0 <= i < |d| ==> DigitOrDot(d[i])
    ensures SplitVariantHash(d) == (d, "")
  {
    forall k ensures !OccursAt(d, VARIANT_SEP, k) {
      if 0 <= k && k + 2 <= |d| { assert d[k..k + 2][0] == d[k]; }
    }
  }

  lemma NoFlavor(d: string, hash: string)
    requires forall i :: 0 <= i < |d| ==> DigitOrDot(d[i])
    requires hash == "" || IsVariantHash(hash)
    ensures var t := d + if hash == "" then "" else VARIANT_SEP + hash; SplitFlavor(t) == (t, "")
  {
    var t := d + if hash == "" then "" else VARIANT_SEP + hash;
    forall k ensures !OccursAt(t, FLAVOR_SEP, k) {
      if 0 <= k && k + |FLAVOR_SEP| <= |t| {
        assert t[k..k + |FLAVOR_SEP|][0] == t[k] && t[k..k + |FLAVOR_SEP|][1] == t[k + 1];
        assert FLAVOR_SEP[0] == '-' && FLAVOR_SEP[1] == 'g' && VARIANT_SEP[1] == 'h';
        if t[k] == '-' { assert k == |d|; }
      }
    }
  }

  lemma BuildTagEligible(nums: seq<nat>, hash: string, want: string)
    requires nums != [] && (hash == "" || IsVariantHash(hash)) && |Dotted(nums)| <= 40
    ensures Eligible(BuildTag(nums, hash), want)
  {
    hide *;
    var d, t := Dotted(nums), BuildTag(nums, hash);
    BuildTagIs(nums, hash);
    DottedChars(nums);
    BuildTagReads(nums, hash);
    TagCharacters(d, hash);
    EligibleIs(t, want);
  }

  lemma EligibleIs(t: string, want: string)
    requires IsVersionTag(t) && Flavor(t) == ""
    ensures Eligible(t, want)
  {
    hide IsVersionTag, Flavor;
  }

  lemma TagCharacters(d: string, hash: string)
    requires d != "" && IsDigit(d[0]) && |d| <= 40 && forall i :: 0 <= i < |d| ==> DigitOrDot(d[i])
    requires hash == "" || IsVariantHash(hash)
    ensures IsVersionTag(d + if hash == "" then "" else VARIANT_SEP + hash)
  {
    var t := d + if hash == "" then "" else VARIANT_SEP + hash;
    assert t[..1] == [d[0]];
    assert TrimPrefix(TrimPrefix(t, "v"), "V") == t;
    assert |hash| <= 16 && VARIANT_SEP[0] == '-' && VARIANT_SEP[1] == 'h';
    forall i | 0 <= i < |t| ensures VersionChar(t[i]) {
      if i >= |d| + 2 { assert t[i] == hash[i - |d| - 2]; }
    }
  }

  lemma SmallTags()
    ensures Dotted([1]) == "1" && Dotted([2]) == "2" && Dotted([1, 0]) == "1.0" && Dotted([1, 0, 0]) == "1.0.0"
  {
    assert Numerals([1]) == ["1"] && Numerals([2]) == ["2"];
    assert Dotted([1]) == "1" && Dotted([2]) == "2";
    hide Dotted;
    DottedLonger([1]);
    assert [1] + [0] == [1, 0];
    DottedLonger([1, 0]);
    assert [1, 0] + [0] == [1, 0, 0];
  }

  /** A list of what each tag reads as, in order, with no key twice, is a selection. */
  lemma SelectedAll(tags: seq<string>, want: string, vs: seq<Ver>)
    requires forall t :: t in tags ==> Eligible(t, want) && Candidate(t) in vs
    requires forall v :: v in vs ==> exists t :: t in tags && v == Candidate(t)
    requires OnePerKey(vs) && Sorted(vs, CompareLe)
    ensures Selected(tags, want, vs)
  {
    hide NumericKey, Eligible, Candidate, CompareLe;
  }

  // ----- which flavour is taken ---------------------------------------------------------

  /** A tag put together from a version and the glibc it was built against is
      taken apart again. */
  lemma FlavorSplits(base: string, flavor: string)
    requires base != "" && '-' !in flavor
    ensures SplitFlavor(base + FLAVOR_SEP + flavor) == (base, flavor) && FLAVOR_SEP == "-glibc"
  {
    var t := base + FLAVOR_SEP + flavor;
    var at := |base|;
    assert t[at..at + |FLAVOR_SEP|] == FLAVOR_SEP;
    assert OccursAt(t, FLAVOR_SEP, at);
    forall k | at < k && k + |FLAVOR_SEP| <= |t| ensures !OccursAt(t, FLAVOR_SEP, k) {
      assert t[k] != '-' by {
        if k < at + |FLAVOR_SEP| {
          assert t[k] == FLAVOR_SEP[k - at];
        } else {
          assert t[k] == flavor[k - at - |FLAVOR_SEP|];
        }
      }
      assert t[k..k + |FLAVOR_SEP|][0] == t[k] && FLAVOR_SEP[0] == '-';
    }
    assert LastIndex(t, FLAVOR_SEP) == at;
    assert t[..at] == base && t[at + |FLAVOR_SEP|..] == flavor;
  }

  /** Every version selected is that of a listed version tag without a flavour or
      of the one wanted. */
  lemma FlavourTaken(tags: seq<string>, want: string, vs: seq<Ver>, v: Ver)
    requires Selected(tags, want, vs) && v in vs
    ensures exists t :: t in tags && IsVersionTag(t) && Flavor(t) in {"", want} && v == Candidate(t)
    ensures v.tag != "" ==> v.tag in tags && Flavor(v.tag) in {"", want}
  {
    hide IsVersionTag, Flavor, NumericKey, Candidate, Stands;
    var t := TagOf(tags, want, vs, v);
    EligibleMeans(t, want);
    TagKept(t);
  }

  lemma EligibleMeans(t: string, want: string)
    ensures Eligible(t, want) <==> IsVersionTag(t) && Flavor(t) in {"", want}
  {
    hide IsVersionTag, Flavor;
  }

  /** Every version tag without a flavour has an entry of its key; one of the
      flavour wanted has an entry pulled by its own tag; and no tag of another
      flavour is pulled. */
  lemma FlavourWins(tags: seq<string>, want: string, vs: seq<Ver>, t: string)
    requires Selected(tags, want, vs) && t in tags && IsVersionTag(t)
    ensures Flavor(t) in {"", want} ==> exists v :: v in vs && NumericKey(v) == NumericKey(Candidate(t))
    ensures Flavor(t) == want != "" ==>
      exists v :: v in vs && NumericKey(v) == NumericKey(Candidate(t)) && v.tag != ""
                  && (Candidate(t).variant == "" ==> Flavor(v.tag) == want)
    ensures Flavor(t) !in {"", want} ==> forall v :: v in vs ==> v.tag != t
  {
    hide IsVersionTag, Flavor, NumericKey, Candidate, Stands, Eligible, Selected;
    EligibleMeans(t, want);
    if Flavor(t) in {"", want} {
      var v := EntryFor(tags, want, vs, t);
      FlavourTaken(tags, want, vs, v);
      FlavourTagged(t);
      StandsTagged(v, Candidate(t));
      EntryNums(tags, want, vs, v);
      CandidateHasNums(t);
      KeyIdentifies(v, Candidate(t));
      var u := TagOf(tags, want, vs, v);
      TagKept(u);
      TagReason(u);
    }
    forall v | v in vs ensures v.tag == t ==> Flavor(t) in {"", want} {
      TaggedSomething(t);
      FlavourTaken(tags, want, vs, v);
    }
  }

  lemma TagReason(t: string)
    ensures Candidate(t).tag != "" && Candidate(t).variant == "" ==> Flavor(t) != ""
  {
  }

  /** Of the plain spellings of a version the one with most components is kept,
      and of those the last by name. */
  lemma MostSpecificKept(tags: seq<string>, want: string, vs: seq<Ver>, v: Ver, t: string)
    requires Selected(tags, want, vs) && v in vs && v.tag == ""
    requires t in tags && Eligible(t, want) && NumericKey(Candidate(t)) == NumericKey(v)
    ensures
      var c := Candidate(t);
      c.tag == "" && (|v.nums| > |c.nums| || (|v.nums| == |c.nums| && Le(c.raw, v.raw)))
  {
    hide NumericKey, Candidate, Eligible, Selected;
    var w := EntryFor(tags, want, vs, t);
    KeyedOnce(tags, want, vs);
    SameEntry(vs, v, w);
    LeTotal(Candidate(t).raw, v.raw);
  }

  lemma FlavourTagged(t: string)
    ensures Flavor(t) != "" ==> Candidate(t).tag != ""
  {
    assert Flavor(t) != "" ==> t != "";
  }

  lemma StandsTagged(w: Ver, c: Ver)
    ensures Stands(w, c) && c.tag != "" ==> w.tag != ""
  {
  }

  lemma TaggedSomething(t: string)
    ensures IsVersionTag(t) ==> t != ""
  {
  }

  /** What a version tag looks like: up to 64 of the characters a version may
      have, a digit first or after "v", "V" or both. */
  lemma VersionTagsAre(t: string)
    ensures IsVersionTag(t)
      <==> 0 < |t| <= 64 && (forall i :: 0 <= i < |t| ==> t[i] in TAG_CHARS)
           && exists k :: 0 <= k < |t| && t[..k] in {"", "v", "V", "vV"} && t[k] in DIGITS
  {
    forall c ensures VersionChar(c) <==> c in TAG_CHARS { TagChar(c); }
    forall c ensures IsDigit(c) <==> c in DIGITS { DigitChar(c); }
    if t != "" { DigitAfter(t); }
    hide VersionChar, IsDigit, TAG_CHARS, DIGITS, TrimPrefix;
  }

  const DIGITS := "0123456789"
  const LOWER := "abcdefghijklmnopqrstuvwxyz"
  const UPPER := "ABCDEFGHIJKLMNOPQRSTUVWXYZ"
  const OTHERS := ".-+_~"
  const TAG_CHARS := DIGITS + LOWER + UPPER + OTHERS
  /** Base32 in lower case (RFC 4648, section 6). */
  const HASH_DIGITS := "234567"
  const HASH_CHARS := LOWER + HASH_DIGITS

  lemma DigitChar(c: char)
    ensures IsDigit(c) <==> c in DIGITS
  {
    if IsDigit(c) { assert DIGITS[c as int - '0' as int] == c; }
  }

  lemma TagChar(c: char)
    ensures VersionChar(c) <==> c in TAG_CHARS
  {
    DigitChar(c);
    LowerChar(c);
    UpperChar(c);
    OtherChar(c);
    hide DIGITS, LOWER, UPPER, OTHERS, IsDigit;
  }

  lemma LowerChar(c: char)
    ensures 'a' <= c <= 'z' <==> c in LOWER
  {
    if 'a' <= c <= 'z' { assert LOWER[c as int - 'a' as int] == c; }
  }

  lemma UpperChar(c: char)
    ensures 'A' <= c <= 'Z' <==> c in UPPER
  {
    if 'A' <= c <= 'Z' { assert UPPER[c as int - 'A' as int] == c; }
  }

  lemma OtherChar(c: char)
    ensures c in OTHERS <==> c == '.' || c == '-' || c == '+' || c == '_' || c == '~'
  {
    assert OTHERS[0] == '.' && OTHERS[1] == '-' && OTHERS[2] == '+' && OTHERS[3] == '_' && OTHERS[4] == '~';
  }

  lemma HashChar(c: char)
    ensures ('a' <= c <= 'z' || '2' <= c <= '7') <==> c in HASH_CHARS
  {
    LowerChar(c);
    HashDigit(c);
    hide LOWER, HASH_DIGITS;
  }

  lemma HashDigit(c: char)
    ensures '2' <= c <= '7' <==> c in HASH_DIGITS
  {
    if '2' <= c <= '7' { assert HASH_DIGITS[c as int - '2' as int] == c; }
  }

  /** A variant hash is sixteen characters of lower-case base32. */
  lemma VariantHashesAre(s: string)
    ensures IsVariantHash(s) <==> |s| == 16 && forall i :: 0 <= i < |s| ==> s[i] in HASH_CHARS
  {
    forall c ensures ('a' <= c <= 'z' || '2' <= c <= '7') <==> c in HASH_CHARS { HashChar(c); }
  }

  lemma DigitAfter(t: string)
    requires t != ""
    ensures
      var s := TrimPrefix(TrimPrefix(t, "v"), "V");
      (s != "" && IsDigit(s[0]))
      <==> exists k :: 0 <= k < |t| && t[..k] in {"", "v", "V", "vV"} && IsDigit(t[k])
  {
    var u := TrimPrefix(t, "v");
    var s := TrimPrefix(u, "V");
    assert t[..1] == [t[0]] && (u != "" ==> u[..1] == [u[0]]);
    var n := |t| - |s|;
    assert u == if t[0] == 'v' then t[1..] else t;
    assert s == if u != "" && u[0] == 'V' then u[1..] else u;
    assert s == t[n..];
    if n == 2 { assert t[..2] == [t[0], t[1]] && u[0] == t[1]; }
    assert t[..n] in {"", "v", "V", "vV"};
    if s != "" && IsDigit(s[0]) { assert t[n] == s[0]; }
    if k :| 0 <= k < |t| && t[..k] in {"", "v", "V", "vV"} && IsDigit(t[k]) {
      assert t[..k] == "" || t[..k][0] == t[0];
      assert k == n;
    }
  }
}
