/** Versions, their order, and the constraints that select them (pkgx.go). */
module Versions {
  import opened Text

  datatype Ver = Ver(raw: string, nums: seq<nat>, tag: string, rebuild: nat, variant: string) {
    /** The registry tag this version is pulled from. */
    function PullTag(): string { if tag != "" then tag else raw }
  }

  // ----- parsing ---------------------------------------------------------

  /** A component's number: its leading digits, 0 when it has none. */
  function LeadingNumber(s: string): nat { Numeral(s[..DigitRun(s)]) }

  function Components(parts: seq<string>): (nums: seq<nat>)
    ensures |nums| == |parts|
    ensures forall i :: 0 <= i < |parts| ==> nums[i] == LeadingNumber(parts[i])
  {
    seq(|parts|, i requires 0 <= i < |parts| => LeadingNumber(parts[i]))
  }

  /** `_N` is a rebuild counter only after a dotted body and only in digits. */
  predicate RebuildAt(s: string, i: int) {
    0 < i < |s| - 1 && '.' in s[..i] && AllDigits(s[i + 1..])
  }

  function RebuildSplit(s: string): (string, nat) {
    var i := LastIndex(s, "_");
    if RebuildAt(s, i) then (s[..i], Numeral(s[i + 1..])) else (s, 0)
  }

  function BareVersion(s: string): string { TrimPrefix(TrimSpace(s), "v") }

  /** The version a string denotes. */
  function Parsed(s: string): (v: Ver)
    ensures v.nums != []
  {
    var raw := BareVersion(s);
    var (body, rebuild) := RebuildSplit(raw);
    Ver(raw, Components(Split(body, '.')), "", rebuild, "")
  }

  method ParseNumber(p: string) returns (n: nat)
    ensures n == LeadingNumber(p)
  {
    n := 0;
    var i := 0;
    while i < |p| && IsDigit(p[i])
      invariant 0 <= i <= |p| && AllDigits(p[..i])
      invariant n == Numeral(p[..i])
    {
      assert p[..i + 1][..i] == p[..i];
      n := n * 10 + (p[i] as int - '0' as int);
      i := i + 1;
    }
    DigitRunIs(p, i);
  }

  method SplitRebuild(s: string) returns (body: string, rebuild: nat)
    ensures (body, rebuild) == RebuildSplit(s)
  {
    var i := LastIndex(s, "_");
    if i <= 0 || i == |s| - 1 { return s, 0; }
    var head, tail := s[..i], s[i + 1..];
    if '.' !in head { return s, 0; }
    var n := 0;
    var k := 0;
    while k < |tail|
      invariant 0 <= k <= |tail| && AllDigits(tail[..k])
      invariant n == Numeral(tail[..k])
    {
      if !IsDigit(tail[k]) { return s, 0; }
      assert tail[..k + 1][..k] == tail[..k];
      n := n * 10 + (tail[k] as int - '0' as int);
      k := k + 1;
    }
    assert tail[..k] == tail;
    return head, n;
  }

  method ParseVer(s: string) returns (v: Ver)
    ensures v == Parsed(s)
  {
    hide LeadingNumber, BareVersion, RebuildSplit, Split;
    var raw := BareVersion(s);
    var body, rebuild := SplitRebuild(raw);
    var nums := ParseComponents(Split(body, '.'));
    v := Ver(raw, nums, "", rebuild, "");
  }

  method ParseComponents(parts: seq<string>) returns (nums: seq<nat>)
    ensures nums == Components(parts)
  {
    hide LeadingNumber, Components;
    nums := [];
    var i := 0;
    while i < |parts|
      invariant 0 <= i <= |parts| && |nums| == i
      invariant forall k :: 0 <= k < i ==> nums[k] == LeadingNumber(parts[k])
    {
      var n := ParseNumber(parts[i]);
      nums := nums + [n];
      i := i + 1;
    }
  }

  // ----- order -----------------------------------------------------------

  function At(nums: seq<nat>, i: nat): nat { if i < |nums| then nums[i] else 0 }

  function Rest(nums: seq<nat>): seq<nat> { if nums == [] then [] else nums[1..] }

  /** Component by component, a missing component counting as zero. */
  function CompareNums(x: seq<nat>, y: seq<nat>): (r: int)
    ensures r == -1 || r == 0 || r == 1
    decreases |x| + |y|
  {
    if x == [] && y == [] then 0
    else if At(x, 0) < At(y, 0) then -1
    else if At(x, 0) > At(y, 0) then 1
    else CompareNums(Rest(x), Rest(y))
  }

  /** The numbers first, then the rebuild counter; spelling and variant never. */
  function Compare(a: Ver, b: Ver): (r: int)
    ensures r == -1 || r == 0 || r == 1
  {
    var c := CompareNums(a.nums, b.nums);
    if c != 0 then c
    else if a.rebuild < b.rebuild then -1
    else if a.rebuild > b.rebuild then 1
    else 0
  }

  function Drop(nums: seq<nat>, i: nat): seq<nat> { if i < |nums| then nums[i..] else [] }

  lemma DropStep(nums: seq<nat>, i: nat)
    ensures At(Drop(nums, i), 0) == At(nums, i)
    ensures Rest(Drop(nums, i)) == Drop(nums, i + 1)
  {
  }

  method CmpVer(a: Ver, b: Ver) returns (r: int)
    ensures r == Compare(a, b)
  {
    var i := 0;
    while i < |a.nums| || i < |b.nums|
      invariant 0 <= i
      invariant CompareNums(a.nums, b.nums) == CompareNums(Drop(a.nums, i), Drop(b.nums, i))
      decreases |a.nums| + |b.nums| - i
    {
      DropStep(a.nums, i);
      DropStep(b.nums, i);
      var x, y := 0, 0;
      if i < |a.nums| { x := a.nums[i]; }
      if i < |b.nums| { y := b.nums[i]; }
      if x != y { return if x < y then -1 else 1; }
      i := i + 1;
    }
    if a.rebuild != b.rebuild { return if a.rebuild < b.rebuild then -1 else 1; }
    return 0;
  }

  lemma {:induction false} CompareNumsSelf(x: seq<nat>)
    ensures CompareNums(x, x) == 0
  {
    if x == [] {
    } else {
      CompareNumsSelf(Rest(x));
    }
  }

  lemma {:induction false} CompareNumsFlip(x: seq<nat>, y: seq<nat>)
    ensures CompareNums(x, y) == -CompareNums(y, x)
    decreases |x| + |y|
  {
    if x == [] && y == [] {
    } else {
      CompareNumsFlip(Rest(x), Rest(y));
    }
  }

  lemma {:induction false} CompareNumsChain(x: seq<nat>, y: seq<nat>, z: seq<nat>)
    requires CompareNums(x, y) <= 0 && CompareNums(y, z) <= 0
    ensures CompareNums(x, z) <= 0
    ensures CompareNums(x, y) < 0 || CompareNums(y, z) < 0 ==> CompareNums(x, z) < 0
    decreases |x| + |y| + |z|
  {
    if (x == [] && y == [] && z == []) || !(At(x, 0) == At(y, 0) == At(z, 0)) {
    } else {
      Unfold(x, y);
      Unfold(y, z);
      Unfold(x, z);
      CompareNumsChain(Rest(x), Rest(y), Rest(z));
    }
  }

  lemma Unfold(x: seq<nat>, y: seq<nat>)
    ensures At(x, 0) == At(y, 0) ==> CompareNums(x, y) == CompareNums(Rest(x), Rest(y))
    ensures At(x, 0) < At(y, 0) ==> CompareNums(x, y) == -1
    ensures At(x, 0) > At(y, 0) ==> CompareNums(x, y) == 1
  {
  }

  /** `cmpVer` is a total preorder: reflexive, antisymmetric in sign, and
      transitive with strictness carried through. */
  lemma ComparePreorder(a: Ver, b: Ver, c: Ver)
    ensures Compare(a, a) == 0
    ensures Compare(a, b) == -Compare(b, a)
    ensures Compare(a, b) <= 0 && Compare(b, c) <= 0 ==> Compare(a, c) <= 0
    ensures Compare(a, b) <= 0 && Compare(b, c) <= 0 && (Compare(a, b) < 0 || Compare(b, c) < 0)
            ==> Compare(a, c) < 0
  {
    CompareNumsSelf(a.nums);
    CompareNumsFlip(a.nums, b.nums);
    CompareNumsFlip(b.nums, c.nums);
    CompareNumsFlip(a.nums, c.nums);
    if CompareNums(a.nums, b.nums) <= 0 && CompareNums(b.nums, c.nums) <= 0 {
      CompareNumsChain(a.nums, b.nums, c.nums);
    }
    if CompareNums(c.nums, b.nums) <= 0 && CompareNums(b.nums, a.nums) <= 0 {
      CompareNumsChain(c.nums, b.nums, a.nums);
    }
  }

  /** Ties in the order are versions no comparison can tell apart. */
  lemma TiesCompareAlike(a: Ver, b: Ver, x: Ver)
    requires Compare(a, b) == 0
    ensures Compare(a, x) == Compare(b, x)
  {
    ComparePreorder(a, b, x);
    ComparePreorder(b, a, x);
    ComparePreorder(x, a, b);
    ComparePreorder(x, b, a);
  }

  lemma {:induction false} CompareNumsZero(x: seq<nat>, y: seq<nat>)
    ensures CompareNums(x, y) == 0 <==> forall i: nat :: At(x, i) == At(y, i)
    decreases |x| + |y|
  {
    if x == [] && y == [] {
    } else {
      CompareNumsZero(Rest(x), Rest(y));
      forall i: nat ensures At(Rest(x), i) == At(x, i + 1) && At(Rest(y), i) == At(y, i + 1) {}
      if At(x, 0) == At(y, 0) && CompareNums(x, y) == 0 {
        forall i: nat ensures At(x, i) == At(y, i) {
          if i > 0 { assert At(Rest(x), i - 1) == At(Rest(y), i - 1); }
        }
      }
      if forall i: nat :: At(x, i) == At(y, i) {
        assert At(x, 0) == At(y, 0);
        forall i: nat ensures At(Rest(x), i) == At(Rest(y), i) {
          assert At(x, i + 1) == At(y, i + 1);
        }
      }
    }
  }

  // ----- constraints ------------------------------------------------------

  predicate IsQuote(c: char) { c == '\'' || c == '"' }

  /** A constraint without its quotes and outer spaces. */
  function Bare(c: string): (r: string)
    ensures |r| <= |c|
  {
    TrimSpace(Trim(c, IsQuote))
  }

  /** `strings.Split(s, "||")`. */
  function SplitBars(s: string): (alts: seq<string>)
    ensures |alts| >= 1
    ensures forall a :: a in alts ==> |a| <= |s|
    ensures |alts| > 1 ==> forall a :: a in alts ==> |a| < |s|
    ensures |alts| > 1 ==> exists k :: OccursAt(s, "||", k)
  {
    if s == [] then [[]]
    else if HasPrefix(s, "||") then
      var rest := SplitBars(s[2..]);
      assert OccursAt(s, "||", 0);
      [[]] + rest
    else
      var rest := SplitBars(s[1..]);
      var alts := [[s[0]] + rest[0]] + rest[1..];
      assert rest[0] in rest;
      assert |rest| > 1 ==> exists k :: OccursAt(s, "||", k) by {
        if |rest| > 1 {
          var k :| OccursAt(s[1..], "||", k);
          assert OccursAt(s, "||", k + 1);
        }
      }
      alts
  }

  predicate Leads(c: char) { c == '<' || c == '>' }

  /** The text cut before every `<` or `>` but a leading one. */
  function Segments(c: string): (r: seq<string>)
    ensures |r| >= 1
    ensures forall p :: p in r ==> |p| <= |c|
    ensures |r| > 1 ==> forall p :: p in r ==> |p| < |c|
    ensures c != [] ==> r[0] != []
  {
    if |c| <= 1 then [c]
    else
      var rest := Segments(c[1..]);
      assert rest[0] in rest;
      if Leads(c[1]) then [[c[0]]] + rest else [[c[0]] + rest[0]] + rest[1..]
  }

  function Trimmings(parts: seq<string>): (r: seq<string>)
    ensures |r| <= |parts|
  {
    if parts == [] then [] else Kept(parts[0]) + Trimmings(parts[1..])
  }

  function Kept(p: string): seq<string> { if TrimSpace(p) != [] then [TrimSpace(p)] else [] }

  lemma {:induction false} TrimmingsFrom(parts: seq<string>)
    ensures forall p :: p in Trimmings(parts) ==> exists q :: q in parts && p == TrimSpace(q)
  {
    if parts == [] {
    } else {
      TrimmingsFrom(parts[1..]);
      forall p | p in Trimmings(parts) ensures exists q :: q in parts && p == TrimSpace(q) {
        if p in Kept(parts[0]) {
          assert parts[0] in parts;
        } else {
          assert p in Trimmings(parts[1..]);
          var q :| q in parts[1..] && p == TrimSpace(q);
          assert q in parts;
        }
      }
    }
  }

  /** The comparators of a conjunction. */
  function Comparators(c: string): seq<string> {
    Trimmings(Segments(c))
  }

  lemma ComparatorsShorter(c: string)
    ensures |Comparators(c)| > 1 ==> forall p :: p in Comparators(c) ==> |p| < |c|
  {
    TrimmingsFrom(Segments(c));
  }

  lemma SegmentsStep(c: string)
    ensures |c| <= 1 ==> Segments(c) == [c]
    ensures |c| > 1 && Leads(c[1]) ==> Segments(c) == [[c[0]]] + Segments(c[1..])
    ensures |c| > 1 && !Leads(c[1]) ==>
      Segments(c) == [[c[0]] + Segments(c[1..])[0]] + Segments(c[1..])[1..]
  {
  }

  lemma {:induction false} SegmentHead(c: string, i: nat)
    requires 0 < i <= |c| && forall k :: 0 < k < i ==> !Leads(c[k])
    requires i < |c| ==> Leads(c[i])
    ensures Segments(c) == if i < |c| then [c[..i]] + Segments(c[i..]) else [c]
  {
    hide Segments;
    SegmentsStep(c);
    if i > 1 {
      var d := c[1..];
      SegmentHead(d, i - 1);
      assert [c[0]] + d == c;
      if i < |c| {
        assert d[i - 1..] == c[i..];
        assert [c[0]] + d[..i - 1] == c[..i];
        assert Segments(d)[1..] == Segments(c[i..]);
      }
    } else if i < |c| {
      assert c[..1] == [c[0]];
    }
  }

  lemma ComparatorsHead(s: string, k: nat)
    requires 0 < k < |s| && Leads(s[k]) && forall j :: 0 < j < k ==> !Leads(s[j])
    ensures Comparators(s) == Kept(s[..k]) + Comparators(s[k..])
  {
    SegmentHead(s, k);
    hide Segments, Kept;
    var more := Segments(s[k..]);
    assert ([s[..k]] + more)[1..] == more;
  }

  lemma ComparatorsCut(c: string, start: nat, i: nat)
    requires start < i < |c| && Leads(c[i]) && forall k :: start < k < i ==> !Leads(c[k])
    ensures Comparators(c[start..]) == Kept(c[start..i]) + Comparators(c[i..])
  {
    hide Comparators, Kept;
    var s := c[start..];
    assert s[..i - start] == c[start..i] && s[i - start..] == c[i..];
    ComparatorsHead(s, i - start);
  }

  lemma ComparatorsWhole(c: string)
    requires forall k :: 0 < k < |c| ==> !Leads(c[k])
    ensures Comparators(c) == Kept(c)
  {
    if c != [] { SegmentHead(c, |c|); }
    assert Segments(c) == [c];
    assert Trimmings([c]) == Kept(c) + Trimmings([]);
  }

  /** No comparator starts strictly between `lo` and `hi`. */
  ghost predicate OnePiece(c: string, lo: nat, hi: nat)
    requires hi <= |c|
  {
    hi <= lo + 1 || (!Leads(c[hi - 1]) && OnePiece(c, lo, hi - 1))
  }

  lemma {:induction false} OnePieceMeans(c: string, lo: nat, hi: nat)
    requires hi <= |c| && OnePiece(c, lo, hi)
    ensures forall k :: lo < k < hi ==> !Leads(c[k])
  {
    if hi <= lo + 1 {
    } else {
      OnePieceMeans(c, lo, hi - 1);
    }
  }

  lemma OnePieceStart(c: string)
    requires c != []
    ensures OnePiece(c, 0, 1)
  {
  }

  lemma OnePieceStep(c: string, lo: nat, i: nat)
    requires i < |c| && OnePiece(c, lo, i) && (Leads(c[i]) ==> i <= lo)
    ensures OnePiece(c, lo, i + 1)
  {
  }

  lemma CutKeeps(c: string, start: nat, i: nat, out: seq<string>)
    requires start < i < |c| && Leads(c[i]) && OnePiece(c, start, i)
    ensures (out + Kept(c[start..i])) + Comparators(c[i..]) == out + Comparators(c[start..])
  {
    OnePieceMeans(c, start, i);
    ComparatorsCut(c, start, i);
  }

  lemma LastPiece(c: string, start: nat)
    requires start <= |c| && OnePiece(c, start, |c|)
    ensures Comparators(c[start..]) == Kept(c[start..])
  {
    OnePieceMeans(c, start, |c|);
    ComparatorsWhole(c[start..]);
  }

  method Append(out: seq<string>, piece: string) returns (longer: seq<string>)
    ensures longer == out + Kept(piece)
  {
    var p := TrimSpace(piece);
    if p != "" { return out + [p]; }
    return out;
  }

  method SplitComparators(c: string) returns (out: seq<string>)
    ensures out == Comparators(c)
  {
    hide *;
    out := [];
    var start := 0;
    var i := 1;
    assert c[0..] == c;
    if c != [] { OnePieceStart(c); }
    while i < |c|
      invariant 0 <= start < i && start <= |c|
      invariant if c == [] then start == 0 else i <= |c| && OnePiece(c, start, i)
      invariant out + Comparators(c[start..]) == Comparators(c)
    {
      if Leads(c[i]) {
        CutKeeps(c, start, i, out);
        out := Append(out, c[start..i]);
        start := i;
      }
      OnePieceStep(c, start, i);
      i := i + 1;
    }
    LastPiece(c, start);
    out := Append(out, c[start..]);
  }

  datatype Op = GE | GT | LE | LT | EQ | Tilde | Caret

  /** The operator and what follows it; longer operators are tried first. */
  function Operator(c: string): (Op, string) {
    if HasPrefix(c, ">=") then (GE, TrimSpace(c[2..]))
    else if HasPrefix(c, "<=") then (LE, TrimSpace(c[2..]))
    else if HasPrefix(c, ">") then (GT, TrimSpace(c[1..]))
    else if HasPrefix(c, "<") then (LT, TrimSpace(c[1..]))
    else if HasPrefix(c, "^") then (Caret, c[1..])
    else if HasPrefix(c, "~") then (Tilde, c[1..])
    else if HasPrefix(c, "=") then (EQ, c[1..])
    else (Caret, c)
  }

  /** The first `n` components agree. */
  predicate SameN(v: Ver, base: Ver, n: nat) {
    forall i :: 0 <= i < n ==> At(v.nums, i) == At(base.nums, i)
  }

  predicate Meets(v: Ver, op: Op, base: Ver) {
    match op
    case GE => Compare(v, base) >= 0
    case GT => Compare(v, base) > 0
    case LE => Compare(v, base) <= 0
    case LT => Compare(v, base) < 0
    case EQ => Compare(v, base) == 0
    case Tilde => Compare(v, base) >= 0 && SameN(v, base, if |base.nums| > 2 then 2 else |base.nums|)
    case Caret => Compare(v, base) >= 0 && SameN(v, base, 1)
  }

  predicate MeetsOne(v: Ver, c: string) {
    var (op, text) := Operator(c);
    Meets(v, op, Parsed(text))
  }

  /** Whether a version meets a constraint string. Every string is a
      constraint, and the recursion ends on all of them: an alternative or a
      comparator is shorter than what it was cut from. */
  predicate Satisfies(v: Ver, constraint: string)
    decreases |constraint|
  {
    var c := Bare(constraint);
    if c == "" || c == "*" then true
    else
      var alts := SplitBars(c);
      if |alts| > 1 then exists i :: 0 <= i < |alts| && Satisfies(v, alts[i])
      else
        var parts := Comparators(c);
        ComparatorsShorter(c);
        if |parts| > 1 then forall i :: 0 <= i < |parts| ==> Satisfies(v, parts[i])
        else MeetsOne(v, c)
  }

  /** A version meets every constraint of a set; the empty set is no demand. */
  predicate SatisfiesAll(v: Ver, constraints: seq<string>) {
    forall i :: 0 <= i < |constraints| ==> Satisfies(v, constraints[i])
  }

  lemma TiesMeetAlike(a: Ver, b: Ver, op: Op, base: Ver)
    requires Compare(a, b) == 0
    ensures Meets(a, op, base) == Meets(b, op, base)
  {
    TiesCompareAlike(a, b, base);
    CompareNumsZero(a.nums, b.nums);
  }

  /** Versions the order calls equal satisfy the same constraints. */
  lemma {:induction false} TiesSatisfyAlike(a: Ver, b: Ver, constraint: string)
    requires Compare(a, b) == 0
    ensures Satisfies(a, constraint) == Satisfies(b, constraint)
    decreases |constraint|
  {
    hide Compare, Parsed, Meets, Comparators, SplitBars, Bare, Operator;
    var c := Bare(constraint);
    if c == "" || c == "*" {
    } else {
      var alts := SplitBars(c);
      var parts := Comparators(c);
      ComparatorsShorter(c);
      if |alts| > 1 {
        forall i | 0 <= i < |alts| ensures Satisfies(a, alts[i]) == Satisfies(b, alts[i]) {
          TiesSatisfyAlike(a, b, alts[i]);
        }
      } else if |parts| > 1 {
        forall i | 0 <= i < |parts| ensures Satisfies(a, parts[i]) == Satisfies(b, parts[i]) {
          TiesSatisfyAlike(a, b, parts[i]);
        }
      } else {
        var (op, text) := Operator(c);
        TiesMeetAlike(a, b, op, Parsed(text));
      }
    }
  }

  // ----- constraints are intervals --------------------------------------------

  ghost predicate NoBars(s: string) { forall k :: !OccursAt(s, "||", k) }

  /** `r` is a stretch of `s`. */
  ghost predicate Within(r: string, s: string) {
    exists i :: 0 <= i && i + |r| <= |s| && r == s[i..][..|r|]
  }

  lemma SliceOfSlice(s: string, i: nat, n: nat, k: nat)
    requires i + n <= |s| && k + 2 <= n
    ensures s[i..][..n][k..k + 2] == s[i + k..i + k + 2]
  {
  }

  lemma WithinNoBars(r: string, s: string)
    requires Within(r, s) && NoBars(s)
    ensures NoBars(r)
  {
    var i :| 0 <= i && i + |r| <= |s| && r == s[i..][..|r|];
    forall k ensures !OccursAt(r, "||", k) {
      assert !OccursAt(s, "||", i + k);
      if 0 <= k && k + 2 <= |r| { SliceOfSlice(s, i, |r|, k); }
    }
  }

  lemma WithinTransitive(r: string, s: string, t: string)
    requires Within(r, s) && Within(s, t)
    ensures Within(r, t)
  {
    var i :| 0 <= i && i + |r| <= |s| && r == s[i..][..|r|];
    var j :| 0 <= j && j + |s| <= |t| && s == t[j..][..|s|];
    assert forall k :: 0 <= k < |r| ==> r[k] == s[i + k] && s[i + k] == t[j + i + k];
    assert r == t[j + i..][..|r|];
  }

  lemma TrimWithin(s: string, drop: char -> bool)
    ensures Within(Trim(s, drop), s)
  {
    hide TrimLeft, TrimRight;
    var left := TrimLeft(s, drop);
    var r := TrimRight(left, drop);
    var i := |s| - |left|;
    assert s[i..][..|r|] == r;
  }

  lemma {:induction false} SegmentsWithin(c: string, p: string)
    requires p in Segments(c)
    ensures Within(p, c)
  {
    var segs := Segments(c);
    if |c| <= 1 {
      assert p == c[0..][..|p|];
    } else if p == segs[0] {
      SegmentsFirst(c);
      assert p == c[0..][..|p|];
    } else {
      assert p in Segments(c[1..]);
      SegmentsWithin(c[1..], p);
      assert c[1..] == c[1..][..|c[1..]|];
      WithinTransitive(p, c[1..], c);
    }
  }

  lemma {:induction false} SegmentsFirst(c: string)
    ensures |Segments(c)[0]| <= |c| && Segments(c)[0] == c[..|Segments(c)[0]|]
  {
    hide Segments;
    SegmentsStep(c);
    if |c| > 1 {
      var d := c[1..];
      SegmentsFirst(d);
      var k := |Segments(d)[0]|;
      assert [c[0]] + d[..k] == c[..k + 1];
      assert c[..1] == [c[0]];
    } else {
      assert c[..|c|] == c;
    }
  }

  lemma ComparatorsNoBars(c: string, p: string)
    requires p in Comparators(c) && NoBars(c)
    ensures NoBars(p)
  {
    TrimmingsFrom(Segments(c));
    var q :| q in Segments(c) && p == TrimSpace(q);
    SegmentsWithin(c, q);
    TrimWithin(q, IsSpace);
    WithinTransitive(p, q, c);
    WithinNoBars(p, c);
  }

  lemma {:induction false} SameNBetween(x: seq<nat>, y: seq<nat>, z: seq<nat>, n: nat)
    requires CompareNums(x, y) <= 0 && CompareNums(y, z) <= 0
    requires forall i :: 0 <= i < n ==> At(x, i) == At(z, i)
    ensures forall i :: 0 <= i < n ==> At(x, i) == At(y, i)
    decreases n
  {
    if n == 0 {
    } else {
      assert At(x, 0) == At(z, 0);
      Unfold(x, y);
      Unfold(y, z);
      assert At(x, 0) == At(y, 0);
      forall i | 0 <= i < n - 1 ensures At(Rest(x), i) == At(Rest(z), i) {
        assert At(x, i + 1) == At(z, i + 1);
      }
      SameNBetween(Rest(x), Rest(y), Rest(z), n - 1);
      forall i | 0 <= i < n ensures At(x, i) == At(y, i) {
        if i > 0 { assert At(Rest(x), i - 1) == At(Rest(y), i - 1); }
      }
    }
  }

  lemma MeetsConvex(a: Ver, b: Ver, d: Ver, op: Op, base: Ver)
    requires Compare(a, b) <= 0 && Compare(b, d) <= 0
    requires Meets(a, op, base) && Meets(d, op, base)
    ensures Meets(b, op, base)
  {
    ComparePreorder(base, a, b);
    ComparePreorder(b, d, base);
    ComparePreorder(a, base, b);
    ComparePreorder(base, b, d);
    if op.Tilde? || op.Caret? {
      var n := if op.Caret? then 1 else if |base.nums| > 2 then 2 else |base.nums|;
      forall i | 0 <= i < n ensures At(a.nums, i) == At(d.nums, i) {}
      SameNBetween(a.nums, b.nums, d.nums, n);
    }
  }

  /** Without `||` the accepted versions form one interval. */
  lemma {:induction false} SatisfiesConvex(a: Ver, b: Ver, d: Ver, constraint: string)
    requires NoBars(constraint)
    requires Compare(a, b) <= 0 && Compare(b, d) <= 0
    requires Satisfies(a, constraint) && Satisfies(d, constraint)
    ensures Satisfies(b, constraint)
    decreases |constraint|
  {
    var c := Bare(constraint);
    TrimWithin(constraint, IsQuote);
    TrimWithin(Trim(constraint, IsQuote), IsSpace);
    WithinTransitive(c, Trim(constraint, IsQuote), constraint);
    WithinNoBars(c, constraint);
    if c == "" || c == "*" {
    } else {
      var parts := Comparators(c);
      ComparatorsShorter(c);
      if |parts| > 1 {
        forall i | 0 <= i < |parts| ensures Satisfies(b, parts[i]) {
          ComparatorsNoBars(c, parts[i]);
          SatisfiesConvex(a, b, d, parts[i]);
        }
      } else {
        var (op, text) := Operator(c);
        MeetsConvex(a, b, d, op, Parsed(text));
      }
    }
  }

  /** The least version of the next line after `base`'s first `n` components. */
  function NextLine(base: Ver, n: nat): Ver
    requires 0 < n <= 2
  {
    Ver("", if n == 1 then [At(base.nums, 0) + 1] else [At(base.nums, 0), At(base.nums, 1) + 1], "", 0, "")
  }

  /** A caret or tilde pin is the half-open interval from its base to the next
      line: major for `^` and a one-component `~`, major.minor otherwise. */
  lemma PinIsInterval(v: Ver, base: Ver, n: nat)
    requires 0 < n <= 2
    ensures Compare(v, base) >= 0 && SameN(v, base, n)
            <==> Compare(v, base) >= 0 && Compare(v, NextLine(base, n)) < 0
  {
    var top := NextLine(base, n);
    var x, y := v.nums, base.nums;
    Unfold(x, top.nums);
    Unfold(x, y);
    Unfold(Rest(x), Rest(top.nums));
    Unfold(Rest(x), Rest(y));
    assert At(Rest(x), 0) == At(x, 1) && At(Rest(y), 0) == At(y, 1);
    if n == 2 {
      assert At(Rest(top.nums), 0) == At(y, 1) + 1;
    }
    assert n == 1 ==> Rest(top.nums) == [];
    CompareNumsAboveZero(Rest(x));
    CompareNumsAboveZero(Rest(Rest(x)));
    if SameN(v, base, n) { assert At(x, 0) == At(y, 0); }
  }

  lemma {:induction false} CompareNumsAboveZero(x: seq<nat>)
    ensures CompareNums(x, []) >= 0
  {
    if x == [] {
    } else {
      CompareNumsAboveZero(Rest(x));
    }
  }
}
