/** What the text of a constraint asks for (pkgx.go): each operator by the order
    it stands for, `||` as choice and a comparator put after another as
    conjunction. Together they give the meaning of every constraint without
    quotes inside. */
module Constraints {
  import opened Text
  import opened Versions
  import opened TagSelection

  // ----- the order itself ------------------------------------------------------------

  /** The numbers first differ at `i`, where those of `x` are the lower ones. */
  ghost predicate LowerAt(x: seq<nat>, y: seq<nat>, i: nat) {
    At(x, i) < At(y, i) && forall j: nat :: j < i ==> At(x, j) == At(y, j)
  }

  lemma {:induction false} LowerMeans(x: seq<nat>, y: seq<nat>)
    ensures CompareNums(x, y) < 0 <==> exists i: nat :: LowerAt(x, y, i)
    decreases |x| + |y|
  {
    hide LowerAt;
    if x == [] && y == [] {
      NeverLower();
    } else {
      Unfold(x, y);
      LowerMeans(Rest(x), Rest(y));
      forall i: nat
        ensures LowerAt(x, y, i) <==>
          if i == 0 then At(x, 0) < At(y, 0) else At(x, 0) == At(y, 0) && LowerAt(Rest(x), Rest(y), i - 1)
      {
        LowerShifts(x, y, i);
      }
      if At(x, 0) < At(y, 0) {
        assert LowerAt(x, y, 0);
      } else if At(x, 0) == At(y, 0) {
        if i: nat :| LowerAt(Rest(x), Rest(y), i) { assert LowerAt(x, y, i + 1); }
      }
    }
  }

  lemma NeverLower()
    ensures forall i: nat :: !LowerAt([], [], i)
  {
  }

  lemma LowerShifts(x: seq<nat>, y: seq<nat>, i: nat)
    ensures LowerAt(x, y, i) <==>
      if i == 0 then At(x, 0) < At(y, 0) else At(x, 0) == At(y, 0) && LowerAt(Rest(x), Rest(y), i - 1)
  {
    assert forall j: nat :: At(Rest(x), j) == At(x, j + 1) && At(Rest(y), j) == At(y, j + 1);
    if i > 0 && At(x, 0) == At(y, 0) && LowerAt(Rest(x), Rest(y), i - 1) {
      forall j: nat | j < i ensures At(x, j) == At(y, j) {
        if j > 0 { assert At(Rest(x), j - 1) == At(Rest(y), j - 1); }
      }
    }
    if i > 0 && LowerAt(x, y, i) {
      forall j: nat | j < i - 1 ensures At(Rest(x), j) == At(Rest(y), j) { assert At(x, j + 1) == At(y, j + 1); }
    }
  }

  /** A version is older when the first number that differs is lower, missing
      ones counting as zero, or when none differs and its rebuild is. */
  lemma OlderMeans(a: Ver, b: Ver)
    ensures Compare(a, b) < 0
      <==> (exists i: nat :: LowerAt(a.nums, b.nums, i))
           || ((forall i: nat :: At(a.nums, i) == At(b.nums, i)) && a.rebuild < b.rebuild)
  {
    LowerMeans(a.nums, b.nums);
    CompareNumsZero(a.nums, b.nums);
  }

  // ----- rebuild counters --------------------------------------------------------------

  /** A rebuild counter is read off a dotted version, and off no other. */
  lemma RebuildReads(nums: seq<nat>, n: nat)
    requires nums != []
    ensures
      var v := Parsed(Dotted(nums) + "_" + Itoa(n));
      v.nums == nums && v.rebuild == if |nums| > 1 then n else 0
  {
    hide *;
    var d, s := Dotted(nums), Dotted(nums) + "_" + Itoa(n);
    DottedChars(nums);
    DottedSplits(nums);
    NumeralsRead(nums);
    DotInside(nums);
    CounterBare(d, n);
    CounterCut(d, n);
    ParsedIs(s);
    if |nums| == 1 { LoneNumber(d, nums, n); }
  }

  lemma ParsedIs(s: string)
    ensures
      var (body, rebuild) := RebuildSplit(BareVersion(s));
      Parsed(s).nums == Components(Split(body, '.')) && Parsed(s).rebuild == rebuild
  {
    hide RebuildSplit, BareVersion, Components, Split;
  }

  lemma NumeralsRead(nums: seq<nat>)
    ensures Components(Numerals(nums)) == nums
  {
    hide LeadingNumber, Itoa;
    forall i | 0 <= i < |nums| ensures LeadingNumber(Numerals(nums)[i]) == nums[i] { ItoaReads(nums[i]); }
  }

  lemma DotInside(nums: seq<nat>)
    requires nums != []
    ensures '.' in Dotted(nums) <==> |nums| > 1
  {
    if |nums| == 1 { assert Dotted(nums) == Itoa(nums[0]); }
  }

  lemma CounterBare(d: string, n: nat)
    requires d != "" && IsDigit(d[0])
    ensures BareVersion(d + "_" + Itoa(n)) == d + "_" + Itoa(n)
  {
    hide Itoa, BareVersion;
    var s := d + "_" + Itoa(n);
    assert s[|s| - 1] == Itoa(n)[|Itoa(n)| - 1];
    PlainReadsItself(s);
  }

  lemma CounterCut(d: string, n: nat)
    requires d != "" && forall i :: 0 <= i < |d| ==> DigitOrDot(d[i])
    ensures
      var s := d + "_" + Itoa(n);
      RebuildSplit(s) == if '.' in d then (d, n) else (s, 0)
  {
    hide Itoa;
    var s := d + "_" + Itoa(n);
    assert s[|d|..|d| + 1] == "_" && OccursAt(s, "_", |d|);
    forall k | k > |d| ensures !OccursAt(s, "_", k) {
      if k + 1 <= |s| { assert s[k..k + 1] == [s[k]] && s[k] == Itoa(n)[k - |d| - 1]; }
    }
    assert LastIndex(s, "_") == |d|;
    assert s[..|d|] == d && s[|d| + 1..] == Itoa(n);
    NumeralItoa(n);
  }

  lemma LoneNumber(d: string, nums: seq<nat>, n: nat)
    requires |nums| == 1 && d == Dotted(nums) && forall i :: 0 <= i < |d| ==> DigitOrDot(d[i])
    ensures Components(Split(d + "_" + Itoa(n), '.')) == nums
  {
    hide Itoa, Split, Numerals, LeadingNumber;
    assert d == Itoa(nums[0]) by { LoneDotted(nums); }
    var s := d + "_" + Itoa(n);
    assert '.' !in s;
    assert Split(s, '.') == [s];
    assert s[..|d|] == d && s[|d|] == '_';
    LeadingRun(s, d, nums[0]);
  }

  lemma LoneDotted(nums: seq<nat>)
    requires |nums| == 1
    ensures Dotted(nums) == Itoa(nums[0])
  {
  }

  lemma LeadingRun(s: string, d: string, n: nat)
    requires d == Itoa(n) && |s| > |d| && s[..|d|] == d && !IsDigit(s[|d|])
    ensures LeadingNumber(s) == n
  {
    hide Itoa;
    DigitRunIs(s, |d|);
    NumeralItoa(n);
  }

  /** A leading "v" and outer spaces are no part of a version. */
  lemma LeadingV(nums: seq<nat>)
    requires nums != []
    ensures Parsed("v" + Dotted(nums)) == Parsed(Dotted(nums)) == Parsed(" " + Dotted(nums))
  {
    hide *;
    var d := Dotted(nums);
    DottedChars(nums);
    DigitIsNoSpace(d[|d| - 1]);
    DigitIsNoSpace(d[0]);
    PlainReadsItself(d);
    BareWith(d);
    SameBare("v" + d, d);
    SameBare(" " + d, d);
  }

  lemma BareWith(d: string)
    requires d != "" && IsDigit(d[0]) && IsDigit(d[|d| - 1])
    ensures BareVersion("v" + d) == d && BareVersion(" " + d) == d
  {
    hide *;
    var s := "v" + d;
    DigitIsNoSpace(d[0]);
    DigitIsNoSpace(d[|d| - 1]);
    assert s[0] == 'v' && s[|s| - 1] == d[|d| - 1] && s[1..] == d;
    BlankOne();
    FixedEnds(s);
    FixedEnds(d);
    LeadTrimmed(" ", d);
    BareIs(s);
    BareIs(" " + d);
  }

  lemma BareIs(s: string)
    ensures
      var t := TrimSpace(s);
      BareVersion(s) == if t != "" && t[0] == 'v' then t[1..] else t
  {
    hide TrimSpace;
    var t := TrimSpace(s);
    assert t != "" ==> t[..1] == [t[0]];
  }

  lemma FixedEnds(s: string)
    requires s != "" && !IsSpace(s[0]) && !IsSpace(s[|s| - 1])
    ensures TrimSpace(s) == s
  {
    TrimSpaceFixed(s);
  }

  lemma DigitIsNoSpace(c: char)
    requires IsDigit(c)
    ensures !IsSpace(c) && c != 'v'
  {
  }

  lemma BlankOne()
    ensures Blank(" ") && !IsSpace('v')
  {
  }

  lemma SameBare(s: string, t: string)
    requires BareVersion(s) == BareVersion(t)
    ensures Parsed(s) == Parsed(t)
  {
    hide BareVersion, RebuildSplit, Components, Split;
  }

  // ----- spellings ----------------------------------------------------------------------

  /** The spellings of a version are the dotted texts of all the numbers that tie
      with its own, as far as one zero more than it has. */
  lemma SpellingsExactly(nums: seq<nat>, t: string)
    requires nums != []
    ensures IsSpelling(nums, t)
      <==> exists m :: 0 < |m| <= |nums| + 1 && CompareNums(m, nums) == 0 && t == Dotted(m)
  {
    hide *;
    if IsSpelling(nums, t) {
      var n := SpellingLength(nums, t);
      PrefixTies(nums, n);
      DottedLonger(nums[..n]);
      var m := if t == Dotted(nums[..n]) then nums[..n] else nums[..n] + [0];
      assert 0 < |m| <= |nums| + 1 && CompareNums(m, nums) == 0 && t == Dotted(m);
    }
    if m :| 0 < |m| <= |nums| + 1 && CompareNums(m, nums) == 0 && t == Dotted(m) { TieIsSpelling(nums, m); }
  }

  lemma SpellingLength(nums: seq<nat>, t: string) returns (n: nat)
    requires IsSpelling(nums, t)
    ensures 0 < n <= |nums| && AllZero(nums, n) && (t == Dotted(nums[..n]) || t == Dotted(nums[..n]) + ".0")
  {
    hide Dotted, AllZero;
    n :| 0 < n <= |nums| && AllZero(nums, n) && (t == Dotted(nums[..n]) || t == Dotted(nums[..n]) + ".0");
  }

  lemma TieIsSpelling(nums: seq<nat>, m: seq<nat>)
    requires nums != [] && 0 < |m| <= |nums| + 1 && CompareNums(m, nums) == 0
    ensures IsSpelling(nums, Dotted(m))
  {
    hide Dotted;
    CompareNumsZero(m, nums);
    hide CompareNums;
    if |m| <= |nums| {
      forall i | 0 <= i < |m| ensures m[i] == nums[i] { assert At(m, i) == At(nums, i); }
      assert m == nums[..|m|];
      forall k | |m| <= k < |nums| ensures nums[k] == 0 { assert At(m, k) == At(nums, k); }
      assert AllZero(nums, |m|);
    } else {
      forall i | 0 <= i < |nums| ensures m[i] == nums[i] { assert At(m, i) == At(nums, i); }
      assert At(m, |nums|) == At(nums, |nums|);
      assert m == nums[..|nums|] + [0];
      DottedLonger(nums[..|nums|]);
      assert AllZero(nums, |nums|);
    }
  }

  // ----- texts without quotes --------------------------------------------------------

  predicate Unquoted(s: string) { forall i :: 0 <= i < |s| ==> !IsQuote(s[i]) }

  predicate Blank(s: string) { forall i :: 0 <= i < |s| ==> IsSpace(s[i]) }

  predicate Barless(s: string) { '|' !in s }

  lemma UnquotedBare(s: string)
    requires Unquoted(s)
    ensures Bare(s) == TrimSpace(s)
  {
    hide TrimSpace;
    if s != [] {
      assert TrimLeft(s, IsQuote) == s;
      assert TrimRight(s, IsQuote) == s;
    }
  }

  /** A text is what is left when trimmed, between two blanks. */
  lemma {:induction false} LeftBlank(s: string) returns (l: string)
    ensures s == l + TrimLeft(s, IsSpace) && Blank(l)
  {
    hide *;
    TrimLeftStep(s);
    BlankCons(' ', "");
    l := "";
    if s != [] && IsSpace(s[0]) {
      var more := LeftBlank(s[1..]);
      BlankCons(s[0], more);
      l := [s[0]] + more;
      Glue(s, more, TrimLeft(s[1..], IsSpace));
    }
  }

  lemma Glue(s: string, more: string, rest: string)
    requires s != "" && s[1..] == more + rest
    ensures s == [s[0]] + more + rest
  {
    assert s == [s[0]] + s[1..];
  }

  lemma TrimLeftStep(s: string)
    ensures s != [] && IsSpace(s[0]) ==> TrimLeft(s, IsSpace) == TrimLeft(s[1..], IsSpace)
    ensures s == [] || !IsSpace(s[0]) ==> TrimLeft(s, IsSpace) == s
  {
  }

  lemma BlankCons(c: char, s: string)
    ensures Blank("") && (IsSpace(c) && Blank(s) ==> Blank([c] + s) && Blank(s + [c]))
  {
    hide IsSpace;
  }

  lemma {:induction false} RightBlank(s: string) returns (r: string)
    ensures s == TrimRight(s, IsSpace) + r && Blank(r)
  {
    hide *;
    TrimRightStep(s);
    BlankCons(' ', "");
    r := "";
    if s != [] && IsSpace(s[|s| - 1]) {
      var front, last := s[..|s| - 1], s[|s| - 1];
      var more := RightBlank(front);
      BlankCons(last, more);
      r := more + [last];
      assert s == front + [last];
    }
  }

  lemma TrimRightStep(s: string)
    ensures s != [] && IsSpace(s[|s| - 1]) ==> TrimRight(s, IsSpace) == TrimRight(s[..|s| - 1], IsSpace)
    ensures s == [] || !IsSpace(s[|s| - 1]) ==> TrimRight(s, IsSpace) == s
  {
  }

  lemma Parts(s: string) returns (l: string, r: string)
    ensures s == l + TrimSpace(s) + r && Blank(l) && Blank(r)
  {
    hide *;
    l := LeftBlank(s);
    r := RightBlank(TrimLeft(s, IsSpace));
    TrimSpaceIs(s);
    var c := TrimSpace(s);
    assert l + c + r == l + (c + r);
  }

  lemma TrimSpaceIs(s: string)
    ensures TrimSpace(s) == TrimRight(TrimLeft(s, IsSpace), IsSpace)
  {
    hide TrimLeft, TrimRight;
  }

  lemma {:induction false} LeadTrimmed(l: string, s: string)
    requires Blank(l)
    ensures TrimSpace(l + s) == TrimSpace(s)
  {
    hide TrimRight;
    if l == "" {
      assert l + s == s;
    } else {
      assert IsSpace(l[0]) && (l + s)[1..] == l[1..] + s && (l + s)[0] == l[0];
      LeadTrimmed(l[1..], s);
    }
  }

  lemma {:induction false} TrailTrimmedRight(s: string, r: string)
    requires Blank(r)
    ensures TrimRight(s + r, IsSpace) == TrimRight(s, IsSpace)
  {
    if r == "" {
      assert s + r == s;
    } else {
      assert IsSpace(r[|r| - 1]);
      assert (s + r)[..|s + r| - 1] == s + r[..|r| - 1];
      TrailTrimmedRight(s, r[..|r| - 1]);
    }
  }

  lemma {:induction false} TrailTrimmedLeft(s: string, r: string)
    requires Blank(r)
    ensures TrimLeft(s + r, IsSpace) == if TrimLeft(s, IsSpace) == "" then "" else TrimLeft(s, IsSpace) + r
  {
    if s == "" {
      assert s + r == r;
      var t := TrimLeft(r, IsSpace);
      BlankGone(r, t);
    } else if IsSpace(s[0]) {
      assert (s + r)[1..] == s[1..] + r;
      TrailTrimmedLeft(s[1..], r);
    }
  }

  lemma BlankGone(r: string, t: string)
    requires Blank(r) && |t| <= |r| && t == r[|r| - |t|..] && (t != "" ==> !IsSpace(t[0]))
    ensures t == ""
  {
    hide IsSpace, Blank;
    if t != "" { BlankAt(r, |r| - |t|); }
  }

  lemma BlankAt(r: string, i: nat)
    requires Blank(r) && i < |r|
    ensures IsSpace(r[i])
  {
  }

  lemma TrailTrimmed(s: string, r: string)
    requires Blank(r)
    ensures TrimSpace(s + r) == TrimSpace(s)
  {
    hide TrimLeft, TrimRight;
    TrailTrimmedLeft(s, r);
    TrailTrimmedRight(TrimLeft(s, IsSpace), r);
  }

  lemma PartsUnquoted(s: string, l: string, c: string, r: string)
    requires Unquoted(s) && s == l + c + r
    ensures Unquoted(c)
  {
    forall i | 0 <= i < |c| ensures !IsQuote(c[i]) { assert c[i] == s[|l| + i]; }
  }

  ghost predicate SomeMeets(v: Ver, alts: seq<string>) { exists a :: a in alts && Satisfies(v, a) }

  lemma SatisfiesIs(v: Ver, s: string, c: string)
    requires Bare(s) == c
    ensures |SplitBars(c)| >= 1
    ensures c == "" || c == "*" ==> Satisfies(v, s)
    ensures c != "" && c != "*" && |SplitBars(c)| > 1 ==> (Satisfies(v, s) <==> SomeMeets(v, SplitBars(c)))
    ensures c != "" && c != "*" && |SplitBars(c)| == 1 && |Comparators(c)| > 1 ==>
      (Satisfies(v, s) <==> AllMeet(v, Comparators(c)))
    ensures c != "" && c != "*" && |SplitBars(c)| == 1 && |Comparators(c)| <= 1 ==>
      (Satisfies(v, s) <==> MeetsOne(v, c))
  {
    hide SplitBars, Comparators, MeetsOne, Bare;
    ComparatorsShorter(c);
    var alts := SplitBars(c);
    if c != "" && c != "*" && |alts| > 1 {
      assert forall i :: 0 <= i < |alts| ==> alts[i] in alts;
      assert Satisfies(v, s) <==> exists i :: 0 <= i < |alts| && Satisfies(v, alts[i]);
    }
    var parts := Comparators(c);
    if c != "" && c != "*" && |alts| == 1 && |parts| > 1 {
      assert forall i :: 0 <= i < |parts| ==> parts[i] in parts;
      assert Satisfies(v, s) <==> forall i :: 0 <= i < |parts| ==> Satisfies(v, parts[i]);
    }
  }

  ghost predicate AllMeet(v: Ver, parts: seq<string>) { forall p :: p in parts ==> Satisfies(v, p) }

  /** Outer spaces mean nothing. */
  lemma SpacesMeanNothing(v: Ver, a: string, b: string)
    requires Unquoted(a) && Unquoted(b) && TrimSpace(a) == TrimSpace(b)
    ensures Satisfies(v, a) == Satisfies(v, b)
  {
    hide *;
    UnquotedBare(a);
    UnquotedBare(b);
    SatisfiesIs(v, a, TrimSpace(a));
    SatisfiesIs(v, b, TrimSpace(b));
  }

  /** Any white space before or after a constraint is outer space. */
  lemma WhiteSpace(v: Ver, s: string)
    requires Unquoted(s)
    ensures Satisfies(v, WHITE + s + WHITE) == Satisfies(v, s)
  {
    hide *;
    WhiteBlank();
    LeadTrimmed(WHITE, s + WHITE);
    TrailTrimmed(s, WHITE);
    assert WHITE + s + WHITE == WHITE + (s + WHITE);
    WhiteUnquoted(s);
    SpacesMeanNothing(v, WHITE + s + WHITE, s);
  }

  const WHITE := " \t\n\r" + [11 as char, 12 as char]

  lemma WhiteBlank()
    ensures Blank(WHITE)
  {
  }

  lemma WhiteUnquoted(s: string)
    requires Unquoted(s)
    ensures Unquoted(WHITE + s + WHITE)
  {
    var t := WHITE + s + WHITE;
    forall i | 0 <= i < |t| ensures !IsQuote(t[i]) {
      if |WHITE| <= i < |WHITE| + |s| { assert t[i] == s[i - |WHITE|]; }
    }
  }

  /** Nor do quotes around a constraint. */
  lemma QuotesMeanNothing(v: Ver, s: string, q: char)
    requires Unquoted(s) && q in {'\'', '"'}
    ensures Satisfies(v, [q] + s + [q]) == Satisfies(v, s)
  {
    assert IsQuote(q);
    hide *;
    UnquotedBare(s);
    QuotesTrimmed(s, q);
    SatisfiesIs(v, s, TrimSpace(s));
    SatisfiesIs(v, [q] + s + [q], TrimSpace(s));
  }

  lemma QuotesTrimmed(s: string, q: char)
    requires Unquoted(s) && IsQuote(q)
    ensures Bare([q] + s + [q]) == TrimSpace(s)
  {
    hide TrimSpace;
    var t := [q] + s + [q];
    assert t[1..] == s + [q];
    if s == "" {
      assert (s + [q])[1..] == "";
      assert Trim(t, IsQuote) == "";
    } else {
      assert (s + [q])[0] == s[0] && TrimLeft(t, IsQuote) == s + [q];
      assert (s + [q])[..|s|] == s && TrimRight(s, IsQuote) == s;
      assert TrimRight(s + [q], IsQuote) == s;
    }
  }

  // ----- alternatives ------------------------------------------------------------------

  /** Text put before the first alternative, and after the last. */
  function PutFirst(x: string, alts: seq<string>): (r: seq<string>)
    requires alts != []
    ensures |r| == |alts|
  {
    [x + alts[0]] + alts[1..]
  }

  function PutLast(alts: seq<string>, y: string): (r: seq<string>)
    requires alts != []
    ensures |r| == |alts|
  {
    alts[..|alts| - 1] + [alts[|alts| - 1] + y]
  }

  lemma PutTwice(x: string, y: string, alts: seq<string>)
    requires alts != []
    ensures PutFirst("", alts) == alts && PutLast(alts, "") == alts
    ensures PutFirst(x, PutFirst(y, alts)) == PutFirst(x + y, alts)
    ensures PutFirst(x, PutLast(alts, y)) == PutLast(PutFirst(x, alts), y)
  {
    assert "" + alts[0] == alts[0] && alts[|alts| - 1] + "" == alts[|alts| - 1];
    assert (x + y) + alts[0] == x + (y + alts[0]);
    if |alts| == 1 { assert (x + alts[0]) + y == x + (alts[0] + y); }
  }

  lemma PutBefore(x: string, alts: seq<string>, y: string, more: seq<string>)
    requires alts != []
    ensures PutFirst(x, alts + more) == PutFirst(x, alts) + more
    ensures PutLast([""] + alts, y) == [""] + PutLast(alts, y)
    ensures PutLast([""], y) == PutFirst(y, [""]) == [y]
  {
    assert "" + y == y && y + "" == y;
    assert (alts + more)[1..] == alts[1..] + more;
  }

  predicate BarsStart(s: string) { |s| >= 2 && s[0] == '|' == s[1] }

  lemma BarsStep(s: string)
    ensures |SplitBars(s)| >= 1
    ensures s == "" ==> SplitBars(s) == [""]
    ensures BarsStart(s) ==> SplitBars(s) == [""] + SplitBars(s[2..])
    ensures s != "" && !BarsStart(s) ==> |SplitBars(s[1..])| >= 1 && SplitBars(s) == PutFirst([s[0]], SplitBars(s[1..]))
  {
    BarsStartIs(s);
    hide HasPrefix, BarsStart;
  }

  lemma BarsStartIs(s: string)
    ensures HasPrefix(s, "||") <==> BarsStart(s)
    ensures BarsStart(s) ==> |s| >= 2
  {
    assert |s| >= 2 ==> s[..2] == [s[0], s[1]];
  }

  lemma {:induction false} BarsLead(x: string, s: string)
    requires Barless(x)
    ensures |SplitBars(s)| >= 1 && SplitBars(x + s) == PutFirst(x, SplitBars(s))
  {
    hide *;
    BarsStep(s);
    var rest := SplitBars(s);
    if x == "" {
      assert x + s == s;
      PutTwice("", "", rest);
    } else {
      var t := x + s;
      assert t[1..] == x[1..] + s && t[0] == x[0];
      BarlessHead(x, s);
      BarsLead(x[1..], s);
      BarsStep(t);
      PutTwice([x[0]], x[1..], rest);
      assert [x[0]] + x[1..] == x;
    }
  }

  lemma BarlessHead(x: string, s: string)
    requires Barless(x) && x != ""
    ensures Barless(x[1..]) && !BarsStart(x + s)
  {
    assert x[0] in x && (x + s)[0] == x[0];
  }

  lemma {:induction false} BarsTrail(s: string, y: string)
    requires Barless(y)
    ensures |SplitBars(s)| >= 1 && SplitBars(s + y) == PutLast(SplitBars(s), y)
    decreases |s|
  {
    hide *;
    BarsStep(s);
    var t := s + y;
    BarsStep(t);
    if s == "" {
      assert t == y + "";
      BarsLead(y, "");
      PutBefore("", [""], y, []);
    } else {
      TwoBarsKept(s, y);
      assert t[0] == s[0] && t[1..] == s[1..] + y;
      if BarsStart(s) {
        BarsStartLong(s);
        assert t[2..] == s[2..] + y;
        BarsTrail(s[2..], y);
        PutBefore("", SplitBars(s[2..]), y, []);
      } else {
        BarsTrail(s[1..], y);
        PutTwice([s[0]], y, SplitBars(s[1..]));
      }
    }
  }

  lemma BarsStartLong(s: string)
    ensures BarsStart(s) ==> |s| >= 2
  {
  }

  lemma TwoBarsKept(s: string, y: string)
    requires s != "" && Barless(y)
    ensures BarsStart(s + y) <==> BarsStart(s)
  {
    if |s| == 1 && y != "" { assert y[0] in y && (s + y)[1] == y[0]; }
  }

  /** Bars between two texts put their alternatives one after the other. */
  lemma {:induction false} BarsJoin(a: string, b: string)
    requires a == "" || a[|a| - 1] != '|'
    ensures SplitBars(a + "||" + b) == SplitBars(a) + SplitBars(b)
    decreases |a|
  {
    hide *;
    var t := a + "||" + b;
    BarsStep(t);
    BarsStep(a);
    BarsBetween(a, b);
    if a == "" {
      assert t[2..] == b;
    } else if BarsStart(a) {
      BarsStartLong(a);
      assert t[2..] == a[2..] + "||" + b;
      BarsJoin(a[2..], b);
      BlankFirst(SplitBars(a[2..]), SplitBars(b));
    } else {
      assert t[0] == a[0] && t[1..] == a[1..] + "||" + b;
      BarsJoin(a[1..], b);
      PutBefore([a[0]], SplitBars(a[1..]), "", SplitBars(b));
    }
  }

  lemma BlankFirst(alts: seq<string>, more: seq<string>)
    ensures [""] + (alts + more) == ([""] + alts) + more
  {
  }

  lemma BarsBetween(a: string, b: string)
    requires a == "" || a[|a| - 1] != '|'
    ensures var t := a + "||" + b; |t| >= 2 && (BarsStart(t) <==> a == "" || BarsStart(a))
  {
    var t := a + "||" + b;
    if |a| >= 1 { assert t[0] == a[0]; }
    if |a| >= 2 { assert t[1] == a[1]; }
  }

  lemma {:induction false} PiecesUnquoted(s: string)
    requires Unquoted(s)
    ensures forall a :: a in SplitBars(s) ==> Unquoted(a)
  {
    hide IsQuote;
    if s == [] {
    } else if HasPrefix(s, "||") {
      PiecesUnquoted(s[2..]);
    } else {
      PiecesUnquoted(s[1..]);
      var rest := SplitBars(s[1..]);
      assert rest[0] in rest && forall a :: a in rest[1..] ==> a in rest;
    }
  }

  /** Around a trimmed text the alternatives differ in outer spaces only. */
  lemma BarsTrimmed(s: string, l: string, c: string, r: string)
    requires s == l + c + r && Blank(l) && Blank(r)
    ensures |SplitBars(s)| == |SplitBars(c)|
    ensures forall i :: 0 <= i < |SplitBars(c)| ==> TrimSpace(SplitBars(s)[i]) == TrimSpace(SplitBars(c)[i])
  {
    hide SplitBars, TrimSpace, Blank;
    BlankBarless(l);
    BlankBarless(r);
    BarsTrail(l + c, r);
    BarsLead(l, c);
    var x, y, z := SplitBars(c), SplitBars(l + c), SplitBars(s);
    assert y[0] == l + x[0] && forall i :: 0 < i < |x| ==> y[i] == x[i];
    forall i | 0 <= i < |x| ensures TrimSpace(z[i]) == TrimSpace(x[i]) {
      LeadTrimmed(l, x[i]);
      TrailTrimmed(y[i], r);
      assert y[i] == (if i == 0 then l + x[0] else x[i]);
      assert z[i] == (if i == |x| - 1 then y[i] + r else y[i]);
    }
  }

  lemma BlankBarless(s: string)
    requires Blank(s)
    ensures Barless(s)
  {
  }

  lemma {:induction false} LoneText(s: string)
    requires |SplitBars(s)| == 1
    ensures SplitBars(s) == [s]
  {
    hide SplitBars;
    BarsStep(s);
    if BarsStart(s) { BarsTwo(s); }
    if s != "" && !BarsStart(s) {
      LoneText(s[1..]);
      assert [s[0]] + s[1..] == s;
    }
  }

  lemma BarsTwo(s: string)
    requires BarsStart(s)
    ensures |SplitBars(s)| > 1
  {
    hide SplitBars;
    BarsStep(s);
    BarsStep(s[2..]);
  }

  /** A constraint is met when one of its alternatives is. */
  lemma BarsMean(v: Ver, s: string)
    requires Unquoted(s)
    ensures Satisfies(v, s) <==> SomeMeets(v, SplitBars(s))
  {
    hide *;
    var l, r := Parts(s);
    var c := TrimSpace(s);
    UnquotedBare(s);
    PartsUnquoted(s, l, c, r);
    PiecesUnquoted(s);
    PiecesUnquoted(c);
    BarsTrimmed(s, l, c, r);
    SatisfiesIs(v, s, c);
    if |SplitBars(c)| == 1 {
      LoneText(s);
      SomeMeetsIs(v, [s]);
    } else {
      FewBars(c);
      AlikeMeet(v, SplitBars(s), SplitBars(c));
    }
  }

  lemma SomeMeetsIs(v: Ver, alts: seq<string>)
    ensures |alts| == 1 ==> (SomeMeets(v, alts) <==> Satisfies(v, alts[0]))
  {
    hide Satisfies;
    if |alts| == 1 { assert alts[0] in alts; }
  }

  lemma FewBars(c: string)
    requires |SplitBars(c)| > 1
    ensures c != "" && c != "*"
  {
    assert SplitBars("") == [""];
    BarsLead("*", "");
    assert "*" + "" == "*";
  }

  lemma AlikeMeet(v: Ver, a: seq<string>, b: seq<string>)
    requires |a| == |b| && forall i :: 0 <= i < |a| ==> TrimSpace(a[i]) == TrimSpace(b[i])
    requires (forall s :: s in a ==> Unquoted(s)) && forall s :: s in b ==> Unquoted(s)
    ensures SomeMeets(v, a) <==> SomeMeets(v, b)
  {
    hide Satisfies, TrimSpace, Unquoted;
    forall i | 0 <= i < |a| ensures Satisfies(v, a[i]) == Satisfies(v, b[i]) {
      assert a[i] in a && b[i] in b;
      SpacesMeanNothing(v, a[i], b[i]);
    }
    forall s | s in a && Satisfies(v, s) ensures SomeMeets(v, b) {
      var i :| 0 <= i < |a| && a[i] == s;
      assert b[i] in b;
    }
    forall s | s in b && Satisfies(v, s) ensures SomeMeets(v, a) {
      var i :| 0 <= i < |b| && b[i] == s;
      assert a[i] in a;
    }
  }

  /** `||` is choice. */
  lemma Alternatives(v: Ver, a: string, b: string)
    requires Unquoted(a) && Unquoted(b) && (a == "" || a[|a| - 1] != '|')
    ensures Satisfies(v, a + "||" + b) <==> Satisfies(v, a) || Satisfies(v, b)
  {
    hide Satisfies, SplitBars, IsQuote;
    assert Unquoted(a + "||" + b) by { BarsUnquoted(); }
    BarsMean(v, a + "||" + b);
    BarsMean(v, a);
    BarsMean(v, b);
    BarsJoin(a, b);
  }

  lemma BarsUnquoted()
    ensures !IsQuote('|')
  {
  }

  // ----- conjunctions -----------------------------------------------------------------

  /** The first place after the start at which a comparator begins. */
  lemma {:induction false} NextLead(s: string, from: nat) returns (k: nat)
    requires 0 < from && (s == "" || from <= |s|) && forall j :: 0 < j < from && j < |s| ==> !Leads(s[j])
    ensures k > 0 && (k >= |s| || Leads(s[k])) && forall j :: 0 < j < k && j < |s| ==> !Leads(s[j])
    decreases |s| - from
  {
    if from >= |s| || Leads(s[from]) {
      k := from;
    } else {
      k := NextLead(s, from + 1);
    }
  }

  /** A comparator put after a text is one comparator more. */
  lemma {:induction false} ComparatorsJoin(a: string, b: string)
    requires a != "" && b != "" && Leads(b[0])
    ensures Comparators(a + b) == Comparators(a) + Comparators(b)
    decreases |a|
  {
    hide Comparators, Leads, Kept;
    var t := a + b;
    var k := NextLead(a, 1);
    if k < |a| {
      ComparatorsHead(a, k);
      assert t[..k] == a[..k] && t[k..] == a[k..] + b;
      ComparatorsHead(t, k);
      ComparatorsJoin(a[k..], b);
    } else {
      ComparatorsWhole(a);
      assert t[..|a|] == a && t[|a|..] == b && t[|a|] == b[0];
      ComparatorsHead(t, |a|);
    }
  }

  lemma KeptIs(s: string, t: string)
    requires TrimSpace(s) == TrimSpace(t)
    ensures Kept(s) == Kept(t)
  {
    hide TrimSpace;
  }

  lemma BlankKept(s: string)
    requires Blank(s)
    ensures Comparators(s) == []
  {
    assert forall k :: 0 < k < |s| ==> !Leads(s[k]);
    ComparatorsWhole(s);
    LeadTrimmed(s, "");
    assert s + "" == s;
  }

  lemma {:induction false} ComparatorsTrail(s: string, r: string)
    requires Blank(r)
    ensures Comparators(s + r) == Comparators(s)
    decreases |s|
  {
    hide Comparators, Kept, TrimSpace;
    var t := s + r;
    var k := NextLead(s, 1);
    if k < |s| {
      ComparatorsHead(s, k);
      assert t[..k] == s[..k] && t[k..] == s[k..] + r;
      ComparatorsHead(t, k);
      ComparatorsTrail(s[k..], r);
    } else {
      ComparatorsWhole(s);
      ComparatorsWhole(t);
      TrailTrimmed(s, r);
      KeptIs(t, s);
    }
  }

  lemma ComparatorsLead(l: string, s: string)
    requires Blank(l)
    ensures Comparators(l + s) == Comparators(s)
  {
    hide Comparators, Kept, TrimSpace;
    var t := l + s;
    if l == "" {
      assert t == s;
    } else if s == "" {
      assert t == l;
      BlankKept(l);
      BlankKept(s);
    } else if Leads(s[0]) {
      ComparatorsJoin(l, s);
      BlankKept(l);
    } else {
      var k := NextLead(s, 1);
      forall j | 0 < j < |l| + k && j < |t| ensures !Leads(t[j]) { if j >= |l| { assert t[j] == s[j - |l|]; } }
      if k < |s| {
        ComparatorsHead(s, k);
        assert t[..|l| + k] == l + s[..k] && t[|l| + k..] == s[k..] && t[|l| + k] == s[k];
        ComparatorsHead(t, |l| + k);
        LeadTrimmed(l, s[..k]);
        KeptIs(l + s[..k], s[..k]);
      } else {
        ComparatorsWhole(s);
        ComparatorsWhole(t);
        LeadTrimmed(l, s);
        KeptIs(t, s);
      }
    }
  }

  lemma KeptSome(s: string)
    requires s != "" && !IsSpace(s[0])
    ensures Kept(s) != []
  {
    LeadKept(s);
  }

  lemma {:induction false} LeadKept(s: string)
    requires s != "" && !IsSpace(s[0])
    ensures TrimSpace(s) != ""
  {
    assert TrimLeft(s, IsSpace) == s;
    RightKept(s);
  }

  lemma {:induction false} RightKept(s: string)
    requires s != "" && !IsSpace(s[0])
    ensures TrimRight(s, IsSpace) != ""
  {
    if IsSpace(s[|s| - 1]) { RightKept(s[..|s| - 1]); }
  }

  lemma SomeComparator(s: string)
    requires s != "" && !IsSpace(s[0])
    ensures Comparators(s) != []
  {
    hide Comparators, Kept;
    var k := NextLead(s, 1);
    if k < |s| {
      ComparatorsHead(s, k);
      KeptSome(s[..k]);
    } else {
      ComparatorsWhole(s);
      KeptSome(s);
    }
  }

  /** A trimmed text with one comparator is that comparator. */
  lemma OneComparator(c: string)
    requires c != "" && TrimSpace(c) == c && |Comparators(c)| <= 1
    ensures Comparators(c) == [c]
  {
    hide Comparators, TrimSpace;
    TrimmedEnds(c);
    var k := NextLead(c, 1);
    if k < |c| {
      ComparatorsHead(c, k);
      hide Kept;
      KeptSome(c[..k]);
      assert c[k..][0] == c[k];
      SomeComparator(c[k..]);
    } else {
      ComparatorsWhole(c);
    }
  }

  lemma TrimmedEnds(c: string)
    requires c != "" && TrimSpace(c) == c
    ensures !IsSpace(c[0])
  {
  }

  lemma TrimTwice(s: string)
    ensures TrimSpace(TrimSpace(s)) == TrimSpace(s)
  {
    TrimSpaceFixed(TrimSpace(s));
  }

  /** Without bars a constraint is met when all its comparators are. */
  lemma ComparatorsMean(v: Ver, s: string)
    requires Unquoted(s) && |SplitBars(s)| == 1
    ensures Satisfies(v, s) <==> AllMeet(v, Comparators(s))
  {
    hide *;
    var l, r := Parts(s);
    var c := TrimSpace(s);
    UnquotedBare(s);
    PartsUnquoted(s, l, c, r);
    BarsTrimmed(s, l, c, r);
    ComparatorsTrail(l + c, r);
    ComparatorsLead(l, c);
    SatisfiesIs(v, s, c);
    TrimTwice(s);
    if |Comparators(c)| <= 1 {
      if c == "" {
        BlankIsEmpty();
        BlankKept("");
        NoneMeet(v);
      } else {
        OneComparator(c);
        SpacesMeanNothing(v, s, c);
        OneMeets(v, c);
      }
    } else {
      StarIsOne();
    }
  }

  lemma BlankIsEmpty()
    ensures Blank("")
  {
  }

  lemma StarIsOne()
    ensures |Comparators("*")| <= 1 && |Comparators("")| <= 1
  {
    ComparatorsWhole("*");
    ComparatorsWhole("");
  }

  lemma NoneMeet(v: Ver)
    ensures AllMeet(v, [])
  {
  }

  lemma OneMeets(v: Ver, c: string)
    ensures AllMeet(v, [c]) <==> Satisfies(v, c)
  {
    hide Satisfies;
    assert c in [c];
  }

  /** A comparator after a text is conjunction. */
  lemma Conjunction(v: Ver, a: string, b: string)
    requires Unquoted(a) && Unquoted(b) && Barless(a) && Barless(b) && b != "" && Leads(b[0])
    ensures Satisfies(v, a + b) <==> Satisfies(v, a) && Satisfies(v, b)
  {
    hide Satisfies, SplitBars, IsQuote, Comparators;
    BarlessLone(a);
    BarlessLone(b);
    BarlessLone(a + b);
    ComparatorsMean(v, a + b);
    ComparatorsMean(v, a);
    ComparatorsMean(v, b);
    if a == "" {
      assert a + b == b;
      BlankKept(a);
    } else {
      ComparatorsJoin(a, b);
    }
  }

  lemma BarlessLone(s: string)
    requires Barless(s)
    ensures |SplitBars(s)| == 1
  {
    BarsLead(s, "");
    assert s + "" == s;
  }

  // ----- one comparator ------------------------------------------------------------------

  /** A version text as it stands after an operator. */
  predicate Plain(d: string) {
    && d != "" && d != "*" && d[0] !in {'=', '^', '~'}
    && forall i :: 0 <= i < |d| ==> !IsSpace(d[i]) && !IsQuote(d[i]) && !Leads(d[i]) && d[i] != '|'
  }

  lemma DottedPlain(nums: seq<nat>)
    requires nums != []
    ensures Plain(Dotted(nums))
  {
    hide Dotted;
    DottedChars(nums);
  }

  lemma PlainComparator(v: Ver, op: string, d: string)
    requires Plain(d) && op in {">=", ">", "<=", "<", "=", "^", "~", ""}
    ensures Satisfies(v, op + d) <==> MeetsOne(v, op + d)
  {
    hide *;
    var s := op + d;
    ComparatorText(op, d);
    UnquotedBare(s);
    BarlessLone(s);
    SatisfiesIs(v, s, s);
    ComparatorsWhole(s);
    OneKept(s);
  }

  lemma OneKept(s: string)
    ensures |Kept(s)| <= 1
  {
    hide TrimSpace;
  }

  lemma ComparatorText(op: string, d: string)
    requires Plain(d) && op in {">=", ">", "<=", "<", "=", "^", "~", ""}
    ensures
      var s := op + d;
      s != "" && s != "*" && TrimSpace(s) == s && Unquoted(s) && Barless(s) && forall k :: 0 < k < |s| ==> !Leads(s[k])
  {
    hide *;
    var s := op + d;
    OperatorChars(op);
    PlainChars(d);
    OrdinaryJoin(op, d);
    OrdinaryText(s);
    if op == "" { assert s == d; } else { assert |s| > 1; }
  }

  /** No space, quote or bar, and no comparator inside. */
  predicate Ordinary(s: string) {
    && (forall i :: 0 <= i < |s| ==> !IsSpace(s[i]) && !IsQuote(s[i]) && s[i] != '|')
    && forall i :: 0 < i < |s| ==> !Leads(s[i])
  }

  lemma PlainChars(d: string)
    requires Plain(d)
    ensures Ordinary(d) && d != "" && d != "*" && !Leads(d[0])
  {
    hide IsSpace, IsQuote, Leads;
  }

  lemma OrdinaryJoin(op: string, d: string)
    requires Ordinary(op) && Ordinary(d) && d != "" && !Leads(d[0])
    ensures Ordinary(op + d)
  {
    hide IsSpace, IsQuote, Leads;
  }

  lemma OrdinaryText(s: string)
    requires Ordinary(s) && s != ""
    ensures TrimSpace(s) == s && Unquoted(s) && Barless(s) && forall k :: 0 < k < |s| ==> !Leads(s[k])
  {
    TrimSpaceFixed(s);
    hide IsSpace, IsQuote, Leads, TrimSpace;
  }

  lemma OperatorChars(op: string)
    requires op in {">=", ">", "<=", "<", "=", "^", "~", ""}
    ensures Ordinary(op)
  {
  }

  /** The operator by the first characters. */
  lemma OperatorIs(c: string)
    requires c != ""
    ensures c[0] == '>' ==>
      Operator(c) == if |c| > 1 && c[1] == '=' then (GE, TrimSpace(c[2..])) else (GT, TrimSpace(c[1..]))
    ensures c[0] == '<' ==>
      Operator(c) == if |c| > 1 && c[1] == '=' then (LE, TrimSpace(c[2..])) else (LT, TrimSpace(c[1..]))
    ensures c[0] == '=' ==> Operator(c) == (EQ, c[1..])
    ensures c[0] == '^' ==> Operator(c) == (Caret, c[1..])
    ensures c[0] == '~' ==> Operator(c) == (Tilde, c[1..])
    ensures c[0] !in {'<', '>', '=', '^', '~'} ==> Operator(c) == (Caret, c)
  {
    hide TrimSpace;
    assert c[..1] == [c[0]] && (|c| > 1 ==> c[..2] == [c[0], c[1]]);
  }

  lemma OperatorCut(d: string)
    requires Plain(d)
    ensures Operator(">=" + d) == (GE, d) && Operator("<=" + d) == (LE, d)
    ensures Operator(">" + d) == (GT, d) && Operator("<" + d) == (LT, d)
    ensures Operator("=" + d) == (EQ, d) && Operator("^" + d) == (Caret, d) && Operator("~" + d) == (Tilde, d)
    ensures Operator(d) == (Caret, d)
  {
    PlainChars(d);
    OrdinaryText(d);
    assert d[0] !in {'<', '>', '=', '^', '~'};
    hide *;
    var ge, le, gt, lt, eq, ca, ti := ">=" + d, "<=" + d, ">" + d, "<" + d, "=" + d, "^" + d, "~" + d;
    assert ge[0] == '>' && ge[1] == '=' && ge[2..] == d && le[0] == '<' && le[1] == '=' && le[2..] == d;
    assert gt[0] == '>' && gt[1] == d[0] && gt[1..] == d && lt[0] == '<' && lt[1] == d[0] && lt[1..] == d;
    assert eq[0] == '=' && eq[1..] == d && ca[0] == '^' && ca[1..] == d && ti[0] == '~' && ti[1..] == d;
    OperatorIs(ge);
    OperatorIs(le);
    OperatorIs(gt);
    OperatorIs(lt);
    OperatorIs(eq);
    OperatorIs(ca);
    OperatorIs(ti);
    OperatorIs(d);
  }

  /** What each operator asks: the comparisons of the order, and the pins the
      half-open interval from their base to the next line, major for `^` and a
      bare version, the first two components for `~` when it gives two. */
  lemma OperatorsMean(v: Ver, d: string)
    requires Plain(d)
    ensures
      var base := Parsed(d);
      && (Satisfies(v, ">=" + d) <==> Compare(v, base) >= 0)
      && (Satisfies(v, ">" + d) <==> Compare(v, base) > 0)
      && (Satisfies(v, "<=" + d) <==> Compare(v, base) <= 0)
      && (Satisfies(v, "<" + d) <==> Compare(v, base) < 0)
      && (Satisfies(v, "=" + d) <==> Compare(v, base) == 0)
      && (Satisfies(v, "^" + d) <==> Compare(v, base) >= 0 && Compare(v, NextLine(base, 1)) < 0)
      && (Satisfies(v, d) <==> Compare(v, base) >= 0 && Compare(v, NextLine(base, 1)) < 0)
      && (Satisfies(v, "~" + d) <==>
            Compare(v, base) >= 0 && Compare(v, NextLine(base, if |base.nums| > 1 then 2 else 1)) < 0)
  {
    hide Satisfies, Operator, Parsed, Compare, NextLine, SameN;
    var base := Parsed(d);
    assert base.nums != [];
    PlainComparator(v, ">=", d);
    PlainComparator(v, ">", d);
    PlainComparator(v, "<=", d);
    PlainComparator(v, "<", d);
    PlainComparator(v, "=", d);
    PlainComparator(v, "^", d);
    PlainComparator(v, "~", d);
    PlainComparator(v, "", d);
    assert "" + d == d;
    OperatorCut(d);
    PinIsInterval(v, base, 1);
    PinIsInterval(v, base, if |base.nums| > 1 then 2 else 1);
  }
}
