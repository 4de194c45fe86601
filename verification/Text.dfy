/** Strings as the program handles them. A `char` stands for one byte, so a
    string's length is its byte length and comparison is bytewise. */
module Text {
  import opened Sorting

  // ----- order -----------------------------------------------------------

  /** Bytewise order, the order of `sort.Strings` and of `<` on strings. */
  predicate Le(a: string, b: string) {
    a == [] || (b != [] && (a[0] < b[0] || (a[0] == b[0] && Le(a[1..], b[1..]))))
  }

  lemma {:induction false} LeTotal(a: string, b: string)
    ensures Le(a, b) || Le(b, a)
  {
    if a == [] || b == [] {
    } else {
      LeTotal(a[1..], b[1..]);
    }
  }

  lemma {:induction false} LeTransitive(a: string, b: string, c: string)
    requires Le(a, b) && Le(b, c)
    ensures Le(a, c)
  {
    if a == [] || !(a[0] == b[0] == c[0]) {
    } else {
      LeTransitive(a[1..], b[1..], c[1..]);
    }
  }

  lemma {:induction false} LeAntiSymmetric(a: string, b: string)
    requires Le(a, b) && Le(b, a)
    ensures a == b
  {
    if a == [] {
    } else {
      LeAntiSymmetric(a[1..], b[1..]);
      assert a == [a[0]] + a[1..] && b == [b[0]] + b[1..];
    }
  }

  lemma LeOrders()
    ensures PreOrder(Le)
  {
    forall a, b ensures Le(a, b) || Le(b, a) { LeTotal(a, b); }
    forall a, b, c | Le(a, b) && Le(b, c) ensures Le(a, c) { LeTransitive(a, b, c); }
  }

  lemma LeTies(s: seq<string>)
    ensures AntiSymmetricOn(s, Le)
  {
    forall a, b | Le(a, b) && Le(b, a) ensures a == b { LeAntiSymmetric(a, b); }
  }

  /** Sorting strings forgets their order and nothing else. */
  lemma SortStrings(a: seq<string>, b: seq<string>)
    ensures multiset(a) == multiset(b) <==> Sort(a, Le) == Sort(b, Le)
  {
    LeOrders();
    LeTies(a);
    SortCanonical(a, b, Le);
  }

  /** The members of a set in some order. */
  ghost function Listing(names: set<string>): (r: seq<string>)
    ensures multiset(r) == multiset(names)
  {
    if names == {} then [] else
    var n :| n in names;
    assert names == (names - {n}) + {n};
    Listing(names - {n}) + [n]
  }

  /** The members of a set in ascending order. */
  ghost function Ascending(names: set<string>): seq<string> {
    Sort(Listing(names), Le)
  }

  /** Any listing of the set's members, sorted, is the ascending one. */
  lemma AscendingUnique(names: set<string>, listing: seq<string>)
    requires multiset(listing) == multiset(names)
    ensures Sort(listing, Le) == Ascending(names)
  {
    SortStrings(listing, Listing(names));
  }

  ghost predicate Distinct<T>(s: seq<T>) {
    forall i, j :: 0 <= i < j < |s| ==> s[i] != s[j]
  }

  lemma SetListing<T>(s: seq<T>, names: set<T>)
    requires multiset(s) == multiset(names)
    ensures Distinct(s)
    ensures forall n :: n in s <==> n in names
    ensures |s| == |names|
  {
    forall n ensures n in s <==> n in names {
      assert n in s <==> n in multiset(s);
    }
    assert |s| == |multiset(s)| == |names|;
    forall i, j | 0 <= i < j < |s| ensures s[i] != s[j] {
      assert s == s[..j] + s[j..];
      assert s[i] in s[..j] && s[j] in s[j..];
      assert multiset(s)[s[j]] == multiset(s[..j])[s[j]] + multiset(s[j..])[s[j]];
      assert multiset(names)[s[j]] <= 1;
    }
  }

  lemma {:induction false} DistinctMultiset<T>(s: seq<T>)
    requires Distinct(s)
    ensures multiset(s) == multiset(set x | x in s)
  {
    if s == [] {
    } else {
      var front, last := s[..|s| - 1], s[|s| - 1];
      assert s == front + [last];
      DistinctMultiset(front);
      assert (set x | x in s) == (set x | x in front) + {last};
    }
  }

  /** The last element of a list, found in a permutation and taken out of both. */
  lemma TakeOut<T>(a: seq<T>, b: seq<T>) returns (k: nat)
    requires multiset(a) == multiset(b) && a != []
    ensures k < |b| && b[k] == a[|a| - 1] && b == b[..k] + [b[k]] + b[k + 1..]
    ensures multiset(a[..|a| - 1]) == multiset(b[..k] + b[k + 1..])
  {
    hide *;
    var front, last := a[..|a| - 1], a[|a| - 1];
    assert a == front + [last];
    assert last in multiset(a);
    assert last in b;
    k :| 0 <= k < |b| && b[k] == last;
    WithoutOne(a, |a| - 1);
    WithoutOne(b, k);
    assert a[..|a| - 1] + a[|a|..] == front;
  }

  lemma WithoutOne<T>(s: seq<T>, k: nat)
    requires k < |s|
    ensures s == s[..k] + [s[k]] + s[k + 1..]
    ensures multiset(s[..k] + s[k + 1..]) == multiset(s) - multiset{s[k]}
  {
    var left, right := s[..k], s[k + 1..];
    assert s == left + [s[k]] + right;
    assert multiset(s) == multiset(left) + multiset{s[k]} + multiset(right);
    assert multiset(left + right) == multiset(left) + multiset(right);
  }

  /** Repeat-free lists of the same members are permutations of one another. */
  lemma SameMembers<T>(a: seq<T>, b: seq<T>)
    requires Distinct(a) && Distinct(b)
    requires forall x :: x in a <==> x in b
    ensures multiset(a) == multiset(b)
  {
    DistinctMultiset(a);
    DistinctMultiset(b);
    assert (set x | x in a) == (set x | x in b);
  }

  /** A permutation of a repeat-free list is repeat-free. */
  lemma PermutedDistinct<T>(a: seq<T>, b: seq<T>)
    requires Distinct(a) && multiset(a) == multiset(b)
    ensures Distinct(b)
    ensures forall x :: x in b <==> x in a
  {
    DistinctMultiset(a);
    SetListing(b, set x | x in a);
  }

  lemma AscendingMembers(names: set<string>)
    ensures multiset(Ascending(names)) == multiset(names)
    ensures Sorted(Ascending(names), Le)
    ensures Distinct(Ascending(names))
    ensures forall n :: n in Ascending(names) <==> n in names
    ensures |Ascending(names)| == |names|
  {
    LeOrders();
    SortPermutes(Listing(names), Le);
    SortSorted(Listing(names), Le);
    SetListing(Ascending(names), names);
  }

  /** The keys of a map in ascending order: iteration made reproducible. */
  method SortedKeys<V>(m: map<string, V>) returns (names: seq<string>)
    ensures names == Ascending(m.Keys)
  {
    names := [];
    var todo := m.Keys;
    while todo != {}
      invariant multiset(names) + multiset(todo) == multiset(m.Keys)
      decreases todo
    {
      var n :| n in todo;
      names := names + [n];
      assert todo == (todo - {n}) + {n};
      todo := todo - {n};
    }
    AscendingUnique(m.Keys, names);
    names := Sort(names, Le);
  }

  // ----- decimal numerals --------------------------------------------------

  predicate IsDigit(c: char) { '0' <= c <= '9' }

  predicate AllDigits(s: string) { forall i :: 0 <= i < |s| ==> IsDigit(s[i]) }

  function Digit(n: nat): (c: char)
    requires n < 10
    ensures IsDigit(c) && c as int - '0' as int == n
  {
    ('0' as int + n) as char
  }

  /** `strconv.Itoa` on a natural number. */
  function Itoa(n: nat): (s: string)
    ensures s != [] && AllDigits(s)
  {
    if n < 10 then [Digit(n)] else Itoa(n / 10) + [Digit(n % 10)]
  }

  /** The number a run of digits denotes, read left to right. */
  function Numeral(s: string): nat
    requires AllDigits(s)
  {
    if s == [] then 0
    else Numeral(s[..|s| - 1]) * 10 + (s[|s| - 1] as int - '0' as int)
  }

  lemma {:induction false} NumeralItoa(n: nat)
    ensures Numeral(Itoa(n)) == n
  {
    if n < 10 {
    } else {
      NumeralItoa(n / 10);
      var s := Itoa(n);
      assert s[..|s| - 1] == Itoa(n / 10);
    }
  }

  /** How many digits a text begins with. */
  function DigitRun(s: string): (k: nat)
    ensures k <= |s| && AllDigits(s[..k])
    ensures k < |s| ==> !IsDigit(s[k])
  {
    if s != [] && IsDigit(s[0]) then
      assert s[..DigitRun(s[1..]) + 1] == [s[0]] + s[1..][..DigitRun(s[1..])];
      DigitRun(s[1..]) + 1
    else 0
  }

  lemma DigitRunIs(p: string, i: nat)
    requires i <= |p| && AllDigits(p[..i]) && (i < |p| ==> !IsDigit(p[i]))
    ensures DigitRun(p) == i
  {
    var k := DigitRun(p);
    assert forall j :: 0 <= j < i ==> IsDigit(p[..i][j]) && p[..i][j] == p[j];
    assert forall j :: 0 <= j < k ==> IsDigit(p[..k][j]) && p[..k][j] == p[j];
  }

  // ----- cutting ---------------------------------------------------------

  predicate HasPrefix(s: string, p: string) { |p| <= |s| && s[..|p|] == p }

  function TrimPrefix(s: string, p: string): string {
    if HasPrefix(s, p) then s[|p|..] else s
  }

  predicate IsSpace(c: char) {
    c == ' ' || c == '\t' || c == '\n' || c == '\r' || c == 11 as char || c == 12 as char
  }

  function TrimLeft(s: string, drop: char -> bool): (r: string)
    ensures |r| <= |s| && r == s[|s| - |r|..]
    ensures r != [] ==> !drop(r[0])
  {
    if s != [] && drop(s[0]) then TrimLeft(s[1..], drop) else s
  }

  function TrimRight(s: string, drop: char -> bool): (r: string)
    ensures |r| <= |s| && r == s[..|r|]
    ensures r != [] ==> !drop(r[|r| - 1])
  {
    if s != [] && drop(s[|s| - 1]) then TrimRight(s[..|s| - 1], drop) else s
  }

  function Trim(s: string, drop: char -> bool): (r: string)
    ensures |r| <= |s|
    ensures r != [] ==> !drop(r[0]) && !drop(r[|r| - 1])
  {
    var left := TrimLeft(s, drop);
    var r := TrimRight(left, drop);
    assert r != [] ==> r[0] == left[0];
    r
  }

  function TrimSpace(s: string): (r: string)
    ensures |r| <= |s|
    ensures r != [] ==> !IsSpace(r[0]) && !IsSpace(r[|r| - 1])
  {
    Trim(s, IsSpace)
  }

  /** Already free of spaces at both ends. */
  predicate Trimmed(s: string) {
    s == [] || (!IsSpace(s[0]) && !IsSpace(s[|s| - 1]))
  }

  lemma TrimSpaceFixed(s: string)
    ensures TrimSpace(s) == s <==> Trimmed(s)
  {
    if Trimmed(s) && s != [] {
      assert TrimLeft(s, IsSpace) == s;
      assert TrimRight(s, IsSpace) == s;
    }
  }

  /** `strings.Split` on a one-character separator. */
  function Split(s: string, sep: char): (parts: seq<string>)
    ensures |parts| >= 1
    ensures sep !in s ==> parts == [s]
  {
    if s == [] then [[]]
    else
      var rest := Split(s[1..], sep);
      if s[0] == sep then [[]] + rest
      else
        assert [s[0]] + s[1..] == s;
        [[s[0]] + rest[0]] + rest[1..]
  }

  function Join(parts: seq<string>, sep: char): string {
    if parts == [] then []
    else if |parts| == 1 then parts[0]
    else parts[0] + [sep] + Join(parts[1..], sep)
  }

  lemma {:induction false} SplitCons(head: string, rest: string, sep: char)
    requires sep !in head
    ensures Split(head + [sep] + rest, sep) == [head] + Split(rest, sep)
  {
    var s := head + [sep] + rest;
    if head == [] {
      assert s[1..] == rest;
    } else {
      assert s[1..] == head[1..] + [sep] + rest;
      SplitCons(head[1..], rest, sep);
      assert [head[0]] + head[1..] == head;
    }
  }

  lemma {:induction false} SplitJoin(parts: seq<string>, sep: char)
    requires parts != [] && forall p :: p in parts ==> sep !in p
    ensures Split(Join(parts, sep), sep) == parts
  {
    if |parts| <= 1 {
    } else {
      SplitCons(parts[0], Join(parts[1..], sep), sep);
      SplitJoin(parts[1..], sep);
    }
  }

  lemma {:induction false} SplitPieces(s: string, sep: char)
    ensures forall p :: p in Split(s, sep) ==> sep !in p
  {
    if s == [] {
    } else {
      SplitPieces(s[1..], sep);
      var rest := Split(s[1..], sep);
      assert rest[0] in rest;
      assert forall p :: p in rest[1..] ==> p in rest;
    }
  }

  predicate OccursAt(s: string, p: string, k: int) {
    0 <= k && k + |p| <= |s| && s[k..k + |p|] == p
  }

  /** `strings.LastIndex`: the last position where `p` occurs, or -1. */
  function LastIndex(s: string, p: string): (i: int)
    ensures i == -1 || OccursAt(s, p, i)
    ensures forall k :: OccursAt(s, p, k) ==> k <= i
  {
    LastIndexUpTo(s, p, |s|)
  }

  function LastIndexUpTo(s: string, p: string, end: nat): (i: int)
    ensures i == -1 || OccursAt(s, p, i)
    ensures forall k :: OccursAt(s, p, k) && k <= end ==> k <= i
  {
    if OccursAt(s, p, end) then end
    else if end == 0 then -1
    else LastIndexUpTo(s, p, end - 1)
  }
}
