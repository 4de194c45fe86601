/** Stable insertion sort, standing for the library sorts the program calls
    (`sort.Strings`, `sort.Slice`, `sort.SliceStable`). What matters to the
    callers is that a sorted permutation is unique once the order is
    antisymmetric: then the result depends on the elements alone. */
module Sorting {

  ghost predicate Total<T(!new)>(le: (T, T) -> bool) {
    forall x, y :: le(x, y) || le(y, x)
  }

  ghost predicate Transitive<T(!new)>(le: (T, T) -> bool) {
    forall x, y, z :: le(x, y) && le(y, z) ==> le(x, z)
  }

  ghost predicate PreOrder<T(!new)>(le: (T, T) -> bool) {
    Total(le) && Transitive(le)
  }

  /** Elements of `s` that tie in both directions are the same element. */
  ghost predicate AntiSymmetricOn<T>(s: seq<T>, le: (T, T) -> bool) {
    forall x, y :: x in s && y in s && le(x, y) && le(y, x) ==> x == y
  }

  ghost predicate Sorted<T>(s: seq<T>, le: (T, T) -> bool) {
    forall i, j :: 0 <= i < j < |s| ==> le(s[i], s[j])
  }

  /** Inserts `x` after every element it does not precede. */
  function Insert<T>(s: seq<T>, x: T, le: (T, T) -> bool): (r: seq<T>)
    ensures |r| == |s| + 1
  {
    if s == [] then [x]
    else
      var last := |s| - 1;
      if le(s[last], x) then s + [x] else Insert(s[..last], x, le) + [s[last]]
  }

  function Sort<T>(s: seq<T>, le: (T, T) -> bool): (r: seq<T>)
    ensures |r| == |s|
  {
    if s == [] then []
    else
      var last := |s| - 1;
      Insert(Sort(s[..last], le), s[last], le)
  }

  lemma {:induction false} InsertPermutes<T>(s: seq<T>, x: T, le: (T, T) -> bool)
    ensures multiset(Insert(s, x, le)) == multiset(s) + multiset{x}
  {
    if s == [] {
    } else {
      assert s == s[..|s| - 1] + [s[|s| - 1]];
      InsertPermutes(s[..|s| - 1], x, le);
    }
  }

  lemma {:induction false} SortPermutes<T>(s: seq<T>, le: (T, T) -> bool)
    ensures multiset(Sort(s, le)) == multiset(s)
  {
    if s == [] {
    } else {
      assert s == s[..|s| - 1] + [s[|s| - 1]];
      SortPermutes(s[..|s| - 1], le);
      InsertPermutes(Sort(s[..|s| - 1], le), s[|s| - 1], le);
    }
  }

  lemma {:induction false} InsertSorted<T(!new)>(s: seq<T>, x: T, le: (T, T) -> bool)
    requires PreOrder(le) && Sorted(s, le)
    ensures Sorted(Insert(s, x, le), le)
  {
    hide *;
    InsertUnfolds(s, x, le);
    if s == [] {
      SortedOne(x, le);
    } else {
      var last := |s| - 1;
      assert s == s[..last] + [s[last]];
      SortedFront(s, s[..last], s[last], le);
      if le(s[last], x) {
        forall y | y in s ensures le(y, x) { OrderedThrough(s, y, x, le); }
        SortedAppend(s, x, le);
      } else {
        InsertSorted(s[..last], x, le);
        InsertPermutes(s[..last], x, le);
        OrderedTotal(s[last], x, le);
        var r := Insert(s[..last], x, le);
        forall y | y in r ensures le(y, s[last]) {
          assert y in multiset(r);
          if y != x { assert y in multiset(s[..last]); }
        }
        SortedAppend(r, s[last], le);
      }
    }
  }

  lemma InsertUnfolds<T>(s: seq<T>, x: T, le: (T, T) -> bool)
    ensures s == [] ==> Insert(s, x, le) == [x]
    ensures s != [] ==>
      var last := |s| - 1;
      Insert(s, x, le) == if le(s[last], x) then s + [x] else Insert(s[..last], x, le) + [s[last]]
  {
  }

  lemma SortedOne<T(!new)>(x: T, le: (T, T) -> bool)
    ensures Sorted([x], le)
  {
  }

  lemma SortedFront<T(!new)>(s: seq<T>, front: seq<T>, last: T, le: (T, T) -> bool)
    requires Sorted(s, le) && s == front + [last]
    ensures Sorted(front, le)
    ensures forall y :: y in front ==> le(y, last)
  {
    assert forall i :: 0 <= i < |front| ==> front[i] == s[i];
    forall y | y in front ensures le(y, last) {
      var i :| 0 <= i < |front| && front[i] == y;
      assert le(s[i], s[|front|]);
    }
  }

  lemma OrderedThrough<T(!new)>(s: seq<T>, y: T, x: T, le: (T, T) -> bool)
    requires PreOrder(le) && Sorted(s, le) && y in s && le(s[|s| - 1], x)
    ensures le(y, x)
  {
    var i :| 0 <= i < |s| && s[i] == y;
    if i < |s| - 1 { assert le(s[i], s[|s| - 1]); }
  }

  lemma OrderedTotal<T(!new)>(x: T, y: T, le: (T, T) -> bool)
    requires PreOrder(le)
    ensures le(x, y) || le(y, x)
  {
  }

  lemma SortedAppend<T(!new)>(s: seq<T>, x: T, le: (T, T) -> bool)
    requires Sorted(s, le) && forall y :: y in s ==> le(y, x)
    ensures Sorted(s + [x], le)
  {
  }

  lemma {:induction false} SortSorted<T(!new)>(s: seq<T>, le: (T, T) -> bool)
    requires PreOrder(le)
    ensures Sorted(Sort(s, le), le)
  {
    if s == [] {
    } else {
      SortSorted(s[..|s| - 1], le);
      InsertSorted(Sort(s[..|s| - 1], le), s[|s| - 1], le);
    }
  }

  lemma SortedHeads<T(!new)>(a: seq<T>, b: seq<T>, le: (T, T) -> bool)
    requires Sorted(a, le) && Sorted(b, le) && AntiSymmetricOn(a, le) && Total(le)
    requires multiset(a) == multiset(b) && a != []
    ensures b != [] && a[0] == b[0]
    ensures multiset(a[1..]) == multiset(b[1..])
  {
    hide *;
    MembersAgree(a, b);
    assert a[0] in b && b[0] in a;
    LeastFirst(a, b[0], le);
    LeastFirst(b, a[0], le);
    TiedIsSame(a, b[0], le);
    TailsAgree(a, b);
  }

  lemma MembersAgree<T>(a: seq<T>, b: seq<T>)
    requires multiset(a) == multiset(b)
    ensures |a| == |b|
    ensures forall x :: x in a <==> x in b
  {
    assert |multiset(a)| == |a| && |multiset(b)| == |b|;
    forall x ensures x in a <==> x in b {
      assert x in a <==> x in multiset(a);
      assert x in b <==> x in multiset(b);
    }
  }

  lemma TiedIsSame<T(!new)>(a: seq<T>, x: T, le: (T, T) -> bool)
    requires a != [] && x in a && AntiSymmetricOn(a, le) && le(a[0], x) && le(x, a[0])
    ensures a[0] == x
  {
    assert a[0] in a;
  }

  lemma TailsAgree<T>(a: seq<T>, b: seq<T>)
    requires a != [] && b != [] && a[0] == b[0] && multiset(a) == multiset(b)
    ensures multiset(a[1..]) == multiset(b[1..])
  {
    assert a == [a[0]] + a[1..] && b == [b[0]] + b[1..];
    assert multiset(a[1..]) == multiset(a) - multiset{a[0]};
    assert multiset(b[1..]) == multiset(b) - multiset{b[0]};
  }

  /** Two sorted permutations of one another are equal. */
  lemma {:induction false} SortedUnique<T(!new)>(a: seq<T>, b: seq<T>, le: (T, T) -> bool)
    requires Sorted(a, le) && Sorted(b, le) && AntiSymmetricOn(a, le)
    requires Total(le)
    requires multiset(a) == multiset(b)
    ensures a == b
  {
    if a == [] {
      assert |multiset(b)| == |b|;
    } else {
      SortedHeads(a, b, le);
      SortedUnique(a[1..], b[1..], le);
      assert a == [a[0]] + a[1..] && b == [b[0]] + b[1..];
    }
  }

  lemma LeastFirst<T(!new)>(s: seq<T>, x: T, le: (T, T) -> bool)
    requires s != [] && Sorted(s, le) && Total(le) && x in s
    ensures le(s[0], x)
  {
    var i :| 0 <= i < |s| && s[i] == x;
    if i == 0 { assert le(x, x) || le(x, x); }
  }

  /** Sorting forgets the arrival order and nothing else. */
  lemma SortCanonical<T(!new)>(a: seq<T>, b: seq<T>, le: (T, T) -> bool)
    requires PreOrder(le) && AntiSymmetricOn(a, le)
    ensures multiset(a) == multiset(b) <==> Sort(a, le) == Sort(b, le)
  {
    SortPermutes(a, le);
    SortPermutes(b, le);
    if multiset(a) == multiset(b) {
      SortSorted(a, le);
      SortSorted(b, le);
      var r := Sort(a, le);
      forall x | x in r ensures x in a {
        assert x in multiset(r);
      }
      SortedUnique(r, Sort(b, le), le);
    }
  }

  lemma SortMembers<T>(s: seq<T>, le: (T, T) -> bool)
    ensures forall x :: x in Sort(s, le) <==> x in s
  {
    SortPermutes(s, le);
    forall x ensures x in Sort(s, le) <==> x in s {
      assert x in Sort(s, le) <==> x in multiset(Sort(s, le));
      assert x in s <==> x in multiset(s);
    }
  }

  lemma {:induction false} InsertAt<T>(s: seq<T>, j: nat, x: T, le: (T, T) -> bool)
    requires j <= |s| && (j == 0 || le(s[j - 1], x))
    requires forall k :: j <= k < |s| ==> !le(s[k], x)
    ensures Insert(s, x, le) == s[..j] + [x] + s[j..]
  {
    var last := |s| - 1;
    if j < |s| {
      var front := s[..last];
      InsertAt(front, j, x, le);
      assert Insert(s, x, le) == Insert(front, x, le) + [s[last]];
      assert front[..j] == s[..j];
      assert front[j..] + [s[last]] == s[j..];
    } else {
      assert s[..j] == s && s[j..] == [];
    }
  }

  /** Moves the element at `i` left to its place among `a[..i]`. */
  method InsertInPlace<T>(a: array<T>, i: nat, le: (T, T) -> bool)
    requires i < a.Length
    modifies a
    ensures a[..i + 1] == Insert(old(a[..i]), old(a[i]), le)
    ensures forall k :: i < k < a.Length ==> a[k] == old(a[k])
  {
    hide Insert;
    ghost var done := a[..i];
    var x := a[i];
    var j := i;
    while j > 0 && !le(a[j - 1], x)
      invariant 0 <= j <= i
      invariant forall k :: 0 <= k < j ==> a[k] == done[k]
      invariant forall k :: j < k <= i ==> a[k] == done[k - 1]
      invariant forall k :: i < k < a.Length ==> a[k] == old(a[k])
      invariant forall k :: j <= k < i ==> !le(done[k], x)
    {
      a[j] := a[j - 1];
      j := j - 1;
    }
    a[j] := x;
    InsertAt(done, j, x, le);
    Shifted(done, a[..i + 1], j, x);
  }

  lemma Shifted<T>(before: seq<T>, after: seq<T>, j: nat, x: T)
    requires j <= |before| && |after| == |before| + 1 && after[j] == x
    requires forall k :: 0 <= k < j ==> after[k] == before[k]
    requires forall k :: j < k <= |before| ==> after[k] == before[k - 1]
    ensures after == before[..j] + [x] + before[j..]
  {
  }

  /** The sort in place: equal to the specification on the array's contents. */
  method SortInPlace<T>(a: array<T>, le: (T, T) -> bool)
    modifies a
    ensures a[..] == Sort(old(a[..]), le)
  {
    ghost var before := a[..];
    var i := 0;
    while i < a.Length
      invariant 0 <= i <= a.Length
      invariant a[..i] == Sort(before[..i], le)
      invariant forall k :: i <= k < a.Length ==> a[k] == before[k]
    {
      assert before[..i + 1][..i] == before[..i];
      InsertInPlace(a, i, le);
      i := i + 1;
    }
    assert a[..] == a[..i] && before == before[..i];
  }
}
