/** Total orders, the lexicographic order, ascending sequences, and sorting, which is what the standard sorts do. */
module Orders {

  ghost predicate TotalOrder<T(!new)>(leq: (T, T) -> bool) {
    && (forall x :: leq(x, x))
    && (forall x, y :: leq(x, y) || leq(y, x))
    && (forall x, y :: leq(x, y) && leq(y, x) ==> x == y)
    && (forall x, y, z :: leq(x, y) && leq(y, z) ==> leq(x, z))
  }

  predicate CharLeq(a: char, b: char) { a <= b }

  /** Lexicographic order on sequences: the first difference decides, a proper prefix comes first. */
  predicate LexLeq<T(==)>(leq: (T, T) -> bool, a: seq<T>, b: seq<T>) {
    if a == [] then true
    else if b == [] then false
    else if a[0] == b[0] then LexLeq(leq, a[1..], b[1..])
    else leq(a[0], b[0])
  }

  predicate StringLeq(a: string, b: string) { LexLeq(CharLeq, a, b) }

  predicate StringsLeq(a: seq<string>, b: seq<string>) { LexLeq(StringLeq, a, b) }

  /** Behind a shared beginning the first difference decides, by code point; what begins another text
      comes before it, and nothing comes before its own beginning. */
  lemma {:induction false} StringsCompareByFirstDifference(shared: string, c: char, a: string, d: char, b: string)
    ensures c != d ==> (StringLeq(shared + [c] + a, shared + [d] + b) <==> c as int < d as int)
    ensures StringLeq(shared, shared + [c] + a) && !StringLeq(shared + [c] + a, shared)
  {
    if shared == "" {
      assert shared + [c] + a == [c] + a && shared + [d] + b == [d] + b;
    } else {
      StringsCompareByFirstDifference(shared[1..], c, a, d, b);
      assert (shared + [c] + a)[1..] == shared[1..] + [c] + a;
      assert (shared + [d] + b)[1..] == shared[1..] + [d] + b;
    }
  }

  lemma {:induction false} ListsCompareByFirstDifference(shared: seq<string>, x: string, a: seq<string>, y: string,
        b: seq<string>)
    ensures x != y ==> (StringsLeq(shared + [x] + a, shared + [y] + b) <==> StringLeq(x, y))
    ensures StringsLeq(shared, shared + [x] + a) && !StringsLeq(shared + [x] + a, shared)
  {
    hide StringLeq;
    if shared == [] {
      assert shared + [x] + a == [x] + a && shared + [y] + b == [y] + b;
    } else {
      ListsCompareByFirstDifference(shared[1..], x, a, y, b);
      assert (shared + [x] + a)[1..] == shared[1..] + [x] + a;
      assert (shared + [y] + b)[1..] == shared[1..] + [y] + b;
    }
  }

  lemma LexTotal<T(!new)>(leq: (T, T) -> bool, a: seq<T>, b: seq<T>)
    requires TotalOrder(leq)
    ensures LexLeq(leq, a, b) || LexLeq(leq, b, a)
    ensures LexLeq(leq, a, b) && LexLeq(leq, b, a) ==> a == b
  {
    if a != [] && b != [] && a[0] == b[0] {
      LexTotal(leq, a[1..], b[1..]);
      assert a == [a[0]] + a[1..] && b == [b[0]] + b[1..];
    }
  }

  lemma LexTransitive<T(!new)>(leq: (T, T) -> bool, a: seq<T>, b: seq<T>, c: seq<T>)
    requires TotalOrder(leq)
    requires LexLeq(leq, a, b) && LexLeq(leq, b, c)
    ensures LexLeq(leq, a, c)
  {
    if a != [] && a[0] == b[0] == c[0] {
      LexTransitive(leq, a[1..], b[1..], c[1..]);
    }
  }

  lemma StringLeqIsTotalOrder()
    ensures TotalOrder(StringLeq)
  {
    assert TotalOrder(CharLeq);
    forall a: string, b: string
      ensures StringLeq(a, b) || StringLeq(b, a)
      ensures StringLeq(a, b) && StringLeq(b, a) ==> a == b
    { LexTotal(CharLeq, a, b); }
    forall a: string ensures StringLeq(a, a) { LexTotal(CharLeq, a, a); }
    forall a: string, b: string, c: string | StringLeq(a, b) && StringLeq(b, c)
      ensures StringLeq(a, c)
    { LexTransitive(CharLeq, a, b, c); }
  }

  lemma StringsLeqIsTotalOrder()
    ensures TotalOrder(StringsLeq)
  {
    StringLeqIsTotalOrder();
    forall a: seq<string>, b: seq<string>
      ensures StringsLeq(a, b) || StringsLeq(b, a)
      ensures StringsLeq(a, b) && StringsLeq(b, a) ==> a == b
    { LexTotal(StringLeq, a, b); }
    forall a: seq<string> ensures StringsLeq(a, a) { LexTotal(StringLeq, a, a); }
    forall a: seq<string>, b: seq<string>, c: seq<string> | StringsLeq(a, b) && StringsLeq(b, c)
      ensures StringsLeq(a, c)
    { LexTransitive(StringLeq, a, b, c); }
  }

  ghost predicate Sorted<T>(leq: (T, T) -> bool, xs: seq<T>) {
    forall i, j :: 0 <= i < j < |xs| ==> leq(xs[i], xs[j])
  }

  ghost predicate Distinct<T>(xs: seq<T>) {
    forall i, j :: 0 <= i < j < |xs| ==> xs[i] != xs[j]
  }

  function Elements<T>(xs: seq<T>): set<T> {
    set x | x in xs
  }

  function Insert<T>(leq: (T, T) -> bool, x: T, xs: seq<T>): (r: seq<T>)
    ensures multiset(r) == multiset(xs) + multiset{x}
  {
    if xs == [] then [x]
    else if leq(x, xs[0]) then [x] + xs
    else
      assert xs == [xs[0]] + xs[1..];
      [xs[0]] + Insert(leq, x, xs[1..])
  }

  /** A stable sort. */
  function SortBy<T>(leq: (T, T) -> bool, xs: seq<T>): (r: seq<T>)
    ensures multiset(r) == multiset(xs)
  {
    if xs == [] then []
    else
      assert xs == [xs[0]] + xs[1..];
      Insert(leq, xs[0], SortBy(leq, xs[1..]))
  }

  lemma InsertSorted<T(!new)>(leq: (T, T) -> bool, x: T, xs: seq<T>)
    requires forall a, b :: leq(a, b) || leq(b, a)
    requires forall a, b, c :: leq(a, b) && leq(b, c) ==> leq(a, c)
    requires Sorted(leq, xs)
    ensures Sorted(leq, Insert(leq, x, xs))
  {
    if xs != [] && !leq(x, xs[0]) {
      var tail := Insert(leq, x, xs[1..]);
      InsertSorted(leq, x, xs[1..]);
      forall y | y in tail ensures leq(xs[0], y) {
        assert y in multiset(tail);
        assert y == x || y in xs[1..];
      }
    }
  }

  /** Sorted and a rearrangement, for any order in which every two elements are comparable. */
  lemma SortBySorts<T(!new)>(leq: (T, T) -> bool, xs: seq<T>)
    requires forall a, b :: leq(a, b) || leq(b, a)
    requires forall a, b, c :: leq(a, b) && leq(b, c) ==> leq(a, c)
    ensures Sorted(leq, SortBy(leq, xs))
    ensures |SortBy(leq, xs)| == |xs|
    ensures forall x :: x in SortBy(leq, xs) <==> x in xs
  {
    if xs != [] {
      SortBySorts(leq, xs[1..]);
      InsertSorted(leq, xs[0], SortBy(leq, xs[1..]));
    }
    var r := SortBy(leq, xs);
    assert |r| == |multiset(r)| == |xs|;
    forall x ensures x in r <==> x in xs {
      assert x in r <==> x in multiset(r);
      assert x in xs <==> x in multiset(xs);
    }
  }

  /** Rearranging cannot introduce a repetition. */
  lemma DistinctIsPermutationInvariant<T>(xs: seq<T>, ys: seq<T>)
    requires multiset(xs) == multiset(ys) && Distinct(xs)
    ensures Distinct(ys)
  {
    forall i, j | 0 <= i < j < |ys| ensures ys[i] != ys[j] {
      if ys[i] == ys[j] {
        MultiplicityOfRepeat(ys, i, j);
        MultiplicityOfDistinct(xs, ys[i]);
      }
    }
  }

  lemma MultiplicityOfRepeat<T>(xs: seq<T>, i: nat, j: nat)
    requires i < j < |xs| && xs[i] == xs[j]
    ensures multiset(xs)[xs[i]] >= 2
  {
    assert xs == xs[..j] + xs[j..];
    assert xs[..j][i] == xs[i] && xs[j..][0] == xs[i];
    assert xs[i] in multiset(xs[..j]) && xs[i] in multiset(xs[j..]);
  }

  lemma MultiplicityOfDistinct<T>(xs: seq<T>, x: T)
    requires Distinct(xs)
    ensures multiset(xs)[x] <= 1
  {
    if xs != [] {
      assert xs == [xs[0]] + xs[1..];
      assert forall i, j :: 0 <= i < j < |xs[1..]| ==> xs[1..][i] == xs[i + 1] && xs[1..][j] == xs[j + 1];
      MultiplicityOfDistinct(xs[1..], x);
      if x == xs[0] {
        assert forall k :: 0 <= k < |xs[1..]| ==> xs[1..][k] == xs[k + 1] != x;
        assert x !in xs[1..];
        assert x !in multiset(xs[1..]);
      }
    }
  }

  lemma MultisetTail<T>(xs: seq<T>)
    requires xs != []
    ensures multiset(xs[1..]) == multiset(xs) - multiset{xs[0]}
  {
    assert xs == [xs[0]] + xs[1..];
  }

  /** The head of a sorted sequence is below every member. */
  lemma SortedHead<T>(leq: (T, T) -> bool, xs: seq<T>, x: T)
    requires Sorted(leq, xs) && x in multiset(xs) && leq(x, x)
    ensures xs != [] && leq(xs[0], x)
  {
  }

  lemma SortedTail<T>(leq: (T, T) -> bool, xs: seq<T>)
    requires xs != [] && Sorted(leq, xs)
    ensures Sorted(leq, xs[1..])
  {
    assert forall i, j :: 0 <= i < j < |xs[1..]| ==> xs[1..][i] == xs[i + 1] && xs[1..][j] == xs[j + 1];
  }

  /** A total order leaves no freedom: two sorted rearrangements of the same elements are equal. */
  lemma {:induction false} SortedIsUnique<T(!new)>(leq: (T, T) -> bool, xs: seq<T>, ys: seq<T>)
    requires TotalOrder(leq)
    requires Sorted(leq, xs) && Sorted(leq, ys) && multiset(xs) == multiset(ys)
    ensures xs == ys
  {
    assert |xs| == |multiset(xs)| == |multiset(ys)| == |ys|;
    if xs != [] {
      assert xs[0] in multiset(xs) && ys[0] in multiset(ys);
      SortedHead(leq, xs, ys[0]);
      SortedHead(leq, ys, xs[0]);
      MultisetTail(xs);
      MultisetTail(ys);
      SortedTail(leq, xs);
      SortedTail(leq, ys);
      SortedIsUnique(leq, xs[1..], ys[1..]);
      hide Sorted, TotalOrder;
      assert xs == [xs[0]] + xs[1..] && ys == [ys[0]] + ys[1..];
    }
  }

  /** Enumerate a finite set in ascending order. */
  method SortMembers<T(==, !new)>(leq: (T, T) -> bool, s: set<T>) returns (r: seq<T>)
    requires TotalOrder(leq)
    ensures Sorted(leq, r) && Distinct(r)
    ensures forall x :: x in r <==> x in s
  {
    var rest := s;
    r := [];
    while rest != {}
      invariant rest <= s && Distinct(r)
      invariant forall x :: x in r <==> x in s && x !in rest
      decreases |rest|
    {
      var x :| x in rest;
      r := r + [x];
      rest := rest - {x};
    }
    ghost var unsorted := r;
    SortBySorts(leq, r);
    r := SortBy(leq, r);
    DistinctIsPermutationInvariant(unsorted, r);
  }

  method SortSet(s: set<string>) returns (r: seq<string>)
    ensures Sorted(StringLeq, r) && Distinct(r)
    ensures forall x :: x in r <==> x in s
  {
    StringLeqIsTotalOrder();
    r := SortMembers(StringLeq, s);
  }

  /** Without repetitions a sequence is as long as its set of elements. */
  lemma DistinctLength<T>(xs: seq<T>)
    requires Distinct(xs)
    ensures |Elements(xs)| == |xs|
  {
    if xs != [] {
      assert xs == [xs[0]] + xs[1..];
      assert forall i :: 0 <= i < |xs[1..]| ==> xs[1..][i] == xs[i + 1];
      DistinctLength(xs[1..]);
      assert Elements(xs) == {xs[0]} + Elements(xs[1..]);
    }
  }

  lemma SameElements<T>(xs: seq<T>, ys: seq<T>)
    requires multiset(xs) == multiset(ys)
    ensures Elements(xs) == Elements(ys)
  {
    forall x ensures x in xs <==> x in ys {
      assert x in xs <==> x in multiset(xs);
      assert x in ys <==> x in multiset(ys);
    }
  }

  /** Two sequences without repetitions and with the same members are rearrangements of each other. */
  lemma SameDistinctMembers<T>(xs: seq<T>, ys: seq<T>)
    requires Distinct(xs) && Distinct(ys) && (forall x :: x in xs ==> x in ys) && (forall x :: x in ys ==> x in xs)
    ensures multiset(xs) == multiset(ys)
  {
    forall x ensures multiset(xs)[x] == multiset(ys)[x] {
      MultiplicityOfDistinct(xs, x);
      MultiplicityOfDistinct(ys, x);
      assert x in multiset(xs) <==> x in xs;
      assert x in multiset(ys) <==> x in ys;
    }
  }

  /** Strictly ascending integers. */
  ghost predicate Ascending(xs: seq<int>) {
    forall i, j :: 0 <= i < j < |xs| ==> xs[i] < xs[j]
  }

  /** Strictly ascending integers are determined by their members. */
  lemma {:induction false} AscendingIsUnique(a: seq<int>, b: seq<int>)
    requires Ascending(a) && Ascending(b) && forall k :: k in a <==> k in b
    ensures a == b
    decreases |a|
  {
    assert (a != [] ==> a[0] in a) && (b != [] ==> b[0] in b);
    assert (a != [] ==> a[0] in b) && (b != [] ==> b[0] in a);
    if a != [] {
      assert a[0] == b[0];
      AscendingTail(a);
      AscendingTail(b);
      AscendingIsUnique(a[1..], b[1..]);
      assert a == [a[0]] + a[1..] && b == [b[0]] + b[1..];
    }
  }

  lemma AscendingTail(a: seq<int>)
    requires a != [] && Ascending(a)
    ensures Ascending(a[1..]) && forall k :: k in a[1..] <==> k in a && k != a[0]
  {
    assert a == [a[0]] + a[1..];
    assert forall j :: 0 <= j < |a[1..]| ==> a[1..][j] == a[j + 1];
  }
}
