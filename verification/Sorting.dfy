/**
  What sort.SliceStable promises, and why its result is canonical.

  A stable sort keeps, inside every class of equal keys, the input order. That alone
  fixes the output, so a comparison sort is modelled by one function, StableSort, and
  every other stable sort of the same input agrees with it.
 */
module Sorting {

  ghost predicate TotalPreorder<T(!new)>(leq: (T, T) -> bool)
  {
    && (forall x, y :: leq(x, y) || leq(y, x))
    && (forall x, y, z :: leq(x, y) && leq(y, z) ==> leq(x, z))
  }

  ghost predicate Antisymmetric<T(!new)>(leq: (T, T) -> bool)
  {
    forall x, y :: leq(x, y) && leq(y, x) ==> x == y
  }

  predicate Sorted<T>(s: seq<T>, leq: (T, T) -> bool)
  {
    forall i, j :: 0 <= i < j < |s| ==> leq(s[i], s[j])
  }

  /** The elements of s whose key equals x's, in the order s has them. */
  function Class<T>(s: seq<T>, leq: (T, T) -> bool, x: T): (r: seq<T>)
  {
    if s == [] then []
    else if leq(s[0], x) && leq(x, s[0]) then [s[0]] + Class(s[1..], leq, x)
    else Class(s[1..], leq, x)
  }

  /** The contract of a stable sort. */
  ghost predicate StableSortOf<T(!new)>(out: seq<T>, s: seq<T>, leq: (T, T) -> bool)
  {
    Sorted(out, leq) && forall x :: Class(out, leq, x) == Class(s, leq, x)
  }

  function Insert<T>(x: T, s: seq<T>, leq: (T, T) -> bool): seq<T>
  {
    if s == [] || leq(x, s[0]) then [x] + s else [s[0]] + Insert(x, s[1..], leq)
  }

  function StableSort<T>(s: seq<T>, leq: (T, T) -> bool): seq<T>
  {
    if s == [] then [] else Insert(s[0], StableSort(s[1..], leq), leq)
  }

  lemma {:induction false} InsertKeepsElements<T>(x: T, s: seq<T>, leq: (T, T) -> bool)
    ensures multiset(Insert(x, s, leq)) == multiset{x} + multiset(s)
  {
    if s != [] && !leq(x, s[0]) {
      InsertKeepsElements(x, s[1..], leq);
      assert s == [s[0]] + s[1..];
    }
  }

  /** Sorting permutes. */
  lemma {:induction false} SortPermutes<T>(s: seq<T>, leq: (T, T) -> bool)
    ensures multiset(StableSort(s, leq)) == multiset(s)
  {
    if s != [] {
      SortPermutes(s[1..], leq);
      InsertKeepsElements(s[0], StableSort(s[1..], leq), leq);
      assert s == [s[0]] + s[1..];
    }
  }

  lemma SortLength<T>(s: seq<T>, leq: (T, T) -> bool)
    ensures |StableSort(s, leq)| == |s|
  {
    SortPermutes(s, leq);
    assert |multiset(StableSort(s, leq))| == |StableSort(s, leq)| && |multiset(s)| == |s|;
  }

  lemma SortMembers<T>(s: seq<T>, leq: (T, T) -> bool, x: T)
    ensures x in StableSort(s, leq) <==> x in s
  {
    SortPermutes(s, leq);
    assert x in multiset(StableSort(s, leq)) <==> x in StableSort(s, leq);
    assert x in multiset(s) <==> x in s;
  }

  lemma {:induction false} InsertSorted<T(!new)>(x: T, s: seq<T>, leq: (T, T) -> bool)
    requires TotalPreorder(leq) && Sorted(s, leq)
    ensures Sorted(Insert(x, s, leq), leq)
  {
    if s == [] {
    } else if leq(x, s[0]) {
      var r := [x] + s;
      forall i, j | 0 <= i < j < |r| ensures leq(r[i], r[j]) {
        assert r[j] == s[j - 1];
        if i > 0 { assert r[i] == s[i - 1]; } else if j > 1 { assert leq(s[0], s[j - 1]); }
      }
    } else {
      InsertSorted(x, s[1..], leq);
      InsertKeepsElements(x, s[1..], leq);
      var t := Insert(x, s[1..], leq);
      var r := [s[0]] + t;
      forall j | 0 <= j < |t| ensures leq(s[0], t[j]) {
        assert t[j] in multiset(t);
        assert t[j] == x || t[j] in s[1..];
        if t[j] != x {
          var k :| 0 <= k < |s[1..]| && s[1..][k] == t[j];
          assert s[k + 1] == t[j];
        }
      }
    }
  }

  lemma {:induction false} InsertClass<T(!new)>(x: T, s: seq<T>, leq: (T, T) -> bool, y: T)
    requires TotalPreorder(leq) && Sorted(s, leq)
    ensures Class(Insert(x, s, leq), leq, y) == Class([x] + s, leq, y)
  {
    assert ([x] + s)[1..] == s;
    if s != [] && !leq(x, s[0]) {
      var t := Insert(x, s[1..], leq);
      assert ([s[0]] + t)[1..] == t;
      InsertClass(x, s[1..], leq, y);
      assert ([x] + s[1..])[1..] == s[1..];
    }
  }

  /** The model of the library sort meets the library's contract. */
  lemma {:induction false} StableSortCorrect<T(!new)>(s: seq<T>, leq: (T, T) -> bool)
    requires TotalPreorder(leq)
    ensures StableSortOf(StableSort(s, leq), s, leq)
  {
    if s != [] {
      var rest := StableSort(s[1..], leq);
      StableSortCorrect(s[1..], leq);
      InsertSorted(s[0], rest, leq);
      forall y ensures Class(StableSort(s, leq), leq, y) == Class(s, leq, y) {
        InsertClass(s[0], rest, leq, y);
        assert ([s[0]] + rest)[1..] == rest;
      }
    }
  }

  lemma {:induction false} ClassMember<T>(s: seq<T>, leq: (T, T) -> bool, x: T, z: T)
    ensures z in Class(s, leq, x) <==> z in s && leq(z, x) && leq(x, z)
  {
    if s != [] {
      ClassMember(s[1..], leq, x, z);
      assert s == [s[0]] + s[1..];
    }
  }

  /** Two sorted sequences with the same classes are the same sequence. */
  lemma {:induction false} SortedByClasses<T(!new)>(a: seq<T>, b: seq<T>, leq: (T, T) -> bool)
    requires TotalPreorder(leq) && Sorted(a, leq) && Sorted(b, leq)
    requires forall x :: Class(a, leq, x) == Class(b, leq, x)
    ensures a == b
  {
    if a == [] || b == [] {
      assert a != [] ==> Class(a, leq, a[0]) == Class(b, leq, a[0]);
      assert b != [] ==> Class(b, leq, b[0]) == Class(a, leq, b[0]);
    } else {
      var x, y := a[0], b[0];
      assert y in b by { ClassMember(b, leq, y, y); }
      ClassMember(a, leq, y, y);
      ClassMember(b, leq, y, y);
      ClassMember(b, leq, x, x);
      ClassMember(a, leq, x, x);
      assert leq(x, x) && leq(y, y);
      assert Class(a, leq, y) == Class(b, leq, y) && Class(a, leq, x) == Class(b, leq, x);
      assert y in a && x in b;
      assert leq(x, y) && leq(y, x);
      assert Class(a, leq, x)[0] == x && Class(b, leq, x)[0] == y;
      forall z ensures Class(a[1..], leq, z) == Class(b[1..], leq, z) {
        assert Class(a, leq, z) == Class(b, leq, z);
        var inA := leq(x, z) && leq(z, x);
        if inA {
          assert Class(a, leq, z)[1..] == Class(a[1..], leq, z);
          assert Class(b, leq, z)[1..] == Class(b[1..], leq, z);
        }
      }
      SortedByClasses(a[1..], b[1..], leq);
      assert a == [x] + a[1..] && b == [y] + b[1..];
    }
  }

  /** A stable sort has one possible result. */
  lemma StableSortUnique<T(!new)>(out: seq<T>, s: seq<T>, leq: (T, T) -> bool)
    requires TotalPreorder(leq) && StableSortOf(out, s, leq)
    ensures out == StableSort(s, leq)
  {
    StableSortCorrect(s, leq);
    forall x ensures Class(out, leq, x) == Class(StableSort(s, leq), leq, x) {
      assert Class(out, leq, x) == Class(s, leq, x);
    }
    SortedByClasses(out, StableSort(s, leq), leq);
  }

  lemma {:induction false} ClassAppend<T>(a: seq<T>, b: seq<T>, leq: (T, T) -> bool, x: T)
    ensures Class(a + b, leq, x) == Class(a, leq, x) + Class(b, leq, x)
  {
    if a == [] {
      assert a + b == b;
    } else {
      ClassAppend(a[1..], b, leq, x);
      var rest := Class(a[1..] + b, leq, x);
      assert (a + b)[0] == a[0] && (a + b)[1..] == a[1..] + b;
      assert Class(a + b, leq, x) == if leq(a[0], x) && leq(x, a[0]) then [a[0]] + rest else rest;
    }
  }

  /** Sorting part of the input first changes nothing. */
  lemma SortAbsorbs<T(!new)>(a: seq<T>, b: seq<T>, leq: (T, T) -> bool)
    requires TotalPreorder(leq)
    ensures StableSort(a + StableSort(b, leq), leq) == StableSort(a + b, leq)
  {
    var c := StableSort(b, leq);
    StableSortCorrect(b, leq);
    StableSortCorrect(a + c, leq);
    forall x ensures Class(StableSort(a + c, leq), leq, x) == Class(a + b, leq, x) {
      ClassAppend(a, c, leq, x);
      ClassAppend(a, b, leq, x);
      assert Class(StableSort(a + c, leq), leq, x) == Class(a + c, leq, x);
    }
    StableSortUnique(StableSort(a + c, leq), a + b, leq);
  }

  /** No two different elements of s tie. */
  ghost predicate NoTies<T(!new)>(s: seq<T>, leq: (T, T) -> bool)
  {
    forall x, y :: x in s && y in s && leq(x, y) && leq(y, x) ==> x == y
  }

  lemma {:induction false} ClassOfTied<T(!new)>(s: seq<T>, leq: (T, T) -> bool, x: T, y: T)
    requires TotalPreorder(leq) && leq(x, y) && leq(y, x)
    ensures Class(s, leq, x) == Class(s, leq, y)
  {
    if s != [] { ClassOfTied(s[1..], leq, x, y); }
  }

  lemma {:induction false} ClassOfCopies<T(!new)>(s: seq<T>, leq: (T, T) -> bool, x: T)
    requires leq(x, x) && forall y :: y in s && leq(x, y) && leq(y, x) ==> y == x
    ensures Class(s, leq, x) == seq(multiset(s)[x], i => x)
  {
    if s != [] {
      assert s == [s[0]] + s[1..];
      assert forall y :: y in s[1..] ==> y in s;
      ClassOfCopies(s[1..], leq, x);
      assert multiset(s) == multiset{s[0]} + multiset(s[1..]);
    }
  }

  lemma {:induction false} ClassOfStranger<T>(s: seq<T>, leq: (T, T) -> bool, z: T)
    requires forall y | y in s :: !(leq(y, z) && leq(z, y))
    ensures Class(s, leq, z) == []
  {
    if s != [] {
      assert forall y :: y in s[1..] ==> y in s;
      ClassOfStranger(s[1..], leq, z);
    }
  }

  /** Without ties a class is decided by which elements came in. */
  lemma ClassForgetsOrder<T(!new)>(a: seq<T>, b: seq<T>, leq: (T, T) -> bool, z: T)
    requires TotalPreorder(leq) && NoTies(a, leq) && multiset(a) == multiset(b)
    ensures Class(a, leq, z) == Class(b, leq, z)
  {
    assert forall y :: y in b <==> y in multiset(b);
    assert forall y :: y in a <==> y in multiset(a);
    if x :| x in a && leq(x, z) && leq(z, x) {
      ClassOfTied(a, leq, x, z);
      ClassOfTied(b, leq, x, z);
      ClassOfCopies(a, leq, x);
      ClassOfCopies(b, leq, x);
    } else {
      ClassOfStranger(a, leq, z);
      ClassOfStranger(b, leq, z);
    }
  }

  /** Without ties the result depends only on which elements came in. */
  lemma SortForgetsInputOrder<T(!new)>(a: seq<T>, b: seq<T>, leq: (T, T) -> bool)
    requires TotalPreorder(leq) && NoTies(a, leq)
    requires multiset(a) == multiset(b)
    ensures StableSort(a, leq) == StableSort(b, leq)
  {
    StableSortCorrect(a, leq);
    StableSortCorrect(b, leq);
    SortPermutes(a, leq);
    SortPermutes(b, leq);
    assert forall x :: x in StableSort(a, leq) <==> x in multiset(a);
    SortedUnique(StableSort(a, leq), StableSort(b, leq), leq);
  }

  /** Two sorted arrangements of the same elements, with no ties, are the same sequence. */
  lemma SortedUnique<T(!new)>(a: seq<T>, b: seq<T>, leq: (T, T) -> bool)
    requires TotalPreorder(leq) && NoTies(a, leq) && multiset(a) == multiset(b)
    requires Sorted(a, leq) && Sorted(b, leq)
    ensures a == b
  {
    forall x ensures Class(a, leq, x) == Class(b, leq, x) {
      ClassForgetsOrder(a, b, leq, x);
    }
    SortedByClasses(a, b, leq);
  }

  /** Two different elements that tie come out in the order they came in. */
  lemma TieKeepsOrder<T(!new)>(x: T, y: T, rest: seq<T>, leq: (T, T) -> bool)
    requires TotalPreorder(leq) && leq(x, y) && leq(y, x) && x != y
    ensures StableSort([x, y] + rest, leq) != StableSort([y, x] + rest, leq)
  {
    StableSortCorrect([x, y] + rest, leq);
    StableSortCorrect([y, x] + rest, leq);
    assert Class(StableSort([x, y] + rest, leq), leq, x)[0] == x;
    assert Class(StableSort([y, x] + rest, leq), leq, x)[0] == y;
  }

  /** s with one occurrence of x left out. */
  ghost function Without<T>(s: seq<T>, x: T): seq<T>
  {
    if s == [] then [] else if s[0] == x then s[1..] else [s[0]] + Without(s[1..], x)
  }

  lemma {:induction false} WithoutCounts<T>(s: seq<T>, x: T)
    requires x in s
    ensures multiset(Without(s, x)) + multiset{x} == multiset(s)
  {
    assert s == [s[0]] + s[1..];
    if s[0] != x { WithoutCounts(s[1..], x); }
  }

  /** Any two different elements of s can come first. */
  lemma BringForward<T>(s: seq<T>, x: T, y: T) returns (rest: seq<T>)
    requires x in s && y in s && x != y
    ensures multiset([x, y] + rest) == multiset(s) && multiset([y, x] + rest) == multiset(s)
  {
    var t := Without(s, x);
    WithoutCounts(s, x);
    assert multiset(s)[y] == multiset(t)[y];
    assert y in multiset(s) && y in multiset(t) && y in t;
    WithoutCounts(t, y);
    rest := Without(t, y);
    assert multiset([x, y] + rest) == multiset{x, y} + multiset(rest);
    assert multiset([y, x] + rest) == multiset{x, y} + multiset(rest);
  }

  /** Every order in which the elements of s may come in gives the same result. */
  ghost predicate Canonical<T(!new)>(s: seq<T>, leq: (T, T) -> bool)
  {
    forall t :: multiset(t) == multiset(s) ==> StableSort(t, leq) == StableSort(s, leq)
  }

  lemma TiesAreNotCanonical<T(!new)>(s: seq<T>, leq: (T, T) -> bool, x: T, y: T)
    requires TotalPreorder(leq) && x in s && y in s && leq(x, y) && leq(y, x) && x != y
    ensures !Canonical(s, leq)
  {
    var rest := BringForward(s, x, y);
    TieKeepsOrder(x, y, rest, leq);
  }

  /** A stable sort is canonical exactly when no two different elements tie. */
  lemma CanonicalIffNoTies<T(!new)>(s: seq<T>, leq: (T, T) -> bool)
    requires TotalPreorder(leq)
    ensures Canonical(s, leq) <==> NoTies(s, leq)
  {
    if NoTies(s, leq) {
      forall t | multiset(t) == multiset(s) ensures StableSort(t, leq) == StableSort(s, leq) {
        SortForgetsInputOrder(s, t, leq);
      }
    } else {
      var x, y :| x in s && y in s && leq(x, y) && leq(y, x) && x != y;
      TiesAreNotCanonical(s, leq, x, y);
    }
  }
}
