/**
  Comparison by a list of keys, and what it gives a stable sort.

  The edge, finding and trajectory orders all compare several fields in turn. Each is shown to be
  the lexicographic order of a key; from there one argument serves all three.
 */
module Ordering {
  import opened Text
  import opened Sorting

  datatype Key = End | Num(n: int, rest: Key) | Word(w: string, rest: Key)

  predicate KeyLess(a: Key, b: Key)
  {
    match (a, b)
    case (Num(m, r), Num(n, s)) => if m != n then m < n else KeyLess(r, s)
    case (Word(v, r), Word(w, s)) => if v != w then Before(v, w) else KeyLess(r, s)
    case (End, _) => !b.End?
    case (Num(_, _), Word(_, _)) => true
    case _ => false
  }

  lemma {:induction false} KeyTrichotomy(a: Key, b: Key)
    ensures KeyLess(a, b) || KeyLess(b, a) || a == b
    ensures !(KeyLess(a, b) && KeyLess(b, a))
    ensures !KeyLess(a, a)
  {
    if a.Num? || a.Word? { KeyTrichotomy(a.rest, a.rest); }
    if (a.Num? && b.Num?) || (a.Word? && b.Word?) {
      KeyTrichotomy(a.rest, b.rest);
      if a.Word? { BeforeTrichotomy(a.w, b.w); }
    }
  }

  lemma {:induction false} KeyTransitive(a: Key, b: Key, c: Key)
    requires KeyLess(a, b) && KeyLess(b, c)
    ensures KeyLess(a, c)
  {
    if a.Num? && b.Num? && c.Num? && a.n == b.n == c.n {
      KeyTransitive(a.rest, b.rest, c.rest);
    } else if a.Word? && b.Word? && c.Word? {
      BeforeTrichotomy(a.w, b.w);
      BeforeTrichotomy(b.w, c.w);
      BeforeTrichotomy(a.w, c.w);
      if a.w == b.w == c.w {
        KeyTransitive(a.rest, b.rest, c.rest);
      } else if a.w != b.w && b.w != c.w {
        BeforeTransitive(a.w, b.w, c.w);
      }
    }
  }

  /** The comparison a sort by `less` maintains. */
  function NotAfter<T>(less: (T, T) -> bool): (T, T) -> bool
  {
    (a, b) => !less(b, a)
  }

  /** less compares by key. */
  ghost predicate KeyedBy<T(!new)>(less: (T, T) -> bool, key: T -> Key)
  {
    forall a, b :: less(a, b) <==> KeyLess(key(a), key(b))
  }

  lemma KeyedOrder<T(!new)>(less: (T, T) -> bool, key: T -> Key)
    requires KeyedBy(less, key)
    ensures TotalPreorder(NotAfter(less))
    ensures forall a, b :: NotAfter(less)(a, b) && NotAfter(less)(b, a) <==> key(a) == key(b)
  {
    var leq := NotAfter(less);
    forall a, b ensures leq(a, b) || leq(b, a) ensures leq(a, b) && leq(b, a) <==> key(a) == key(b) {
      KeyTrichotomy(key(a), key(b));
    }
    forall a, b, c | leq(a, b) && leq(b, c) ensures leq(a, c) {
      KeyTrichotomy(key(a), key(b));
      KeyTrichotomy(key(b), key(c));
      KeyTrichotomy(key(a), key(c));
      if KeyLess(key(a), key(b)) && KeyLess(key(b), key(c)) {
        KeyTransitive(key(a), key(b), key(c));
      }
    }
  }

  function Keys<T>(s: seq<T>, key: T -> Key): (ks: seq<Key>)
    ensures |ks| == |s| && forall i :: 0 <= i < |s| ==> ks[i] == key(s[i])
  {
    seq(|s|, i requires 0 <= i < |s| => key(s[i]))
  }

  lemma KeysCons<T>(x: T, s: seq<T>, key: T -> Key)
    ensures Keys([x] + s, key) == [key(x)] + Keys(s, key)
    ensures multiset(Keys([x] + s, key)) == multiset{key(x)} + multiset(Keys(s, key))
  {
    assert Keys([x] + s, key) == [key(x)] + Keys(s, key);
  }

  lemma {:induction false} KeysWithout<T>(s: seq<T>, x: T, key: T -> Key)
    requires x in s
    ensures multiset(Keys(s, key)) == multiset{key(x)} + multiset(Keys(Without(s, x), key))
  {
    assert s == [s[0]] + s[1..];
    KeysCons(s[0], s[1..], key);
    if s[0] != x {
      KeysWithout(s[1..], x, key);
      KeysCons(s[0], Without(s[1..], x), key);
    }
  }

  lemma {:induction false} KeysPermute<T>(a: seq<T>, b: seq<T>, key: T -> Key)
    requires multiset(a) == multiset(b)
    ensures multiset(Keys(a, key)) == multiset(Keys(b, key))
    decreases |a|
  {
    assert |multiset(a)| == |a| && |multiset(b)| == |b|;
    if a != [] {
      assert a[0] in multiset(b) && a[0] in b;
      KeysWithout(a, a[0], key);
      KeysWithout(b, a[0], key);
      WithoutCounts(a, a[0]);
      WithoutCounts(b, a[0]);
      assert multiset(Without(a, a[0])) == multiset(Without(b, a[0])) by {
        assert multiset(a) - multiset{a[0]} == multiset(Without(a, a[0]));
        assert multiset(b) - multiset{a[0]} == multiset(Without(b, a[0]));
      }
      KeysPermute(Without(a, a[0]), Without(b, a[0]), key);
    }
  }

  predicate KeyAtMost(a: Key, b: Key)
  {
    !KeyLess(b, a)
  }

  lemma KeyAtMostOrder()
    ensures TotalPreorder(KeyAtMost)
    ensures forall a, b :: KeyAtMost(a, b) && KeyAtMost(b, a) ==> a == b
  {
    var self := (k: Key) => k;
    assert KeyedBy(KeyLess, self);
    KeyedOrder(KeyLess, self);
    assert forall a, b :: NotAfter(KeyLess)(a, b) == KeyAtMost(a, b);
  }

  /** The sorted keys depend only on which elements came in. */
  lemma SortedKeysCanonical<T(!new)>(a: seq<T>, b: seq<T>, less: (T, T) -> bool, key: T -> Key)
    requires KeyedBy(less, key) && multiset(a) == multiset(b)
    ensures Keys(StableSort(a, NotAfter(less)), key) == Keys(StableSort(b, NotAfter(less)), key)
  {
    var leq := NotAfter(less);
    var s, t := StableSort(a, leq), StableSort(b, leq);
    KeyedOrder(less, key);
    StableSortCorrect(a, leq);
    StableSortCorrect(b, leq);
    SortPermutes(a, leq);
    SortPermutes(b, leq);
    KeysPermute(s, t, key);
    KeyAtMostOrder();
    SortedUnique(Keys(s, key), Keys(t, key), KeyAtMost);
  }

  /** A sort by key is canonical exactly when no two different elements share a key. */
  lemma CanonicalIffKeysDistinct<T(!new)>(s: seq<T>, less: (T, T) -> bool, key: T -> Key)
    requires KeyedBy(less, key)
    ensures Canonical(s, NotAfter(less)) <==> forall x, y :: x in s && y in s && key(x) == key(y) ==> x == y
  {
    KeyedOrder(less, key);
    CanonicalIffNoTies(s, NotAfter(less));
  }
}
