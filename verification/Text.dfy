/**
  Go strings as sequences of Unicode scalar values: byte-wise order (which is
  code-point order on valid UTF-8), blankness as strings.TrimSpace sees it, and the
  sorted key lists that slices.Sorted(maps.Keys(m)) produces.
 */
module Text {

  /** The `<` of Go strings. */
  predicate Before(a: string, b: string)
  {
    if b == [] then false
    else if a == [] then true
    else if a[0] != b[0] then a[0] < b[0]
    else Before(a[1..], b[1..])
  }

  predicate AtMost(a: string, b: string)
  {
    a == b || Before(a, b)
  }

  lemma {:induction false} BeforeTrichotomy(a: string, b: string)
    ensures Before(a, b) || Before(b, a) || a == b
    ensures !(Before(a, b) && Before(b, a))
    ensures !Before(a, a)
  {
    if a != [] {
      BeforeTrichotomy(a[1..], a[1..]);
      if b != [] {
        assert a == [a[0]] + a[1..] && b == [b[0]] + b[1..];
        BeforeTrichotomy(a[1..], b[1..]);
      }
    }
  }

  lemma {:induction false} BeforeTransitive(a: string, b: string, c: string)
    requires Before(a, b) && Before(b, c)
    ensures Before(a, c)
  {
    if a != [] && a[0] == b[0] && b[0] == c[0] {
      BeforeTransitive(a[1..], b[1..], c[1..]);
    }
  }

  /** AtMost is a total order, in the quantified form the sorting lemmas ask for. */
  lemma AtMostTotalOrder()
    ensures forall a, b :: AtMost(a, b) || AtMost(b, a)
    ensures forall a, b :: AtMost(a, b) && AtMost(b, a) ==> a == b
    ensures forall a, b, c :: AtMost(a, b) && AtMost(b, c) ==> AtMost(a, c)
  {
    forall a, b ensures AtMost(a, b) || AtMost(b, a)
      ensures AtMost(a, b) && AtMost(b, a) ==> a == b
    {
      BeforeTrichotomy(a, b);
    }
    forall a, b, c | AtMost(a, b) && AtMost(b, c) ensures AtMost(a, c) {
      if a != b && b != c { BeforeTransitive(a, b, c); }
    }
  }

  /** unicode.IsSpace. */
  predicate IsSpace(c: char)
  {
    || '\t' <= c <= '\r' || c == ' ' || c == '\U{85}' || c == '\U{A0}' || c == '\U{1680}'
    || '\U{2000}' <= c <= '\U{200A}' || c == '\U{2028}' || c == '\U{2029}'
    || c == '\U{202F}' || c == '\U{205F}' || c == '\U{3000}'
  }

  function TrimLeft(s: string): string
  {
    if s != [] && IsSpace(s[0]) then TrimLeft(s[1..]) else s
  }

  function TrimRight(s: string): string
  {
    if s != [] && IsSpace(s[|s| - 1]) then TrimRight(s[..|s| - 1]) else s
  }

  /** strings.TrimSpace. */
  function TrimSpace(s: string): string
  {
    TrimRight(TrimLeft(s))
  }

  predicate Blank(s: string)
  {
    TrimSpace(s) == ""
  }

  /** A trimmed string is blank exactly when every rune of it is white space. */
  lemma {:induction false} BlankMeaning(s: string)
    ensures Blank(s) <==> forall i :: 0 <= i < |s| ==> IsSpace(s[i])
  {
    TrimLeftBlank(s);
    var t := TrimLeft(s);
    if t != [] {
      TrimLeftHead(s);
      TrimRightKeepsHead(t);
    }
  }

  lemma {:induction false} TrimLeftBlank(s: string)
    ensures TrimLeft(s) == "" <==> forall i :: 0 <= i < |s| ==> IsSpace(s[i])
  {
    if s != [] {
      TrimLeftBlank(s[1..]);
      assert forall i :: 0 < i < |s| ==> s[i] == s[1..][i - 1];
      if IsSpace(s[0]) && TrimLeft(s) == "" {
        forall i | 0 <= i < |s| ensures IsSpace(s[i]) {
          if i > 0 { assert s[i] == s[1..][i - 1]; }
        }
      }
    }
  }

  lemma {:induction false} TrimLeftHead(s: string)
    ensures TrimLeft(s) != "" ==> !IsSpace(TrimLeft(s)[0])
  {
    if s != [] { TrimLeftHead(s[1..]); }
  }

  lemma {:induction false} TrimRightKeepsHead(s: string)
    requires s != [] && !IsSpace(s[0])
    ensures TrimRight(s) != ""
  {
    if |s| > 1 { TrimRightKeepsHead(s[..|s| - 1]); }
  }

  // ---------------------------------------------------------------- sorted key lists

  predicate StrictlySorted(s: seq<string>)
  {
    forall i, j :: 0 <= i < j < |s| ==> Before(s[i], s[j])
  }

  function Elements<T>(s: seq<T>): set<T>
  {
    set x | x in s
  }

  lemma {:induction false} LeastExists(s: set<string>)
    requires s != {}
    ensures exists x :: x in s && forall y :: y in s ==> AtMost(x, y)
  {
    var x :| x in s;
    if s != {x} {
      var rest := s - {x};
      assert s == {x} + rest;
      LeastExists(rest);
      var m :| m in rest && forall y :: y in rest ==> AtMost(m, y);
      AtMostTotalOrder();
      var least := if AtMost(x, m) then x else m;
      assert forall y :: y in s ==> y == x || y in rest;
      assert least in s && forall y :: y in s ==> AtMost(least, y);
    } else {
      assert x in s && forall y :: y in s ==> AtMost(x, y);
    }
  }

  function Least(s: set<string>): (x: string)
    requires s != {}
    ensures x in s && forall y :: y in s ==> AtMost(x, y)
  {
    LeastExists(s);
    AtMostTotalOrder();
    var x :| x in s && forall y :: y in s ==> AtMost(x, y);
    x
  }

  /** slices.Sorted over a key set: the one strictly increasing listing of the set. */
  function SortedSet(s: set<string>): (r: seq<string>)
    ensures StrictlySorted(r)
    ensures Elements(r) == s
    decreases |s|
  {
    if s == {} then [] else
      var x := Least(s);
      var rest := SortedSet(s - {x});
      PrependLeast(x, rest, s);
      [x] + rest
  }

  lemma PrependLeast(x: string, rest: seq<string>, s: set<string>)
    requires x in s && (forall y :: y in s ==> AtMost(x, y))
    requires StrictlySorted(rest) && Elements(rest) == s - {x}
    ensures StrictlySorted([x] + rest) && Elements([x] + rest) == s
  {
    forall i | 0 <= i < |rest| ensures Before(x, rest[i]) {
      assert rest[i] in Elements(rest);
    }
    assert Elements([x] + rest) == {x} + Elements(rest);
  }

  lemma StrictlySortedDistinct(s: seq<string>)
    requires StrictlySorted(s)
    ensures forall i, j :: 0 <= i < |s| && 0 <= j < |s| && s[i] == s[j] ==> i == j
  {
    forall i, j | 0 <= i < j < |s| ensures s[i] != s[j] {
      BeforeTrichotomy(s[i], s[j]);
    }
  }

  /** A strictly increasing listing is determined by the set it lists. */
  lemma {:induction false} StrictlySortedUnique(a: seq<string>, b: seq<string>)
    requires StrictlySorted(a) && StrictlySorted(b) && Elements(a) == Elements(b)
    ensures a == b
  {
    ElementsEmpty(a);
    ElementsEmpty(b);
    if a != [] && b != [] {
      HeadLeast(a);
      HeadLeast(b);
      AtMostTotalOrder();
      assert a[0] in Elements(a) && b[0] in Elements(b);
      TailElements(a);
      TailElements(b);
      StrictlySortedUnique(a[1..], b[1..]);
      assert a == [a[0]] + a[1..] && b == [b[0]] + b[1..];
    }
  }

  lemma ElementsSnoc(s: seq<string>, x: string)
    ensures Elements(s + [x]) == Elements(s) + {x}
  {
    assert (s + [x])[|s|] == x;
  }

  lemma ElementsTake(s: seq<string>, k: nat)
    requires k < |s|
    ensures s[k] in Elements(s) && Elements(s[..k + 1]) == Elements(s[..k]) + {s[k]}
  {
    assert s[..k + 1] == s[..k] + [s[k]];
    ElementsSnoc(s[..k], s[k]);
  }

  lemma ElementsEmpty<T>(a: seq<T>)
    ensures Elements(a) == {} <==> a == []
  {
    assert a != [] ==> a[0] in Elements(a);
  }

  lemma HeadLeast(a: seq<string>)
    requires StrictlySorted(a) && a != []
    ensures forall x :: x in Elements(a) ==> AtMost(a[0], x)
  {
    forall x | x in Elements(a) ensures AtMost(a[0], x) {
      var i :| 0 <= i < |a| && a[i] == x;
    }
  }

  lemma TailElements(a: seq<string>)
    requires StrictlySorted(a) && a != []
    ensures StrictlySorted(a[1..])
    ensures Elements(a[1..]) == Elements(a) - {a[0]}
  {
    StrictlySortedDistinct(a);
    assert forall x :: x in Elements(a) ==> x == a[0] || x in a[1..];
    assert forall k :: 0 <= k < |a[1..]| ==> a[1..][k] == a[k + 1];
  }
}
