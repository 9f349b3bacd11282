/**
  The exclusive-resource list of a declaration (exclusiveResources and compactStrings in
  component/registry.go): gather, sort, squeeze duplicates in place.
 */
module Exclusive {
  import opened Text
  import opened Sorting
  import opened PortGrammar

  /** The resources a component claims for itself, whichever lane declares them. */
  function Claims(facts: seq<Facts>): set<string>
  {
    set i | 0 <= i < |facts| && facts[i].exclusive :: facts[i].resourceID
  }

  /** What exclusiveResources promises: each claimed resource once, in order. */
  function ExclusiveResources(inputs: seq<Facts>, outputs: seq<Facts>): seq<string>
  {
    SortedSet(Claims(inputs + outputs))
  }

  /** Neighbouring duplicates squeezed out. */
  function Compact(s: seq<string>): seq<string>
  {
    if s == [] then []
    else
      var r := Compact(s[..|s| - 1]);
      if r != [] && r[|r| - 1] == s[|s| - 1] then r else r + [s[|s| - 1]]
  }

  lemma CompactNext(s: seq<string>, k: nat)
    requires k < |s|
    ensures var r := Compact(s[..k]);
      Compact(s[..k + 1]) == if r != [] && r[|r| - 1] == s[k] then r else r + [s[k]]
  {
    assert s[..k + 1][..k] == s[..k];
  }

  /** compactStrings, rewriting the slice in place. */
  method CompactStrings(a: array<string>) returns (n: nat)
    modifies a
    ensures n <= a.Length
    ensures a[..n] == Compact(old(a[..]))
  {
    ghost var was := a[..];
    if a.Length < 2 {
      n := a.Length;
      assert a.Length == 1 ==> was == [a[0]];
      assert a[..n] == was;
      return;
    }
    var write := 1;
    var read := 1;
    assert was[..1] == [was[0]];
    while read < a.Length
      invariant 1 <= write <= read <= a.Length
      invariant a[..write] == Compact(was[..read])
      invariant forall k :: read <= k < a.Length ==> a[k] == was[k]
    {
      CompactNext(was, read);
      if a[read] != a[write - 1] {
        ghost var done := a[..write];
        a[write] := a[read];
        write := write + 1;
        assert a[..write] == done + [was[read]];
      }
      read := read + 1;
    }
    assert was[..a.Length] == was;
    n := write;
  }

  lemma ExtendSorted(r: seq<string>, x: string)
    requires StrictlySorted(r) && r != [] && Before(r[|r| - 1], x)
    ensures StrictlySorted(r + [x])
  {
    forall i | 0 <= i < |r| - 1 ensures Before(r[i], x) {
      BeforeTransitive(r[i], r[|r| - 1], x);
    }
  }

  /** On a sorted list that leaves the strictly increasing listing of the same elements. */
  lemma {:induction false} CompactSorted(s: seq<string>)
    requires Sorted(s, AtMost)
    ensures StrictlySorted(Compact(s)) && Elements(Compact(s)) == Elements(s)
    ensures s != [] ==> Compact(s) != [] && Compact(s)[|Compact(s)| - 1] == s[|s| - 1]
  {
    if s != [] {
      var front, x := s[..|s| - 1], s[|s| - 1];
      CompactSorted(front);
      assert s == front + [x];
      var r := Compact(front);
      ElementsSnoc(front, x);
      ElementsSnoc(r, x);
      if r == [] || r[|r| - 1] != x {
        if r != [] {
          assert AtMost(front[|front| - 1], x);
          ExtendSorted(r, x);
        }
      } else {
        assert x in Elements(r);
      }
    }
  }

  lemma SortedCompactIsSortedSet(s: seq<string>, t: seq<string>)
    requires multiset(s) == multiset(t) && Sorted(t, AtMost)
    ensures Compact(t) == SortedSet(Elements(s))
  {
    CompactSorted(t);
    assert forall x :: x in s <==> x in multiset(s);
    assert forall x :: x in t <==> x in multiset(t);
    assert Elements(s) == Elements(t);
    StrictlySortedUnique(Compact(t), SortedSet(Elements(s)));
  }

  /** exclusiveResources: a loop, a sort, and the in-place squeeze. */
  method ComputeExclusive(inputs: seq<Facts>, outputs: seq<Facts>) returns (r: seq<string>)
    ensures r == ExclusiveResources(inputs, outputs)
  {
    var all := inputs + outputs;
    var resources: seq<string> := [];
    for i := 0 to |all|
      invariant Elements(resources) == Claims(all[..i])
    {
      assert all[..i + 1] == all[..i] + [all[i]];
      ClaimsAppend(all[..i], all[i]);
      if all[i].exclusive {
        assert Elements(resources + [all[i].resourceID]) == Elements(resources) + {all[i].resourceID};
        resources := resources + [all[i].resourceID];
      }
    }
    assert all[..|all|] == all;
    var sorted := StableSort(resources, AtMost);
    SortPermutes(resources, AtMost);
    AtMostTotalOrder();
    StableSortCorrect(resources, AtMost);
    var a := new string[|sorted|](i requires 0 <= i < |sorted| => sorted[i]);
    assert a[..] == sorted;
    var n := CompactStrings(a);
    SortedCompactIsSortedSet(resources, sorted);
    r := a[..n];
  }

  lemma ClaimsAppend(facts: seq<Facts>, f: Facts)
    ensures Claims(facts + [f]) == Claims(facts) + if f.exclusive then {f.resourceID} else {}
  {
    var all := facts + [f];
    assert all[|facts|] == f;
    forall r | r in Claims(facts) ensures r in Claims(all) {
      var i :| 0 <= i < |facts| && facts[i].exclusive && facts[i].resourceID == r;
      assert all[i] == facts[i];
    }
  }

  /** The list depends only on which facts are exclusive and on their resources, port by port. */
  lemma SameClaims(a: seq<Facts>, b: seq<Facts>)
    requires |a| == |b|
    requires forall i :: 0 <= i < |a| ==> a[i].exclusive == b[i].exclusive && a[i].resourceID == b[i].resourceID
    ensures Claims(a) == Claims(b)
  {
  }
}
