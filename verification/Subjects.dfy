/**
  NATS subject filters: the cover test of component/flowgraph/flowgraph.go, the direct match
  beside it, and the explicit-stream test of composition/analyze.go, all against one
  reference meaning of what a filter captures.
 */
module Subjects {

  // ---------------------------------------------------------------- tokens of a subject

  /** strings.Split(s, "."). */
  function Split(s: string): (ts: seq<string>)
    ensures |ts| >= 1
    ensures forall i :: 0 <= i < |ts| ==> '.' !in ts[i] && |ts[i]| <= |s|
  {
    if s == [] then [""]
    else
      var rest := Split(s[1..]);
      if s[0] == '.' then [""] + rest else [[s[0]] + rest[0]] + rest[1..]
  }

  function Join(ts: seq<string>): string
    requires |ts| >= 1
  {
    if |ts| == 1 then ts[0] else ts[0] + "." + Join(ts[1..])
  }

  lemma {:induction false} SplitPrefix(t: string, s: string)
    requires '.' !in t
    ensures Split(t + s) == [t + Split(s)[0]] + Split(s)[1..]
  {
    if t == [] {
      assert t + s == s && t + Split(s)[0] == Split(s)[0];
      assert Split(s) == [Split(s)[0]] + Split(s)[1..];
    } else {
      SplitPrefix(t[1..], s);
      assert (t + s)[1..] == t[1..] + s;
      assert [t[0]] + (t[1..] + Split(s)[0]) == t + Split(s)[0];
    }
  }

  /** Joining dot-free tokens loses nothing. */
  lemma {:induction false} SplitJoin(ts: seq<string>)
    requires |ts| >= 1 && forall i :: 0 <= i < |ts| ==> '.' !in ts[i]
    ensures Split(Join(ts)) == ts
  {
    if |ts| == 1 {
      SplitPrefix(ts[0], "");
      assert ts[0] + "" == ts[0];
      assert Split("") == [""];
      assert ts == [ts[0]];
    } else {
      SplitJoin(ts[1..]);
      var rest := Join(ts[1..]);
      assert Split("." + rest) == [""] + Split(rest) by { assert ("." + rest)[1..] == rest; }
      SplitPrefix(ts[0], "." + rest);
      assert ts[0] + "." + rest == ts[0] + ("." + rest) && ts[0] + "" == ts[0];
      assert ([""] + Split(rest))[1..] == Split(rest);
      assert ts == [ts[0]] + ts[1..];
    }
  }

  // ------------------------------------------------------------------ reference meaning

  predicate Literal(t: string)
  {
    t != "" && '*' !in t && '>' !in t
  }

  /** A subject a message can be published on. */
  predicate Concrete(s: string)
  {
    forall i :: 0 <= i < |Split(s)| ==> Literal(Split(s)[i])
  }

  predicate HasTail(f: seq<string>)
    requires |f| >= 1
  {
    f[|f| - 1] == ">"
  }

  predicate TokenMatches(f: string, t: string)
  {
    f == "*" || f == t
  }

  /** NATS matching: `*` takes exactly one token, a final `>` takes one or more. */
  predicate Captures(f: seq<string>, s: seq<string>)
    requires |f| >= 1
  {
    if HasTail(f) then |s| >= |f| && forall i :: 0 <= i < |f| - 1 ==> TokenMatches(f[i], s[i])
    else |s| == |f| && forall i :: 0 <= i < |f| ==> TokenMatches(f[i], s[i])
  }

  predicate Matches(subject: string, filter: string)
  {
    Captures(Split(filter), Split(subject))
  }

  // ---------------------------------------------------------------------------- the code

  /** validSubjectTokens. */
  predicate ValidTokens(ts: seq<string>)
  {
    |ts| > 0 && forall i :: 0 <= i < |ts| ==>
      && ts[i] != ""
      && !(('*' in ts[i] || '>' in ts[i]) && ts[i] != "*" && ts[i] != ">")
      && !(ts[i] == ">" && i != |ts| - 1)
  }

  /** tokenCovered. */
  predicate TokenCovered(p: string, f: string)
  {
    f == "*" || (p != "*" && p == f)
  }

  function StarForTail(t: string): string
  {
    if t == ">" then "*" else t
  }

  /** SubjectCovers on tokens. */
  predicate TokensCover(f: seq<string>, p: seq<string>)
  {
    if !ValidTokens(p) || !ValidTokens(f) then false
    else if !HasTail(f) then
      !HasTail(p) && |p| == |f| && forall i :: 0 <= i < |f| ==> TokenCovered(p[i], f[i])
    else
      |p| >= |f| && forall i :: 0 <= i < |f| - 1 ==> TokenCovered(StarForTail(p[i]), f[i])
  }

  predicate SubjectCovers(filter: string, pattern: string)
  {
    TokensCover(Split(filter), Split(pattern))
  }

  // -------------------------------------------------------------- cover means containment

  function Repeat(t: string, n: nat): seq<string>
  {
    seq(n, i => t)
  }

  /** A concrete subject of pattern p: `fill` for every wildcard, n tokens for a tail. */
  function Instance(p: seq<string>, fill: string, n: nat): (s: seq<string>)
    requires |p| >= 1
    ensures |s| == if HasTail(p) then |p| - 1 + n else |p|
  {
    var body := seq(|p|, i requires 0 <= i < |p| => if p[i] == "*" then fill else p[i]);
    if HasTail(p) then body[..|p| - 1] + Repeat(fill, n) else body
  }

  lemma InstanceIsConcrete(p: seq<string>, fill: string, n: nat)
    requires ValidTokens(p) && Literal(fill) && n >= 1
    ensures Captures(p, Instance(p, fill, n))
    ensures forall i :: 0 <= i < |Instance(p, fill, n)| ==> Literal(Instance(p, fill, n)[i])
  {
  }

  /** A run of 'x' longer than every token of the filters, so equal to none of them. */
  function Fresh(n: nat): (t: string)
    ensures |t| == n + 1 && Literal(t) && '.' !in t
  {
    seq(n + 1, i => 'x')
  }

  /** Tokens that capture a short and a longer fresh instance of p cover p. */
  lemma CapturedInstancesCover(f: seq<string>, p: seq<string>, fill: string)
    requires ValidTokens(f) && ValidTokens(p) && Literal(fill)
    requires forall i :: 0 <= i < |f| ==> f[i] != fill
    requires Captures(f, Instance(p, fill, 1))
    requires HasTail(p) ==> Captures(f, Instance(p, fill, 2))
    ensures TokensCover(f, p)
  {
    var s := Instance(p, fill, 1);
    if HasTail(f) {
      forall i | 0 <= i < |f| - 1 ensures TokenCovered(StarForTail(p[i]), f[i]) {
        assert TokenMatches(f[i], s[i]);
      }
    } else {
      assert !HasTail(p);
      forall i | 0 <= i < |f| ensures TokenCovered(p[i], f[i]) {
        assert TokenMatches(f[i], s[i]);
      }
    }
  }

  lemma InstanceSubject(pattern: string, fill: string, n: nat) returns (s: string)
    requires ValidTokens(Split(pattern)) && Literal(fill) && '.' !in fill && n >= 1
    ensures Split(s) == Instance(Split(pattern), fill, n)
    ensures Concrete(s) && Matches(s, pattern)
  {
    var p := Split(pattern);
    InstanceIsConcrete(p, fill, n);
    s := Join(Instance(p, fill, n));
    SplitJoin(Instance(p, fill, n));
  }

  lemma CoverContains(filter: string, pattern: string, s: string)
    requires SubjectCovers(filter, pattern) && Concrete(s) && Matches(s, pattern)
    ensures Matches(s, filter)
  {
    var f, p, t := Split(filter), Split(pattern), Split(s);
    forall i | 0 <= i < (if HasTail(f) then |f| - 1 else |f|) ensures TokenMatches(f[i], t[i]) {
      if f[i] != "*" { assert p[i] == f[i]; }
    }
  }

  /**
    The cover test decides containment: it answers true exactly when both arguments are well
    formed and every concrete subject the pattern matches is matched by the filter.
   */
  lemma CoverIsContainment(filter: string, pattern: string)
    ensures SubjectCovers(filter, pattern) <==>
      && ValidTokens(Split(filter)) && ValidTokens(Split(pattern))
      && forall s :: Concrete(s) && Matches(s, pattern) ==> Matches(s, filter)
  {
    if SubjectCovers(filter, pattern) {
      forall s | Concrete(s) && Matches(s, pattern) ensures Matches(s, filter) {
        CoverContains(filter, pattern, s);
      }
    }
    if ValidTokens(Split(filter)) && ValidTokens(Split(pattern)) &&
       forall s :: Concrete(s) && Matches(s, pattern) ==> Matches(s, filter) {
      var fill := Fresh(|filter|);
      var one := InstanceSubject(pattern, fill, 1);
      var two := InstanceSubject(pattern, fill, 2);
      assert Matches(one, filter) && Matches(two, filter);
      CapturedInstancesCover(Split(filter), Split(pattern), fill);
    }
  }

  // ----------------------------------------------------------------- the direct match

  /** Where the first `>` of a token list stands, its length when there is none. */
  function FirstTail(p: seq<string>): (n: nat)
    ensures n <= |p| && (n < |p| ==> p[n] == ">") && forall k :: 0 <= k < n ==> p[k] != ">"
  {
    if p == [] || p[0] == ">" then 0 else 1 + FirstTail(p[1..])
  }

  /** Every pattern token before the tail matches, and the subject ends where the tail begins. */
  predicate TailOnNothing(p: seq<string>, s: seq<string>)
    requires |p| >= 1
  {
    HasTail(p) && |s| == |p| - 1 && forall i :: 0 <= i < |s| ==> TokenMatches(p[i], s[i])
  }

  /** What matchTokens answers: tokens up to the first `>` match, and without one the lengths agree. */
  predicate DirectMatch(subject: seq<string>, pattern: seq<string>)
  {
    && (if FirstTail(pattern) < |pattern| then FirstTail(pattern) <= |subject| else |pattern| == |subject|)
    && forall k :: 0 <= k < FirstTail(pattern) ==> TokenMatches(pattern[k], subject[k])
  }

  /**
    matchTokens: NATS matching, except that its `>` also matches no token at all. On a well-formed
    pattern it agrees with NATS exactly when the subject does not end at the tail.
   */
  method MatchTokens(subject: seq<string>, pattern: seq<string>) returns (r: bool)
    ensures r <==> DirectMatch(subject, pattern)
    ensures ValidTokens(pattern) ==> (r <==> Captures(pattern, subject) || TailOnNothing(pattern, subject))
    ensures ValidTokens(pattern) ==> (r == Captures(pattern, subject) <==> !TailOnNothing(pattern, subject))
  {
    var i, j := 0, 0;
    while i < |pattern|
      invariant 0 <= i == j <= FirstTail(pattern) && j <= |subject|
      invariant forall k :: 0 <= k < i ==> TokenMatches(pattern[k], subject[k])
    {
      if pattern[i] == ">" {
        return true;
      }
      if j >= |subject| {
        return false;
      }
      if pattern[i] == "*" {
        i, j := i + 1, j + 1;
        continue;
      }
      if pattern[i] != subject[j] {
        return false;
      }
      i, j := i + 1, j + 1;
    }
    return i == |pattern| && j == |subject|;
  }

  /** "data.>" matches "data", which NATS does not deliver to it. */
  lemma TailMatchesNothing()
    ensures ValidTokens(["data", ">"]) && DirectMatch(["data"], ["data", ">"]) && !Captures(["data", ">"], ["data"])
  {
    assert FirstTail(["data", ">"]) == 1 by { assert ["data", ">"][1..] == [">"]; }
  }

  // ------------------------------------------------------------- explicit stream coverage

  /** One of the filters covers the subject. */
  ghost predicate Covering(covers: (string, string) -> bool, filters: seq<string>, subject: string)
  {
    exists f :: f in filters && covers(f, subject)
  }

  ghost predicate AllCovered(covers: (string, string) -> bool, filters: seq<string>, subjects: seq<string>)
  {
    forall i :: 0 <= i < |subjects| ==> Covering(covers, filters, subjects[i])
  }

  ghost predicate StreamCovers(streams: map<string, seq<string>>, name: string, subjects: seq<string>)
  {
    subjects != [] && name != "" && name in streams && AllCovered(SubjectCovers, streams[name], subjects)
  }

  /** The inner search loop of explicitStreamCovers. */
  method FindCover(covers: (string, string) -> bool, filters: seq<string>, subject: string) returns (covered: bool)
    ensures covered <==> Covering(covers, filters, subject)
  {
    for j := 0 to |filters|
      invariant forall k :: 0 <= k < j ==> !covers(filters[k], subject)
    {
      if covers(filters[j], subject) {
        return true;
      }
    }
    return false;
  }

  /** The loop of explicitStreamCovers. */
  method FindCovers(covers: (string, string) -> bool, filters: seq<string>, subjects: seq<string>) returns (r: bool)
    ensures r <==> AllCovered(covers, filters, subjects)
  {
    for i := 0 to |subjects|
      invariant forall k :: 0 <= k < i ==> Covering(covers, filters, subjects[k])
    {
      var covered := FindCover(covers, filters, subjects[i]);
      if !covered {
        return false;
      }
    }
    return true;
  }

  /** explicitStreamCovers. */
  method ExplicitStreamCovers(streams: map<string, seq<string>>, name: string, subjects: seq<string>)
    returns (r: bool)
    ensures r <==> StreamCovers(streams, name, subjects)
  {
    if |subjects| == 0 || name == "" {
      return false;
    }
    if name !in streams {
      return false;
    }
    r := FindCovers(SubjectCovers, streams[name], subjects);
  }

  /** Some filter of the stream captures the subject. */
  ghost predicate StreamCaptures(filters: seq<string>, s: string)
  {
    exists f :: f in filters && Matches(s, f)
  }

  /** A covered subscriber is fed: its stream captures every message it can be sent. */
  lemma CoveredSubscriberIsFed(
    streams: map<string, seq<string>>, name: string, subjects: seq<string>, pattern: string, s: string)
    requires StreamCovers(streams, name, subjects)
    requires pattern in subjects && Concrete(s) && Matches(s, pattern)
    ensures StreamCaptures(streams[name], s)
  {
    assert Covering(SubjectCovers, streams[name], pattern);
    var f :| f in streams[name] && SubjectCovers(f, pattern);
    CoverContains(f, pattern, s);
    assert f in streams[name] && Matches(s, f);
  }

  // ------------------------------------------------------------- when a subscriber is fed

  /** The stream captures every message a subscriber to the pattern can be sent. */
  ghost predicate Fed(filters: seq<string>, pattern: string)
  {
    forall s :: Concrete(s) && Matches(s, pattern) ==> StreamCaptures(filters, s)
  }

  function TotalLength(filters: seq<string>): nat
  {
    if filters == [] then 0 else |filters[0]| + TotalLength(filters[1..])
  }

  lemma {:induction false} LengthBound(filters: seq<string>, f: string)
    requires f in filters
    ensures |f| <= TotalLength(filters)
  {
    if f != filters[0] { LengthBound(filters[1..], f); }
  }

  lemma {:induction false} SplitLength(s: string)
    ensures |Split(s)| <= |s| + 1
  {
    if s != [] { SplitLength(s[1..]); }
  }

  /** A malformed filter or pattern matches no publishable subject. */
  lemma MalformedMatchesNothing(filter: string, s: string)
    ensures Concrete(s) && Matches(s, filter) ==> ValidTokens(Split(filter))
  {
    if Concrete(s) && Matches(s, filter) {
      var f, t := Split(filter), Split(s);
      forall i | 0 <= i < |f| - 1 ensures f[i] == "*" || Literal(f[i]) {
        assert TokenMatches(f[i], t[i]) && Literal(t[i]);
      }
      if !HasTail(f) { assert TokenMatches(f[|f| - 1], t[|f| - 1]) && Literal(t[|f| - 1]); }
    }
  }

  /** Without a trailing `>`, a stream feeds a subscriber exactly when one filter covers its subject. */
  lemma FedIffCovered(filters: seq<string>, pattern: string)
    requires ValidTokens(Split(pattern)) && !HasTail(Split(pattern))
    ensures Fed(filters, pattern) <==> Covering(SubjectCovers, filters, pattern)
  {
    if Fed(filters, pattern) {
      var fill := Fresh(TotalLength(filters));
      var s := InstanceSubject(pattern, fill, 1);
      var f :| f in filters && Matches(s, f);
      MalformedMatchesNothing(f, s);
      LengthBound(filters, f);
      CapturedInstancesCover(Split(f), Split(pattern), fill);
    }
    if f :| f in filters && SubjectCovers(f, pattern) {
      CoverFeeds(filters, f, pattern);
    }
  }

  lemma CoverFeeds(filters: seq<string>, f: string, pattern: string)
    requires f in filters && SubjectCovers(f, pattern)
    ensures Fed(filters, pattern)
  {
    forall s | Concrete(s) && Matches(s, pattern) ensures StreamCaptures(filters, s) {
      CoverContains(f, pattern, s);
    }
  }

  /** The pattern with its trailing `>` taken as exactly n tokens. */
  function Unfold(p: seq<string>, n: nat): (u: seq<string>)
    requires |p| >= 1
    ensures |u| == |p| - 1 + n
  {
    p[..|p| - 1] + Repeat("*", n)
  }

  /** Some filter covers the n-token unfolding. */
  ghost predicate UnfoldingCovered(filters: seq<string>, p: seq<string>, n: nat)
    requires |p| >= 1
  {
    exists f :: f in filters && TokensCover(Split(f), Unfold(p, n))
  }

  /** The finite check: every unfolding up to two tokens past the filters' total length is covered. */
  ghost predicate UnfoldingsCovered(filters: seq<string>, p: seq<string>)
    requires |p| >= 1
  {
    forall n :: 1 <= n <= TotalLength(filters) + 2 ==> UnfoldingCovered(filters, p, n)
  }

  /** An unfolding is a well-formed subject whose messages are the pattern's messages of that length. */
  lemma UnfoldSubject(pattern: string, n: nat) returns (u: string)
    requires ValidTokens(Split(pattern)) && HasTail(Split(pattern)) && n >= 1
    ensures Split(u) == Unfold(Split(pattern), n) && ValidTokens(Split(u)) && !HasTail(Split(u))
    ensures forall s :: Matches(s, u) <==> Matches(s, pattern) && |Split(s)| == |Split(u)|
  {
    var p := Split(pattern);
    var tokens := Unfold(p, n);
    assert tokens[|tokens| - 1] == "*";
    assert forall i :: 0 <= i < |tokens| ==> tokens[i] == if i < |p| - 1 then p[i] else "*";
    SplitJoin(tokens);
    u := Join(tokens);
    forall s ensures Matches(s, u) <==> Matches(s, pattern) && |Split(s)| == |tokens| {
      UnfoldCaptures(p, n, Split(s));
    }
  }

  /** An unfolding captures the token lists of its length that the pattern captures. */
  lemma UnfoldCaptures(p: seq<string>, n: nat, t: seq<string>)
    requires ValidTokens(p) && HasTail(p) && n >= 1
    ensures Captures(Unfold(p, n), t) <==> Captures(p, t) && |t| == |Unfold(p, n)|
  {
    var u := Unfold(p, n);
    assert u[|u| - 1] == "*" && forall i :: 0 <= i < |u| ==> u[i] == if i < |p| - 1 then p[i] else "*";
    if |t| == |u| && Captures(p, t) {
      forall i | 0 <= i < |u| ensures TokenMatches(u[i], t[i]) { }
    }
    if Captures(u, t) {
      forall i | 0 <= i < |p| - 1 ensures TokenMatches(p[i], t[i]) {
        assert TokenMatches(u[i], t[i]);
      }
    }
  }

  /** A fed subscriber has every unfolding covered. */
  lemma FedUnfolds(filters: seq<string>, pattern: string, n: nat)
    requires ValidTokens(Split(pattern)) && HasTail(Split(pattern)) && n >= 1 && Fed(filters, pattern)
    ensures UnfoldingCovered(filters, Split(pattern), n)
  {
    var u := UnfoldSubject(pattern, n);
    FedIffCovered(filters, u);
    var f :| f in filters && SubjectCovers(f, u);
    assert TokensCover(Split(f), Unfold(Split(pattern), n));
  }

  /** Past the filters' length a cover is by a tail, so it covers every longer unfolding too. */
  lemma LongUnfolding(filters: seq<string>, p: seq<string>, n: nat)
    requires ValidTokens(p) && HasTail(p) && n >= TotalLength(filters) + 2
    requires UnfoldingCovered(filters, p, TotalLength(filters) + 2)
    ensures UnfoldingCovered(filters, p, n)
  {
    var b := TotalLength(filters) + 2;
    var f :| f in filters && TokensCover(Split(f), Unfold(p, b));
    LengthBound(filters, f);
    SplitLength(f);
    assert HasTail(Split(f));
    assert forall i :: 0 <= i < |Unfold(p, b)| ==> Unfold(p, n)[i] == Unfold(p, b)[i];
    assert forall i :: 0 <= i < |Unfold(p, n)| ==> Unfold(p, n)[i] == if i < |p| - 1 then p[i] else "*";
    assert ValidTokens(Unfold(p, n));
  }

  /**
    With a trailing `>`, a stream feeds a subscriber exactly when the finite check holds: filters
    may share the work, one of them per length of message.
   */
  lemma TailFedIff(filters: seq<string>, pattern: string)
    requires ValidTokens(Split(pattern)) && HasTail(Split(pattern))
    ensures Fed(filters, pattern) <==> UnfoldingsCovered(filters, Split(pattern))
  {
    var p := Split(pattern);
    if Fed(filters, pattern) {
      forall n | 1 <= n <= TotalLength(filters) + 2 ensures UnfoldingCovered(filters, p, n) {
        FedUnfolds(filters, pattern, n);
      }
    }
    if UnfoldingsCovered(filters, p) {
      forall s | Concrete(s) && Matches(s, pattern) ensures StreamCaptures(filters, s) {
        UnfoldingsFeed(filters, pattern, s);
      }
    }
  }

  lemma UnfoldingsFeed(filters: seq<string>, pattern: string, s: string)
    requires ValidTokens(Split(pattern)) && HasTail(Split(pattern)) && UnfoldingsCovered(filters, Split(pattern))
    requires Concrete(s) && Matches(s, pattern)
    ensures StreamCaptures(filters, s)
  {
    var p := Split(pattern);
    var n := |Split(s)| - |p| + 1;
    assert UnfoldingCovered(filters, p, n) by {
      if n > TotalLength(filters) + 2 { LongUnfolding(filters, p, n); }
    }
    var f :| f in filters && TokensCover(Split(f), Unfold(p, n));
    var u := UnfoldSubject(pattern, n);
    CoverContains(f, u, s);
  }

  /**
    explicitStreamCovers reports a subscriber that is in fact fed exactly when its subject is
    malformed, so that it is sent nothing, or ends in `>` with every unfolding covered and no
    single filter covering all of it.
   */
  lemma FedYetReportedIff(filters: seq<string>, pattern: string)
    ensures Fed(filters, pattern) && !Covering(SubjectCovers, filters, pattern) <==>
      || !ValidTokens(Split(pattern))
      || (&& HasTail(Split(pattern)) && UnfoldingsCovered(filters, Split(pattern))
          && !Covering(SubjectCovers, filters, pattern))
  {
    if !ValidTokens(Split(pattern)) {
      forall s ensures !(Concrete(s) && Matches(s, pattern)) {
        MalformedMatchesNothing(pattern, s);
      }
    } else if HasTail(Split(pattern)) {
      TailFedIff(filters, pattern);
    } else {
      FedIffCovered(filters, pattern);
    }
  }

  lemma SmallSplits()
    ensures Split("a.>") == ["a", ">"] && Split("a.*") == ["a", "*"] && Split("a.*.>") == ["a", "*", ">"]
  {
    SplitJoin(["a", ">"]);
    assert Join(["a", ">"]) == "a.>";
    SplitJoin(["a", "*"]);
    assert Join(["a", "*"]) == "a.*";
    SplitJoin(["a", "*", ">"]);
    assert ["a", "*", ">"][1..] == ["*", ">"];
    assert Join(["*", ">"]) == "*.>";
    assert Join(["a", "*", ">"]) == "a.*.>";
  }

  lemma CapturedBy(f: string, g: string, s: string)
    ensures Matches(s, f) || Matches(s, g) ==> StreamCaptures([f, g], s)
  {
    assert [f, g][0] == f && [f, g][1] == g;
  }

  lemma OneOfTwo(t: seq<string>)
    requires Captures(["a", ">"], t)
    ensures Captures(["a", "*"], t) || Captures(["a", "*", ">"], t)
  {
  }

  /**
    With a trailing `>` the converse fails: "a.*" and "a.*.>" between them capture every subject
    of "a.>", and neither covers it.
   */
  lemma TailNeedsOneFilter()
    ensures !SubjectCovers("a.*", "a.>") && !SubjectCovers("a.*.>", "a.>")
    ensures Fed(["a.*", "a.*.>"], "a.>")
  {
    SmallSplits();
    forall s | Concrete(s) && Matches(s, "a.>") ensures StreamCaptures(["a.*", "a.*.>"], s) {
      OneOfTwo(Split(s));
      CapturedBy("a.*", "a.*.>", s);
    }
  }
}
