/**
  When two subject patterns can meet (matchNATSPattern in component/flowgraph/flowgraph.go), the
  test by which the flow graph joins a publisher to a subscriber.

  Two patterns overlap when some publishable subject matches both. The code compares tokens in
  each direction instead; where the two agree is stated exactly.
 */
module SubjectOverlap {
  import opened Subjects

  // ---------------------------------------------------------------------------- the code

  predicate Wild(s: string)
  {
    '*' in s || '>' in s
  }

  /** One of the two matches the other as a pattern. */
  predicate Joins(p: seq<string>, q: seq<string>)
  {
    DirectMatch(p, q) || DirectMatch(q, p)
  }

  /** matchNATSPattern: whichever branch is taken, the answer is the two-way match. */
  method MatchNATSPattern(subject: string, pattern: string) returns (r: bool)
    ensures r <==> Joins(Split(subject), Split(pattern))
  {
    var s, p := Split(subject), Split(pattern);
    PlainMatch(subject, pattern);
    PlainMatch(pattern, subject);
    if subject == pattern {
      return true;
    }
    if !Wild(subject) && !Wild(pattern) {
      return false;
    }
    if Wild(subject) && Wild(pattern) {
      r := MatchTokens(s, p);
      if !r { r := MatchTokens(p, s); }
      return;
    }
    if Wild(pattern) {
      r := MatchTokens(s, p);
      return;
    }
    r := MatchTokens(p, s);
  }

  lemma {:induction false} JoinSplit(s: string)
    ensures Join(Split(s)) == s
  {
    if s != [] {
      JoinSplit(s[1..]);
      var rest := Split(s[1..]);
      if s[0] == '.' {
        assert ([""] + rest)[1..] == rest;
        assert s == "." + s[1..];
      } else {
        var head := [s[0]] + rest[0];
        assert ([head] + rest[1..])[1..] == rest[1..];
        assert s == [s[0]] + s[1..];
      }
    }
  }

  lemma {:induction false} PlainTokens(s: string)
    requires !Wild(s)
    ensures forall i :: 0 <= i < |Split(s)| ==> !Wild(Split(s)[i])
  {
    if s != [] { PlainTokens(s[1..]); }
  }

  /** A pattern without wildcards matches itself and nothing else; anything matches itself. */
  lemma PlainMatch(subject: string, pattern: string)
    ensures subject == pattern ==> DirectMatch(Split(subject), Split(pattern))
    ensures !Wild(pattern) && DirectMatch(Split(subject), Split(pattern)) ==> subject == pattern
  {
    if !Wild(pattern) && DirectMatch(Split(subject), Split(pattern)) {
      PlainTokens(pattern);
      assert "*"[0] == '*' && ">"[0] == '>';
      assert Split(subject) == Split(pattern);
      JoinSplit(subject);
      JoinSplit(pattern);
    }
  }

  // ------------------------------------------------------------------------------ overlap

  /** Some publishable subject matches both. */
  ghost predicate Overlaps(a: string, b: string)
  {
    exists s :: Concrete(s) && Matches(s, a) && Matches(s, b)
  }

  /** The tokens before a trailing `>`. */
  function Fixed(p: seq<string>): nat
    requires |p| >= 1
  {
    if HasTail(p) then |p| - 1 else |p|
  }

  predicate TokensMeet(a: string, b: string)
  {
    a == b || a == "*" || b == "*"
  }

  /** Lengths allow a common subject, and the tokens both fix agree up to `*`. */
  predicate TokensOverlap(p: seq<string>, q: seq<string>)
    requires |p| >= 1 && |q| >= 1
  {
    && (!HasTail(p) ==> |p| >= |q|) && (!HasTail(q) ==> |q| >= |p|)
    && forall i :: 0 <= i < Fixed(p) && i < Fixed(q) ==> TokensMeet(p[i], q[i])
  }

  /** The token of a common subject where p and q stand at i. */
  function MeetToken(p: seq<string>, q: seq<string>, i: nat): string
    requires |p| >= 1 && |q| >= 1
  {
    if i < Fixed(p) && p[i] != "*" then p[i]
    else if i < Fixed(q) && q[i] != "*" then q[i]
    else "x"
  }

  function Meet(p: seq<string>, q: seq<string>): (s: seq<string>)
    requires |p| >= 1 && |q| >= 1
    ensures |s| == (if |p| >= |q| then |p| else |q|)
    ensures forall i :: 0 <= i < |s| ==> s[i] == MeetToken(p, q, i)
  {
    seq(if |p| >= |q| then |p| else |q|, i requires 0 <= i => MeetToken(p, q, i))
  }

  lemma MeetIsConcrete(p: seq<string>, q: seq<string>)
    requires ValidTokens(p) && ValidTokens(q)
    requires (forall t :: t in p ==> '.' !in t) && (forall t :: t in q ==> '.' !in t)
    ensures forall i :: 0 <= i < |Meet(p, q)| ==> Literal(Meet(p, q)[i]) && '.' !in Meet(p, q)[i]
  {
    forall i | 0 <= i < |Meet(p, q)| ensures Literal(Meet(p, q)[i]) && '.' !in Meet(p, q)[i] {
      FixedTokens(p);
      FixedTokens(q);
    }
  }

  lemma FixedTokens(p: seq<string>)
    requires ValidTokens(p)
    ensures forall i :: 0 <= i < Fixed(p) ==> p[i] == "*" || Literal(p[i])
  {
  }

  lemma MeetIsCaptured(p: seq<string>, q: seq<string>)
    requires |p| >= 1 && |q| >= 1 && TokensOverlap(p, q)
    ensures Captures(p, Meet(p, q)) && Captures(q, Meet(p, q))
  {
    var s := Meet(p, q);
    forall i | 0 <= i < Fixed(p) ensures TokenMatches(p[i], s[i]) { }
    forall i | 0 <= i < Fixed(q) ensures TokenMatches(q[i], s[i]) {
      assert i < Fixed(p) ==> TokensMeet(p[i], q[i]);
    }
  }

  lemma CapturedByBoth(p: seq<string>, q: seq<string>, s: seq<string>)
    requires |p| >= 1 && |q| >= 1 && Captures(p, s) && Captures(q, s)
    ensures TokensOverlap(p, q)
  {
    forall i | 0 <= i < Fixed(p) && i < Fixed(q) ensures TokensMeet(p[i], q[i]) {
      assert TokenMatches(p[i], s[i]) && TokenMatches(q[i], s[i]);
    }
  }

  /** The token test decides overlap of well-formed patterns; a malformed one overlaps nothing. */
  lemma OverlapIff(a: string, b: string)
    ensures Overlaps(a, b) <==>
      ValidTokens(Split(a)) && ValidTokens(Split(b)) && TokensOverlap(Split(a), Split(b))
  {
    var p, q := Split(a), Split(b);
    if s :| Concrete(s) && Matches(s, a) && Matches(s, b) {
      MalformedMatchesNothing(a, s);
      MalformedMatchesNothing(b, s);
      CapturedByBoth(p, q, Split(s));
    }
    if ValidTokens(p) && ValidTokens(q) && TokensOverlap(p, q) {
      MeetIsConcrete(p, q);
      MeetIsCaptured(p, q);
      SplitJoin(Meet(p, q));
      var s := Join(Meet(p, q));
      assert Concrete(s) && Matches(s, a) && Matches(s, b);
    }
  }

  // ------------------------------------------------------------------- where the two agree

  /** p is open where q is fixed: at a token, or in length. */
  predicate Wider(p: seq<string>, q: seq<string>)
    requires |p| >= 1 && |q| >= 1
  {
    || (exists i :: 0 <= i < |p| && i < |q| && (p[i] == "*" || p[i] == ">") && Literal(q[i]))
    || (HasTail(p) && |q| > (if HasTail(q) then |p| + 1 else |p|))
  }

  /** p ends where q's tail begins: they share no subject, and the code matches them. */
  predicate Touches(p: seq<string>, q: seq<string>)
    requires |p| >= 1 && |q| >= 1
  {
    !HasTail(p) && TailOnNothing(q, p)
  }

  lemma FirstTailIsFixed(q: seq<string>)
    requires ValidTokens(q)
    ensures FirstTail(q) == Fixed(q)
  {
  }

  /** On overlapping patterns one direction of the code answers true exactly when the subject is nowhere wider. */
  lemma DirectIff(p: seq<string>, q: seq<string>)
    requires ValidTokens(p) && ValidTokens(q) && TokensOverlap(p, q)
    ensures DirectMatch(p, q) <==> !Wider(p, q)
  {
    FirstTailIsFixed(q);
    if DirectMatch(p, q) {
      forall i | 0 <= i < |p| && i < |q| && (p[i] == "*" || p[i] == ">") ensures !Literal(q[i]) {
        assert i < Fixed(q) ==> TokenMatches(q[i], p[i]);
      }
    }
    if !Wider(p, q) { NotWiderMatches(p, q); }
  }

  lemma NotWiderMatches(p: seq<string>, q: seq<string>)
    requires ValidTokens(p) && ValidTokens(q) && TokensOverlap(p, q) && !Wider(p, q)
    ensures DirectMatch(p, q)
  {
    FirstTailIsFixed(q);
    FixedTokens(p);
    FixedTokens(q);
    assert Fixed(q) <= |p|;
    forall k | 0 <= k < Fixed(q) ensures TokenMatches(q[k], p[k]) {
      assert !((p[k] == "*" || p[k] == ">") && Literal(q[k]));
      assert k < Fixed(p) ==> TokensMeet(p[k], q[k]);
    }
  }

  /** On patterns that do not overlap it answers true exactly when they touch. */
  lemma DirectTouches(p: seq<string>, q: seq<string>)
    requires ValidTokens(p) && ValidTokens(q) && !TokensOverlap(p, q)
    ensures DirectMatch(p, q) <==> Touches(p, q)
  {
    FirstTailIsFixed(q);
    if DirectMatch(p, q) {
      forall i | 0 <= i < Fixed(p) && i < Fixed(q) ensures TokensMeet(p[i], q[i]) {
        assert TokenMatches(q[i], p[i]);
      }
    }
  }

  lemma OverlapSymmetric(p: seq<string>, q: seq<string>)
    requires |p| >= 1 && |q| >= 1
    ensures TokensOverlap(p, q) <==> TokensOverlap(q, p)
  {
    assert forall i :: 0 <= i < |p| && i < |q| ==> TokensMeet(p[i], q[i]) == TokensMeet(q[i], p[i]);
  }

  lemma JoinsIff(p: seq<string>, q: seq<string>)
    requires ValidTokens(p) && ValidTokens(q)
    ensures Joins(p, q) <==>
      (TokensOverlap(p, q) && !(Wider(p, q) && Wider(q, p))) || Touches(p, q) || Touches(q, p)
    ensures TokensOverlap(p, q) ==> !Touches(p, q) && !Touches(q, p)
  {
    OverlapSymmetric(p, q);
    if TokensOverlap(p, q) {
      DirectIff(p, q);
      DirectIff(q, p);
    } else {
      DirectTouches(p, q);
      DirectTouches(q, p);
    }
  }

  /**
    What matchNATSPattern decides on well-formed patterns: overlap, except that it misses patterns
    each of which is wider than the other somewhere, and also joins patterns that merely touch.
   */
  lemma MatchDecides(a: string, b: string)
    requires ValidTokens(Split(a)) && ValidTokens(Split(b))
    ensures var p, q := Split(a), Split(b);
      Joins(p, q) <==> (Overlaps(a, b) && !(Wider(p, q) && Wider(q, p))) || Touches(p, q) || Touches(q, p)
  {
    OverlapIff(a, b);
    JoinsIff(Split(a), Split(b));
  }

  /**
    So on well-formed patterns it agrees with overlap exactly when they neither touch nor overlap
    with each the wider. A malformed pattern overlaps nothing, and is joined only by token match.
   */
  lemma MatchIsOverlapIff(a: string, b: string)
    ensures var p, q := Split(a), Split(b);
      (Joins(p, q) <==> Overlaps(a, b)) <==>
      if ValidTokens(p) && ValidTokens(q)
      then !Touches(p, q) && !Touches(q, p) && !(TokensOverlap(p, q) && Wider(p, q) && Wider(q, p))
      else !Joins(p, q)
  {
    OverlapIff(a, b);
    if ValidTokens(Split(a)) && ValidTokens(Split(b)) { JoinsIff(Split(a), Split(b)); }
  }

  /** "a.*" and "*.b" share "a.b" and are not matched. */
  lemma CrossedWildcardsMissed()
    ensures Overlaps("a.*", "*.b") && !Joins(Split("a.*"), Split("*.b"))
  {
    CrossedSplits();
    CrossedTokens(["a", "*"], ["*", "b"]);
    OverlapIff("a.*", "*.b");
  }

  lemma CrossedSplits()
    ensures Split("a.*") == ["a", "*"] && Split("*.b") == ["*", "b"]
  {
    SplitJoin(["a", "*"]);
    assert Join(["a", "*"]) == "a.*";
    SplitJoin(["*", "b"]);
    assert Join(["*", "b"]) == "*.b";
  }

  lemma CrossedTokens(p: seq<string>, q: seq<string>)
    requires p == ["a", "*"] && q == ["*", "b"]
    ensures ValidTokens(p) && ValidTokens(q) && TokensOverlap(p, q)
    ensures !Joins(p, q)
  {
    assert p[1] == "*" && Literal(q[1]) && q[0] == "*" && Literal(p[0]);
    DirectIff(p, q);
    DirectIff(q, p);
  }
}
