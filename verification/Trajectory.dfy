/**
  The display order of trajectory facts (agentic/trajectory_query.go).
 */
module Trajectory {
  import opened Text
  import opened Sorting
  import opened Ordering

  datatype Phase =
    | LoopStart | ModelRequest | ModelResult | ToolRequest | ToolResult | Compaction | Terminal
    | OtherPhase(spelling: string)

  /** A fact: its causal tuple, its attempt, and everything else it carries. */
  datatype Fact = Fact(
    iteration: int, phase: Phase, ordinal: int, attemptOrdinal: int, attemptID: string, body: string)

  function PhaseRank(p: Phase): int
  {
    match p
    case LoopStart => 0
    case ModelRequest => 1
    case ModelResult => 2
    case ToolRequest => 3
    case ToolResult => 4
    case Compaction => 5
    case Terminal => 6
    case OtherPhase(_) => -1
  }

  /** The comparison of SortTrajectoryFacts. */
  predicate FactLess(a: Fact, b: Fact)
  {
    if a.iteration != b.iteration then a.iteration < b.iteration
    else if PhaseRank(a.phase) != PhaseRank(b.phase) then PhaseRank(a.phase) < PhaseRank(b.phase)
    else if a.ordinal != b.ordinal then a.ordinal < b.ordinal
    else if a.attemptOrdinal != b.attemptOrdinal then a.attemptOrdinal < b.attemptOrdinal
    else Before(a.attemptID, b.attemptID)
  }

  function LastKeys(f: Fact): Key
  {
    Num(f.ordinal, Num(f.attemptOrdinal, Word(f.attemptID, End)))
  }

  function FactKey(f: Fact): Key
  {
    Num(f.iteration, Num(PhaseRank(f.phase), LastKeys(f)))
  }

  lemma LastKeysLess(a: Fact, b: Fact)
    ensures KeyLess(LastKeys(a), LastKeys(b)) ==
      if a.ordinal != b.ordinal then a.ordinal < b.ordinal
      else if a.attemptOrdinal != b.attemptOrdinal then a.attemptOrdinal < b.attemptOrdinal
      else Before(a.attemptID, b.attemptID)
  {
    BeforeTrichotomy(a.attemptID, a.attemptID);
    assert KeyLess(Word(a.attemptID, End), Word(b.attemptID, End)) == Before(a.attemptID, b.attemptID);
  }

  lemma FactKeyed()
    ensures KeyedBy(FactLess, FactKey)
  {
    forall a, b ensures FactLess(a, b) <==> KeyLess(FactKey(a), FactKey(b)) {
      LastKeysLess(a, b);
    }
  }

  function SortedFacts(facts: seq<Fact>): seq<Fact>
  {
    StableSort(facts, NotAfter(FactLess))
  }

  /** SortTrajectoryFacts, in place: in order, ties as they came, nothing lost or added. */
  method SortTrajectoryFacts(facts: array<Fact>)
    modifies facts
    ensures StableSortOf(facts[..], old(facts[..]), NotAfter(FactLess))
    ensures multiset(facts[..]) == multiset(old(facts[..]))
  {
    var sorted := SortedFacts(facts[..]);
    FactKeyed();
    KeyedOrder(FactLess, FactKey);
    StableSortCorrect(facts[..], NotAfter(FactLess));
    SortPermutes(facts[..], NotAfter(FactLess));
    SortLength(facts[..], NotAfter(FactLess));
    forall i | 0 <= i < facts.Length {
      facts[i] := sorted[i];
    }
    assert facts[..] == sorted;
  }

  predicate DistinctAttempts(facts: seq<Fact>)
  {
    forall i, j :: 0 <= i < j < |facts| ==> facts[i].attemptID != facts[j].attemptID
  }

  /** Sorting permutes the facts into causal order, earlier iterations and earlier phases first. */
  lemma FactsInCausalOrder(facts: seq<Fact>)
    ensures var s := SortedFacts(facts);
      && multiset(s) == multiset(facts)
      && forall i, j :: 0 <= i < j < |s| ==>
           && s[i].iteration <= s[j].iteration
           && (s[i].iteration == s[j].iteration ==> PhaseRank(s[i].phase) <= PhaseRank(s[j].phase))
           && (s[i].iteration == s[j].iteration && s[i].phase == s[j].phase ==> s[i].ordinal <= s[j].ordinal)
  {
    var leq := NotAfter(FactLess);
    FactKeyed();
    KeyedOrder(FactLess, FactKey);
    StableSortCorrect(facts, leq);
    SortPermutes(facts, leq);
    var s := SortedFacts(facts);
    forall i, j | 0 <= i < j < |s| ensures !FactLess(s[j], s[i]) {
      assert leq(s[i], s[j]);
    }
  }

  /** Facts with distinct attempt IDs have one display order, whatever order they arrived in. */
  lemma FactsCanonical(facts: seq<Fact>, again: seq<Fact>)
    requires DistinctAttempts(facts) && multiset(facts) == multiset(again)
    ensures SortedFacts(facts) == SortedFacts(again)
  {
    FactKeyed();
    CanonicalIffKeysDistinct(facts, FactLess, FactKey);
    assert Canonical(facts, NotAfter(FactLess));
  }

  /** The exact condition: no two different facts share iteration, phase rank, both ordinals and attempt ID. */
  lemma FactsCanonicalIff(facts: seq<Fact>)
    ensures Canonical(facts, NotAfter(FactLess)) <==>
      forall x, y :: x in facts && y in facts && FactKey(x) == FactKey(y) ==> x == y
  {
    FactKeyed();
    CanonicalIffKeysDistinct(facts, FactLess, FactKey);
  }
}
