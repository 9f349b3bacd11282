/**
  The findings of a composition and their canonical report (composition/findings.go), and the
  canonical edge order of the projected graph (composition/graph.go).
 */
module Findings {
  import opened Text
  import opened Sorting
  import opened Ordering

  datatype Severity = Error | Warning

  datatype Status = AllValid | HasWarnings | HasErrors

  datatype Finding = Finding(
    typ: string, severity: Severity, component: string, port: string, message: string, suggestions: seq<string>)

  // ------------------------------------------------------------------------------ order

  /** The comparison of sortFindings. */
  predicate FindingLess(a: Finding, b: Finding)
  {
    if a.typ != b.typ then Before(a.typ, b.typ)
    else if a.component != b.component then Before(a.component, b.component)
    else if a.port != b.port then Before(a.port, b.port)
    else Before(a.message, b.message)
  }

  function FindingKey(f: Finding): Key
  {
    Word(f.typ, Word(f.component, Word(f.port, Word(f.message, End))))
  }

  lemma FindingKeyed()
    ensures KeyedBy(FindingLess, FindingKey)
  {
    forall a, b ensures FindingLess(a, b) <==> KeyLess(FindingKey(a), FindingKey(b)) {
      BeforeTrichotomy(a.message, a.message);
      assert KeyLess(Word(a.message, End), Word(b.message, End)) == Before(a.message, b.message);
      assert KeyLess(FindingKey(a).rest, FindingKey(b).rest) ==
        if a.component != b.component then Before(a.component, b.component)
        else KeyLess(FindingKey(a).rest.rest, FindingKey(b).rest.rest);
    }
  }

  function SortFindings(fs: seq<Finding>): seq<Finding>
  {
    StableSort(fs, NotAfter(FindingLess))
  }

  // ------------------------------------------------------------------------------ result

  /** The findings of one severity, in the order they were added. */
  function Of(fs: seq<Finding>, severity: Severity): seq<Finding>
  {
    if fs == [] then []
    else Of(fs[..|fs| - 1], severity) + if fs[|fs| - 1].severity == severity then [fs[|fs| - 1]] else []
  }

  lemma OfSnoc(fs: seq<Finding>, f: Finding, severity: Severity)
    ensures Of(fs + [f], severity) == Of(fs, severity) + if f.severity == severity then [f] else []
  {
    assert (fs + [f])[..|fs|] == fs;
  }

  lemma {:induction false} OfCounts(fs: seq<Finding>, severity: Severity, f: Finding)
    ensures multiset(Of(fs, severity))[f] == if f.severity == severity then multiset(fs)[f] else 0
  {
    if fs != [] {
      OfCounts(fs[..|fs| - 1], severity, f);
      assert fs == fs[..|fs| - 1] + [fs[|fs| - 1]];
    }
  }

  lemma {:induction false} OfAppend(a: seq<Finding>, b: seq<Finding>, severity: Severity)
    ensures Of(a + b, severity) == Of(a, severity) + Of(b, severity)
  {
    if b == [] {
      assert a + b == a;
    } else {
      var front, last := b[..|b| - 1], b[|b| - 1];
      OfAppend(a, front, severity);
      assert (a + b)[..|a + b| - 1] == a + front;
    }
  }

  /** All of fs has that severity. */
  predicate Only(fs: seq<Finding>, severity: Severity)
  {
    match severity
    case Error => Of(fs, Error) == fs && Of(fs, Warning) == []
    case Warning => Of(fs, Warning) == fs && Of(fs, Error) == []
  }

  lemma {:induction false} OfUniform(fs: seq<Finding>, severity: Severity)
    requires forall f :: f in fs ==> f.severity == severity
    ensures Only(fs, severity)
  {
    if fs != [] {
      var front := fs[..|fs| - 1];
      assert fs == front + [fs[|fs| - 1]];
      OfUniform(front, severity);
    }
  }

  lemma OfThree(a: seq<Finding>, b: seq<Finding>, c: seq<Finding>, severity: Severity, mine: seq<Finding>)
    requires Of(b, severity) + Of(c, severity) == mine
    ensures Of(a + b + c, severity) == Of(a, severity) + mine
  {
    OfAppend(a, b, severity);
    OfAppend(a + b, c, severity);
    assert Of(a, severity) + Of(b, severity) + Of(c, severity) == Of(a, severity) + mine;
  }

  lemma OfLists(before: seq<Finding>, errors: seq<Finding>, warnings: seq<Finding>)
    requires Only(errors, Error) && Only(warnings, Warning)
    ensures Of(before + errors + warnings, Error) == Of(before, Error) + errors
    ensures Of(before + errors + warnings, Warning) == Of(before, Warning) + warnings
  {
    assert errors + [] == errors && [] + warnings == warnings;
    OfThree(before, errors, warnings, Error, errors);
    OfThree(before, errors, warnings, Warning, warnings);
  }

  /** Result as findings are added and finalised. */
  class Result {
    var errors: seq<Finding>
    var warnings: seq<Finding>
    var status: Status

    /** The findings added so far are fs. */
    ghost predicate Holds(fs: seq<Finding>)
      reads this
    {
      errors == Of(fs, Error) && warnings == Of(fs, Warning)
    }

    constructor ()
      ensures Holds([]) && status == AllValid
    {
      errors, warnings, status := [], [], AllValid;
    }

    method Add(f: Finding, ghost before: seq<Finding>)
      requires Holds(before)
      modifies this
      ensures Holds(before + [f]) && status == old(status)
    {
      OfSnoc(before, f, Error);
      OfSnoc(before, f, Warning);
      if f.severity == Error {
        errors := errors + [f];
        return;
      }
      warnings := warnings + [f];
    }

    /** The lists of another, finalised result appended to this one's. */
    method Append(report: Report, ghost before: seq<Finding>)
      requires Holds(before)
      requires Only(report.errors, Error) && Only(report.warnings, Warning)
      modifies this
      ensures Holds(before + report.errors + report.warnings) && status == old(status)
    {
      OfLists(before, report.errors, report.warnings);
      errors := errors + report.errors;
      warnings := warnings + report.warnings;
    }

    method Finalize(ghost fs: seq<Finding>)
      requires Holds(fs)
      modifies this
      ensures Report(errors, warnings, status) == ReportOf(fs)
    {
      errors := SortFindings(errors);
      warnings := SortFindings(warnings);
      SortLength(Of(fs, Error), NotAfter(FindingLess));
      SortLength(Of(fs, Warning), NotAfter(FindingLess));
      if |errors| > 0 {
        status := HasErrors;
      } else if |warnings| > 0 {
        status := HasWarnings;
      } else {
        status := AllValid;
      }
    }
  }

  datatype Report = Report(errors: seq<Finding>, warnings: seq<Finding>, status: Status)

  /** The report of a run that added fs. */
  function ReportOf(fs: seq<Finding>): Report
  {
    Report(SortFindings(Of(fs, Error)), SortFindings(Of(fs, Warning)),
           if Of(fs, Error) != [] then HasErrors else if Of(fs, Warning) != [] then HasWarnings else AllValid)
  }

  // ------------------------------------------------------------------------- what it means

  lemma OfMember(fs: seq<Finding>, severity: Severity, f: Finding)
    ensures f in Of(fs, severity) <==> f in fs && f.severity == severity
  {
    OfCounts(fs, severity, f);
    assert f in multiset(fs) <==> f in fs;
    assert f in multiset(Of(fs, severity)) <==> f in Of(fs, severity);
  }

  /** Each severity list is in key order and holds exactly the findings of its severity. */
  lemma ListMeaning(fs: seq<Finding>, severity: Severity)
    ensures var s := SortFindings(Of(fs, severity));
      && Sorted(s, NotAfter(FindingLess))
      && multiset(s) == multiset(Of(fs, severity))
      && (forall f :: f in s <==> f in fs && f.severity == severity)
      && (s == [] <==> Of(fs, severity) == [])
  {
    var leq := NotAfter(FindingLess);
    var mine := Of(fs, severity);
    FindingKeyed();
    KeyedOrder(FindingLess, FindingKey);
    StableSortCorrect(mine, leq);
    SortPermutes(mine, leq);
    SortLength(mine, leq);
    forall f ensures f in StableSort(mine, leq) <==> f in fs && f.severity == severity {
      SortMembers(mine, leq, f);
      OfMember(fs, severity, f);
    }
  }

  lemma ReportCounts(fs: seq<Finding>)
    ensures multiset(Of(fs, Error)) + multiset(Of(fs, Warning)) == multiset(fs)
  {
    forall f ensures multiset(Of(fs, Error))[f] + multiset(Of(fs, Warning))[f] == multiset(fs)[f] {
      OfCounts(fs, Error, f);
      OfCounts(fs, Warning, f);
    }
  }

  /** Every finding is reported once, in the list of its severity, and each list is in key order. */
  lemma ReportConserves(fs: seq<Finding>)
    ensures var r := ReportOf(fs);
      && multiset(r.errors) + multiset(r.warnings) == multiset(fs)
      && (forall f :: f in r.errors <==> f in fs && f.severity == Error)
      && (forall f :: f in r.warnings <==> f in fs && f.severity == Warning)
      && Sorted(r.errors, NotAfter(FindingLess)) && Sorted(r.warnings, NotAfter(FindingLess))
  {
    ListMeaning(fs, Error);
    ListMeaning(fs, Warning);
    ReportCounts(fs);
  }

  lemma {:induction false} NoneOf(fs: seq<Finding>, severity: Severity)
    ensures Of(fs, severity) == [] <==> forall f :: f in fs ==> f.severity != severity
  {
    if fs != [] {
      NoneOf(fs[..|fs| - 1], severity);
      assert fs == fs[..|fs| - 1] + [fs[|fs| - 1]];
    }
  }

  /** The status is the worst severity found. */
  lemma StatusMeaning(fs: seq<Finding>)
    ensures ReportOf(fs).status == HasErrors <==> exists f :: f in fs && f.severity == Error
    ensures ReportOf(fs).status == AllValid <==> fs == []
  {
    NoneOf(fs, Error);
    NoneOf(fs, Warning);
    assert fs != [] ==> fs[0] in fs;
  }

  lemma ReportedOnly(fs: seq<Finding>)
    ensures Only(ReportOf(fs).errors, Error) && Only(ReportOf(fs).warnings, Warning)
  {
    ListMeaning(fs, Error);
    ListMeaning(fs, Warning);
    OfUniform(ReportOf(fs).errors, Error);
    OfUniform(ReportOf(fs).warnings, Warning);
  }

  /** Findings reported once and then appended and reported again come out as if added all at once. */
  lemma ReportAbsorbs(before: seq<Finding>, more: seq<Finding>)
    ensures ReportOf(before + ReportOf(more).errors + ReportOf(more).warnings) == ReportOf(before + more)
  {
    var again := before + ReportOf(more).errors + ReportOf(more).warnings;
    ReportedOnly(more);
    OfLists(before, ReportOf(more).errors, ReportOf(more).warnings);
    ListAbsorbs(before, more, Error);
    ListAbsorbs(before, more, Warning);
    SortLength(Of(again, Error), NotAfter(FindingLess));
    SortLength(Of(before + more, Error), NotAfter(FindingLess));
    SortLength(Of(again, Warning), NotAfter(FindingLess));
    SortLength(Of(before + more, Warning), NotAfter(FindingLess));
  }

  lemma ListAbsorbs(before: seq<Finding>, more: seq<Finding>, severity: Severity)
    ensures SortFindings(Of(before, severity) + SortFindings(Of(more, severity))) ==
      SortFindings(Of(before + more, severity))
  {
    OfAppend(before, more, severity);
    FindingKeyed();
    KeyedOrder(FindingLess, FindingKey);
    SortAbsorbs(Of(before, severity), Of(more, severity), NotAfter(FindingLess));
  }

  lemma OfPermutes(a: seq<Finding>, b: seq<Finding>, severity: Severity)
    requires multiset(a) == multiset(b)
    ensures multiset(Of(a, severity)) == multiset(Of(b, severity))
  {
    forall f ensures multiset(Of(a, severity))[f] == multiset(Of(b, severity))[f] {
      OfCounts(a, severity, f);
      OfCounts(b, severity, f);
    }
  }

  /** Equal multisets of findings give reports with the same status and, list by list, the same keys. */
  lemma ReportCanonical(a: seq<Finding>, b: seq<Finding>)
    requires multiset(a) == multiset(b)
    ensures var r, t := ReportOf(a), ReportOf(b);
      && Keys(r.errors, FindingKey) == Keys(t.errors, FindingKey)
      && Keys(r.warnings, FindingKey) == Keys(t.warnings, FindingKey)
      && r.status == t.status
  {
    FindingKeyed();
    OfPermutes(a, b, Error);
    OfPermutes(a, b, Warning);
    SortedKeysCanonical(Of(a, Error), Of(b, Error), FindingLess, FindingKey);
    SortedKeysCanonical(Of(a, Warning), Of(b, Warning), FindingLess, FindingKey);
    assert forall s: seq<Finding> :: |multiset(s)| == |s|;
  }

  /** Findings that agree on severity and on all four keys are equal. */
  ghost predicate Telling(fs: seq<Finding>)
  {
    forall x, y :: x in fs && y in fs && x.severity == y.severity && FindingKey(x) == FindingKey(y) ==> x == y
  }

  /** One severity list is fixed by the findings exactly when no two different ones share a key. */
  lemma ListDetermined(fs: seq<Finding>, severity: Severity)
    ensures Canonical(Of(fs, severity), NotAfter(FindingLess)) <==>
      forall x, y :: x in fs && y in fs && x.severity == y.severity == severity && FindingKey(x) == FindingKey(y) ==>
        x == y
  {
    FindingKeyed();
    CanonicalIffKeysDistinct(Of(fs, severity), FindingLess, FindingKey);
    forall f ensures f in Of(fs, severity) <==> f in fs && f.severity == severity { OfMember(fs, severity, f); }
  }

  /** The whole report is fixed by which findings were added, when the findings are telling. */
  lemma ReportDetermined(a: seq<Finding>, b: seq<Finding>)
    requires multiset(a) == multiset(b) && Telling(a)
    ensures ReportOf(a) == ReportOf(b)
  {
    ListDetermined(a, Error);
    ListDetermined(a, Warning);
    OfPermutes(a, b, Error);
    OfPermutes(a, b, Warning);
    ReportCanonical(a, b);
  }

  // ------------------------------------------------------------------------------- edges

  datatype Edge = Edge(
    from: string, fromPort: string, to: string, toPort: string, pattern: string, connection: string)

  /** The six-key comparison of graphOf. */
  predicate EdgeLess(a: Edge, b: Edge)
  {
    if a.from != b.from then Before(a.from, b.from)
    else if a.fromPort != b.fromPort then Before(a.fromPort, b.fromPort)
    else if a.to != b.to then Before(a.to, b.to)
    else if a.toPort != b.toPort then Before(a.toPort, b.toPort)
    else if a.pattern != b.pattern then Before(a.pattern, b.pattern)
    else Before(a.connection, b.connection)
  }

  function LastKeys(e: Edge): Key
  {
    Word(e.toPort, Word(e.pattern, Word(e.connection, End)))
  }

  function EdgeKey(e: Edge): Key
  {
    Word(e.from, Word(e.fromPort, Word(e.to, LastKeys(e))))
  }

  lemma LastKeysLess(a: Edge, b: Edge)
    ensures KeyLess(LastKeys(a), LastKeys(b)) ==
      if a.toPort != b.toPort then Before(a.toPort, b.toPort)
      else if a.pattern != b.pattern then Before(a.pattern, b.pattern)
      else Before(a.connection, b.connection)
  {
    BeforeTrichotomy(a.connection, a.connection);
    assert KeyLess(Word(a.connection, End), Word(b.connection, End)) == Before(a.connection, b.connection);
  }

  lemma EdgeKeyed()
    ensures KeyedBy(EdgeLess, EdgeKey)
  {
    forall a, b ensures EdgeLess(a, b) <==> KeyLess(EdgeKey(a), EdgeKey(b)) {
      LastKeysLess(a, b);
      assert KeyLess(Word(a.to, LastKeys(a)), Word(b.to, LastKeys(b))) ==
        if a.to != b.to then Before(a.to, b.to) else KeyLess(LastKeys(a), LastKeys(b));
    }
  }

  function SortEdges(edges: seq<Edge>): seq<Edge>
  {
    StableSort(edges, NotAfter(EdgeLess))
  }

  /** The six keys are the whole edge, so equal edge multisets project to the identical sequence. */
  lemma EdgesCanonical(a: seq<Edge>, b: seq<Edge>)
    requires multiset(a) == multiset(b)
    ensures SortEdges(a) == SortEdges(b) && multiset(SortEdges(a)) == multiset(a)
    ensures Sorted(SortEdges(a), NotAfter(EdgeLess))
  {
    EdgeKeyed();
    KeyedOrder(EdgeLess, EdgeKey);
    StableSortCorrect(a, NotAfter(EdgeLess));
    SortPermutes(a, NotAfter(EdgeLess));
    SortForgetsInputOrder(a, b, NotAfter(EdgeLess));
  }
}
