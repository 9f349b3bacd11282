/**
  The graph-level half of composition validation (Analyze in composition/analyze.go).

  What the flow graph reports about the sorted declarations is a parameter. So is the wording of a
  finding: `words` gives its message and suggestions.
 */
module Analyze {
  import opened Outcome
  import opened Text
  import opened PortGrammar
  import opened PortResolver
  import opened Admission
  import opened Subjects
  import opened Sorting
  import opened Ordering
  import opened Findings

  datatype Issue = NoPublishers | NoSubscribers | OtherIssue(spelling: string)

  datatype Lone = Lone(component: string, issue: string, suggestions: seq<string>)

  datatype Orphan = Orphan(
    component: string, port: string, direction: Direction, connection: string, pattern: Interaction,
    issue: Issue, required: bool)

  datatype Unfed = Unfed(component: string, port: string, subjects: seq<string>, publishers: seq<string>)

  /** Connecting the ports failed, or this is what the connected graph reports. */
  datatype Flow =
    | Unconnectable(reason: string)
    | Connected(lone: seq<Lone>, orphans: seq<Orphan>, unfed: seq<Unfed>, edges: seq<Edge>)

  datatype Topic =
    | OfNothing
    | OfFailure(reason: string)
    | OfOrphan(orphan: Orphan)
    | OfUnfed(subjects: seq<string>, publishers: seq<string>)
    | OfMismatch(edge: Edge, source: string, target: string)
    | OfMissing(edge: Edge, target: string)

  type Wording = Topic -> (string, seq<string>)

  type PortKey = (string, string)

  // ---------------------------------------------------------------------------- severity

  /** severityOf: the one severity table. */
  function SeverityOf(typ: string, orphan: Option<Orphan>): Severity
  {
    if typ in ["disconnected_node", "missing_interface", "empty_composition"] then Warning
    else if typ == "orphaned_port" then
      (match orphan
       case Some(o) => if o.issue == NoPublishers && o.required && o.pattern == StreamPattern then Error else Warning
       case None => Warning)
    else Error
  }

  function Say(
    words: Wording, topic: Topic, typ: string, orphan: Option<Orphan>, component: string, port: string): Finding
  {
    Finding(typ, SeverityOf(typ, orphan), component, port, words(topic).0, words(topic).1)
  }

  function Arrow(a: string, b: string): string
  {
    a + " \U{2192} " + b
  }

  // ----------------------------------------------------------------------------- indexes

  /** externalInputs, as a set. */
  ghost function External(decls: seq<Declaration>): set<PortKey>
  {
    set d, p | d in decls && p in d.inputs && p.external :: (d.instance, p.name)
  }

  method ExternalInputs(decls: seq<Declaration>) returns (r: set<PortKey>)
    ensures r == External(decls)
  {
    r := {};
    for i := 0 to |decls|
      invariant r == External(decls[..i])
    {
      assert decls[..i + 1] == decls[..i] + [decls[i]];
      var inputs := decls[i].inputs;
      ghost var before := r;
      for j := 0 to |inputs|
        invariant r == before + set p | p in inputs[..j] && p.external :: (decls[i].instance, p.name)
      {
        assert inputs[..j + 1] == inputs[..j] + [inputs[j]];
        if inputs[j].external {
          r := r + {(decls[i].instance, inputs[j].name)};
        }
      }
      assert inputs[..|inputs|] == inputs;
    }
    assert decls[..|decls|] == decls;
  }

  /** The stream names of d's first n inputs, a later port of the same name winning. */
  function NamesIn(base: map<PortKey, string>, d: Declaration, n: nat): map<PortKey, string>
    requires n <= |d.inputs|
  {
    if n == 0 then base
    else
      var rest := NamesIn(base, d, n - 1);
      if n - 1 < |d.inputFacts| && d.inputFacts[n - 1].stream.Some?
      then rest[(d.instance, d.inputs[n - 1].name) := d.inputFacts[n - 1].stream.value.streamName]
      else rest
  }

  function Names(decls: seq<Declaration>): map<PortKey, string>
  {
    if decls == [] then map[]
    else
      var last := decls[|decls| - 1];
      NamesIn(Names(decls[..|decls| - 1]), last, |last.inputs|)
  }

  method SubscriberStreamNames(decls: seq<Declaration>) returns (r: map<PortKey, string>)
    ensures r == Names(decls)
  {
    r := map[];
    for i := 0 to |decls|
      invariant r == Names(decls[..i])
    {
      assert decls[..i + 1][..i] == decls[..i];
      var d := decls[i];
      for j := 0 to |d.inputs|
        invariant r == NamesIn(Names(decls[..i]), d, j)
      {
        if j < |d.inputFacts| && d.inputFacts[j].stream.Some? {
          r := r[(d.instance, d.inputs[j].name) := d.inputFacts[j].stream.value.streamName];
        }
      }
    }
    assert decls[..|decls|] == decls;
  }

  function InterfaceType(facts: seq<Facts>, i: nat): string
  {
    if i < |facts| && facts[i].contract.Some? then facts[i].contract.value.typ else ""
  }

  /** The interface types of the first n ports of one lane, over those already indexed. */
  function Types(base: map<string, string>, ports: seq<Port>, facts: seq<Facts>, n: nat): map<string, string>
    requires n <= |ports|
  {
    if n == 0 then base
    else Types(base, ports, facts, n - 1)[ports[n - 1].name := InterfaceType(facts, n - 1)]
  }

  /** One component's index: inputs first, then outputs over them. */
  function ByPort(d: Declaration): map<string, string>
  {
    Types(Types(map[], d.inputs, d.inputFacts, |d.inputs|), d.outputs, d.outputFacts, |d.outputs|)
  }

  function Contracts(decls: seq<Declaration>): map<string, map<string, string>>
  {
    if decls == [] then map[]
    else
      var last := decls[|decls| - 1];
      Contracts(decls[..|decls| - 1])[last.instance := ByPort(last)]
  }

  method AddTypes(base: map<string, string>, ports: seq<Port>, facts: seq<Facts>) returns (r: map<string, string>)
    ensures r == Types(base, ports, facts, |ports|)
  {
    r := base;
    for i := 0 to |ports|
      invariant r == Types(base, ports, facts, i)
    {
      r := r[ports[i].name := InterfaceType(facts, i)];
    }
  }

  method InterfaceContracts(decls: seq<Declaration>) returns (r: map<string, map<string, string>>)
    ensures r == Contracts(decls)
  {
    r := map[];
    for i := 0 to |decls|
      invariant r == Contracts(decls[..i])
    {
      assert decls[..i + 1][..i] == decls[..i];
      var byPort := AddTypes(map[], decls[i].inputs, decls[i].inputFacts);
      byPort := AddTypes(byPort, decls[i].outputs, decls[i].outputFacts);
      r := r[decls[i].instance := byPort];
    }
    assert decls[..|decls|] == decls;
  }

  // ---------------------------------------------------------------------------- findings

  function LoneReport(l: Lone): seq<Finding>
  {
    [Finding("disconnected_node", SeverityOf("disconnected_node", None), l.component, "", l.issue, l.suggestions)]
  }

  predicate Suppressed(external: set<PortKey>, o: Orphan)
  {
    o.issue == NoPublishers && (o.component, o.port) in external
  }

  function OrphanReport(words: Wording, external: set<PortKey>): Orphan -> seq<Finding>
  {
    (o: Orphan) =>
      if Suppressed(external, o) then []
      else [Say(words, OfOrphan(o), "orphaned_port", Some(o), o.component, o.port)]
  }

  ghost predicate Covered(streams: map<string, seq<string>>, names: map<PortKey, string>, u: Unfed)
  {
    StreamCovers(streams, if (u.component, u.port) in names then names[(u.component, u.port)] else "", u.subjects)
  }

  function StreamFinding(words: Wording, u: Unfed): Finding
  {
    Say(words, OfUnfed(u.subjects, StableSort(u.publishers, AtMost)), "stream_requirement", None, u.component, u.port)
  }

  ghost function StreamReport(
    words: Wording, streams: map<string, seq<string>>, names: map<PortKey, string>): Unfed -> seq<Finding>
  {
    (u: Unfed) => if Covered(streams, names, u) then [] else [StreamFinding(words, u)]
  }

  /** The contract types an edge joins, when both ends are indexed. */
  function Joined(contracts: map<string, map<string, string>>, e: Edge): Option<(string, string)>
  {
    if e.from in contracts && e.fromPort in contracts[e.from] && e.to in contracts && e.toPort in contracts[e.to]
    then Some((contracts[e.from][e.fromPort], contracts[e.to][e.toPort]))
    else None
  }

  function InterfaceReport(words: Wording, contracts: map<string, map<string, string>>): Edge -> seq<Finding>
  {
    (e: Edge) =>
      match Joined(contracts, e)
      case None => []
      case Some((s, t)) =>
        if t != "" && s != "" && s != t then
          [Say(words, OfMismatch(e, s, t), "interface_mismatch", None,
               Arrow(e.from, e.to), Arrow(e.fromPort, e.toPort))]
        else if t != "" && s == "" then
          [Say(words, OfMissing(e, t), "missing_interface", None, Arrow(e.from, e.to), Arrow(e.fromPort, e.toPort))]
        else []
  }

  ghost function Gather<T(!new)>(xs: seq<T>, one: T -> seq<Finding>): seq<Finding>
  {
    if xs == [] then [] else Gather(xs[..|xs| - 1], one) + one(xs[|xs| - 1])
  }

  predicate ByInstance(a: Declaration, b: Declaration)
  {
    AtMost(a.instance, b.instance)
  }

  /** All findings over declarations already sorted by instance. */
  ghost function Found(
    decls: seq<Declaration>, streams: map<string, seq<string>>, flow: Flow, words: Wording): seq<Finding>
  {
    if decls == [] then [Say(words, OfNothing, "empty_composition", None, "(none)", "")]
    else
      match flow
      case Unconnectable(reason) =>
        [Say(words, OfFailure(reason), "connection_pattern_error", None, "(composition)", "")]
      case Connected(lone, orphans, unfed, edges) =>
        Gather(lone, LoneReport)
        + Gather(orphans, OrphanReport(words, External(decls)))
        + Gather(unfed, StreamReport(words, streams, Names(decls)))
        + Gather(edges, InterfaceReport(words, Contracts(decls)))
  }

  // ----------------------------------------------------------------------------- Analyze

  lemma GatherNext<T(!new)>(xs: seq<T>, i: nat, one: T -> seq<Finding>, fs: seq<Finding>)
    requires i < |xs|
    ensures fs + Gather(xs[..i], one) + one(xs[i]) == fs + Gather(xs[..i + 1], one)
    ensures one(xs[i]) == [] ==> fs + Gather(xs[..i], one) == fs + Gather(xs[..i + 1], one)
  {
    assert xs[..i + 1][..i] == xs[..i];
  }

  method AddLone(r: Findings.Result, xs: seq<Lone>, ghost fs: seq<Finding>)
    requires r.Holds(fs)
    modifies r
    ensures r.Holds(fs + Gather(xs, LoneReport))
  {
    assert fs + [] == fs;
    for i := 0 to |xs|
      invariant r.Holds(fs + Gather(xs[..i], LoneReport))
    {
      assert xs[..i + 1][..i] == xs[..i];
      ghost var sofar := fs + Gather(xs[..i], LoneReport);
      r.Add(LoneReport(xs[i])[0], sofar);
      assert sofar + LoneReport(xs[i]) == fs + Gather(xs[..i + 1], LoneReport);
    }
    assert xs[..|xs|] == xs;
  }

  method AddOrphans(r: Findings.Result, xs: seq<Orphan>, words: Wording, external: set<PortKey>, ghost fs: seq<Finding>)
    requires r.Holds(fs)
    modifies r
    ensures r.Holds(fs + Gather(xs, OrphanReport(words, external)))
  {
    ghost var one := OrphanReport(words, external);
    assert fs + [] == fs;
    for i := 0 to |xs|
      invariant r.Holds(fs + Gather(xs[..i], one))
    {
      ghost var sofar := fs + Gather(xs[..i], one);
      GatherNext(xs, i, one, fs);
      if Suppressed(external, xs[i]) {
        continue;
      }
      r.Add(Say(words, OfOrphan(xs[i]), "orphaned_port", Some(xs[i]), xs[i].component, xs[i].port), sofar);
    }
    assert xs[..|xs|] == xs;
  }

  method AddUnfed(
    r: Findings.Result, xs: seq<Unfed>, words: Wording, streams: map<string, seq<string>>,
    names: map<PortKey, string>, ghost fs: seq<Finding>)
    requires r.Holds(fs)
    modifies r
    ensures r.Holds(fs + Gather(xs, StreamReport(words, streams, names)))
  {
    ghost var one := StreamReport(words, streams, names);
    assert fs + [] == fs;
    for i := 0 to |xs|
      invariant r.Holds(fs + Gather(xs[..i], one))
    {
      ghost var sofar := fs + Gather(xs[..i], one);
      GatherNext(xs, i, one, fs);
      var key := (xs[i].component, xs[i].port);
      var covered := ExplicitStreamCovers(streams, if key in names then names[key] else "", xs[i].subjects);
      if covered {
        continue;
      }
      r.Add(StreamFinding(words, xs[i]), sofar);
    }
    assert xs[..|xs|] == xs;
  }

  method AddInterfaces(r: Findings.Result, xs: seq<Edge>, words: Wording, contracts: map<string, map<string, string>>,
                       ghost fs: seq<Finding>)
    requires r.Holds(fs)
    modifies r
    ensures r.Holds(fs + Gather(xs, InterfaceReport(words, contracts)))
  {
    ghost var one := InterfaceReport(words, contracts);
    assert fs + [] == fs;
    for i := 0 to |xs|
      invariant r.Holds(fs + Gather(xs[..i], one))
    {
      ghost var sofar := fs + Gather(xs[..i], one);
      GatherNext(xs, i, one, fs);
      var found := InterfaceReport(words, contracts)(xs[i]);
      if found == [] {
        continue;
      }
      assert found == [found[0]];
      r.Add(found[0], sofar);
    }
    assert xs[..|xs|] == xs;
  }

  /** The four loops over a connected graph. */
  method AddConnected(
    r: Findings.Result, nodes: seq<Declaration>, streams: map<string, seq<string>>, flow: Flow, words: Wording)
    requires r.Holds([]) && nodes != [] && flow.Connected?
    modifies r
    ensures r.Holds(Found(nodes, streams, flow, words))
  {
    var external := ExternalInputs(nodes);
    ghost var fs: seq<Finding> := [];
    AddLone(r, flow.lone, fs);
    fs := fs + Gather(flow.lone, LoneReport);
    assert fs == Gather(flow.lone, LoneReport);
    AddOrphans(r, flow.orphans, words, external, fs);
    fs := fs + Gather(flow.orphans, OrphanReport(words, external));
    var names := SubscriberStreamNames(nodes);
    AddUnfed(r, flow.unfed, words, streams, names, fs);
    fs := fs + Gather(flow.unfed, StreamReport(words, streams, names));
    var contracts := InterfaceContracts(nodes);
    AddInterfaces(r, flow.edges, words, contracts, fs);
  }

  /** Analyze: the finalised report, the projected nodes in instance order and the projected edges. */
  method Analyze(
    decls: seq<Declaration>, streams: map<string, seq<string>>, connect: seq<Declaration> -> Flow, words: Wording)
    returns (report: Report, nodes: seq<Declaration>, edges: seq<Edge>)
    ensures nodes == StableSort(decls, ByInstance)
    ensures report == ReportOf(Found(nodes, streams, connect(nodes), words))
    ensures edges == if nodes != [] && connect(nodes).Connected? then SortEdges(connect(nodes).edges) else []
  {
    var r := new Findings.Result();
    nodes, edges := StableSort(decls, ByInstance), [];
    var flow := connect(nodes);
    ghost var none: seq<Finding> := [];
    if |nodes| == 0 {
      r.Add(Say(words, OfNothing, "empty_composition", None, "(none)", ""), none);
    } else if flow.Unconnectable? {
      r.Add(Say(words, OfFailure(flow.reason), "connection_pattern_error", None, "(composition)", ""), none);
    } else {
      AddConnected(r, nodes, streams, flow, words);
      edges := SortEdges(flow.edges);
    }
    r.Finalize(Found(nodes, streams, flow, words));
    report := Report(r.errors, r.warnings, r.status);
  }

  // ------------------------------------------------------------------------- what it means

  lemma {:induction false} Gathered<T(!new)>(xs: seq<T>, one: T -> seq<Finding>, f: Finding)
    ensures f in Gather(xs, one) <==> exists x :: x in xs && f in one(x)
  {
    if xs != [] {
      var n := |xs| - 1;
      Gathered(xs[..n], one, f);
      assert xs == xs[..n] + [xs[n]];
      assert xs[n] in xs;
    }
  }

  /**
    A composition is refused exactly for one of these: an unfed required input, a missing stream, a
    contract mismatch.
   */
  ghost predicate Faulty(decls: seq<Declaration>, streams: map<string, seq<string>>, flow: Flow)
    requires flow.Connected?
  {
    || (exists o :: o in flow.orphans && o.issue == NoPublishers && o.required && o.pattern == StreamPattern
                    && (o.component, o.port) !in External(decls))
    || (exists u :: u in flow.unfed && !Covered(streams, Names(decls), u))
    || (exists e :: e in flow.edges && Mismatched(Joined(Contracts(decls), e)))
  }

  predicate Mismatched(types: Option<(string, string)>)
  {
    types.Some? && types.value.0 != "" && types.value.1 != "" && types.value.0 != types.value.1
  }

  lemma OrphanErrors(xs: seq<Orphan>, words: Wording, external: set<PortKey>)
    ensures (exists f :: f in Gather(xs, OrphanReport(words, external)) && f.severity == Error) <==>
      exists o :: o in xs && o.issue == NoPublishers && o.required && o.pattern == StreamPattern
                  && (o.component, o.port) !in external
  {
    var one := OrphanReport(words, external);
    forall f { Gathered(xs, one, f); }
    forall o | o in xs ensures (exists f :: f in one(o) && f.severity == Error) <==>
        o.issue == NoPublishers && o.required && o.pattern == StreamPattern && (o.component, o.port) !in external
    {
      assert one(o) != [] ==> one(o)[0] in one(o);
    }
  }

  lemma StreamErrors(xs: seq<Unfed>, words: Wording, streams: map<string, seq<string>>, names: map<PortKey, string>)
    ensures (exists f :: f in Gather(xs, StreamReport(words, streams, names)) && f.severity == Error) <==>
      exists u :: u in xs && !Covered(streams, names, u)
  {
    var one := StreamReport(words, streams, names);
    forall f { Gathered(xs, one, f); }
    forall u | u in xs ensures (exists f :: f in one(u) && f.severity == Error) <==> !Covered(streams, names, u) {
      assert one(u) != [] ==> one(u)[0] in one(u);
    }
  }

  lemma InterfaceErrors(xs: seq<Edge>, words: Wording, contracts: map<string, map<string, string>>)
    ensures (exists f :: f in Gather(xs, InterfaceReport(words, contracts)) && f.severity == Error) <==>
      exists e :: e in xs && Mismatched(Joined(contracts, e))
  {
    var one := InterfaceReport(words, contracts);
    forall f { Gathered(xs, one, f); }
    forall e | e in xs ensures (exists f :: f in one(e) && f.severity == Error) <==> Mismatched(Joined(contracts, e)) {
      assert one(e) != [] ==> one(e)[0] in one(e);
    }
  }

  lemma LoneWarnings(xs: seq<Lone>)
    ensures forall f :: f in Gather(xs, LoneReport) ==> f.severity == Warning
  {
    forall f { Gathered(xs, LoneReport, f); }
  }

  /** The status is "errors" exactly when the composition is faulty. */
  lemma RefusedIffFaulty(decls: seq<Declaration>, streams: map<string, seq<string>>, flow: Flow, words: Wording)
    requires decls != [] && flow.Connected?
    ensures ReportOf(Found(decls, streams, flow, words)).status == HasErrors <==> Faulty(decls, streams, flow)
  {
    StatusMeaning(Found(decls, streams, flow, words));
    LoneWarnings(flow.lone);
    OrphanErrors(flow.orphans, words, External(decls));
    StreamErrors(flow.unfed, words, streams, Names(decls));
    InterfaceErrors(flow.edges, words, Contracts(decls));
  }

  /** A resolved import lane is fed from a peer deployment, so it is never reported for want of a publisher. */
  lemma ImportLaneNeverOrphaned(
    positive: string -> bool, decls: seq<Declaration>, d: Declaration, p: Port, o: Orphan, words: Wording)
    requires d in decls && p in d.inputs && IsResolved(positive, p)
    requires p.config.value.JetStream? && p.config.value.importLane
    requires o.component == d.instance && o.port == p.name && o.issue == NoPublishers
    ensures OrphanReport(words, External(decls))(o) == []
  {
    ResolvedJetStream(positive, p);
    assert (d.instance, p.name) in External(decls);
  }

  // ------------------------------------------------------------------------- determinism

  lemma GatherSnoc<T(!new)>(xs: seq<T>, x: T, one: T -> seq<Finding>)
    ensures Gather(xs + [x], one) == Gather(xs, one) + one(x)
  {
    assert (xs + [x])[..|xs|] == xs;
  }

  lemma {:induction false} GatherWithout<T(!new)>(xs: seq<T>, x: T, one: T -> seq<Finding>)
    requires x in xs
    ensures multiset(Gather(xs, one)) == multiset(one(x)) + multiset(Gather(Without(xs, x), one))
  {
    var n := |xs| - 1;
    var init, last := xs[..n], xs[n];
    assert xs == init + [last];
    WithoutLast(init, last, x);
    if x in init {
      GatherWithout(init, x, one);
      GatherSnoc(Without(init, x), last, one);
    }
  }

  lemma {:induction false} WithoutLast<T>(init: seq<T>, last: T, x: T)
    ensures x in init ==> Without(init + [last], x) == Without(init, x) + [last]
    ensures x !in init && x == last ==> Without(init + [last], x) == init
  {
    if init != [] {
      WithoutLast(init[1..], last, x);
      assert (init + [last])[1..] == init[1..] + [last];
      assert init == [init[0]] + init[1..];
    }
  }

  /** Findings gathered from the same things in another order are the same findings. */
  lemma {:induction false} GatherPermutes<T(!new)>(a: seq<T>, b: seq<T>, one: T -> seq<Finding>)
    requires multiset(a) == multiset(b)
    ensures multiset(Gather(a, one)) == multiset(Gather(b, one))
    decreases |a|
  {
    assert |multiset(a)| == |a| && |multiset(b)| == |b|;
    if a != [] {
      var x := a[0];
      assert x in multiset(b) && x in b;
      GatherWithout(a, x, one);
      GatherWithout(b, x, one);
      WithoutCounts(a, x);
      WithoutCounts(b, x);
      assert multiset(a) - multiset{x} == multiset(Without(a, x));
      assert multiset(b) - multiset{x} == multiset(Without(b, x));
      GatherPermutes(Without(a, x), Without(b, x), one);
    }
  }

  /** An unfed subscriber with its publishers, which the graph lists in edge order, in name order. */
  function Ordered(u: Unfed): Unfed
  {
    u.(publishers := StableSort(u.publishers, AtMost))
  }

  function AllOrdered(us: seq<Unfed>): (r: seq<Unfed>)
    ensures |r| == |us| && forall i :: 0 <= i < |us| ==> r[i] == Ordered(us[i])
  {
    seq(|us|, i requires 0 <= i < |us| => Ordered(us[i]))
  }

  lemma OrderedTwice(u: Unfed)
    ensures Ordered(Ordered(u)) == Ordered(u)
  {
    AtMostTotalOrder();
    SortPermutes(u.publishers, AtMost);
    SortForgetsInputOrder(u.publishers, StableSort(u.publishers, AtMost), AtMost);
  }

  /** Whether a subscriber is reported, and how, does not depend on the order of its publishers. */
  lemma ReportedAsOrdered(u: Unfed, words: Wording, streams: map<string, seq<string>>, names: map<PortKey, string>)
    ensures StreamReport(words, streams, names)(Ordered(u)) == StreamReport(words, streams, names)(u)
  {
    OrderedTwice(u);
    assert Covered(streams, names, Ordered(u)) == Covered(streams, names, u);
  }

  lemma {:induction false} GatherOrdered(
    us: seq<Unfed>, words: Wording, streams: map<string, seq<string>>, names: map<PortKey, string>)
    ensures Gather(AllOrdered(us), StreamReport(words, streams, names)) ==
      Gather(us, StreamReport(words, streams, names))
  {
    if us != [] {
      var n := |us| - 1;
      GatherOrdered(us[..n], words, streams, names);
      assert AllOrdered(us)[..n] == AllOrdered(us[..n]);
      ReportedAsOrdered(us[n], words, streams, names);
    }
  }

  /**
    The same report from the flow graph, up to the order its maps were walked in: the lists, and
    the publishers inside each unfed subscriber, may come in any order.
   */
  ghost predicate SameFlow(a: Flow, b: Flow)
  {
    || a == b
    || (&& a.Connected? && b.Connected?
        && multiset(a.lone) == multiset(b.lone) && multiset(a.orphans) == multiset(b.orphans)
        && multiset(AllOrdered(a.unfed)) == multiset(AllOrdered(b.unfed))
        && multiset(a.edges) == multiset(b.edges))
  }

  /** Publishers that are permuted, subscriber by subscriber, make the same flow. */
  lemma PermutedPublishers(us: seq<Unfed>, vs: seq<Unfed>)
    requires |us| == |vs| && forall i :: 0 <= i < |us| ==>
      vs[i] == us[i].(publishers := vs[i].publishers) && multiset(us[i].publishers) == multiset(vs[i].publishers)
    ensures AllOrdered(us) == AllOrdered(vs)
  {
    AtMostTotalOrder();
    forall i | 0 <= i < |us| ensures Ordered(us[i]) == Ordered(vs[i]) {
      SortForgetsInputOrder(us[i].publishers, vs[i].publishers, AtMost);
    }
  }

  ghost predicate DistinctInstances(decls: seq<Declaration>)
  {
    forall a, b :: a in decls && b in decls && a.instance == b.instance ==> a == b
  }

  lemma ByInstanceOrder(decls: seq<Declaration>)
    requires DistinctInstances(decls)
    ensures TotalPreorder(ByInstance) && NoTies(decls, ByInstance)
  {
    AtMostTotalOrder();
  }

  lemma FoundPermutes(decls: seq<Declaration>, streams: map<string, seq<string>>, a: Flow, b: Flow, words: Wording)
    requires SameFlow(a, b)
    ensures multiset(Found(decls, streams, a, words)) == multiset(Found(decls, streams, b, words))
  {
    if a.Connected? && b.Connected? {
      GatherPermutes(a.lone, b.lone, LoneReport);
      GatherPermutes(a.orphans, b.orphans, OrphanReport(words, External(decls)));
      GatherOrdered(a.unfed, words, streams, Names(decls));
      GatherOrdered(b.unfed, words, streams, Names(decls));
      GatherPermutes(AllOrdered(a.unfed), AllOrdered(b.unfed), StreamReport(words, streams, Names(decls)));
      GatherPermutes(a.edges, b.edges, InterfaceReport(words, Contracts(decls)));
    }
  }

  /**
    The outcome does not depend on the order declarations arrive in, nor on the order the flow graph
    walks its maps in, which also orders the publishers of each subscriber: same nodes, same edges,
    same status and the same finding keys in every list, and the very same report when no two
    different findings of one severity share all four keys.
   */
  lemma AnalyzeCanonical(
    a: seq<Declaration>, b: seq<Declaration>, streams: map<string, seq<string>>,
    first: seq<Declaration> -> Flow, second: seq<Declaration> -> Flow, words: Wording)
    requires DistinctInstances(a) && multiset(a) == multiset(b)
    requires forall s :: SameFlow(first(s), second(s))
    ensures StableSort(a, ByInstance) == StableSort(b, ByInstance)
    ensures var s := StableSort(a, ByInstance);
      var f, g := first(s), second(s);
      var r, t := ReportOf(Found(s, streams, f, words)), ReportOf(Found(s, streams, g, words));
      && Keys(r.errors, FindingKey) == Keys(t.errors, FindingKey)
      && Keys(r.warnings, FindingKey) == Keys(t.warnings, FindingKey)
      && r.status == t.status
      && (Telling(Found(s, streams, f, words)) ==> r == t)
      && (f.Connected? ==> g.Connected? && SortEdges(f.edges) == SortEdges(g.edges))
  {
    ByInstanceOrder(a);
    SortForgetsInputOrder(a, b, ByInstance);
    var s := StableSort(a, ByInstance);
    var f, g := first(s), second(s);
    assert SameFlow(f, g);
    FoundPermutes(s, streams, f, g, words);
    ReportCanonical(Found(s, streams, f, words), Found(s, streams, g, words));
    if Telling(Found(s, streams, f, words)) {
      ReportDetermined(Found(s, streams, f, words), Found(s, streams, g, words));
    }
    if f.Connected? { EdgesCanonical(f.edges, g.edges); }
  }

  // ----------------------------------------------------------------- stream-name look-up

  /** The stream bound by the last of d's first n inputs that has that name and binds one. */
  function BoundStream(d: Declaration, port: string, n: nat): Option<string>
    requires n <= |d.inputs|
  {
    if n == 0 then None
    else if n - 1 < |d.inputFacts| && d.inputFacts[n - 1].stream.Some? && d.inputs[n - 1].name == port
    then Some(d.inputFacts[n - 1].stream.value.streamName)
    else BoundStream(d, port, n - 1)
  }

  lemma {:induction false} NamesInLookup(base: map<PortKey, string>, d: Declaration, n: nat, key: PortKey)
    requires n <= |d.inputs|
    ensures var t := NamesIn(base, d, n);
      if key.0 == d.instance && BoundStream(d, key.1, n).Some?
      then key in t && t[key] == BoundStream(d, key.1, n).value
      else (key in t <==> key in base) && (key in t ==> t[key] == base[key])
  {
    if n > 0 { NamesInLookup(base, d, n - 1, key); }
  }

  /**
    A subscriber is judged by the stream its own last JetStream input of that name binds, and by none
    if there is none.
   */
  lemma {:induction false} StreamNameLookup(decls: seq<Declaration>, d: Declaration, port: string)
    requires DistinctInstances(decls + [d])
    ensures var key := (d.instance, port);
      if d in decls && BoundStream(d, port, |d.inputs|).Some?
      then key in Names(decls) && Names(decls)[key] == BoundStream(d, port, |d.inputs|).value
      else key !in Names(decls)
  {
    if decls != [] {
      var n := |decls| - 1;
      var front, last := decls[..n], decls[n];
      assert decls == front + [last];
      assert last in decls + [d] && d in decls + [d];
      assert forall x :: x in front + [d] ==> x in decls + [d];
      StreamNameLookup(front, d, port);
      NamesInLookup(Names(front), last, |last.inputs|, (d.instance, port));
    }
  }

  // --------------------------------------------------------------------- contract look-up

  /** The last of the first n ports with that name. */
  function LastNamed(ports: seq<Port>, name: string, n: nat): Option<nat>
    requires n <= |ports|
  {
    if n == 0 then None else if ports[n - 1].name == name then Some(n - 1) else LastNamed(ports, name, n - 1)
  }

  lemma {:induction false} TypesLookup(
    base: map<string, string>, ports: seq<Port>, facts: seq<Facts>, n: nat, name: string)
    requires n <= |ports|
    ensures var t := Types(base, ports, facts, n);
      match LastNamed(ports, name, n)
      case Some(i) => name in t && t[name] == InterfaceType(facts, i)
      case None => (name in t <==> name in base) && (name in t ==> t[name] == base[name])
  {
    if n > 0 { TypesLookup(base, ports, facts, n - 1, name); }
  }

  /** The contract found for a port name is that of the last output so named, or else of the last input. */
  lemma ContractLookup(d: Declaration, name: string)
    ensures match LastNamed(d.outputs, name, |d.outputs|)
      case Some(i) => name in ByPort(d) && ByPort(d)[name] == InterfaceType(d.outputFacts, i)
      case None =>
        (match LastNamed(d.inputs, name, |d.inputs|)
         case Some(i) => name in ByPort(d) && ByPort(d)[name] == InterfaceType(d.inputFacts, i)
         case None => name !in ByPort(d))
  {
    TypesLookup(map[], d.inputs, d.inputFacts, |d.inputs|, name);
    TypesLookup(Types(map[], d.inputs, d.inputFacts, |d.inputs|), d.outputs, d.outputFacts, |d.outputs|, name);
  }

  lemma {:induction false} ContractsOf(decls: seq<Declaration>, d: Declaration)
    requires DistinctInstances(decls) && d in decls
    ensures d.instance in Contracts(decls) && Contracts(decls)[d.instance] == ByPort(d)
  {
    var n := |decls| - 1;
    assert decls == decls[..n] + [decls[n]];
    if decls[n].instance != d.instance { ContractsOf(decls[..n], d); }
  }

  /**
    An edge is judged by its output's contract and, at the other end, by its input's own contract
    exactly when no output of that component shares the input's name with a different contract.
    The two lanes share one index and port names are unique only within a lane.
   */
  lemma EdgeJudgedByItsPorts(decls: seq<Declaration>, s: Declaration, i: nat, d: Declaration, j: nat, e: Edge)
    requires DistinctInstances(decls) && s in decls && d in decls
    requires i < |s.outputs| && e.from == s.instance && e.fromPort == s.outputs[i].name
    requires LastNamed(s.outputs, e.fromPort, |s.outputs|) == Some(i)
    requires j < |d.inputs| && e.to == d.instance && e.toPort == d.inputs[j].name
    requires LastNamed(d.inputs, e.toPort, |d.inputs|) == Some(j)
    ensures var shadow := LastNamed(d.outputs, e.toPort, |d.outputs|);
      Joined(Contracts(decls), e) == Some((InterfaceType(s.outputFacts, i), InterfaceType(d.inputFacts, j))) <==>
      shadow.None? || InterfaceType(d.outputFacts, shadow.value) == InterfaceType(d.inputFacts, j)
  {
    ContractsOf(decls, s);
    ContractsOf(decls, d);
    ContractLookup(s, e.fromPort);
    ContractLookup(d, e.toPort);
  }

  /** A core NATS port with a contract of that type, and the facts it projects. */
  function Contracted(typ: string): Config
  {
    Nats("s", "", Some(Contract(typ, "v1", [])))
  }

  function NatsPort(name: string, d: Direction, typ: string): Port
  {
    Port(name, d, false, "", false, Some(Contracted(typ)))
  }

  function Source(): Declaration
  {
    Declaration("a", "f", "input", [], [NatsPort("q", Output, "x")], [], [Project(Contracted("x"))], [])
  }

  function Relay(): Declaration
  {
    Declaration("b", "f", "processor", [NatsPort("p", Input, "x")], [NatsPort("p", Output, "y")],
                [Project(Contracted("x"))], [Project(Contracted("y"))], [])
  }

  /**
    A component with an input and an output both named "p", of different contracts: an edge from
    another component that provides exactly what the input requires is reported as a mismatch.
   */
  lemma SharedNameMisjudged()
    ensures var a, b := Source(), Relay();
      var e := Edge("a", "q", "b", "p", "stream", "s");
      && InterfaceType(a.outputFacts, 0) == InterfaceType(b.inputFacts, 0) == "x"
      && Mismatched(Joined(Contracts([a, b]), e))
  {
    var a, b := Source(), Relay();
    assert DistinctInstances([a, b]);
    assert [a, b][0] == a && [a, b][1] == b;
    ContractsOf([a, b], a);
    ContractsOf([a, b], b);
    assert LastNamed(a.outputs, "q", 1) == Some(0) && LastNamed(b.outputs, "p", 1) == Some(0);
    ContractLookup(a, "q");
    ContractLookup(b, "p");
  }
}
