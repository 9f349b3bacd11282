/**
  The whole of composition.Validate (composition/validate.go): the configuration gate, the judge's
  pass over the components, and the graph analysis of what it let through, in one report.
 */
module Composition {
  import opened Outcome
  import opened Text
  import opened Sorting
  import opened Ordering
  import opened Findings
  import opened PortResolver
  import opened Admission
  import opened Registry
  import RegistryProtocol
  import V = Validate
  import A = Analyze

  /** The wording of the gate's and the judge's findings. */
  datatype Voice = Voice(config: string -> seq<string>, judge: V.Finding -> (string, seq<string>))

  function TypeOf(kind: V.FindingKind): string
  {
    match kind
    case ComponentConfigInvalid => "component_config_invalid"
    case UnknownComponent => "unknown_component"
    case ComponentTypeMismatch => "component_type_mismatch"
    case PortDeclarationError => "port_declaration_error"
    case ExclusiveResourceConflict(_, _) => "exclusive_resource_conflict"
  }

  function Rendered(voice: Voice, f: V.Finding): Finding
  {
    Finding(TypeOf(f.kind), A.SeverityOf(TypeOf(f.kind), None), f.component, "", voice.judge(f).0, voice.judge(f).1)
  }

  function RenderAll(voice: Voice, fs: seq<V.Finding>): (r: seq<Finding>)
    ensures |r| == |fs| && forall i :: 0 <= i < |fs| ==> r[i] == Rendered(voice, fs[i])
  {
    seq(|fs|, i requires 0 <= i < |fs| => Rendered(voice, fs[i]))
  }

  /** The finding for a configuration that Config.Validate refuses. */
  function Gate(voice: Voice, fault: Option<string>): seq<Finding>
  {
    match fault
    case None => []
    case Some(m) => [Finding("config_invalid", A.SeverityOf("config_invalid", None), "config", "", m, voice.config(m))]
  }

  /** Everything Validate finds. */
  ghost function Verdict(
    voice: Voice, words: A.Wording, fault: Option<string>, judged: seq<V.Finding>, nodes: seq<Declaration>,
    streams: map<string, seq<string>>, flow: A.Flow): seq<Finding>
  {
    Gate(voice, fault) + RenderAll(voice, judged) + A.Found(nodes, streams, flow, words)
  }

  lemma RenderSnoc(voice: Voice, judged: seq<V.Finding>, i: nat, fs: seq<Finding>)
    requires i < |judged|
    ensures fs + RenderAll(voice, judged[..i + 1]) == fs + RenderAll(voice, judged[..i]) + [Rendered(voice, judged[i])]
  {
    assert RenderAll(voice, judged[..i + 1]) == RenderAll(voice, judged[..i]) + [Rendered(voice, judged[i])];
  }

  method AddJudged(r: Findings.Result, voice: Voice, judged: seq<V.Finding>, ghost fs: seq<Finding>)
    requires r.Holds(fs)
    modifies r
    ensures r.Holds(fs + RenderAll(voice, judged))
  {
    ghost var sofar := fs;
    assert fs + RenderAll(voice, judged[..0]) == fs;
    for i := 0 to |judged|
      invariant sofar == fs + RenderAll(voice, judged[..i]) && r.Holds(sofar)
    {
      RenderSnoc(voice, judged, i, fs);
      r.Add(Rendered(voice, judged[i]), sofar);
      sofar := sofar + [Rendered(voice, judged[i])];
    }
    assert judged[..|judged|] == judged;
  }

  /**
    Validate. The analysis of what the judge accepted is reported on its own, its sorted lists are
    appended to the findings so far, and everything is sorted again; the report is that of all
    findings added at once.
   */
  method Validate(
    env: Env, factories: Table, components: map<string, Entry>, fault: Option<string>,
    streams: map<string, seq<string>>, connect: seq<Declaration> -> A.Flow, voice: Voice, words: A.Wording)
    returns (report: Report, nodes: seq<Declaration>, edges: seq<Edge>,
             ghost accepted: seq<Declaration>, ghost judged: seq<V.Finding>)
    ensures var names := V.JudgeOrder(components);
      V.Judged(env, factories, components, names, V.Declared(env, factories, components, names), accepted, judged)
    ensures nodes == StableSort(accepted, A.ByInstance)
    ensures report == ReportOf(Verdict(voice, words, fault, judged, nodes, streams, connect(nodes)))
    ensures edges == if nodes != [] && connect(nodes).Connected? then SortEdges(connect(nodes).edges) else []
  {
    var r := new Findings.Result();
    ghost var fs: seq<Finding> := [];
    if fault.Some? {
      r.Add(Gate(voice, fault)[0], fs);
      fs := fs + [Gate(voice, fault)[0]];
    }
    assert fs == Gate(voice, fault);
    var kept, findings := V.Judge(env, factories, components);
    accepted, judged := kept, findings;
    AddJudged(r, voice, findings, fs);
    fs := fs + RenderAll(voice, findings);
    var analysis;
    analysis, nodes, edges := A.Analyze(kept, streams, connect, words);
    ghost var more := A.Found(nodes, streams, connect(nodes), words);
    ReportedOnly(more);
    r.Append(analysis, fs);
    r.Finalize(fs + analysis.errors + analysis.warnings);
    ReportAbsorbs(fs, more);
    report := Report(r.errors, r.warnings, r.status);
  }

  // ------------------------------------------------------------------------- what it means

  lemma JudgeFindsErrors(kind: V.FindingKind)
    ensures A.SeverityOf(TypeOf(kind), None) == Error && A.SeverityOf("config_invalid", None) == Error
  {
    var mild := ["disconnected_node", "missing_interface", "empty_composition"];
    assert |"exclusive_resource_conflict"| == 27 && forall i :: 0 <= i < |mild| ==> |mild[i]| == 17;
    assert forall i :: 0 <= i < |mild| ==> mild[i][0] in {'d', 'm', 'e'};
    assert "component_config_invalid"[0] == 'c' && "unknown_component"[0] == 'u' && "component_type_mismatch"[0] == 'c';
    assert "port_declaration_error"[0] == 'p' && "config_invalid"[0] == 'c' && "orphaned_port"[0] == 'o';
    assert "exclusive_resource_conflict"[0] == 'e';
  }

  /** The accepted declarations' analysis reports an error. */
  ghost predicate GraphFaulty(nodes: seq<Declaration>, streams: map<string, seq<string>>, flow: A.Flow)
  {
    nodes != [] && (flow.Unconnectable? || A.Faulty(nodes, streams, flow))
  }

  lemma FoundErrorsIff(
    nodes: seq<Declaration>, streams: map<string, seq<string>>, flow: A.Flow, words: A.Wording)
    ensures (exists f :: f in A.Found(nodes, streams, flow, words) && f.severity == Error) <==>
      GraphFaulty(nodes, streams, flow)
  {
    var fs := A.Found(nodes, streams, flow, words);
    StatusMeaning(fs);
    if nodes == [] {
      assert fs[0].severity == Warning;
    } else if flow.Unconnectable? {
      UnconnectableIsError();
      assert fs[0] in fs;
    } else {
      A.RefusedIffFaulty(nodes, streams, flow, words);
    }
  }

  lemma UnconnectableIsError()
    ensures A.SeverityOf("connection_pattern_error", None) == Error
  {
    var mild := ["disconnected_node", "missing_interface", "empty_composition"];
    assert forall i :: 0 <= i < |mild| ==> mild[i][0] in {'d', 'm', 'e'};
    assert "connection_pattern_error"[0] == 'c' && "orphaned_port"[0] == 'o';
  }

  lemma ErrorShows(fs: seq<Finding>, i: nat)
    requires i < |fs| && fs[i].severity == Error
    ensures ReportOf(fs).status == HasErrors
  {
    StatusMeaning(fs);
  }

  lemma VerdictErrorsIff(
    voice: Voice, words: A.Wording, fault: Option<string>, judged: seq<V.Finding>, nodes: seq<Declaration>,
    streams: map<string, seq<string>>, flow: A.Flow)
    ensures ReportOf(Verdict(voice, words, fault, judged, nodes, streams, flow)).status == HasErrors <==>
      fault.Some? || judged != [] || GraphFaulty(nodes, streams, flow)
  {
    var gate, js, more := Gate(voice, fault), RenderAll(voice, judged), A.Found(nodes, streams, flow, words);
    var all := gate + js + more;
    StatusMeaning(more);
    FoundErrorsIff(nodes, streams, flow, words);
    JudgeFindsErrors(V.UnknownComponent);
    if fault.Some? {
      assert all[0] == gate[0];
      ErrorShows(all, 0);
    } else if judged != [] {
      JudgeFindsErrors(judged[0].kind);
      assert all[|gate|] == js[0];
      ErrorShows(all, |gate|);
    } else {
      assert all == more;
    }
  }

  // ------------------------------------------------------- what the judge's findings mean

  lemma {:induction false} DeclaredNames(
    env: Env, factories: Table, components: map<string, Entry>, names: seq<string>, n: string)
    requires (forall i :: 0 <= i < |names| ==> names[i] in components) && n in components
    ensures n in V.AcceptedNames(V.Declared(env, factories, components, names)) <==>
      n in names && components[n].enabled && V.DeclareInstance(env, factories, n, components[n]).Ok?
  {
    if names != [] {
      var front, name := names[..|names| - 1], names[|names| - 1];
      DeclaredNames(env, factories, components, front, n);
      assert names == front + [name];
      var one := V.DeclareInstance(env, factories, name, components[name]);
      V.DeclareInstanceExact(env, factories, name, components[name]);
      if components[name].enabled && one.Ok? {
        V.AcceptedSnoc(V.Declared(env, factories, components, front), one.value);
      }
    }
  }

  /** Some enabled component is refused on its own. */
  ghost predicate SomeRefused(env: Env, factories: Table, components: map<string, Entry>)
  {
    exists n :: n in components && components[n].enabled && V.DeclareInstance(env, factories, n, components[n]).Err?
  }

  lemma FoundNone(judged: seq<V.Finding>)
    ensures judged == [] <==> V.FoundNames(judged) == {}
  {
    assert judged != [] ==> judged[0].component in V.FoundNames(judged);
  }

  lemma EnabledIn(components: map<string, Entry>, n: string)
    ensures n in V.EnabledNames(components, V.JudgeOrder(components)) <==> n in components && components[n].enabled
  {
    var names := V.JudgeOrder(components);
    assert n in components ==> n in Elements(names);
  }

  /** The judge finds nothing exactly when every enabled component is declared and no two share a resource. */
  lemma JudgeSilentIff(
    env: Env, factories: Table, components: map<string, Entry>, accepted: seq<Declaration>, judged: seq<V.Finding>)
    requires var names := V.JudgeOrder(components);
      V.Judged(env, factories, components, names, V.Declared(env, factories, components, names), accepted, judged)
    ensures judged == [] <==>
      && !SomeRefused(env, factories, components)
      && V.PairwiseDisjoint(V.Declared(env, factories, components, V.JudgeOrder(components)))
  {
    var names := V.JudgeOrder(components);
    var ds := V.Declared(env, factories, components, names);
    V.AllKeptIffDisjoint(ds);
    FoundNone(judged);
    forall n | n in components
      ensures n in V.AcceptedNames(ds) <==>
        components[n].enabled && V.DeclareInstance(env, factories, n, components[n]).Ok?
    {
      DeclaredNames(env, factories, components, names, n);
      assert n in Elements(names);
    }
    forall n ensures n in V.EnabledNames(components, names) <==> n in components && components[n].enabled {
      EnabledIn(components, n);
    }
    if judged == [] {
      assert V.AcceptedNames(accepted) == V.EnabledNames(components, names);
    }
    if V.Kept(ds) == ds && !SomeRefused(env, factories, components) {
      assert V.EnabledNames(components, names) <= V.AcceptedNames(ds);
    }
  }

  /**
    Validate's status is "errors" exactly when the configuration is refused, an enabled component is
    refused on its own, two declared components share an exclusive resource, or what remains does
    not connect or is faulty as a graph.
   */
  lemma ValidateErrorsIff(
    env: Env, factories: Table, components: map<string, Entry>, fault: Option<string>,
    streams: map<string, seq<string>>, flow: A.Flow, voice: Voice, words: A.Wording,
    accepted: seq<Declaration>, judged: seq<V.Finding>)
    requires var names := V.JudgeOrder(components);
      V.Judged(env, factories, components, names, V.Declared(env, factories, components, names), accepted, judged)
    ensures var nodes := StableSort(accepted, A.ByInstance);
      ReportOf(Verdict(voice, words, fault, judged, nodes, streams, flow)).status == HasErrors <==>
        || fault.Some?
        || SomeRefused(env, factories, components)
        || !V.PairwiseDisjoint(V.Declared(env, factories, components, V.JudgeOrder(components)))
        || GraphFaulty(nodes, streams, flow)
  {
    VerdictErrorsIff(voice, words, fault, judged, StableSort(accepted, A.ByInstance), streams, flow);
    JudgeSilentIff(env, factories, components, accepted, judged);
  }

  /**
    The report's keys and status do not depend on the order the flow graph walks its maps in, and
    the report as a whole does not when no two different findings of one severity share all keys.
   */
  lemma ValidateCanonical(
    voice: Voice, words: A.Wording, fault: Option<string>, judged: seq<V.Finding>, nodes: seq<Declaration>,
    streams: map<string, seq<string>>, first: A.Flow, second: A.Flow)
    requires A.SameFlow(first, second)
    ensures var r := ReportOf(Verdict(voice, words, fault, judged, nodes, streams, first));
      var t := ReportOf(Verdict(voice, words, fault, judged, nodes, streams, second));
      && Keys(r.errors, FindingKey) == Keys(t.errors, FindingKey)
      && Keys(r.warnings, FindingKey) == Keys(t.warnings, FindingKey)
      && r.status == t.status
      && (Telling(Verdict(voice, words, fault, judged, nodes, streams, first)) ==> r == t)
  {
    var a := Verdict(voice, words, fault, judged, nodes, streams, first);
    var b := Verdict(voice, words, fault, judged, nodes, streams, second);
    A.FoundPermutes(nodes, streams, first, second, words);
    ReportCanonical(a, b);
    if Telling(a) { ReportDetermined(a, b); }
  }

  /**
    A composition that validates without errors boots: if every enabled component prepares, each
    interleaving that offers every one of them once before the seal admits them all.
   */
  lemma CleanVerdictBoots(
    env: Env, factories: Table, components: map<string, Entry>, fault: Option<string>,
    streams: map<string, seq<string>>, flow: A.Flow, voice: Voice, words: A.Wording,
    accepted: seq<Declaration>, judged: seq<V.Finding>,
    client: bool, built: string -> Built, steps: seq<RegistryProtocol.Step>)
    requires Settles(env.resolve) && (fault.None? ==> V.EntriesValid(components))
    requires forall n :: n in components && components[n].enabled ==>
      Prepare(env, factories, n, components[n], client, built(n)).Ok?
    requires var names := V.JudgeOrder(components);
      && V.Judged(env, factories, components, names, V.Declared(env, factories, components, names), accepted, judged)
      && multiset(RegistryProtocol.Attempts(env, RegistryProtocol.Boot, steps))
         == multiset(V.Constructed(env, factories, components, names, client, built))
    requires ReportOf(Verdict(voice, words, fault, judged, StableSort(accepted, A.ByInstance), streams, flow)).status
             != HasErrors
    ensures V.AllAdmitted(RegistryProtocol.Run(env, RegistryProtocol.Boot, steps).declarations,
                          V.Constructed(env, factories, components, V.JudgeOrder(components), client, built))
  {
    VerdictErrorsIff(voice, words, fault, judged, StableSort(accepted, A.ByInstance), streams, flow);
    V.VerdictDecidesBoot(env, factories, components, client, built, accepted, judged, steps);
  }
}
