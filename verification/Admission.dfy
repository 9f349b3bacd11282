/**
  Preparing and declaring one component (prepareComponent, Declare, declare, captureComponentDeclaration
  and the parity check in component/registry.go).

  A factory call and its dependencies are outside the model: what the call returned is the
  parameter `built`. A port declarer is the pure function its contract says it is.
 */
module Admission {
  import opened Outcome
  import opened Text
  import opened PortGrammar
  import opened PortResolver
  import opened Exclusive

  datatype PortConfig = PortConfig(inputs: seq<Definition>, outputs: seq<Definition>)

  datatype Registration = Registration(typ: string, ports: (string, string) -> Option<PortConfig>)

  datatype Entry = Entry(enabled: bool, typ: string, name: string, raw: string)

  /** What running a factory produced. */
  datatype Built = FactoryFailed | NilComponent | Component(inputs: seq<Port>, outputs: seq<Port>)

  datatype Declaration = Declaration(
    instance: string, factory: string, typ: string, inputs: seq<Port>, outputs: seq<Port>,
    inputFacts: seq<Facts>, outputFacts: seq<Facts>, exclusive: seq<string>)

  datatype AdmitError =
    | BadInstanceName | Disabled | NoType | BadFactoryName | NoClient | UnsafeConfig | UnknownFactory
    | TypeMismatch | FactoryError | NoComponent | CaptureError | DeclarerError | ParityError

  /** The resolver and ValidateFactoryConfig, the two checks the registry calls out to. */
  datatype Env = Env(resolve: Resolver, safe: string -> bool)

  // -------------------------------------------------------------------------- resolving

  type Ask = (Definition, Direction)

  /** Every ask resolves, or the whole list does not. */
  function ResolveAll(resolve: Resolver, asks: seq<Ask>): (r: Option<(seq<Port>, seq<Facts>)>)
    ensures r.Some? <==> forall i :: 0 <= i < |asks| ==> resolve(asks[i].0, asks[i].1).Ok?
    ensures r.Some? ==> |r.value.0| == |asks| && |r.value.1| == |asks|
    ensures r.Some? ==> forall i :: 0 <= i < |asks| ==>
              resolve(asks[i].0, asks[i].1) == Ok((r.value.0[i], r.value.1[i]))
  {
    if asks == [] then Some(([], []))
    else
      var head := resolve(asks[0].0, asks[0].1);
      var tail := ResolveAll(resolve, asks[1..]);
      if head.Err? || tail.None? then None
      else
        assert asks == [asks[0]] + asks[1..];
        Some(([head.value.0] + tail.value.0, [head.value.1] + tail.value.1))
  }

  /** The loop of resolveDefinitions and of cloneAndProjectPorts. */
  method ResolveEach(resolve: Resolver, asks: seq<Ask>) returns (r: Option<(seq<Port>, seq<Facts>)>)
    ensures r == ResolveAll(resolve, asks)
  {
    var ports, facts := [], [];
    for i := 0 to |asks|
      invariant |ports| == |facts| == i
      invariant forall k :: 0 <= k < i ==> resolve(asks[k].0, asks[k].1) == Ok((ports[k], facts[k]))
    {
      var one := resolve(asks[i].0, asks[i].1);
      if one.Err? { return None; }
      ports, facts := ports + [one.value.0], facts + [one.value.1];
    }
    ghost var all := ResolveAll(resolve, asks).value;
    assert forall k :: 0 <= k < |asks| ==> ports[k] == all.0[k] && facts[k] == all.1[k];
    assert ports == all.0 && facts == all.1;
    r := Some((ports, facts));
  }

  function Lane(defs: seq<Definition>, d: Direction): seq<Ask>
  {
    seq(|defs|, i requires 0 <= i < |defs| => (defs[i], d))
  }

  function Again(ports: seq<Port>): seq<Ask>
  {
    seq(|ports|, i requires 0 <= i < |ports| => (DefinitionOf(ports[i]), ports[i].direction))
  }

  function Assemble(instance: string, entry: Entry, i: (seq<Port>, seq<Facts>), o: (seq<Port>, seq<Facts>)): Declaration
  {
    Declaration(instance, entry.name, entry.typ, i.0, o.0, i.1, o.1, ExclusiveResources(i.1, o.1))
  }

  /** captureComponentDeclaration: each reported port re-resolved in its own direction. */
  function Capture(env: Env, instance: string, entry: Entry, inputs: seq<Port>, outputs: seq<Port>): Option<Declaration>
  {
    var i :- ResolveAll(env.resolve, Again(inputs));
    var o :- ResolveAll(env.resolve, Again(outputs));
    Some(Assemble(instance, entry, i, o))
  }

  /** declare: the declarer's definitions resolved lane by lane. */
  function DeclarePorts(env: Env, reg: Registration, instance: string, entry: Entry): Option<Declaration>
  {
    var ports :- reg.ports(entry.raw, instance);
    var i :- ResolveAll(env.resolve, Lane(ports.inputs, Input));
    var o :- ResolveAll(env.resolve, Lane(ports.outputs, Output));
    Some(Assemble(instance, entry, i, o))
  }

  // ----------------------------------------------------------------------------- parity

  /** portDifference finds nothing. */
  predicate SamePort(p: Port, f: Facts, q: Port, g: Facts)
  {
    && p.name == q.name && p.direction == q.direction && p.required == q.required && p.external == q.external
    && f.kind == g.kind && f.resourceID == g.resourceID && f.natsSubjects == g.natsSubjects
    && f.contract == g.contract
  }

  /** comparePortLane finds nothing. */
  predicate SameLane(ps: seq<Port>, fs: seq<Facts>, qs: seq<Port>, gs: seq<Facts>)
    requires |ps| == |fs| && |qs| == |gs|
  {
    |ps| == |qs| && forall i :: 0 <= i < |ps| ==> SamePort(ps[i], fs[i], qs[i], gs[i])
  }

  predicate Shaped(d: Declaration)
  {
    |d.inputs| == |d.inputFacts| && |d.outputs| == |d.outputFacts|
  }

  /** comparePortDeclarations finds nothing. */
  predicate Parity(declared: Declaration, constructed: Declaration)
    requires Shaped(declared) && Shaped(constructed)
  {
    && SameLane(declared.inputs, declared.inputFacts, constructed.inputs, constructed.inputFacts)
    && SameLane(declared.outputs, declared.outputFacts, constructed.outputs, constructed.outputFacts)
  }

  // ----------------------------------------------------------------- prepare and declare

  const MAX_NAME := 1024

  /** ValidateComponentName. */
  predicate ValidName(s: string)
  {
    s != "" && |s| <= MAX_NAME && forall i :: 0 <= i < |s| ==>
      'a' <= s[i] <= 'z' || 'A' <= s[i] <= 'Z' || '0' <= s[i] <= '9' || s[i] in "-_."
  }

  /** prepareComponent, given the factory table at lookup time and what the factory built. */
  function Prepare(
    env: Env, factories: map<string, Registration>, instance: string, entry: Entry, client: bool, built: Built)
    : (r: Result<Declaration, AdmitError>)
  {
    if !ValidName(instance) then Err(BadInstanceName)
    else if !entry.enabled then Err(Disabled)
    else if entry.typ == "" then Err(NoType)
    else if !ValidName(entry.name) then Err(BadFactoryName)
    else if !client then Err(NoClient)
    else if !env.safe(entry.raw) then Err(UnsafeConfig)
    else if entry.name !in factories then Err(UnknownFactory)
    else
      var reg := factories[entry.name];
      if reg.typ != entry.typ then Err(TypeMismatch)
      else if built.FactoryFailed? then Err(FactoryError)
      else if built.NilComponent? then Err(NoComponent)
      else
        var captured := Capture(env, instance, entry, built.inputs, built.outputs);
        if captured.None? then Err(CaptureError)
        else
          var declared := DeclarePorts(env, reg, instance, entry);
          if declared.None? then Err(DeclarerError)
          else if !Parity(declared.value, captured.value) then Err(ParityError)
          else Ok(captured.value)
  }

  /** Registry.Declare. */
  function Declare(env: Env, factories: map<string, Registration>, instance: string, entry: Entry)
    : (r: Result<Declaration, AdmitError>)
  {
    if !ValidName(instance) then Err(BadInstanceName)
    else if entry.typ == "" then Err(NoType)
    else if !ValidName(entry.name) then Err(BadFactoryName)
    else if !env.safe(entry.raw) then Err(UnsafeConfig)
    else if entry.name !in factories then Err(UnknownFactory)
    else
      var reg := factories[entry.name];
      if reg.typ != entry.typ then Err(TypeMismatch)
      else
        var declared := DeclarePorts(env, reg, instance, entry);
        if declared.None? then Err(DeclarerError) else Ok(declared.value)
  }

  // ------------------------------------------------------------------ what parity settles

  lemma PrefixCancel(p: string, a: string, b: string)
    requires p + a == p + b
    ensures a == b
  {
    assert (p + a)[|p|..] == a && (p + b)[|p|..] == b;
  }

  /** Equal http-client resources name the same URL exactly when they name the same method. */
  lemma HttpResource(m: string, u: string, n: string, v: string)
    requires "http-client:" + m + ":" + u == "http-client:" + n + ":" + v
    ensures u == v <==> m == n
    ensures ':' !in m && ':' !in n ==> u == v
  {
    var x, y := m + ":" + u, n + ":" + v;
    assert "http-client:" + m + ":" + u == "http-client:" + x;
    assert "http-client:" + n + ":" + v == "http-client:" + y;
    PrefixCancel("http-client:", x, y);
    assert x[|m|] == ':' && y[|n|] == ':';
    assert |m| < |n| ==> y[|m|] == n[|m|];
    assert |n| < |m| ==> x[|n|] == m[|n|];
    assert |x| == |m| + 1 + |u| && |y| == |n| + 1 + |v|;
    assert x[..|m|] == m && y[..|n|] == n;
    assert x[|m| + 1..] == u && y[|n| + 1..] == v;
  }

  /** The JetStream half: one side may name the stream, the other may leave it to its first subject. */
  lemma StreamResource(name: string, other: string, subjects: seq<string>)
    requires subjects != []
    requires "jetstream:" + (if name != "" then name else subjects[0])
             == "jetstream:" + (if other != "" then other else subjects[0])
    ensures Elements(StreamConnections(name, subjects)) == Elements(StreamConnections(other, subjects))
  {
    PrefixCancel("jetstream:", if name != "" then name else subjects[0], if other != "" then other else subjects[0]);
    forall s ensures s in StreamConnections(name, subjects) <==> s in StreamConnections(other, subjects) {
      NonEmptyMembers(subjects, s);
      assert subjects[0] in subjects;
    }
  }

  predicate SameConnections(f: Facts, g: Facts)
  {
    Elements(f.connectionIDs) == Elements(g.connectionIDs)
  }

  predicate StreamSubjects(c: Config)
  {
    c.JetStream? ==> c.subjects != []
  }

  lemma ParityConnections(c: Config, e: Config)
    requires StreamSubjects(c) && StreamSubjects(e)
    requires c.Kind() == e.Kind() && c.ResourceID() == e.ResourceID()
    requires Project(c).natsSubjects == Project(e).natsSubjects
    ensures !c.HttpClient? ==> SameConnections(Project(c), Project(e))
    ensures c.HttpClient? ==> (SameConnections(Project(c), Project(e)) <==> c.httpMethod == e.httpMethod)
    ensures c.HttpClient? && ':' !in c.httpMethod && ':' !in e.httpMethod ==> SameConnections(Project(c), Project(e))
  {
    match c
    case File(path, _) => PrefixCancel("file:", path, e.path);
    case HttpClient(verb, url, _, _, _, _) =>
      HttpResource(verb, url, e.httpMethod, e.urlPattern);
      assert Connections(c) == [url] && Connections(e) == [e.urlPattern];
      assert Elements([url]) == {url} && Elements([e.urlPattern]) == {e.urlPattern};
    case JetStream(name, subjects, _, _, _, _, _, _, _, _, _, _, _, _, _, _) =>
      StreamResource(name, e.streamName, subjects);
    case StoreProvide(instance) => PrefixCancel("store-provide:", instance, e.instance);
    case Nats(subject, _, _) => assert [subject] == [e.subject];
    case NatsRequest(subject, _, _, _) => assert [subject] == [e.subject];
    case _ =>
  }

  /** What parity settles beyond what it compares: exclusivity and the set of connection identifiers. */
  ghost predicate PortsAgree(p: Port, f: Facts, q: Port, g: Facts)
  {
    && p.config.Some? && q.config.Some?
    && f.exclusive == g.exclusive && f.resourceID == g.resourceID
    && (p.config.value.HttpClient? <==> q.config.value.HttpClient?)
    && (if !p.config.value.HttpClient? then SameConnections(f, g)
        else
          var m, n := p.config.value.httpMethod, q.config.value.httpMethod;
          && (SameConnections(f, g) <==> m == n)
          && (':' !in m && ':' !in n ==> SameConnections(f, g)))
  }

  ghost predicate Agree(ps: seq<Port>, fs: seq<Facts>, qs: seq<Port>, gs: seq<Facts>)
  {
    |ps| == |fs| == |qs| == |gs| && forall i :: 0 <= i < |ps| ==> PortsAgree(ps[i], fs[i], qs[i], gs[i])
  }

  lemma PortParity(resolve: Resolver, a: Ask, b: Ask, p: Port, f: Facts, q: Port, g: Facts)
    requires Settles(resolve)
    requires resolve(a.0, a.1) == Ok((p, f)) && resolve(b.0, b.1) == Ok((q, g)) && SamePort(p, f, q, g)
    ensures PortsAgree(p, f, q, g)
  {
    assert p.config.Some? && f == Project(p.config.value) && StreamSubjects(p.config.value);
    assert q.config.Some? && g == Project(q.config.value) && StreamSubjects(q.config.value);
    var c, e := p.config.value, q.config.value;
    assert c.Kind() == e.Kind();
    ParityConnections(c, e);
  }

  lemma LaneAgrees(
    resolve: Resolver, asksP: seq<Ask>, asksQ: seq<Ask>, ps: seq<Port>, fs: seq<Facts>, qs: seq<Port>, gs: seq<Facts>)
    requires Settles(resolve)
    requires ResolveAll(resolve, asksP) == Some((ps, fs)) && ResolveAll(resolve, asksQ) == Some((qs, gs))
    requires SameLane(ps, fs, qs, gs)
    ensures Agree(ps, fs, qs, gs)
  {
    forall i | 0 <= i < |ps| ensures PortsAgree(ps[i], fs[i], qs[i], gs[i]) {
      PortParity(resolve, asksP[i], asksQ[i], ps[i], fs[i], qs[i], gs[i]);
    }
  }

  lemma AgreeingClaims(
    ps: seq<Port>, fs: seq<Facts>, qs: seq<Port>, gs: seq<Facts>,
    ps': seq<Port>, fs': seq<Facts>, qs': seq<Port>, gs': seq<Facts>)
    requires Agree(ps, fs, qs, gs) && Agree(ps', fs', qs', gs')
    ensures ExclusiveResources(fs, fs') == ExclusiveResources(gs, gs')
  {
    var a, b := fs + fs', gs + gs';
    forall i | 0 <= i < |a| ensures a[i].exclusive == b[i].exclusive && a[i].resourceID == b[i].resourceID {
      if i < |fs| {
        assert PortsAgree(ps[i], fs[i], qs[i], gs[i]);
      } else {
        assert PortsAgree(ps'[i - |fs|], fs'[i - |fs|], qs'[i - |fs|], gs'[i - |fs|]);
      }
    }
    SameClaims(a, b);
  }

  /**
    Boot admission implies the offline declaration: whenever a component prepares, Declare on the
    same instance succeeds, claims the same exclusive resources, and has port by port the same
    exclusivity and the same connection identifiers. The only exception is an http-client port whose
    declared and constructed methods differ, which needs a method containing ':'.
   */
  lemma PreparedIsDeclared(
    env: Env, factories: map<string, Registration>, instance: string, entry: Entry, client: bool, built: Built)
    requires Settles(env.resolve)
    requires Prepare(env, factories, instance, entry, client, built).Ok?
    ensures Declare(env, factories, instance, entry).Ok?
    ensures var made := Prepare(env, factories, instance, entry, client, built).value;
      var declared := Declare(env, factories, instance, entry).value;
      && declared.instance == made.instance == instance
      && declared.exclusive == made.exclusive
      && Agree(declared.inputs, declared.inputFacts, made.inputs, made.inputFacts)
      && Agree(declared.outputs, declared.outputFacts, made.outputs, made.outputFacts)
  {
    var made := Prepare(env, factories, instance, entry, client, built).value;
    var reg := factories[entry.name];
    var declared := DeclarePorts(env, reg, instance, entry).value;
    var ports := reg.ports(entry.raw, instance).value;
    LaneAgrees(env.resolve, Lane(ports.inputs, Input), Again(built.inputs),
               declared.inputs, declared.inputFacts, made.inputs, made.inputFacts);
    LaneAgrees(env.resolve, Lane(ports.outputs, Output), Again(built.outputs),
               declared.outputs, declared.outputFacts, made.outputs, made.outputFacts);
    AgreeingClaims(declared.inputs, declared.inputFacts, made.inputs, made.inputFacts,
                   declared.outputs, declared.outputFacts, made.outputs, made.outputFacts);
  }

  /** The exception is real: "a:b" with "c" and "a" with "b:c" are one resource and two URLs. */
  lemma AmbiguousHttpResource()
    ensures var c := HttpClient("a:b", "c", "", "", "", None); var e := HttpClient("a", "b:c", "", "", "", None);
      && c.Kind() == e.Kind() && c.ResourceID() == e.ResourceID()
      && Project(c).natsSubjects == Project(e).natsSubjects
      && !SameConnections(Project(c), Project(e))
  {
    assert "http-client:" + "a:b" + ":" + "c" == "http-client:" + "a" + ":" + "b:c";
    assert "c" in Elements(["c"]) && "c" !in Elements(["b:c"]) by { assert |"c"| != |"b:c"|; }
  }

  // ---------------------------------------------------------- what admission retains

  /** Every retained port is its own resolution, and the facts and resources are its own. */
  ghost predicate Retained(resolve: Resolver, d: Declaration)
  {
    && Shaped(d)
    && (forall i :: 0 <= i < |d.inputs| ==>
          resolve(DefinitionOf(d.inputs[i]), d.inputs[i].direction) == Ok((d.inputs[i], d.inputFacts[i])))
    && (forall i :: 0 <= i < |d.outputs| ==>
          resolve(DefinitionOf(d.outputs[i]), d.outputs[i].direction) == Ok((d.outputs[i], d.outputFacts[i])))
    && d.exclusive == ExclusiveResources(d.inputFacts, d.outputFacts)
  }

  lemma PreparedIsRetained(
    env: Env, factories: map<string, Registration>, instance: string, entry: Entry, client: bool, built: Built)
    requires Settles(env.resolve)
    requires Prepare(env, factories, instance, entry, client, built).Ok?
    ensures Prepare(env, factories, instance, entry, client, built).value.instance == instance
    ensures Retained(env.resolve, Prepare(env, factories, instance, entry, client, built).value)
  {
    var made := Prepare(env, factories, instance, entry, client, built).value;
    var ins, outs := Again(built.inputs), Again(built.outputs);
    forall i | 0 <= i < |made.inputs|
      ensures env.resolve(DefinitionOf(made.inputs[i]), made.inputs[i].direction) ==
        Ok((made.inputs[i], made.inputFacts[i]))
    {
      assert env.resolve(ins[i].0, ins[i].1) == Ok((made.inputs[i], made.inputFacts[i]));
    }
    forall i | 0 <= i < |made.outputs|
      ensures env.resolve(DefinitionOf(made.outputs[i]), made.outputs[i].direction) ==
        Ok((made.outputs[i], made.outputFacts[i]))
    {
      assert env.resolve(outs[i].0, outs[i].1) == Ok((made.outputs[i], made.outputFacts[i]));
    }
  }

  /** cloneResolvedPorts; None is its panic. */
  function CloneResolvedPorts(resolve: Resolver, ports: seq<Port>): Option<seq<Port>>
  {
    var all :- ResolveAll(resolve, Again(ports));
    Some(all.0)
  }

  /** cloneComponentDeclaration. */
  function CloneDeclaration(resolve: Resolver, d: Declaration): Option<Declaration>
  {
    var inputs :- CloneResolvedPorts(resolve, d.inputs);
    var outputs :- CloneResolvedPorts(resolve, d.outputs);
    Some(d.(inputs := inputs, outputs := outputs))
  }

  /** Cloning what admission retains never panics and changes nothing. */
  lemma RetainedClones(resolve: Resolver, d: Declaration)
    requires Retained(resolve, d)
    ensures CloneDeclaration(resolve, d) == Some(d)
  {
    var ins, outs := ResolveAll(resolve, Again(d.inputs)), ResolveAll(resolve, Again(d.outputs));
    assert ins.Some? && outs.Some?;
    assert forall i :: 0 <= i < |d.inputs| ==> ins.value.0[i] == d.inputs[i];
    assert forall i :: 0 <= i < |d.outputs| ==> outs.value.0[i] == d.outputs[i];
    assert ins.value.0 == d.inputs && outs.value.0 == d.outputs;
  }
}
