/**
  The stream bounds planner (config/stream_bounds.go): which ordinary streams a configuration
  provisions, where each declaration comes from, and which of them are admitted at a given time.

  Instants are nanoseconds. The framework constants, the ordinary-name guard, port extraction,
  stream-name derivation and the three library parsers are parameters.
 */
module StreamBounds {
  import opened Outcome
  import opened Text
  import opened Sorting
  import opened PortGrammar
  import opened PortResolver

  datatype StreamConfig = StreamConfig(
    subjects: seq<string>, storage: string, maxAge: string, maxBytes: int, retention: string,
    replicas: int, discard: string, duplicates: string)

  datatype FrameworkStream = FrameworkStream(cfg: StreamConfig, fixed: bool)
  datatype Component = Component(enabled: bool, raw: string)
  datatype Override = Override(owner: string, expires: string, reason: string)
  datatype Archival = Archival(owner: string, reason: string)

  datatype Config = Config(
    streams: map<string, StreamConfig>, components: map<string, Component>,
    archival: map<string, Archival>, overrides: map<string, Override>)

  datatype Env = Env(
    framework: map<string, FrameworkStream>,
    ordinary: string -> bool,
    outputs: string -> Option<seq<Definition>>,
    resolve: Resolver,
    deriveName: string -> string,
    parseDuration: string -> Option<int>,
    parseDate: string -> Option<int>,
    parseStamp: string -> Option<int>)

  datatype PlanError =
    | FixedCollision(stream: string) | NotOrdinary(stream: string)
    | BadPorts(component: string) | BadPort(component: string, port: string)
    | ArchivalInvalid(stream: string) | OverrideInvalid(stream: string) | OverrideExpired(stream: string)
    | BoundsUndeclared(streams: seq<string>)

  // ------------------------------------------------------------- one port, one stream

  /** The pair a diagnostic names. */
  datatype Attribution = Attribution(component: string, port: string)

  /** A stream derived from one output port. */
  datatype Derived = Derived(from: Attribution, stream: string, cfg: StreamConfig)

  const MAX_SIZE_GB := 8_589_934_591
  const BYTES_PER_GIB := 1_073_741_824

  /** streamConfigFromFacts. */
  function ConfigFromFacts(f: StreamFacts): Option<StreamConfig>
  {
    var storage, retention := TrimSpace(f.storage), TrimSpace(f.retentionPolicy);
    if storage != "" && storage != "file" && storage != "memory" then None
    else if retention !in ["", "limits", "interest", "work_queue"] then None
    else if f.retentionDays < 0 || f.retentionDays > 106_751 then None
    else if f.maxSizeGB < 0 || f.maxSizeGB > MAX_SIZE_GB then None
    else if f.replicas < 0 then None
    else Some(StreamConfig(
      f.subjects, storage,
      if f.retentionDays > 0 then Digits(f.retentionDays) + "d" else "",
      if f.maxSizeGB > 0 then f.maxSizeGB * BYTES_PER_GIB else 0,
      if retention == "work_queue" then "workqueue" else retention,
      f.replicas, "", ""))
  }

  /** derivePortStream. */
  function DeriveStream(env: Env, f: StreamFacts): Option<string>
  {
    if f.subjects == [] then None
    else if f.streamName != "" then Some(f.streamName)
    else if env.deriveName(f.subjects[0]) == "" then None
    else Some(env.deriveName(f.subjects[0]))
  }

  predicate IsFixed(env: Env, name: string)
  {
    name in env.framework && env.framework[name].fixed
  }

  /** One turn of the port loop: an error, nothing for a port that is not JetStream, or a stream. */
  function FromPort(env: Env, component: string, def: Definition): Result<Option<Derived>, PlanError>
  {
    var resolved := env.resolve(def, Output);
    if resolved.Err? then Err(BadPort(component, def.name))
    else
      var facts := resolved.value.1;
      if facts.kind != JetStreamKind then Ok(None)
      else if facts.stream.None? then Err(BadPort(component, def.name))
      else
        var name := DeriveStream(env, facts.stream.value);
        var cfg := ConfigFromFacts(facts.stream.value);
        if name.None? || cfg.None? then Err(BadPort(component, def.name))
        else if IsFixed(env, name.value) then Err(FixedCollision(name.value))
        else if !env.ordinary(name.value) then Err(NotOrdinary(name.value))
        else Ok(Some(Derived(Attribution(component, def.name), name.value, cfg.value)))
  }

  /** The port loop of one component. */
  function FromPorts(env: Env, component: string, defs: seq<Definition>): Result<seq<Derived>, PlanError>
  {
    if defs == [] then Ok([])
    else
      var before :- FromPorts(env, component, defs[..|defs| - 1]);
      var one :- FromPort(env, component, defs[|defs| - 1]);
      Ok(if one.None? then before else before + [one.value])
  }

  function FromComponent(env: Env, cfg: Config, name: string): Result<seq<Derived>, PlanError>
    requires name in cfg.components
  {
    if !cfg.components[name].enabled then Ok([])
    else
      var outputs := env.outputs(cfg.components[name].raw);
      if outputs.None? then Err(BadPorts(name)) else FromPorts(env, name, outputs.value)
  }

  /** The streams derived from ports, in component-name order. */
  function FromComponents(env: Env, cfg: Config, names: seq<string>): Result<seq<Derived>, PlanError>
    requires forall i :: 0 <= i < |names| ==> names[i] in cfg.components
  {
    if names == [] then Ok([])
    else
      var before :- FromComponents(env, cfg, names[..|names| - 1]);
      var one :- FromComponent(env, cfg, names[|names| - 1]);
      Ok(before + one)
  }

  function ComponentNames(cfg: Config): (names: seq<string>)
    ensures forall i :: 0 <= i < |names| ==> names[i] in cfg.components
  {
    var names := SortedSet(cfg.components.Keys);
    assert forall i :: 0 <= i < |names| ==> names[i] in Elements(names);
    names
  }

  function PortStreams(env: Env, cfg: Config): Result<seq<Derived>, PlanError>
  {
    FromComponents(env, cfg, ComponentNames(cfg))
  }

  // -------------------------------------------------------- what a plan's entries must be

  datatype ExplicitSource = FrameworkConstant | OperatorEntry

  /** One resolved declaration before exemptions: the config, and who declared it. */
  datatype Resolved = Resolved(cfg: StreamConfig, source: Option<ExplicitSource>, derived: seq<Attribution>)

  datatype Declaration = Declaration(
    name: string, cfg: StreamConfig, source: Option<ExplicitSource>, derived: seq<Attribution>)

  /** No operator entry names a fixed framework stream or a reserved one. */
  predicate OperatorOk(env: Env, cfg: Config)
  {
    forall name :: name in cfg.streams ==> !IsFixed(env, name) && env.ordinary(name)
  }

  predicate Resolves(env: Env, cfg: Config)
  {
    OperatorOk(env, cfg) && PortStreams(env, cfg).Ok?
  }

  function StreamsOf(ds: seq<Derived>): set<string>
  {
    set i | 0 <= i < |ds| :: ds[i].stream
  }

  /** The first port, in order, to derive a stream. */
  function FirstFor(ds: seq<Derived>, name: string): (r: StreamConfig)
    requires name in StreamsOf(ds)
  {
    var front, d := ds[..|ds| - 1], ds[|ds| - 1];
    if name in StreamsOf(front) then FirstFor(front, name)
    else
      assert d.stream == name by { StreamsSnoc(front, d); assert ds == front + [d]; }
      d.cfg
  }

  function AttributionsFor(ds: seq<Derived>, name: string): seq<Attribution>
  {
    if ds == [] then []
    else
      var front, d := ds[..|ds| - 1], ds[|ds| - 1];
      AttributionsFor(front, name) + if d.stream == name then [d.from] else []
  }

  lemma StreamsSnoc(ds: seq<Derived>, d: Derived)
    ensures StreamsOf(ds + [d]) == StreamsOf(ds) + {d.stream}
  {
    var all := ds + [d];
    assert all[|ds|] == d && forall i :: 0 <= i < |ds| ==> all[i] == ds[i];
  }

  /** The order describeSource sorts attributions by. */
  predicate ByComponent(a: Attribution, b: Attribution)
  {
    Before(a.component, b.component) || (a.component == b.component && AtMost(a.port, b.port))
  }

  /** Operator entry over framework constant over first port. */
  function Winner(env: Env, cfg: Config, ds: seq<Derived>, name: string): StreamConfig
    requires name in Declarable(env, cfg, ds)
  {
    if name in cfg.streams then cfg.streams[name]
    else if name in env.framework then env.framework[name].cfg
    else FirstFor(ds, name)
  }

  function Explicit(env: Env, cfg: Config, name: string): Option<ExplicitSource>
  {
    if name in cfg.streams then Some(OperatorEntry)
    else if name in env.framework then Some(FrameworkConstant)
    else None
  }

  function Declarable(env: Env, cfg: Config, ds: seq<Derived>): set<string>
  {
    env.framework.Keys + cfg.streams.Keys + StreamsOf(ds)
  }

  function DeclarationFor(env: Env, cfg: Config, ds: seq<Derived>, name: string): Declaration
    requires name in Declarable(env, cfg, ds)
  {
    Declaration(name, Winner(env, cfg, ds, name), Explicit(env, cfg, name),
                StableSort(AttributionsFor(ds, name), ByComponent))
  }

  /** The specification of resolveStreamDeclarations: one declaration per name, names in order. */
  ghost predicate Resolution(env: Env, cfg: Config, ds: seq<Derived>, out: seq<Declaration>)
  {
    var names := SortedSet(Declarable(env, cfg, ds));
    && |out| == |names|
    && forall i :: 0 <= i < |names| ==>
         names[i] in Declarable(env, cfg, ds) && out[i] == DeclarationFor(env, cfg, ds, names[i])
  }

  // ------------------------------------------------------------------------- the loops

  /** The map the three phases fill. */
  function AddPort(decls: map<string, Resolved>, d: Derived): map<string, Resolved>
  {
    if d.stream in decls
    then decls[d.stream := decls[d.stream].(derived := decls[d.stream].derived + [d.from])]
    else decls[d.stream := Resolved(d.cfg, None, [d.from])]
  }

  /** The map after the explicit phases and the ports in ds. */
  ghost predicate Filled(env: Env, cfg: Config, ds: seq<Derived>, decls: map<string, Resolved>)
  {
    && decls.Keys == Declarable(env, cfg, ds)
    && forall name :: name in decls ==>
         decls[name] == Resolved(Winner(env, cfg, ds, name), Explicit(env, cfg, name), AttributionsFor(ds, name))
  }

  lemma AddPortNames(env: Env, cfg: Config, ds: seq<Derived>, decls: map<string, Resolved>, d: Derived)
    requires decls.Keys == Declarable(env, cfg, ds)
    ensures AddPort(decls, d).Keys == Declarable(env, cfg, ds + [d])
  {
    StreamsSnoc(ds, d);
  }

  lemma AddPortEntry(env: Env, cfg: Config, ds: seq<Derived>, decls: map<string, Resolved>, d: Derived, name: string)
    requires Filled(env, cfg, ds, decls) && name in AddPort(decls, d) && name in Declarable(env, cfg, ds + [d])
    ensures AddPort(decls, d)[name] ==
      Resolved(Winner(env, cfg, ds + [d], name), Explicit(env, cfg, name), AttributionsFor(ds + [d], name))
  {
    var all := ds + [d];
    assert all[..|ds|] == ds && all[|ds|] == d;
    StreamsSnoc(ds, d);
    AttributionsAbsent(ds, name);
  }

  lemma AddPortFills(env: Env, cfg: Config, ds: seq<Derived>, decls: map<string, Resolved>, d: Derived)
    requires Filled(env, cfg, ds, decls)
    ensures Filled(env, cfg, ds + [d], AddPort(decls, d))
  {
    AddPortNames(env, cfg, ds, decls, d);
    forall name | name in AddPort(decls, d)
      ensures AddPort(decls, d)[name] ==
        Resolved(Winner(env, cfg, ds + [d], name), Explicit(env, cfg, name), AttributionsFor(ds + [d], name))
    {
      AddPortEntry(env, cfg, ds, decls, d, name);
    }
  }

  lemma {:induction false} AttributionsAbsent(ds: seq<Derived>, name: string)
    ensures AttributionsFor(ds, name) == [] <==> name !in StreamsOf(ds)
  {
    if ds != [] {
      var front, d := ds[..|ds| - 1], ds[|ds| - 1];
      assert ds == front + [d];
      StreamsSnoc(front, d);
      AttributionsAbsent(front, name);
    }
  }

  /** The map once the operator entries in `done` have been laid over the framework constants. */
  function Overlaid(env: Env, cfg: Config, done: set<string>): map<string, Resolved>
    requires done <= cfg.streams.Keys
  {
    map name | name in env.framework.Keys + done ::
      if name in done then Resolved(cfg.streams[name], Some(OperatorEntry), [])
      else Resolved(env.framework[name].cfg, Some(FrameworkConstant), [])
  }

  lemma OverlayNext(env: Env, cfg: Config, done: set<string>, name: string)
    requires done <= cfg.streams.Keys && name in cfg.streams
    ensures Overlaid(env, cfg, done)[name := Resolved(cfg.streams[name], Some(OperatorEntry), [])]
            == Overlaid(env, cfg, done + {name})
  {
  }

  lemma OverlayFills(env: Env, cfg: Config)
    ensures Filled(env, cfg, [], Overlaid(env, cfg, cfg.streams.Keys))
  {
  }

  /** The map after the operator entries in `done`, none of which was refused. */
  ghost predicate OverlaidOk(env: Env, cfg: Config, done: set<string>, decls: map<string, Resolved>)
  {
    && done <= cfg.streams.Keys && decls == Overlaid(env, cfg, done)
    && forall n :: n in done ==> !IsFixed(env, n) && env.ordinary(n)
  }

  lemma OverlaidOkNext(env: Env, cfg: Config, done: set<string>, decls: map<string, Resolved>, name: string)
    requires OverlaidOk(env, cfg, done, decls) && name in cfg.streams && !IsFixed(env, name) && env.ordinary(name)
    ensures OverlaidOk(env, cfg, done + {name}, decls[name := Resolved(cfg.streams[name], Some(OperatorEntry), [])])
  {
    OverlayNext(env, cfg, done, name);
  }

  lemma OverlaidOkAll(env: Env, cfg: Config, decls: map<string, Resolved>)
    requires OverlaidOk(env, cfg, cfg.streams.Keys, decls)
    ensures OperatorOk(env, cfg) && Filled(env, cfg, [], decls)
  {
    OverlayFills(env, cfg);
  }

  /** Phases one and two: framework constants, then the operator map in name order. */
  method ExplicitPhases(env: Env, cfg: Config) returns (r: Result<map<string, Resolved>, PlanError>)
    ensures r.Ok? <==> OperatorOk(env, cfg)
    ensures r.Ok? ==> Filled(env, cfg, [], r.value)
  {
    var decls := map name | name in env.framework :: Resolved(env.framework[name].cfg, Some(FrameworkConstant), []);
    var names := SortedSet(cfg.streams.Keys);
    for k := 0 to |names|
      invariant OverlaidOk(env, cfg, Elements(names[..k]), decls)
    {
      var name := names[k];
      ElementsTake(names, k);
      if IsFixed(env, name) { return Err(FixedCollision(name)); }
      if !env.ordinary(name) { return Err(NotOrdinary(name)); }
      OverlaidOkNext(env, cfg, Elements(names[..k]), decls, name);
      decls := decls[name := Resolved(cfg.streams[name], Some(OperatorEntry), [])];
    }
    assert names[..|names|] == names;
    OverlaidOkAll(env, cfg, decls);
    r := Ok(decls);
  }

  lemma {:induction false} FromPortsStops(env: Env, component: string, defs: seq<Definition>, k: nat)
    requires k < |defs| && FromPort(env, component, defs[k]).Err?
    ensures FromPorts(env, component, defs).Err?
    decreases |defs|
  {
    if k < |defs| - 1 {
      assert defs[..|defs| - 1][k] == defs[k];
      FromPortsStops(env, component, defs[..|defs| - 1], k);
    }
  }

  lemma FromPortsNext(env: Env, component: string, defs: seq<Definition>, k: nat)
    requires k < |defs| && FromPorts(env, component, defs[..k]).Ok? && FromPort(env, component, defs[k]).Ok?
    ensures FromPorts(env, component, defs[..k + 1]) ==
      var before, one := FromPorts(env, component, defs[..k]).value, FromPort(env, component, defs[k]).value;
      Ok(if one.None? then before else before + [one.value])
  {
    assert defs[..k + 1][..k] == defs[..k];
  }

  /** The map after the ports `defs` of one component, which derive `own`. */
  ghost predicate PortsFilled(
    env: Env, cfg: Config, component: string, defs: seq<Definition>, ds: seq<Derived>, own: seq<Derived>,
    filled: map<string, Resolved>)
  {
    FromPorts(env, component, defs) == Ok(own) && Filled(env, cfg, ds + own, filled)
  }

  lemma PortsFilledNext(
    env: Env, cfg: Config, component: string, defs: seq<Definition>, k: nat, ds: seq<Derived>, own: seq<Derived>,
    filled: map<string, Resolved>, one: Option<Derived>)
    requires k < |defs| && PortsFilled(env, cfg, component, defs[..k], ds, own, filled)
    requires FromPort(env, component, defs[k]) == Ok(one)
    ensures one.None? ==> PortsFilled(env, cfg, component, defs[..k + 1], ds, own, filled)
    ensures one.Some? ==> PortsFilled(env, cfg, component, defs[..k + 1], ds, own + [one.value],
                                      AddPort(filled, one.value))
  {
    FromPortsNext(env, component, defs, k);
    if one.Some? {
      AddPortFills(env, cfg, ds + own, filled, one.value);
      assert ds + own + [one.value] == ds + (own + [one.value]);
    }
  }

  /** The port loop of one component. */
  method AddComponent(
    env: Env, cfg: Config, component: string, defs: seq<Definition>, ghost ds: seq<Derived>,
    decls: map<string, Resolved>)
    returns (r: Result<map<string, Resolved>, PlanError>)
    requires Filled(env, cfg, ds, decls)
    ensures r.Ok? <==> FromPorts(env, component, defs).Ok?
    ensures r.Ok? ==> Filled(env, cfg, ds + FromPorts(env, component, defs).value, r.value)
  {
    var filled := decls;
    ghost var own: seq<Derived> := [];
    assert ds + own == ds;
    for k := 0 to |defs|
      invariant PortsFilled(env, cfg, component, defs[..k], ds, own, filled)
    {
      var one := FromPort(env, component, defs[k]);
      if one.Err? {
        FromPortsStops(env, component, defs, k);
        return Err(one.error);
      }
      PortsFilledNext(env, cfg, component, defs, k, ds, own, filled, one.value);
      if one.value.Some? {
        filled := AddPort(filled, one.value.value);
        own := own + [one.value.value];
      }
    }
    assert defs[..|defs|] == defs;
    r := Ok(filled);
  }

  /** The body of the component loop. */
  method AddIfEnabled(env: Env, cfg: Config, name: string, ghost ds: seq<Derived>, decls: map<string, Resolved>)
    returns (r: Result<map<string, Resolved>, PlanError>)
    requires name in cfg.components && Filled(env, cfg, ds, decls)
    ensures r.Ok? <==> FromComponent(env, cfg, name).Ok?
    ensures r.Ok? ==> Filled(env, cfg, ds + FromComponent(env, cfg, name).value, r.value)
  {
    var component := cfg.components[name];
    if !component.enabled {
      assert ds + [] == ds;
      return Ok(decls);
    }
    var outputs := env.outputs(component.raw);
    if outputs.None? {
      return Err(BadPorts(name));
    }
    r := AddComponent(env, cfg, name, outputs.value, ds, decls);
  }

  lemma {:induction false} FromComponentsStops(env: Env, cfg: Config, names: seq<string>, k: nat)
    requires (forall i :: 0 <= i < |names| ==> names[i] in cfg.components) && k < |names|
    requires FromComponent(env, cfg, names[k]).Err?
    ensures FromComponents(env, cfg, names).Err?
    decreases |names|
  {
    if k < |names| - 1 { FromComponentsStops(env, cfg, names[..|names| - 1], k); }
  }

  lemma FromComponentsNext(env: Env, cfg: Config, names: seq<string>, k: nat)
    requires (forall i :: 0 <= i < |names| ==> names[i] in cfg.components) && k < |names|
    requires FromComponents(env, cfg, names[..k]).Ok? && FromComponent(env, cfg, names[k]).Ok?
    ensures FromComponents(env, cfg, names[..k + 1]) ==
      Ok(FromComponents(env, cfg, names[..k]).value + FromComponent(env, cfg, names[k]).value)
  {
    assert names[..k + 1][..k] == names[..k];
  }

  /** Phase three: the component loop. */
  method AddComponents(env: Env, cfg: Config, names: seq<string>, decls: map<string, Resolved>)
    returns (r: Result<map<string, Resolved>, PlanError>)
    requires forall i :: 0 <= i < |names| ==> names[i] in cfg.components
    requires Filled(env, cfg, [], decls)
    ensures r.Ok? <==> FromComponents(env, cfg, names).Ok?
    ensures r.Ok? ==> Filled(env, cfg, FromComponents(env, cfg, names).value, r.value)
  {
    var filled := decls;
    ghost var ds: seq<Derived> := [];
    var k := 0;
    while k < |names|
      invariant 0 <= k <= |names|
      invariant FromComponents(env, cfg, names[..k]) == Ok(ds)
      invariant Filled(env, cfg, ds, filled)
    {
      var next := AddIfEnabled(env, cfg, names[k], ds, filled);
      if next.Err? {
        FromComponentsStops(env, cfg, names, k);
        return next;
      }
      FromComponentsNext(env, cfg, names, k);
      filled := next.value;
      ds := ds + FromComponent(env, cfg, names[k]).value;
      k := k + 1;
    }
    assert names[..|names|] == names;
    r := Ok(filled);
  }

  lemma FilledAt(env: Env, cfg: Config, ds: seq<Derived>, filled: map<string, Resolved>, name: string)
    requires Filled(env, cfg, ds, filled) && name in filled
    ensures name in Declarable(env, cfg, ds)
    ensures Declaration(name, filled[name].cfg, filled[name].source, StableSort(filled[name].derived, ByComponent))
            == DeclarationFor(env, cfg, ds, name)
  {
  }

  /** The closing loop: the filled map listed in name order. */
  method ListInOrder(env: Env, cfg: Config, ghost ds: seq<Derived>, filled: map<string, Resolved>)
    returns (out: seq<Declaration>)
    requires Filled(env, cfg, ds, filled)
    ensures Resolution(env, cfg, ds, out)
  {
    var names := SortedSet(filled.Keys);
    assert forall i :: 0 <= i < |names| ==> names[i] in Elements(names);
    out := [];
    for k := 0 to |names|
      invariant |out| == k
      invariant forall i :: 0 <= i < k ==>
        names[i] in Declarable(env, cfg, ds) && out[i] == DeclarationFor(env, cfg, ds, names[i])
    {
      FilledAt(env, cfg, ds, filled, names[k]);
      var one := filled[names[k]];
      out := out + [Declaration(names[k], one.cfg, one.source, StableSort(one.derived, ByComponent))];
    }
  }

  /** resolveStreamDeclarations. */
  method ResolveStreamDeclarations(env: Env, cfg: Config) returns (r: Result<seq<Declaration>, PlanError>)
    ensures r.Ok? <==> Resolves(env, cfg)
    ensures r.Ok? ==> Resolution(env, cfg, PortStreams(env, cfg).value, r.value)
  {
    var explicit := ExplicitPhases(env, cfg);
    if explicit.Err? { return Err(explicit.error); }
    var filled := AddComponents(env, cfg, ComponentNames(cfg), explicit.value);
    if filled.Err? { return Err(filled.error); }
    var out := ListInOrder(env, cfg, PortStreams(env, cfg).value, filled.value);
    r := Ok(out);
  }

  // ------------------------------------------------------------- what a resolution says

  lemma ByComponentOrder()
    ensures TotalPreorder(ByComponent) && Antisymmetric(ByComponent)
  {
    forall a, b ensures ByComponent(a, b) || ByComponent(b, a)
      ensures ByComponent(a, b) && ByComponent(b, a) ==> a == b
    {
      BeforeTrichotomy(a.component, b.component);
      BeforeTrichotomy(a.port, b.port);
    }
    forall a, b, c | ByComponent(a, b) && ByComponent(b, c) ensures ByComponent(a, c) {
      if Before(a.component, b.component) && Before(b.component, c.component) {
        BeforeTransitive(a.component, b.component, c.component);
      } else if a.component == b.component && b.component == c.component && a.port != b.port && b.port != c.port {
        BeforeTransitive(a.port, b.port, c.port);
      }
    }
  }

  /** Names strictly increase; each config follows operator, framework, first port; nothing fixed is redeclared. */
  lemma ResolutionMeaning(env: Env, cfg: Config, ds: seq<Derived>, out: seq<Declaration>, i: nat)
    requires Resolves(env, cfg) && ds == PortStreams(env, cfg).value && Resolution(env, cfg, ds, out) && i < |out|
    ensures forall j :: i < j < |out| ==> Before(out[i].name, out[j].name)
    ensures out[i].name in cfg.streams ==> out[i].cfg == cfg.streams[out[i].name]
    ensures out[i].name !in cfg.streams && out[i].name in env.framework ==> out[i].cfg == env.framework[out[i].name].cfg
    ensures out[i].name !in cfg.streams && out[i].name !in env.framework ==>
      exists k :: 0 <= k < |ds| && ds[k].stream == out[i].name && out[i].cfg == ds[k].cfg
                  && forall m :: 0 <= m < k ==> ds[m].stream != out[i].name
    ensures IsFixed(env, out[i].name) ==> out[i].cfg == env.framework[out[i].name].cfg && out[i].derived == []
    ensures multiset(out[i].derived) == multiset(AttributionsFor(ds, out[i].name))
    ensures Sorted(out[i].derived, ByComponent)
  {
    var name := out[i].name;
    if name !in cfg.streams && name !in env.framework { var k := FirstIsFirst(ds, name); }
    ByComponentOrder();
    SortPermutes(AttributionsFor(ds, name), ByComponent);
    StableSortCorrect(AttributionsFor(ds, name), ByComponent);
    if IsFixed(env, name) {
      NoPortIsFixed(env, cfg, ComponentNames(cfg));
      AttributionsAbsent(ds, name);
    }
  }

  lemma {:induction false} FirstIsFirst(ds: seq<Derived>, name: string) returns (k: nat)
    requires name in StreamsOf(ds)
    ensures k < |ds| && ds[k].stream == name && FirstFor(ds, name) == ds[k].cfg
    ensures forall m :: 0 <= m < k ==> ds[m].stream != name
  {
    var front, d := ds[..|ds| - 1], ds[|ds| - 1];
    assert ds == front + [d];
    StreamsSnoc(front, d);
    if name in StreamsOf(front) {
      k := FirstIsFirst(front, name);
      assert ds[k] == front[k] && forall m :: 0 <= m < k ==> ds[m] == front[m];
    } else {
      k := |front|;
      forall m | 0 <= m < k ensures ds[m].stream != name {
        assert front[m].stream in StreamsOf(front);
      }
    }
  }

  lemma {:induction false} NoPortIsFixed(env: Env, cfg: Config, names: seq<string>)
    requires forall i :: 0 <= i < |names| ==> names[i] in cfg.components
    requires FromComponents(env, cfg, names).Ok?
    ensures forall i :: 0 <= i < |FromComponents(env, cfg, names).value| ==>
      var d := FromComponents(env, cfg, names).value[i];
      !IsFixed(env, d.stream) && env.ordinary(d.stream) && d.cfg.discard == ""
  {
    if names != [] {
      NoPortIsFixed(env, cfg, names[..|names| - 1]);
      var name := names[|names| - 1];
      if cfg.components[name].enabled {
        NoPortInLaneIsFixed(env, name, env.outputs(cfg.components[name].raw).value);
      }
    }
  }

  lemma {:induction false} NoPortInLaneIsFixed(env: Env, component: string, defs: seq<Definition>)
    requires FromPorts(env, component, defs).Ok?
    ensures forall i :: 0 <= i < |FromPorts(env, component, defs).value| ==>
      var d := FromPorts(env, component, defs).value[i];
      !IsFixed(env, d.stream) && env.ordinary(d.stream) && d.cfg.discard == ""
  {
    if defs != [] { NoPortInLaneIsFixed(env, component, defs[..|defs| - 1]); }
  }

  // ------------------------------------------------------- every port attributed once

  function AllAttributions(ds: seq<Derived>): seq<Attribution>
  {
    seq(|ds|, i requires 0 <= i < |ds| => ds[i].from)
  }

  /** The attributions of all declarations together. */
  function Gathered(out: seq<Declaration>): multiset<Attribution>
  {
    if out == [] then multiset{} else Gathered(out[..|out| - 1]) + multiset(out[|out| - 1].derived)
  }

  /** The attributions that a list of names collects. */
  function Collected(ds: seq<Derived>, names: seq<string>): multiset<Attribution>
  {
    if names == [] then multiset{}
    else Collected(ds, names[..|names| - 1]) + multiset(AttributionsFor(ds, names[|names| - 1]))
  }

  lemma AttributionsSnoc(ds: seq<Derived>, d: Derived, name: string)
    ensures AttributionsFor(ds + [d], name) == AttributionsFor(ds, name) + if d.stream == name then [d.from] else []
  {
    assert (ds + [d])[..|ds|] == ds;
  }

  lemma {:induction false} CollectedSnoc(ds: seq<Derived>, d: Derived, names: seq<string>, a: Attribution)
    requires forall i, j :: 0 <= i < j < |names| ==> names[i] != names[j]
    ensures Collected(ds + [d], names)[a] == Collected(ds, names)[a] + if d.stream in names && d.from == a then 1 else 0
  {
    if names != [] {
      var front, name := names[..|names| - 1], names[|names| - 1];
      CollectedSnoc(ds, d, front, a);
      AttributionsSnoc(ds, d, name);
      assert names == front + [name];
      assert name !in front;
    }
  }

  lemma {:induction false} CollectedNothing(names: seq<string>)
    ensures Collected([], names) == multiset{}
  {
    if names != [] { CollectedNothing(names[..|names| - 1]); }
  }

  lemma {:induction false} CollectedIsAll(ds: seq<Derived>, names: seq<string>)
    requires StrictlySorted(names) && forall i :: 0 <= i < |ds| ==> ds[i].stream in names
    ensures Collected(ds, names) == multiset(AllAttributions(ds))
  {
    if ds == [] {
      CollectedNothing(names);
    } else {
      var front, d := ds[..|ds| - 1], ds[|ds| - 1];
      assert ds == front + [d];
      CollectedIsAll(front, names);
      StrictlySortedDistinct(names);
      assert AllAttributions(ds) == AllAttributions(front) + [d.from];
      forall a ensures Collected(ds, names)[a] == multiset(AllAttributions(ds))[a] {
        CollectedSnoc(front, d, names, a);
      }
    }
  }

  lemma {:induction false} GatheredIsCollected(
    env: Env, cfg: Config, ds: seq<Derived>, names: seq<string>, out: seq<Declaration>)
    requires |out| == |names|
    requires forall i :: 0 <= i < |names| ==>
      names[i] in Declarable(env, cfg, ds) && out[i] == DeclarationFor(env, cfg, ds, names[i])
    ensures Gathered(out) == Collected(ds, names)
  {
    if names != [] {
      GatheredIsCollected(env, cfg, ds, names[..|names| - 1], out[..|out| - 1]);
      SortPermutes(AttributionsFor(ds, names[|names| - 1]), ByComponent);
    }
  }

  lemma DerivedConserved(env: Env, cfg: Config, ds: seq<Derived>, out: seq<Declaration>)
    requires Resolution(env, cfg, ds, out)
    ensures Gathered(out) == multiset(AllAttributions(ds))
  {
    var names := SortedSet(Declarable(env, cfg, ds));
    GatheredIsCollected(env, cfg, ds, names, out);
    forall i | 0 <= i < |ds| ensures ds[i].stream in names {
      assert ds[i].stream in StreamsOf(ds);
      assert ds[i].stream in Elements(names);
    }
    CollectedIsAll(ds, names);
  }

  predicate IsJetStreamOutput(env: Env, def: Definition)
  {
    env.resolve(def, Output).Ok? && env.resolve(def, Output).value.1.kind == JetStreamKind
  }

  /** The JetStream outputs of one component's port list. */
  function LaneOutputs(env: Env, component: string, defs: seq<Definition>): seq<Attribution>
  {
    if defs == [] then []
    else
      var last := defs[|defs| - 1];
      LaneOutputs(env, component, defs[..|defs| - 1])
      + if IsJetStreamOutput(env, last) then [Attribution(component, last.name)] else []
  }

  /** The JetStream outputs of the enabled ones among these components. */
  function JetStreamOutputs(env: Env, cfg: Config, names: seq<string>): seq<Attribution>
    requires forall i :: 0 <= i < |names| ==> names[i] in cfg.components
  {
    if names == [] then []
    else
      var name := names[|names| - 1];
      var outputs := env.outputs(cfg.components[name].raw);
      JetStreamOutputs(env, cfg, names[..|names| - 1])
      + if cfg.components[name].enabled && outputs.Some? then LaneOutputs(env, name, outputs.value) else []
  }

  lemma AttributionsAppend(a: seq<Derived>, b: seq<Derived>)
    ensures AllAttributions(a + b) == AllAttributions(a) + AllAttributions(b)
  {
  }

  lemma {:induction false} LaneDerives(env: Env, component: string, defs: seq<Definition>)
    requires FromPorts(env, component, defs).Ok?
    ensures AllAttributions(FromPorts(env, component, defs).value) == LaneOutputs(env, component, defs)
  {
    if defs != [] {
      var front, last := defs[..|defs| - 1], defs[|defs| - 1];
      LaneDerives(env, component, front);
      var one := FromPort(env, component, last).value;
      if one.Some? { AttributionsAppend(FromPorts(env, component, front).value, [one.value]); }
    }
  }

  lemma {:induction false} PortsDerive(env: Env, cfg: Config, names: seq<string>)
    requires forall i :: 0 <= i < |names| ==> names[i] in cfg.components
    requires FromComponents(env, cfg, names).Ok?
    ensures AllAttributions(FromComponents(env, cfg, names).value) == JetStreamOutputs(env, cfg, names)
  {
    if names != [] {
      var front, name := names[..|names| - 1], names[|names| - 1];
      PortsDerive(env, cfg, front);
      AttributionsAppend(FromComponents(env, cfg, front).value, FromComponent(env, cfg, name).value);
      if cfg.components[name].enabled { LaneDerives(env, name, env.outputs(cfg.components[name].raw).value); }
    }
  }

  /** The declarations attribute every JetStream output of every enabled component once, and nothing else. */
  lemma AttributionConserved(env: Env, cfg: Config, out: seq<Declaration>)
    requires Resolves(env, cfg) && Resolution(env, cfg, PortStreams(env, cfg).value, out)
    ensures Gathered(out) == multiset(JetStreamOutputs(env, cfg, ComponentNames(cfg)))
  {
    DerivedConserved(env, cfg, PortStreams(env, cfg).value, out);
    PortsDerive(env, cfg, ComponentNames(cfg));
  }
}
