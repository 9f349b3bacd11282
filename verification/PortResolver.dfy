/**
  Port resolution and the two JSON envelopes (component/port_resolver.go,
  component/port.go, component/ports.go).
 */
module PortResolver {
  import opened Outcome
  import opened Text
  import opened PortGrammar
  import opened PortCodec

  datatype Direction = Input | Output | OtherDirection(spelling: string)

  /** A configuration-shaped declaration; None is a nil config. */
  datatype Definition = Definition(
    name: string, required: bool, description: string, external: bool, config: Option<Config>)

  /** A resolved port. */
  datatype Port = Port(
    name: string, direction: Direction, required: bool, description: string, external: bool,
    config: Option<Config>)

  datatype PortError =
    | NameRequired | UnknownDirection | BadConfig(reason: ConfigError) | DirectionNotAllowed
    | ExternalOnOutput | DirectionRequirement | FieldConstraint | Malformed

  function DefinitionOf(p: Port): Definition
  {
    Definition(p.name, p.required, p.description, p.external, p.config)
  }

  /** The directions column of the binding table. */
  predicate Allows(kind: Kind, d: Direction)
  {
    match kind
    case TimerKind | HttpClientKind | KVWatchKind | KVReadKind | StoreReadKind => d == Input
    case KVWriteKind | StoreProvideKind => d == Output
    case _ => d == Input || d == Output
  }

  /** requiredByDirection. */
  function RequiredFields(kind: Kind, d: Direction): seq<string>
  {
    if kind.JetStreamKind? && d == Input then ["stream_name"] else []
  }

  predicate FieldEmpty(j: Json)
  {
    match j
    case JString(s) => Blank(s)
    case JArray(items) => items == []
    case JNull => true
    case _ => false
  }

  predicate RequirementsMet(c: Config, d: Direction)
  {
    var fields := Encode(c);
    forall name :: name in RequiredFields(c.Kind(), d) ==> name in fields && !FieldEmpty(fields[name])
  }

  datatype Constraint = Constraint(
    field: string, minimum: Option<int>, directions: seq<Direction>, zeroIsOmitted: bool)

  /** fieldConstraints. */
  function Constraints(kind: Kind): seq<Constraint>
  {
    if kind.JetStreamKind? then
      [Constraint("max_ack_pending", Some(-1), [Input], true),
       Constraint("import", None, [Input], false)]
    else []
  }

  predicate ConstraintMet(k: Constraint, fields: map<string, Json>, d: Direction)
  {
    k.field in fields ==>
      var j := fields[k.field];
      if j.JInt? && k.minimum.Some? && j.number < k.minimum.value then false
      else (j.JInt? && j.number == 0 && k.zeroIsOmitted) || k.directions == [] || d in k.directions
  }

  predicate ConstraintsMet(c: Config, d: Direction)
  {
    var fields := Encode(c);
    forall k :: k in Constraints(c.Kind()) ==> ConstraintMet(k, fields, d)
  }

  /** An import lane entails External. */
  predicate FeedsFromPeer(facts: Facts, d: Direction)
  {
    d == Input && facts.stream.Some? && facts.stream.value.importLane
  }

  /** The checks of resolveAndProjectPort, given what canonicalising the config returned. */
  function CheckGrammar(
    def: Definition, d: Direction, canonical: Result<Config, ConfigError>): Result<(Port, Facts), PortError>
  {
    if Blank(def.name) then Err(NameRequired)
    else if d != Input && d != Output then Err(UnknownDirection)
    else if canonical.Err? then Err(BadConfig(canonical.error))
    else
      var c := canonical.value;
      if !Allows(c.Kind(), d) then Err(DirectionNotAllowed)
      else if def.external && d != Input then Err(ExternalOnOutput)
      else if !RequirementsMet(c, d) then Err(DirectionRequirement)
      else if !ConstraintsMet(c, d) then Err(FieldConstraint)
      else
        var facts := Project(c);
        Ok((Port(def.name, d, def.required, def.description,
                 def.external || FeedsFromPeer(facts, d), Some(c)), facts))
  }

  /** resolveAndProjectPort. */
  function Resolve(positive: string -> bool, def: Definition, d: Direction): Result<(Port, Facts), PortError>
  {
    CheckGrammar(def, d, Canonicalize(positive, def.config))
  }

  /** A port that resolution could have produced: it is its own resolution. */
  predicate IsResolved(positive: string -> bool, p: Port)
  {
    p.config.Some? && Resolve(positive, DefinitionOf(p), p.direction) == Ok((p, Project(p.config.value)))
  }

  /**
    Resolution is a fixpoint: the definition read back from a resolved port resolves, in the
    port's own direction, to the identical port and the identical facts.
   */
  lemma ResolveFixpoint(positive: string -> bool, def: Definition, d: Direction)
    requires Resolve(positive, def, d).Ok?
    ensures var (port, facts) := Resolve(positive, def, d).value;
      && port.direction == d && port.name == def.name
      && IsResolved(positive, port)
      && facts == Project(port.config.value)
  {
    CanonicalForm(positive, def.config.value);
  }

  /** The resolver as a value, for the code that only calls it. */
  type Resolver = (Definition, Direction) -> Result<(Port, Facts), PortError>

  function Canonical(positive: string -> bool): Resolver
  {
    (def, d) => Resolve(positive, def, d)
  }

  /** What that code relies on. */
  ghost predicate Settles(resolve: Resolver)
  {
    forall def, d :: resolve(def, d).Ok? ==>
      var (port, facts) := resolve(def, d).value;
      && port.name == def.name && port.direction == d && port.config.Some?
      && facts == Project(port.config.value)
      && (port.config.value.JetStream? ==> port.config.value.subjects != [])
      && resolve(DefinitionOf(port), d) == resolve(def, d)
  }

  lemma CanonicalSubjects(positive: string -> bool, c: Option<Config>)
    requires Canonicalize(positive, c).Ok?
    ensures Canonicalize(positive, c).value.JetStream? ==> Canonicalize(positive, c).value.subjects != []
  {
    CanonicalizeNormalizes(positive, c.value);
    NormalizedSubjects(positive, c.value);
  }

  lemma NormalizedSubjects(positive: string -> bool, c: Config)
    requires Normalize(positive, c).Ok?
    ensures Normalize(positive, c).value.JetStream? ==> Normalize(positive, c).value.subjects != []
  {
  }

  /** What settling asks of one resolution. */
  predicate SettlesOne(resolve: Resolver, def: Definition, d: Direction)
  {
    resolve(def, d).Ok? ==>
      var (port, facts) := resolve(def, d).value;
      && port.name == def.name && port.direction == d && port.config.Some?
      && facts == Project(port.config.value)
      && (port.config.value.JetStream? ==> port.config.value.subjects != [])
      && resolve(DefinitionOf(port), d) == resolve(def, d)
  }

  lemma CanonicalSettlesOne(positive: string -> bool, def: Definition, d: Direction)
    ensures SettlesOne(Canonical(positive), def, d)
  {
    if Resolve(positive, def, d).Ok? {
      ResolveFixpoint(positive, def, d);
      CanonicalSubjects(positive, def.config);
    }
  }

  lemma CanonicalSettles(positive: string -> bool)
    ensures Settles(Canonical(positive))
  {
    forall def, d ensures SettlesOne(Canonical(positive), def, d) {
      CanonicalSettlesOne(positive, def, d);
    }
    SettlesEach(Canonical(positive));
  }

  lemma SettlesEach(resolve: Resolver)
    requires forall def, d :: SettlesOne(resolve, def, d)
    ensures Settles(resolve)
  {
    forall def, d | resolve(def, d).Ok?
      ensures var (port, facts) := resolve(def, d).value;
        && port.name == def.name && port.direction == d && port.config.Some?
        && facts == Project(port.config.value)
        && (port.config.value.JetStream? ==> port.config.value.subjects != [])
        && resolve(DefinitionOf(port), d) == resolve(def, d)
    {
      assert SettlesOne(resolve, def, d);
    }
  }

  lemma GrammarMeaning(def: Definition, d: Direction, canonical: Result<Config, ConfigError>)
    requires CheckGrammar(def, d, canonical).Ok?
    ensures canonical.Ok? && !Blank(def.name) && (d == Input || d == Output)
    ensures RequirementsMet(canonical.value, d) && ConstraintsMet(canonical.value, d)
    ensures var (port, facts) := CheckGrammar(def, d, canonical).value;
      && port.config == Some(canonical.value) && facts == Project(canonical.value)
      && (FeedsFromPeer(facts, d) ==> port.external)
  {
  }

  lemma ResolvedMeaning(positive: string -> bool, p: Port)
    requires IsResolved(positive, p)
    ensures p.direction == Input || p.direction == Output
    ensures RequirementsMet(p.config.value, p.direction) && ConstraintsMet(p.config.value, p.direction)
    ensures FeedsFromPeer(Project(p.config.value), p.direction) ==> p.external
    ensures Canonicalize(positive, p.config) == Ok(p.config.value)
    ensures !Blank(p.name) && exists i :: 0 <= i < |p.name| && !IsSpace(p.name[i])
  {
    GrammarMeaning(DefinitionOf(p), p.direction, Canonicalize(positive, p.config));
    BlankMeaning(p.name);
  }

  // The three JetStream members that direction rules look at.

  lemma StreamNameWritten(c: Config)
    requires c.JetStream?
    ensures Lookup(Encode(c), "stream_name") == JString(c.streamName)
  {
    JetStreamNames();
    FieldWritten(JetStreamLayout, Values(c), 0);
  }

  lemma MaxAckPendingWritten(c: Config)
    requires c.JetStream?
    ensures "max_ack_pending" in Encode(c) <==> c.maxAckPending != 0
    ensures c.maxAckPending != 0 ==> Encode(c)["max_ack_pending"] == JInt(c.maxAckPending)
  {
    JetStreamNames();
    FieldWritten(JetStreamLayout, Values(c), 13);
  }

  lemma ImportWritten(c: Config)
    requires c.JetStream?
    ensures "import" in Encode(c) <==> c.importLane
    ensures c.importLane ==> Encode(c)["import"] == JBool(true)
  {
    JetStreamNames();
    FieldWritten(JetStreamLayout, Values(c), 14);
  }

  lemma JetStreamDirectionRules(c: Config, d: Direction)
    requires c.JetStream? && RequirementsMet(c, d) && ConstraintsMet(c, d)
    ensures d == Input ==> !Blank(c.streamName)
    ensures c.maxAckPending >= -1
    ensures d == Output ==> c.maxAckPending == 0 && !c.importLane
  {
    StreamNameWritten(c);
    MaxAckPendingWritten(c);
    ImportWritten(c);
    var ks := Constraints(JetStreamKind);
    assert ConstraintMet(ks[0], Encode(c), d) && ConstraintMet(ks[1], Encode(c), d);
    if d == Input {
      assert RequiredFields(JetStreamKind, Input)[0] == "stream_name";
    }
  }

  /** What direction-sensitive resolution settles about a JetStream port. */
  lemma ResolvedJetStream(positive: string -> bool, p: Port)
    requires IsResolved(positive, p) && p.config.value.JetStream?
    ensures p.direction == Input ==> !Blank(p.config.value.streamName)
    ensures p.direction == Output ==> p.config.value.maxAckPending == 0 && !p.config.value.importLane
    ensures p.config.value.maxAckPending >= -1
    ensures p.config.value.importLane ==> p.direction == Input && p.external
  {
    ResolvedMeaning(positive, p);
    JetStreamDirectionRules(p.config.value, p.direction);
  }

  // ----------------------------------------------------------------------- envelopes

  function DirectionText(d: Direction): string
  {
    match d case Input => "input" case Output => "output" case OtherDirection(s) => s
  }

  function ReadDirection(s: string): Direction
  {
    if s == "input" then Input else if s == "output" then Output else OtherDirection(s)
  }

  const DefinitionLayout: seq<Field> :=
    [Field("name", TextField, false), Field("required", BoolField, true),
     Field("description", TextField, true), Field("external", BoolField, true)]

  function EnvelopeValues(def: Definition): seq<Value>
  {
    [Text(def.name), Flag(def.required), Text(def.description), Flag(def.external)]
  }

  /** PortDefinition.MarshalJSON. */
  function MarshalDefinition(positive: string -> bool, def: Definition): Result<map<string, Json>, PortError>
  {
    var config := Marshal(positive, def.config);
    if config.Err? then Err(BadConfig(config.error))
    else Ok(EncodeFields(DefinitionLayout, EnvelopeValues(def))["config" := JObject(config.value)])
  }

  /** The common part of both UnmarshalJSON methods: the envelope fields and the config object. */
  function ReadEnvelope(positive: string -> bool, o: map<string, Json>): Result<Definition, PortError>
  {
    var vs := DecodeFields(DefinitionLayout, o);
    if vs.None? then Err(Malformed)
    else
      var config := Unmarshal(positive, Lookup(o, "config"));
      if config.Err? then Err(BadConfig(config.error))
      else Ok(Definition(vs.value[0].AsText(), vs.value[1].AsFlag(), vs.value[2].AsText(),
                         vs.value[3].AsFlag(), Some(config.value)))
  }

  /** PortDefinition.UnmarshalJSON. */
  function UnmarshalDefinition(positive: string -> bool, o: map<string, Json>): Result<Definition, PortError>
  {
    if !(o.Keys <= Names(DefinitionLayout) + {"config"}) then Err(Malformed)
    else
      var def :- ReadEnvelope(positive, o);
      if Blank(def.name) then Err(NameRequired) else Ok(def)
  }

  /** Port.MarshalJSON: the definition envelope with the direction beside it. */
  function MarshalPort(positive: string -> bool, p: Port): Result<map<string, Json>, PortError>
  {
    var o :- MarshalDefinition(positive, DefinitionOf(p));
    Ok(o["direction" := JString(DirectionText(p.direction))])
  }

  /** Port.UnmarshalJSON: strict decoding, then resolution. */
  function UnmarshalPort(positive: string -> bool, o: map<string, Json>): Result<Port, PortError>
  {
    if !(o.Keys <= Names(DefinitionLayout) + {"config", "direction"}) then Err(Malformed)
    else
      var direction := TextItem(Lookup(o, "direction"));
      if direction.None? then Err(Malformed)
      else
        var def :- ReadEnvelope(positive, o);
        var (port, _) :- Resolve(positive, def, ReadDirection(direction.value));
        Ok(port)
  }

  lemma EnvelopeNames()
    ensures DistinctNames(DefinitionLayout)
    ensures "config" !in Names(DefinitionLayout) && "direction" !in Names(DefinitionLayout)
    ensures "config" != "direction"
  {
    assert |"name"| == 4 && |"required"| == 8 && |"description"| == 11 && |"external"| == 8;
    assert "required"[0] == 'r' && "external"[0] == 'e';
    assert |"config"| == 6 && |"direction"| == 9;
  }

  /** A field of the envelope reads as written, because neither extra member shares a field's name. */
  lemma EnvelopeLookup(fields: map<string, Json>, config: Json, o: map<string, Json>, name: string)
    requires var inner := fields["config" := config];
      inner.Keys <= o.Keys <= inner.Keys + {"direction"} && forall n :: n in inner ==> o[n] == inner[n]
    requires name in Names(DefinitionLayout)
    ensures Lookup(o, name) == Lookup(fields, name)
  {
    EnvelopeNames();
  }

  lemma EnvelopeFields(def: Definition, config: Json, o: map<string, Json>)
    requires var inner := EncodeFields(DefinitionLayout, EnvelopeValues(def))["config" := config];
      inner.Keys <= o.Keys <= inner.Keys + {"direction"} && forall n :: n in inner ==> o[n] == inner[n]
    ensures DecodeFields(DefinitionLayout, o) == Some(EnvelopeValues(def))
    ensures Lookup(o, "config") == config
  {
    EnvelopeNames();
    var fs, vs := DefinitionLayout, EnvelopeValues(def);
    forall i | 0 <= i < |fs| ensures Lookup(o, fs[i].name) == Lookup(EncodeFields(fs, vs), fs[i].name) {
      assert fs[i] in fs;
      EnvelopeLookup(EncodeFields(fs, vs), config, o, fs[i].name);
    }
    assert Typed(fs, vs);
    FieldsRoundTrip(fs, vs, o);
  }

  /** The envelope written for a definition reads back, whatever else sits beside it. */
  lemma EnvelopeRoundTrip(positive: string -> bool, def: Definition, inner: map<string, Json>, o: map<string, Json>)
    requires MarshalDefinition(positive, def) == Ok(inner)
    requires inner.Keys <= o.Keys <= inner.Keys + {"direction"}
    requires forall n :: n in inner ==> o[n] == inner[n]
    ensures Canonicalize(positive, def.config).Ok?
    ensures ReadEnvelope(positive, o) == Ok(def.(config := Some(Canonicalize(positive, def.config).value)))
  {
    CodecRoundTrip(positive, def.config);
    EnvelopeFields(def, JObject(Marshal(positive, def.config).value), o);
  }

  /** A definition survives its envelope, up to canonicalising its config. */
  lemma DefinitionRoundTrip(positive: string -> bool, def: Definition)
    requires !Blank(def.name)
    ensures MarshalDefinition(positive, def).Ok? <==> Canonicalize(positive, def.config).Ok?
    ensures MarshalDefinition(positive, def).Ok? ==>
      UnmarshalDefinition(positive, MarshalDefinition(positive, def).value)
      == Ok(def.(config := Some(Canonicalize(positive, def.config).value)))
  {
    CodecRoundTrip(positive, def.config);
    if MarshalDefinition(positive, def).Ok? {
      EncodedKeys(DefinitionLayout, EnvelopeValues(def));
      EnvelopeRoundTrip(positive, def, MarshalDefinition(positive, def).value, MarshalDefinition(positive, def).value);
    }
  }

  lemma MarshalledPort(positive: string -> bool, p: Port, inner: map<string, Json>)
    requires MarshalDefinition(positive, DefinitionOf(p)) == Ok(inner)
    ensures var o := MarshalPort(positive, p);
      && o.Ok?
      && o.value.Keys <= Names(DefinitionLayout) + {"config", "direction"}
      && Lookup(o.value, "direction") == JString(DirectionText(p.direction))
      && inner.Keys <= o.value.Keys <= inner.Keys + {"direction"}
      && forall n :: n in inner ==> o.value[n] == inner[n]
  {
    EnvelopeNames();
    EncodedKeys(DefinitionLayout, EnvelopeValues(DefinitionOf(p)));
  }

  /** A resolved port survives its JSON envelope unchanged. */
  lemma PortRoundTrip(positive: string -> bool, p: Port)
    requires IsResolved(positive, p)
    ensures MarshalPort(positive, p).Ok?
    ensures UnmarshalPort(positive, MarshalPort(positive, p).value) == Ok(p)
  {
    var def := DefinitionOf(p);
    ResolvedMeaning(positive, p);
    CodecRoundTrip(positive, p.config);
    var inner := MarshalDefinition(positive, def).value;
    MarshalledPort(positive, p, inner);
    EnvelopeRoundTrip(positive, def, inner, MarshalPort(positive, p).value);
    assert ReadDirection(DirectionText(p.direction)) == p.direction;
  }
}
