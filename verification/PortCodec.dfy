/**
  The port configuration codec (component/port_codec.go): struct encoding with omitted
  zero fields, strict decoding, per-kind normalisation and the "kind" envelope.

  `positive` stands for time.ParseDuration: it says which strings parse to a duration
  greater than zero.
 */
module PortCodec {
  import opened Outcome
  import opened Text
  import opened PortGrammar

  datatype ConfigError =
    | ConfigRequired | NotAnObject | KindRequired | KindNotAString | UnknownKind
    | UnknownField | WrongFieldType | Rejected

  // ----------------------------------------------------------------- struct layouts

  datatype FieldType = TextField | IntField | BoolField | ListField | ContractField

  /** One Go struct field with its JSON name and omitempty tag. */
  datatype Field = Field(name: string, typ: FieldType, omitempty: bool)

  /** The value one struct field holds. */
  datatype Value =
    | Text(text: string)
    | Num(number: Int)
    | Flag(flag: bool)
    | List(list: seq<string>)
    | Iface(contract: Option<Contract>)
  {
    function Type(): FieldType
    {
      match this
      case Text(_) => TextField
      case Num(_) => IntField
      case Flag(_) => BoolField
      case List(_) => ListField
      case Iface(_) => ContractField
    }

    function AsText(): string { if Text? then text else "" }
    function AsInt(): Int { if Num? then number else 0 }
    function AsFlag(): bool { Flag? && flag }
    function AsList(): seq<string> { if List? then list else [] }
    function AsContract(): Option<Contract> { if Iface? then contract else None }

    predicate IsZero()
    {
      match this
      case Text(s) => s == ""
      case Num(n) => n == 0
      case Flag(b) => !b
      case List(l) => l == []
      case Iface(c) => c.None?
    }
  }

  const InterfaceField := Field("interface", ContractField, true)

  /** The struct behind each kind, field by field in declaration order. */
  function Layout(kind: Kind): seq<Field>
  {
    match kind
    case TimerKind => [Field("interval", TextField, false), InterfaceField]
    case NetworkKind =>
      [Field("protocol", TextField, false), Field("host", TextField, false), Field("port", IntField, false)]
    case FileKind => [Field("path", TextField, false), Field("pattern", TextField, true)]
    case HttpClientKind =>
      [Field("method", TextField, true), Field("url_pattern", TextField, false),
       Field("trigger_port", TextField, true), Field("auth_ref", TextField, true),
       Field("contact_policy", TextField, true), InterfaceField]
    case NatsKind => [Field("subject", TextField, false), Field("queue", TextField, true), InterfaceField]
    case NatsRequestKind =>
      [Field("subject", TextField, false), Field("timeout", TextField, true),
       Field("retries", IntField, true), InterfaceField]
    case JetStreamKind => JetStreamLayout
    case KVWatchKind =>
      [Field("bucket", TextField, false), Field("keys", ListField, true),
       Field("history", BoolField, true), InterfaceField]
    case KVReadKind => [Field("bucket", TextField, false), InterfaceField]
    case KVWriteKind => [Field("bucket", TextField, false), InterfaceField]
    case StoreReadKind => [Field("bucket", TextField, false), InterfaceField]
    case StoreProvideKind => [Field("instance", TextField, false)]
  }

  const JetStreamLayout: seq<Field> :=
    [Field("stream_name", TextField, false), Field("subjects", ListField, false),
     Field("storage", TextField, true), Field("retention", TextField, true),
     Field("retention_days", IntField, true), Field("max_size_gb", IntField, true),
     Field("replicas", IntField, true), Field("consumer_name", TextField, true),
     Field("deliver_policy", TextField, true), Field("ack_policy", TextField, true),
     Field("max_deliver", IntField, true), Field("ack_wait", TextField, true),
     Field("heartbeat_interval", TextField, true), Field("max_ack_pending", IntField, true),
     Field("import", BoolField, true), InterfaceField]

  function Values(c: Config): seq<Value>
  {
    match c
    case Timer(interval, contract) => [Text(interval), Iface(contract)]
    case Network(protocol, host, port) => [Text(protocol), Text(host), Num(port)]
    case File(path, pattern) => [Text(path), Text(pattern)]
    case HttpClient(verb, url, trigger, auth, contact, contract) =>
      [Text(verb), Text(url), Text(trigger), Text(auth), Text(contact), Iface(contract)]
    case Nats(subject, queue, contract) => [Text(subject), Text(queue), Iface(contract)]
    case NatsRequest(subject, timeout, retries, contract) =>
      [Text(subject), Text(timeout), Num(retries), Iface(contract)]
    case JetStream(name, subjects, storage, retention, days, gigabytes, replicas, consumer,
                   deliver, ack, maxDeliver, ackWait, heartbeat, maxAck, lane, contract) =>
      [Text(name), List(subjects), Text(storage), Text(retention), Num(days), Num(gigabytes),
       Num(replicas), Text(consumer), Text(deliver), Text(ack), Num(maxDeliver), Text(ackWait),
       Text(heartbeat), Num(maxAck), Flag(lane), Iface(contract)]
    case KVWatch(bucket, keys, history, contract) =>
      [Text(bucket), List(keys), Flag(history), Iface(contract)]
    case KVRead(bucket, contract) => [Text(bucket), Iface(contract)]
    case KVWrite(bucket, contract) => [Text(bucket), Iface(contract)]
    case StoreRead(bucket, contract) => [Text(bucket), Iface(contract)]
    case StoreProvide(instance) => [Text(instance)]
  }

  predicate Typed(fs: seq<Field>, vs: seq<Value>)
  {
    |fs| == |vs| && forall i :: 0 <= i < |fs| ==> vs[i].Type() == fs[i].typ
  }

  /** The struct value with the given field values. */
  function Build(kind: Kind, vs: seq<Value>): Config
    requires |vs| == |Layout(kind)|
  {
    match kind
    case TimerKind => Timer(vs[0].AsText(), vs[1].AsContract())
    case NetworkKind => Network(vs[0].AsText(), vs[1].AsText(), vs[2].AsInt())
    case FileKind => File(vs[0].AsText(), vs[1].AsText())
    case HttpClientKind =>
      HttpClient(vs[0].AsText(), vs[1].AsText(), vs[2].AsText(), vs[3].AsText(), vs[4].AsText(), vs[5].AsContract())
    case NatsKind => Nats(vs[0].AsText(), vs[1].AsText(), vs[2].AsContract())
    case NatsRequestKind => NatsRequest(vs[0].AsText(), vs[1].AsText(), vs[2].AsInt(), vs[3].AsContract())
    case JetStreamKind =>
      JetStream(vs[0].AsText(), vs[1].AsList(), vs[2].AsText(), vs[3].AsText(), vs[4].AsInt(), vs[5].AsInt(),
                vs[6].AsInt(), vs[7].AsText(), vs[8].AsText(), vs[9].AsText(), vs[10].AsInt(), vs[11].AsText(),
                vs[12].AsText(), vs[13].AsInt(), vs[14].AsFlag(), vs[15].AsContract())
    case KVWatchKind => KVWatch(vs[0].AsText(), vs[1].AsList(), vs[2].AsFlag(), vs[3].AsContract())
    case KVReadKind => KVRead(vs[0].AsText(), vs[1].AsContract())
    case KVWriteKind => KVWrite(vs[0].AsText(), vs[1].AsContract())
    case StoreReadKind => StoreRead(vs[0].AsText(), vs[1].AsContract())
    case StoreProvideKind => StoreProvide(vs[0].AsText())
  }

  // ------------------------------------------------------------ encoding and decoding

  function TextList(l: seq<string>): Json
  {
    JArray(seq(|l|, i requires 0 <= i < |l| => JString(l[i])))
  }

  function EncodeContract(c: Contract): map<string, Json>
  {
    map["type" := JString(c.typ)]
    + (if c.version == "" then map[] else map["version" := JString(c.version)])
    + (if c.compatible == [] then map[] else map["compatible" := TextList(c.compatible)])
  }

  function ToJson(v: Value): Json
  {
    match v
    case Text(s) => JString(s)
    case Num(n) => JInt(n)
    case Flag(b) => JBool(b)
    case List(l) => TextList(l)
    case Iface(c) => if c.None? then JNull else JObject(EncodeContract(c.value))
  }

  /** json.Marshal of a struct: every field but the omitted zero ones. */
  function EncodeFields(fs: seq<Field>, vs: seq<Value>): map<string, Json>
    requires |fs| == |vs|
  {
    if fs == [] then map[]
    else
      var rest := EncodeFields(fs[1..], vs[1..]);
      if fs[0].omitempty && vs[0].IsZero() then rest else rest[fs[0].name := ToJson(vs[0])]
  }

  function Encode(c: Config): map<string, Json>
  {
    ValuesTyped(c);
    EncodeFields(Layout(c.Kind()), Values(c))
  }

  function TextItem(j: Json): Option<string>
  {
    if j.JNull? then Some("") else if j.JString? then Some(j.text) else None
  }

  function TextItems(items: seq<Json>): Option<seq<string>>
  {
    if items == [] then Some([])
    else
      var head :- TextItem(items[0]);
      var tail :- TextItems(items[1..]);
      Some([head] + tail)
  }

  /** A missing member and a null both leave the Go field at its zero value. */
  function Lookup(o: map<string, Json>, name: string): Json
  {
    if name in o then o[name] else JNull
  }

  function ReadTexts(j: Json): Option<seq<string>>
  {
    if j.JNull? then Some([]) else if j.JArray? then TextItems(j.items) else None
  }

  function ReadContract(j: Json): Option<Option<Contract>>
  {
    if j.JNull? then Some(None)
    else if !j.JObject? || !(j.fields.Keys <= {"type", "version", "compatible"}) then None
    else
      var typ :- TextItem(Lookup(j.fields, "type"));
      var version :- TextItem(Lookup(j.fields, "version"));
      var compatible :- ReadTexts(Lookup(j.fields, "compatible"));
      Some(Some(Contract(typ, version, compatible)))
  }

  /** Decoding one field by its Go type; None is a type error. */
  function Read(j: Json, typ: FieldType): (r: Option<Value>)
    ensures r.Some? ==> r.value.Type() == typ
  {
    match typ
    case TextField => (var s :- TextItem(j); Some(Text(s)))
    case IntField =>
      if j.JNull? then Some(Num(0))
      else if j.JInt? && -0x8000_0000_0000_0000 <= j.number < 0x8000_0000_0000_0000 then Some(Num(j.number))
      else None
    case BoolField => if j.JNull? then Some(Flag(false)) else if j.JBool? then Some(Flag(j.flag)) else None
    case ListField => (var l :- ReadTexts(j); Some(List(l)))
    case ContractField => (var c :- ReadContract(j); Some(Iface(c)))
  }

  function DecodeFields(fs: seq<Field>, o: map<string, Json>): (r: Option<seq<Value>>)
    ensures r.Some? ==> Typed(fs, r.value)
  {
    if fs == [] then Some([])
    else
      var head :- Read(Lookup(o, fs[0].name), fs[0].typ);
      var tail :- DecodeFields(fs[1..], o);
      Some([head] + tail)
  }

  function Names(fs: seq<Field>): set<string>
  {
    set f | f in fs :: f.name
  }

  /** Decoding into the struct behind `kind`, unknown fields disallowed. */
  function Decode(kind: Kind, o: map<string, Json>): Option<Config>
  {
    if !(o.Keys <= Names(Layout(kind))) then None
    else
      var vs :- DecodeFields(Layout(kind), o);
      Some(Build(kind, vs))
  }

  // ------------------------------------------------------------------- normalisation

  predicate ContractOk(c: Option<Contract>)
  {
    c.Some? ==> !Blank(c.value.typ)
  }

  predicate OneOf(value: string, allowed: seq<string>)
  {
    value == "" || value in allowed
  }

  predicate JetStreamOk(positive: string -> bool, c: Config)
    requires c.JetStream?
  {
    && |c.subjects| > 0
    && (forall i :: 0 <= i < |c.subjects| ==> !Blank(c.subjects[i]))
    && OneOf(c.storage, ["file", "memory"])
    && OneOf(c.retention, ["limits", "interest", "work_queue"])
    && OneOf(c.deliverPolicy, ["all", "last", "last_per_subject", "new", "by_start_time"])
    && OneOf(c.ackPolicy, ["explicit", "none", "all"])
    && c.retentionDays >= 0 && c.maxSizeGB >= 0 && c.replicas >= 0 && c.maxDeliver >= 0
    && (c.ackWait != "" ==> positive(c.ackWait))
    && (c.heartbeat != "" ==> positive(c.heartbeat))
    && ContractOk(c.contract)
  }

  /** The twelve normalize functions: checks plus two defaults. */
  function Normalize(positive: string -> bool, c: Config): (r: Result<Config, ConfigError>)
    ensures r.Ok? ==> r.value.Kind() == c.Kind()
  {
    match c
    case Timer(interval, contract) =>
      if positive(interval) && ContractOk(contract) then Ok(c) else Err(Rejected)
    case Network(protocol, host, port) =>
      if Blank(protocol) || !(1 <= port <= 65535) then Err(Rejected)
      else Ok(Network(protocol, if host == "" then "0.0.0.0" else host, port))
    case File(path, _) =>
      if Blank(path) then Err(Rejected) else Ok(c)
    case HttpClient(verb, url, _, _, _, contract) =>
      if Blank(verb) || Blank(url) || !ContractOk(contract) then Err(Rejected) else Ok(c)
    case Nats(subject, _, contract) =>
      if Blank(subject) || !ContractOk(contract) then Err(Rejected) else Ok(c)
    case NatsRequest(subject, timeout, retries, contract) =>
      var effective := if timeout == "" then "1s" else timeout;
      if Blank(subject) || !positive(effective) || retries < 0 || !ContractOk(contract) then Err(Rejected)
      else Ok(NatsRequest(subject, effective, retries, contract))
    case JetStream(_, _, _, _, _, _, _, _, _, _, _, _, _, _, _, _) =>
      if JetStreamOk(positive, c) then Ok(c) else Err(Rejected)
    case StoreProvide(instance) =>
      if Blank(instance) then Err(Rejected) else Ok(c)
    case _ =>
      if Blank(c.bucket) || !ContractOk(c.contract) then Err(Rejected) else Ok(c)
  }

  /** decodeBoundConfig. */
  function DecodeBound(positive: string -> bool, kind: Kind, o: map<string, Json>): Result<Config, ConfigError>
  {
    if !(o.Keys <= Names(Layout(kind))) then Err(UnknownField)
    else
      var c := Decode(kind, o);
      if c.None? then Err(WrongFieldType) else Normalize(positive, c.value)
  }

  /** canonicalizePortable; None is the nil interface. */
  function Canonicalize(positive: string -> bool, c: Option<Config>): Result<Config, ConfigError>
  {
    if c.None? then Err(ConfigRequired) else DecodeBound(positive, c.value.Kind(), Encode(c.value))
  }

  /** marshalPortable: the canonical fields plus the kind tag. */
  function Marshal(positive: string -> bool, c: Option<Config>): Result<map<string, Json>, ConfigError>
  {
    var canonical :- Canonicalize(positive, c);
    Ok(Encode(canonical)["kind" := JString(KindText(canonical.Kind()))])
  }

  /** decodePortable. */
  function Unmarshal(positive: string -> bool, j: Json): Result<Config, ConfigError>
  {
    if j.JNull? then Err(ConfigRequired)
    else if !j.JObject? then Err(NotAnObject)
    else if "kind" !in j.fields then Err(KindRequired)
    else
      var tag := TextItem(j.fields["kind"]);
      if tag.None? then Err(KindNotAString)
      else
        var kind := KindFor(tag.value);
        if kind.None? then Err(UnknownKind)
        else DecodeBound(positive, kind.value, j.fields - {"kind"})
  }

  // --------------------------------------------------------------------------- proofs

  lemma JetStreamTyped(c: Config)
    requires c.JetStream?
    ensures Typed(JetStreamLayout, Values(c))
  {
  }

  lemma ValuesTyped(c: Config)
    ensures Typed(Layout(c.Kind()), Values(c))
  {
    if c.JetStream? { JetStreamTyped(c); }
  }

  lemma BuildsBack(c: Config)
    ensures Typed(Layout(c.Kind()), Values(c)) && Build(c.Kind(), Values(c)) == c
  {
    ValuesTyped(c);
  }

  lemma {:induction false} TextItemsBack(l: seq<string>)
    ensures TextItems(TextList(l).items) == Some(l)
  {
    var items := TextList(l).items;
    if l != [] {
      TextItemsBack(l[1..]);
      assert items[1..] == TextList(l[1..]).items;
      assert l == [l[0]] + l[1..];
    }
  }

  lemma ContractBack(c: Contract)
    ensures ReadContract(JObject(EncodeContract(c))) == Some(Some(c))
  {
    var o := EncodeContract(c);
    TextItemsBack(c.compatible);
    assert |"type"| == 4 && |"version"| == 7 && |"compatible"| == 10;
    assert o.Keys <= {"type", "version", "compatible"};
    assert Lookup(o, "type") == JString(c.typ);
    assert TextItem(Lookup(o, "version")) == Some(c.version);
    assert ReadTexts(Lookup(o, "compatible")) == Some(c.compatible);
  }

  lemma ValueBack(v: Value)
    ensures Read(ToJson(v), v.Type()) == Some(v)
    ensures v.IsZero() ==> Read(JNull, v.Type()) == Some(v)
  {
    match v
    case List(l) => TextItemsBack(l);
    case Iface(c) => if c.Some? { ContractBack(c.value); }
    case _ =>
  }

  predicate DistinctNames(fs: seq<Field>)
  {
    forall i, j :: 0 <= i < j < |fs| ==> fs[i].name != fs[j].name
  }

  lemma {:induction false} EncodedKeys(fs: seq<Field>, vs: seq<Value>)
    requires |fs| == |vs|
    ensures EncodeFields(fs, vs).Keys <= Names(fs)
  {
    if fs != [] {
      EncodedKeys(fs[1..], vs[1..]);
      assert fs == [fs[0]] + fs[1..];
      assert fs[0] in fs && forall f :: f in fs[1..] ==> f in fs;
    }
  }

  /** What is written under a field's name: its value, or nothing when it is an omitted zero. */
  lemma {:induction false} FieldWritten(fs: seq<Field>, vs: seq<Value>, i: nat)
    requires |fs| == |vs| && DistinctNames(fs) && i < |fs|
    ensures var o := EncodeFields(fs, vs);
      if fs[i].omitempty && vs[i].IsZero() then fs[i].name !in o
      else fs[i].name in o && o[fs[i].name] == ToJson(vs[i])
  {
    EncodedKeys(fs[1..], vs[1..]);
    if i == 0 {
      assert forall f :: f in fs[1..] ==> f.name != fs[0].name;
    } else {
      FieldWritten(fs[1..], vs[1..], i - 1);
    }
  }

  lemma {:induction false} DecodesTo(fs: seq<Field>, o: map<string, Json>, vs: seq<Value>)
    requires |fs| == |vs|
    requires forall i :: 0 <= i < |fs| ==> Read(Lookup(o, fs[i].name), fs[i].typ) == Some(vs[i])
    ensures DecodeFields(fs, o) == Some(vs)
  {
    if fs != [] {
      forall i | 0 <= i < |fs[1..]|
        ensures Read(Lookup(o, fs[1..][i].name), fs[1..][i].typ) == Some(vs[1..][i])
      {
        assert fs[1..][i] == fs[i + 1] && vs[1..][i] == vs[i + 1];
      }
      DecodesTo(fs[1..], o, vs[1..]);
      assert Read(Lookup(o, fs[0].name), fs[0].typ) == Some(vs[0]);
      assert vs == [vs[0]] + vs[1..];
    }
  }

  /**
    Encoding then decoding a struct of any layout with distinct field names, also when other
    members were written beside its own.
   */
  lemma FieldsRoundTrip(fs: seq<Field>, vs: seq<Value>, o: map<string, Json>)
    requires Typed(fs, vs) && DistinctNames(fs)
    requires forall i :: 0 <= i < |fs| ==> Lookup(o, fs[i].name) == Lookup(EncodeFields(fs, vs), fs[i].name)
    ensures DecodeFields(fs, o) == Some(vs)
  {
    forall i | 0 <= i < |fs| ensures Read(Lookup(o, fs[i].name), fs[i].typ) == Some(vs[i]) {
      FieldWritten(fs, vs, i);
      ValueBack(vs[i]);
    }
    DecodesTo(fs, o, vs);
  }

  /** Where a JetStream field sits, read off its name's length and one or two runes. */
  function JetStreamIndex(s: string): int
  {
    if |s| == 6 then 14 else if |s| == 7 then 2
    else if |s| == 8 then (if s[0] == 's' then 1 else if s[0] == 'r' then 6 else 11)
    else if |s| == 9 then (if s[0] == 'r' then 3 else 15)
    else if |s| == 10 then 9
    else if |s| == 11 then (if s[0] == 's' then 0 else if s[4] == 's' then 5 else 10)
    else if |s| == 13 then 7
    else if |s| == 14 then (if s[0] == 'r' then 4 else 8)
    else if |s| == 15 then 13
    else 12
  }

  lemma JetStreamNames()
    ensures DistinctNames(JetStreamLayout)
    ensures forall i :: 0 <= i < |JetStreamLayout| ==> JetStreamLayout[i].name != "kind"
  {
    var fs := JetStreamLayout;
    assert |fs| == 16;
    forall i | 0 <= i < 16 ensures JetStreamIndex(fs[i].name) == i && |fs[i].name| > 4 {
    }
    forall i, j | 0 <= i < j < 16 ensures fs[i].name != fs[j].name {
      assert JetStreamIndex(fs[i].name) == i && JetStreamIndex(fs[j].name) == j;
    }
  }

  /** No struct repeats a field name, and none has a field named "kind". */
  lemma LayoutNames(kind: Kind)
    ensures DistinctNames(Layout(kind))
    ensures "kind" !in Names(Layout(kind))
  {
    if kind.JetStreamKind? {
      JetStreamNames();
    } else {
      assert InterfaceField.name[0] == 'i' && |InterfaceField.name| == 9;
    }
  }

  /** Struct encoding followed by strict decoding is the identity, for all twelve kinds. */
  lemma StructRoundTrip(c: Config)
    ensures Encode(c).Keys <= Names(Layout(c.Kind()))
    ensures Decode(c.Kind(), Encode(c)) == Some(c)
  {
    LayoutNames(c.Kind());
    BuildsBack(c);
    EncodedKeys(Layout(c.Kind()), Values(c));
    FieldsRoundTrip(Layout(c.Kind()), Values(c), Encode(c));
  }

  lemma NormalizeIdempotent(positive: string -> bool, c: Config)
    requires Normalize(positive, c).Ok?
    ensures Normalize(positive, Normalize(positive, c).value) == Normalize(positive, c)
  {
  }

  lemma CanonicalizeNormalizes(positive: string -> bool, c: Config)
    ensures Canonicalize(positive, Some(c)) == Normalize(positive, c)
  {
    StructRoundTrip(c);
  }

  /** Canonicalising through JSON is normalising, and a canonical form is its own canonical form. */
  lemma CanonicalForm(positive: string -> bool, c: Config)
    ensures Canonicalize(positive, Some(c)) == Normalize(positive, c)
    ensures Canonicalize(positive, Some(c)).Ok? ==>
              Canonicalize(positive, Some(Canonicalize(positive, Some(c)).value)) == Canonicalize(positive, Some(c))
  {
    CanonicalizeNormalizes(positive, c);
    if Normalize(positive, c).Ok? {
      NormalizeIdempotent(positive, c);
      CanonicalizeNormalizes(positive, Normalize(positive, c).value);
    }
  }

  /**
    The codec round trip: marshalling fails exactly when the configuration has no canonical
    form, and otherwise what is marshalled decodes to that canonical form. The kind tag never
    overwrites a field.
   */
  lemma CodecRoundTrip(positive: string -> bool, c: Option<Config>)
    ensures Marshal(positive, c).Ok? <==> Canonicalize(positive, c).Ok?
    ensures Marshal(positive, c).Ok? ==>
              Unmarshal(positive, JObject(Marshal(positive, c).value)) == Canonicalize(positive, c)
  {
    if Canonicalize(positive, c).Ok? {
      var canonical := Canonicalize(positive, c).value;
      var wire := Marshal(positive, c).value;
      KindSpelling(canonical.Kind(), "");
      StructRoundTrip(c.value);
      StructRoundTrip(canonical);
      CanonicalForm(positive, c.value);
      LayoutNames(canonical.Kind());
      assert wire - {"kind"} == Encode(canonical);
    }
  }

  lemma BuildKeepsKind(kind: Kind, vs: seq<Value>)
    requires |vs| == |Layout(kind)|
    ensures Build(kind, vs).Kind() == kind
  {
  }

  /**
    Whatever decodes is canonical, and marshalling it again writes an object that decodes to
    the same value: decoding is a projection onto canonical wire forms.
   */
  lemma DecodedIsCanonical(positive: string -> bool, j: Json)
    requires Unmarshal(positive, j).Ok?
    ensures Canonicalize(positive, Some(Unmarshal(positive, j).value)) == Unmarshal(positive, j)
    ensures Marshal(positive, Some(Unmarshal(positive, j).value)).Ok?
    ensures j.fields.Keys - {"kind"} <= Names(Layout(Unmarshal(positive, j).value.Kind()))
    ensures KindFor(TextItem(j.fields["kind"]).value) == Some(Unmarshal(positive, j).value.Kind())
  {
    var kind := KindFor(TextItem(j.fields["kind"]).value).value;
    var rest := j.fields - {"kind"};
    BuildKeepsKind(kind, DecodeFields(Layout(kind), rest).value);
    CanonicalForm(positive, Decode(kind, rest).value);
    assert rest.Keys == j.fields.Keys - {"kind"};
  }
}
