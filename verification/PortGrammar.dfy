/**
  The closed port vocabulary: the twelve configuration kinds, their resource identities
  and the facts projected from them
  (component/port.go, component/port_*.go, component/port_facts.go).
 */
module PortGrammar {
  import opened Outcome

  /** A Go int. */
  type Int = x: int | -0x8000_0000_0000_0000 <= x < 0x8000_0000_0000_0000

  /** A JSON value as encoding/json decodes it into a generic tree. */
  datatype Json =
    | JNull
    | JBool(flag: bool)
    | JInt(number: int)
    | JFraction            // a number that is not an integer literal
    | JString(text: string)
    | JArray(items: seq<Json>)
    | JObject(fields: map<string, Json>)

  // ------------------------------------------------------------------ configurations

  datatype Contract = Contract(typ: string, version: string, compatible: seq<string>)

  datatype Kind =
    | TimerKind | NetworkKind | FileKind | HttpClientKind | NatsKind | NatsRequestKind
    | JetStreamKind | KVWatchKind | KVReadKind | KVWriteKind | StoreReadKind | StoreProvideKind

  function KindText(k: Kind): string
  {
    match k
    case TimerKind => "timer" case NetworkKind => "network" case FileKind => "file"
    case HttpClientKind => "http-client" case NatsKind => "nats"
    case NatsRequestKind => "nats-request" case JetStreamKind => "jetstream"
    case KVWatchKind => "kv-watch" case KVReadKind => "kv-read" case KVWriteKind => "kv-write"
    case StoreReadKind => "store-read" case StoreProvideKind => "store-provide"
  }

  /** bindingFor: the closed kind table. */
  function KindFor(s: string): Option<Kind>
  {
    if s == "timer" then Some(TimerKind) else if s == "network" then Some(NetworkKind)
    else if s == "file" then Some(FileKind) else if s == "http-client" then Some(HttpClientKind)
    else if s == "nats" then Some(NatsKind) else if s == "nats-request" then Some(NatsRequestKind)
    else if s == "jetstream" then Some(JetStreamKind) else if s == "kv-watch" then Some(KVWatchKind)
    else if s == "kv-read" then Some(KVReadKind) else if s == "kv-write" then Some(KVWriteKind)
    else if s == "store-read" then Some(StoreReadKind)
    else if s == "store-provide" then Some(StoreProvideKind) else None
  }

  lemma KindSpelling(k: Kind, s: string)
    ensures KindFor(KindText(k)) == Some(k)
    ensures KindFor(s) == Some(k) ==> s == KindText(k)
  {
  }

  datatype Config =
    | Timer(interval: string, contract: Option<Contract>)
    | Network(protocol: string, host: string, port: Int)
    | File(path: string, pattern: string)
    | HttpClient(httpMethod: string, urlPattern: string, triggerPort: string, authRef: string,
                 contactPolicy: string, contract: Option<Contract>)
    | Nats(subject: string, queue: string, contract: Option<Contract>)
    | NatsRequest(subject: string, timeout: string, retries: Int, contract: Option<Contract>)
    | JetStream(streamName: string, subjects: seq<string>, storage: string, retention: string,
                retentionDays: Int, maxSizeGB: Int, replicas: Int, consumerName: string,
                deliverPolicy: string, ackPolicy: string, maxDeliver: Int, ackWait: string,
                heartbeat: string, maxAckPending: Int, importLane: bool, contract: Option<Contract>)
    | KVWatch(bucket: string, keys: seq<string>, history: bool, contract: Option<Contract>)
    | KVRead(bucket: string, contract: Option<Contract>)
    | KVWrite(bucket: string, contract: Option<Contract>)
    | StoreRead(bucket: string, contract: Option<Contract>)
    | StoreProvide(instance: string)
  {
    function Kind(): Kind
    {
      match this
      case Timer(_, _) => TimerKind
      case Network(_, _, _) => NetworkKind
      case File(_, _) => FileKind
      case HttpClient(_, _, _, _, _, _) => HttpClientKind
      case Nats(_, _, _) => NatsKind
      case NatsRequest(_, _, _, _) => NatsRequestKind
      case JetStream(_, _, _, _, _, _, _, _, _, _, _, _, _, _, _, _) => JetStreamKind
      case KVWatch(_, _, _, _) => KVWatchKind
      case KVRead(_, _) => KVReadKind
      case KVWrite(_, _) => KVWriteKind
      case StoreRead(_, _) => StoreReadKind
      case StoreProvide(_) => StoreProvideKind
    }

    /** Network listeners are the one exclusive kind. */
    predicate IsExclusive() { Network? }

    function ResourceID(): string
    {
      match this
      case Timer(interval, _) => "timer:" + interval
      case Network(protocol, host, port) => protocol + ":" + host + ":" + Decimal(port)
      case File(path, _) => "file:" + path
      case HttpClient(verb, url, _, _, _, _) => "http-client:" + verb + ":" + url
      case Nats(subject, _, _) => "nats:" + subject
      case NatsRequest(subject, _, _, _) => "nats-request:" + subject
      case JetStream(name, subjects, _, _, _, _, _, _, _, _, _, _, _, _, _, _) =>
        if name != "" then "jetstream:" + name
        else if |subjects| > 0 then "jetstream:" + subjects[0]
        else "jetstream:unknown"
      case KVWatch(bucket, _, _, _) => "kv:" + bucket
      case KVRead(bucket, _) => "kv:" + bucket
      case KVWrite(bucket, _) => "kv:" + bucket
      case StoreRead(bucket, _) => "store-read:" + bucket
      case StoreProvide(instance) => "store-provide:" + instance
    }
  }

  /** strconv.Itoa. */
  function Decimal(n: int): string
  {
    if n < 0 then "-" + Digits(-n) else Digits(n)
  }

  function Digits(n: nat): string
  {
    if n < 10 then [('0' as int + n) as char] else Digits(n / 10) + [('0' as int + n % 10) as char]
  }

  // --------------------------------------------------------------------------- facts

  datatype Interaction =
    | TimerPattern | NetworkPattern | HttpClientPattern | StreamPattern | RequestPattern
    | WatchPattern | ReadPattern | StorePattern

  datatype StreamFacts = StreamFacts(
    streamName: string, subjects: seq<string>, storage: string, retentionPolicy: string,
    retentionDays: Int, maxSizeGB: Int, replicas: Int, consumerName: string,
    deliverPolicy: string, ackPolicy: string, maxDeliver: Int, ackWait: string,
    heartbeat: string, maxAckPending: Int, importLane: bool)

  datatype NetworkFacts = NetworkFacts(protocol: string, host: string, port: Int)

  datatype Facts = Facts(
    kind: Kind, resourceID: string, exclusive: bool, contract: Option<Contract>,
    interaction: Interaction, connectionIDs: seq<string>, natsSubjects: seq<string>,
    stream: Option<StreamFacts>, network: Option<NetworkFacts>,
    storeReadBucket: string, kvReadBucket: string)

  function NonEmpty(subjects: seq<string>): seq<string>
  {
    if subjects == [] then []
    else (if subjects[0] != "" then [subjects[0]] else []) + NonEmpty(subjects[1..])
  }

  lemma {:induction false} NonEmptyAppend(a: seq<string>, s: string)
    ensures NonEmpty(a + [s]) == NonEmpty(a) + if s != "" then [s] else []
  {
    if a == [] {
      assert [] + [s] == [s];
    } else {
      NonEmptyAppend(a[1..], s);
      assert (a + [s])[1..] == a[1..] + [s];
    }
  }

  lemma {:induction false} NonEmptyMembers(a: seq<string>, s: string)
    ensures s in NonEmpty(a) <==> s in a && s != ""
  {
    if a != [] {
      NonEmptyMembers(a[1..], s);
      assert a == [a[0]] + a[1..];
    }
  }

  function StreamConnections(name: string, subjects: seq<string>): seq<string>
  {
    (if name != "" then [name] else []) + NonEmpty(subjects)
  }

  /** The loop of jetStreamPortFacts that gathers connection identifiers. */
  method GatherConnections(name: string, subjects: seq<string>) returns (ids: seq<string>)
    ensures ids == StreamConnections(name, subjects)
    ensures forall id :: id in ids <==> id != "" && (id == name || id in subjects)
  {
    ids := [];
    if name != "" { ids := ids + [name]; }
    ghost var head := ids;
    for i := 0 to |subjects|
      invariant ids == head + NonEmpty(subjects[..i])
    {
      NonEmptyAppend(subjects[..i], subjects[i]);
      assert subjects[..i + 1] == subjects[..i] + [subjects[i]];
      if subjects[i] != "" { ids := ids + [subjects[i]]; }
    }
    assert subjects[..|subjects|] == subjects;
    forall id ensures id in ids <==> id != "" && (id == name || id in subjects) {
      NonEmptyMembers(subjects, id);
    }
  }

  function Interact(k: Kind): Interaction
  {
    match k
    case TimerKind => TimerPattern
    case NetworkKind => NetworkPattern
    case FileKind => NetworkPattern
    case HttpClientKind => HttpClientPattern
    case NatsKind => StreamPattern
    case NatsRequestKind => RequestPattern
    case JetStreamKind => StreamPattern
    case KVWatchKind => WatchPattern
    case KVReadKind => ReadPattern
    case KVWriteKind => WatchPattern
    case StoreReadKind => StorePattern
    case StoreProvideKind => StorePattern
  }

  function Connections(c: Config): seq<string>
  {
    match c
    case File(path, _) => [path]
    case HttpClient(_, url, _, _, _, _) => [url]
    case Nats(subject, _, _) => [subject]
    case NatsRequest(subject, _, _, _) => [subject]
    case JetStream(name, subjects, _, _, _, _, _, _, _, _, _, _, _, _, _, _) =>
      StreamConnections(name, subjects)
    case StoreRead(_, _) => ["store-federation"]
    case StoreProvide(instance) => ["store:" + instance]
    case _ => [c.ResourceID()]
  }

  /** The per-kind projections of component/port_facts.go, as one table. */
  function Project(c: Config): Facts
  {
    Facts(
      c.Kind(), c.ResourceID(), c.IsExclusive(),
      if c.Network? || c.File? || c.StoreProvide? then None else c.contract,
      Interact(c.Kind()), Connections(c),
      if c.Nats? || c.NatsRequest? then [c.subject] else if c.JetStream? then c.subjects else [],
      if c.JetStream? then
        Some(StreamFacts(c.streamName, c.subjects, c.storage, c.retention, c.retentionDays,
                         c.maxSizeGB, c.replicas, c.consumerName, c.deliverPolicy, c.ackPolicy,
                         c.maxDeliver, c.ackWait, c.heartbeat, c.maxAckPending, c.importLane))
      else None,
      if c.Network? then Some(NetworkFacts(c.protocol, c.host, c.port)) else None,
      if c.StoreRead? then c.bucket else "",
      if c.KVRead? then c.bucket else "")
  }
}
