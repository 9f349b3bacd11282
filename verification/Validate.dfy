/**
  The offline judge (composition/validate.go): one pass over the enabled components with an
  index of claimed resources, proved to admit what the registry's pairwise scan admits.
 */
module Validate {
  import opened Outcome
  import opened Text
  import opened PortResolver
  import opened Admission
  import opened Registry
  import opened RegistryProtocol

  datatype FindingKind =
    | ComponentConfigInvalid | UnknownComponent | ComponentTypeMismatch | PortDeclarationError
    | ExclusiveResourceConflict(resource: string, holder: string)

  datatype Finding = Finding(kind: FindingKind, component: string)

  // ------------------------------------------------------------------- one instance

  /** The component types of types.ComponentConfig.Validate. */
  predicate KnownType(typ: string)
  {
    typ in ["input", "processor", "output", "storage", "gateway"]
  }

  /** declareInstance. */
  function DeclareInstance(env: Env, factories: Table, name: string, entry: Entry): Result<Declaration, FindingKind>
  {
    if !ValidName(name) then Err(ComponentConfigInvalid)
    else if !EntryValid(entry) then Err(ComponentConfigInvalid)
    else if !ValidName(entry.name) then Err(ComponentConfigInvalid)
    else if entry.name !in factories then Err(UnknownComponent)
    else if factories[entry.name].typ != entry.typ then Err(ComponentTypeMismatch)
    else if !env.safe(entry.raw) then Err(ComponentConfigInvalid)
    else
      var declared := Declare(env, factories, name, entry);
      if declared.Err? then Err(PortDeclarationError) else Ok(declared.value)
  }

  /** The judge accepts an instance exactly when Declare does and its type is in the vocabulary. */
  lemma DeclareInstanceExact(env: Env, factories: Table, name: string, entry: Entry)
    ensures DeclareInstance(env, factories, name, entry).Ok? <==>
              Declare(env, factories, name, entry).Ok? && KnownType(entry.typ)
    ensures DeclareInstance(env, factories, name, entry).Ok? ==>
              DeclareInstance(env, factories, name, entry).value == Declare(env, factories, name, entry).value
              && DeclareInstance(env, factories, name, entry).value.instance == name
  {
  }

  /**
    Taken alone, prepareComponent only compares the configured type with the registered one and
    has no vocabulary test. A component that it prepares is accepted offline if and only if its
    type is known.
   */
  lemma PreparedAcceptedIffTypeKnown(
    env: Env, factories: Table, name: string, entry: Entry, client: bool, built: Built)
    requires Settles(env.resolve) && Prepare(env, factories, name, entry, client, built).Ok?
    ensures DeclareInstance(env, factories, name, entry).Ok? <==> KnownType(entry.typ)
    ensures DeclareInstance(env, factories, name, entry).Ok? ==>
      DeclareInstance(env, factories, name, entry).value.exclusive
      == Prepare(env, factories, name, entry, client, built).value.exclusive
  {
    PreparedIsDeclared(env, factories, name, entry, client, built);
    DeclareInstanceExact(env, factories, name, entry);
  }

  /** types.ComponentConfig.Validate. */
  predicate EntryValid(entry: Entry)
  {
    entry.typ != "" && entry.name != "" && KnownType(entry.typ)
  }

  /** The component clause of Config.Validate, which a boot passes before it creates any component. */
  predicate EntriesValid(components: map<string, Entry>)
  {
    forall n :: n in components ==> n != "" && EntryValid(components[n])
  }

  /** Behind that gate the judge declares an entry exactly when Declare does, and accepts what boot can prepare. */
  lemma GateClosesGap(env: Env, factories: Table, components: map<string, Entry>, name: string)
    requires EntriesValid(components) && name in components
    ensures DeclareInstance(env, factories, name, components[name]).Ok? <==>
              Declare(env, factories, name, components[name]).Ok?
    ensures Settles(env.resolve) ==> forall client, built ::
      Prepare(env, factories, name, components[name], client, built).Ok? ==>
        DeclareInstance(env, factories, name, components[name]).Ok?
  {
    DeclareInstanceExact(env, factories, name, components[name]);
    if Settles(env.resolve) {
      forall client, built | Prepare(env, factories, name, components[name], client, built).Ok?
        ensures DeclareInstance(env, factories, name, components[name]).Ok?
      {
        PreparedAcceptedIffTypeKnown(env, factories, name, components[name], client, built);
      }
    }
  }

  /**
    An entry that prepareComponent takes and declareInstance refuses. It never reaches
    prepareComponent in a boot: the gate refuses it too.
   */
  lemma VocabularyGap(env: Env)
    requires env.safe("")
    ensures var declarer := (raw: string, name: string) => Some(PortConfig([], []));
      var factories := map["w" := Registration("widget", declarer)];
      var entry := Entry(true, "widget", "w", "");
      && Prepare(env, factories, "w", entry, true, Component([], [])).Ok?
      && DeclareInstance(env, factories, "w", entry) == Err(ComponentConfigInvalid)
      && !EntriesValid(map["w" := entry])
  {
    WidgetUnknown();
    assert Again([]) == [] && Lane([], Input) == [] && Lane([], Output) == [];
    assert ValidName("w");
    assert "w" in map["w" := Entry(true, "widget", "w", "")];
  }

  lemma WidgetUnknown()
    ensures !KnownType("widget")
  {
    var known := ["input", "processor", "output", "storage", "gateway"];
    assert "widget"[0] == 'w' && forall i :: 0 <= i < |known| ==> known[i][0] != 'w';
  }

  // ------------------------------------------------------------------------ one pass

  /** Declarations that can be told apart by name. */
  predicate DistinctNames(ds: seq<Declaration>)
  {
    forall i, j :: 0 <= i < j < |ds| ==> ds[i].instance != ds[j].instance
  }

  /** The sub-list that the registry admits when given ds in order. */
  function Kept(ds: seq<Declaration>): (kept: seq<Declaration>)
    ensures forall d :: d in kept ==> d in ds
  {
    if ds == [] then []
    else
      var front, d := ds[..|ds| - 1], ds[|ds| - 1];
      if Admit(AdmitAll(map[], front), false, d).Ok? then Kept(front) + [d] else Kept(front)
  }

  lemma {:induction false} AdmitAllSnoc(admitted: Admitted, ds: seq<Declaration>, d: Declaration)
    ensures AdmitAll(admitted, ds + [d]) ==
      var before := AdmitAll(admitted, ds); var r := Admit(before, false, d); if r.Ok? then r.value else before
    decreases |ds|
  {
    if ds == [] {
      assert [] + [d] == [d];
    } else {
      var r := Admit(admitted, false, ds[0]);
      AdmitAllSnoc(if r.Ok? then r.value else admitted, ds[1..], d);
      assert (ds + [d])[1..] == ds[1..] + [d];
    }
  }

  /** kept lists exactly the entries of admitted. */
  ghost predicate Lists(kept: seq<Declaration>, admitted: Admitted)
  {
    && (forall d :: d in kept ==> d.instance in admitted && admitted[d.instance] == d)
    && (forall n :: n in admitted ==> admitted[n] in kept && admitted[n].instance == n)
  }

  lemma ListsSnoc(kept: seq<Declaration>, admitted: Admitted, d: Declaration)
    requires Lists(kept, admitted) && d.instance !in admitted
    ensures Lists(kept + [d], admitted[d.instance := d])
  {
    assert (kept + [d])[|kept|] == d;
  }

  /** Kept lists exactly what ends up admitted. */
  lemma {:induction false} KeptIsAdmitted(ds: seq<Declaration>)
    ensures Lists(Kept(ds), AdmitAll(map[], ds))
  {
    if ds != [] {
      var front, d := ds[..|ds| - 1], ds[|ds| - 1];
      assert ds == front + [d];
      KeptIsAdmitted(front);
      AdmitAllSnoc(map[], front, d);
      if Admit(AdmitAll(map[], front), false, d).Ok? { ListsSnoc(Kept(front), AdmitAll(map[], front), d); }
    }
  }

  /** Given distinct names, the scan refuses d exactly when some kept declaration holds one of its resources. */
  lemma ScanRefusal(ds: seq<Declaration>, d: Declaration)
    requires forall e :: e in ds ==> e.instance != d.instance
    ensures Admit(AdmitAll(map[], ds), false, d).Ok? <==> forall e :: e in Kept(ds) ==> !Shares(e, d)
  {
    KeptIsAdmitted(ds);
    var admitted := AdmitAll(map[], ds);
    assert d.instance !in admitted;
    if Conflicts(admitted, d) {
      var n :| n in admitted && n != d.instance && Shares(admitted[n], d);
      assert admitted[n] in Kept(ds);
    }
    if e :| e in Kept(ds) && Shares(e, d) {
      assert e.instance in admitted && admitted[e.instance] == e;
    }
  }

  // ------------------------------------------------------------- the claimed-map index

  /** claimed maps each resource of an accepted declaration to its holder, and nothing else. */
  ghost predicate Indexes(claimed: map<string, string>, accepted: seq<Declaration>)
  {
    && (forall r :: r in claimed ==> exists d :: d in accepted && r in d.exclusive && d.instance == claimed[r])
    && (forall d, r :: d in accepted && r in d.exclusive ==> r in claimed)
  }

  /** exclusiveConflict: the first wanted resource that is already claimed. */
  method ExclusiveConflict(claimed: map<string, string>, d: Declaration) returns (r: Option<FindingKind>)
    ensures r.None? <==> forall x :: x in d.exclusive ==> x !in claimed
    ensures r.Some? ==> r.value.ExclusiveResourceConflict? && r.value.resource in d.exclusive
                        && r.value.resource in claimed && r.value.holder == claimed[r.value.resource]
  {
    for i := 0 to |d.exclusive|
      invariant forall k :: 0 <= k < i ==> d.exclusive[k] !in claimed
    {
      var resource := d.exclusive[i];
      if resource in claimed {
        return Some(ExclusiveResourceConflict(resource, claimed[resource]));
      }
    }
    return None;
  }

  method Claim(claimed: map<string, string>, d: Declaration, ghost accepted: seq<Declaration>)
    returns (next: map<string, string>)
    requires Indexes(claimed, accepted) && forall x :: x in d.exclusive ==> x !in claimed
    ensures Indexes(next, accepted + [d])
  {
    next := claimed;
    for i := 0 to |d.exclusive|
      invariant next.Keys == claimed.Keys + Elements(d.exclusive[..i])
      invariant forall r :: r in claimed ==> next[r] == claimed[r]
      invariant forall k :: 0 <= k < i ==> next[d.exclusive[k]] == d.instance
    {
      assert d.exclusive[..i + 1] == d.exclusive[..i] + [d.exclusive[i]];
      next := next[d.exclusive[i] := d.instance];
    }
    assert d.exclusive[..|d.exclusive|] == d.exclusive;
    forall r | r in next ensures exists e :: e in accepted + [d] && r in e.exclusive && e.instance == next[r] {
      if r in claimed {
        var e :| e in accepted && r in e.exclusive && e.instance == claimed[r];
        assert e in accepted + [d];
      } else {
        assert d in accepted + [d];
      }
    }
  }

  /** What the enabled components declare, in the order the judge visits them. */
  function Declared(
    env: Env, factories: Table, components: map<string, Entry>, names: seq<string>): (ds: seq<Declaration>)
    requires forall i :: 0 <= i < |names| ==> names[i] in components
    ensures forall d :: d in ds ==> d.instance in names
  {
    if names == [] then []
    else
      var front, name := names[..|names| - 1], names[|names| - 1];
      var before := Declared(env, factories, components, front);
      DeclareInstanceExact(env, factories, name, components[name]);
      if !components[name].enabled then before
      else
        var one := DeclareInstance(env, factories, name, components[name]);
        if one.Err? then before else before + [one.value]
  }

  ghost predicate ConflictReported(findings: seq<Finding>)
  {
    exists i :: 0 <= i < |findings| && findings[i].kind.ExclusiveResourceConflict?
  }

  function AcceptedNames(ds: seq<Declaration>): set<string>
  {
    set i | 0 <= i < |ds| :: ds[i].instance
  }

  function FoundNames(findings: seq<Finding>): set<string>
  {
    set i | 0 <= i < |findings| :: findings[i].component
  }

  function EnabledNames(components: map<string, Entry>, names: seq<string>): set<string>
  {
    set i | 0 <= i < |names| && names[i] in components && components[names[i]].enabled :: names[i]
  }

  /** Every enabled component among `names` is either accepted or named by a finding, never both. */
  predicate Partitions(
    components: map<string, Entry>, names: seq<string>, accepted: seq<Declaration>, findings: seq<Finding>)
  {
    && AcceptedNames(accepted) + FoundNames(findings) == EnabledNames(components, names)
    && AcceptedNames(accepted) !! FoundNames(findings)
  }

  /** What holds after the judge has visited `names`, whose components declare `ds`. */
  ghost predicate Judged(
    env: Env, factories: Table, components: map<string, Entry>, names: seq<string>,
    ds: seq<Declaration>, accepted: seq<Declaration>, findings: seq<Finding>)
    requires forall i :: 0 <= i < |names| ==> names[i] in components
  {
    && ds == Declared(env, factories, components, names)
    && DistinctNames(ds)
    && accepted == Kept(ds)
    && (ConflictReported(findings) <==> Kept(ds) != ds)
    && Partitions(components, names, accepted, findings)
  }

  lemma FoundSnoc(fs: seq<Finding>, f: Finding)
    ensures FoundNames(fs + [f]) == FoundNames(fs) + {f.component}
    ensures ConflictReported(fs + [f]) <==> ConflictReported(fs) || f.kind.ExclusiveResourceConflict?
  {
    var all := fs + [f];
    assert all[|fs|] == f && forall i :: 0 <= i < |fs| ==> all[i] == fs[i];
  }

  lemma AcceptedSnoc(ds: seq<Declaration>, d: Declaration)
    ensures AcceptedNames(ds + [d]) == AcceptedNames(ds) + {d.instance}
  {
    var all := ds + [d];
    assert all[|ds|] == d && forall i :: 0 <= i < |ds| ==> all[i] == ds[i];
  }

  lemma EnabledSnoc(components: map<string, Entry>, names: seq<string>, name: string)
    requires name in components
    ensures EnabledNames(components, names + [name]) ==
      EnabledNames(components, names) + if components[name].enabled then {name} else {}
    ensures name !in names ==> name !in EnabledNames(components, names)
  {
    var all := names + [name];
    assert all[|names|] == name && forall i :: 0 <= i < |names| ==> all[i] == names[i];
  }

  lemma PartitionsSkipped(
    components: map<string, Entry>, names: seq<string>, name: string, accepted: seq<Declaration>,
    findings: seq<Finding>)
    requires Partitions(components, names, accepted, findings) && name in components && !components[name].enabled
    ensures Partitions(components, names + [name], accepted, findings)
  {
    EnabledSnoc(components, names, name);
  }

  lemma PartitionsFound(
    components: map<string, Entry>, names: seq<string>, name: string, accepted: seq<Declaration>,
    findings: seq<Finding>, f: Finding)
    requires Partitions(components, names, accepted, findings) && f.component == name
    requires name in components && components[name].enabled && name !in names
    ensures Partitions(components, names + [name], accepted, findings + [f])
  {
    EnabledSnoc(components, names, name);
    FoundSnoc(findings, f);
  }

  lemma PartitionsAccepted(
    components: map<string, Entry>, names: seq<string>, name: string, accepted: seq<Declaration>,
    findings: seq<Finding>, d: Declaration)
    requires Partitions(components, names, accepted, findings) && d.instance == name
    requires name in components && components[name].enabled && name !in names
    ensures Partitions(components, names + [name], accepted + [d], findings)
  {
    EnabledSnoc(components, names, name);
    AcceptedSnoc(accepted, d);
  }

  lemma DeclaredSnoc(env: Env, factories: Table, components: map<string, Entry>, names: seq<string>, name: string)
    requires (forall i :: 0 <= i < |names| ==> names[i] in components) && name in components
    ensures forall i :: 0 <= i < |names + [name]| ==> (names + [name])[i] in components
    ensures Declared(env, factories, components, names + [name]) ==
      var before := Declared(env, factories, components, names);
      var one := DeclareInstance(env, factories, name, components[name]);
      if components[name].enabled && one.Ok? then before + [one.value] else before
  {
    assert (names + [name])[..|names|] == names;
  }

  lemma VisitSkipped(
    env: Env, factories: Table, components: map<string, Entry>, names: seq<string>, name: string,
    ds: seq<Declaration>, accepted: seq<Declaration>, findings: seq<Finding>, f: Finding)
    requires (forall i :: 0 <= i < |names| ==> names[i] in components) && name in components && name !in names
    requires Judged(env, factories, components, names, ds, accepted, findings) && f.component == name
    requires !components[name].enabled || DeclareInstance(env, factories, name, components[name]).Err?
    requires !f.kind.ExclusiveResourceConflict?
    ensures forall i :: 0 <= i < |names + [name]| ==> (names + [name])[i] in components
    ensures Judged(env, factories, components, names + [name], ds, accepted,
                   if components[name].enabled then findings + [f] else findings)
  {
    DeclaredSnoc(env, factories, components, names, name);
    if components[name].enabled {
      PartitionsFound(components, names, name, accepted, findings, f);
      FoundSnoc(findings, f);
    } else {
      PartitionsSkipped(components, names, name, accepted, findings);
    }
  }

  lemma NewName(ds: seq<Declaration>, names: seq<string>, d: Declaration)
    requires DistinctNames(ds) && (forall e :: e in ds ==> e.instance in names) && d.instance !in names
    ensures DistinctNames(ds + [d]) && forall e :: e in ds ==> e.instance != d.instance
  {
    forall i | 0 <= i < |ds| ensures ds[i].instance != d.instance {
      assert ds[i] in ds;
    }
  }

  lemma NewIsKept(ds: seq<Declaration>, d: Declaration)
    requires forall e :: e in ds ==> e.instance != d.instance
    ensures Kept(ds + [d]) == if forall e :: e in Kept(ds) ==> !Shares(e, d) then Kept(ds) + [d] else Kept(ds)
  {
    ScanRefusal(ds, d);
    KeptSnoc(ds, d);
  }

  lemma DeclaredIsNew(
    env: Env, factories: Table, components: map<string, Entry>, names: seq<string>, name: string,
    ds: seq<Declaration>, d: Declaration)
    requires (forall i :: 0 <= i < |names| ==> names[i] in components) && name in components && name !in names
    requires ds == Declared(env, factories, components, names) && DistinctNames(ds)
    requires components[name].enabled && DeclareInstance(env, factories, name, components[name]) == Ok(d)
    ensures d.instance == name && DistinctNames(ds + [d])
    ensures forall i :: 0 <= i < |names + [name]| ==> (names + [name])[i] in components
    ensures Declared(env, factories, components, names + [name]) == ds + [d]
    ensures Kept(ds + [d]) == if forall e :: e in Kept(ds) ==> !Shares(e, d) then Kept(ds) + [d] else Kept(ds)
  {
    DeclareInstanceExact(env, factories, name, components[name]);
    DeclaredSnoc(env, factories, components, names, name);
    NewName(ds, names, d);
    NewIsKept(ds, d);
  }

  lemma SnocInjective<T>(a: seq<T>, b: seq<T>, x: T)
    ensures a + [x] == b + [x] <==> a == b
  {
    assert (a + [x])[..|a|] == a && (b + [x])[..|b|] == b;
    assert a + [x] == b + [x] ==> |a + [x]| == |b + [x]|;
  }

  lemma VisitAccepted(
    env: Env, factories: Table, components: map<string, Entry>, names: seq<string>, name: string,
    ds: seq<Declaration>, accepted: seq<Declaration>, findings: seq<Finding>, d: Declaration)
    requires (forall i :: 0 <= i < |names| ==> names[i] in components) && name in components && name !in names
    requires Judged(env, factories, components, names, ds, accepted, findings)
    requires components[name].enabled && DeclareInstance(env, factories, name, components[name]) == Ok(d)
    requires forall e :: e in accepted ==> !Shares(e, d)
    ensures forall i :: 0 <= i < |names + [name]| ==> (names + [name])[i] in components
    ensures Judged(env, factories, components, names + [name], ds + [d], accepted + [d], findings)
  {
    DeclaredIsNew(env, factories, components, names, name, ds, d);
    PartitionsAccepted(components, names, name, accepted, findings, d);
    SnocInjective(Kept(ds), ds, d);
  }

  lemma VisitConflict(
    env: Env, factories: Table, components: map<string, Entry>, names: seq<string>, name: string,
    ds: seq<Declaration>, accepted: seq<Declaration>, findings: seq<Finding>, d: Declaration, f: Finding)
    requires (forall i :: 0 <= i < |names| ==> names[i] in components) && name in components && name !in names
    requires Judged(env, factories, components, names, ds, accepted, findings)
    requires components[name].enabled && DeclareInstance(env, factories, name, components[name]) == Ok(d)
    requires !(forall e :: e in accepted ==> !Shares(e, d))
    requires f.component == name && f.kind.ExclusiveResourceConflict?
    ensures forall i :: 0 <= i < |names + [name]| ==> (names + [name])[i] in components
    ensures Judged(env, factories, components, names + [name], ds + [d], accepted, findings + [f])
  {
    DeclaredIsNew(env, factories, components, names, name, ds, d);
    PartitionsFound(components, names, name, accepted, findings, f);
    FoundSnoc(findings, f);
    KeptShort(ds);
  }

  /** Judged, with the index of what the accepted declarations claim. */
  ghost predicate JudgedSoFar(
    env: Env, factories: Table, components: map<string, Entry>, names: seq<string>,
    ds: seq<Declaration>, accepted: seq<Declaration>, findings: seq<Finding>, claimed: map<string, string>)
  {
    && (forall i :: 0 <= i < |names| ==> names[i] in components)
    && Judged(env, factories, components, names, ds, accepted, findings)
    && Indexes(claimed, accepted)
  }

  lemma NothingJudged(env: Env, factories: Table, components: map<string, Entry>)
    ensures JudgedSoFar(env, factories, components, [], [], [], [], map[])
  {
  }

  /** The body of Validate's loop. */
  method Visit(
    env: Env, factories: Table, components: map<string, Entry>, ghost names: seq<string>, name: string,
    ghost ds: seq<Declaration>, accepted: seq<Declaration>, findings: seq<Finding>, claimed: map<string, string>)
    returns (ghost ds': seq<Declaration>, accepted': seq<Declaration>, findings': seq<Finding>,
             claimed': map<string, string>)
    requires JudgedSoFar(env, factories, components, names, ds, accepted, findings, claimed)
    requires name in components && name !in names
    ensures JudgedSoFar(env, factories, components, names + [name], ds', accepted', findings', claimed')
  {
    ds', accepted', findings', claimed' := ds, accepted, findings, claimed;
    var entry := components[name];
    if !entry.enabled {
      VisitSkipped(env, factories, components, names, name, ds, accepted, findings, Finding(UnknownComponent, name));
      return;
    }
    var one := DeclareInstance(env, factories, name, entry);
    if one.Err? {
      VisitSkipped(env, factories, components, names, name, ds, accepted, findings, Finding(one.error, name));
      findings' := findings + [Finding(one.error, name)];
      return;
    }
    var d := one.value;
    ds' := ds + [d];
    var conflict := ExclusiveConflict(claimed, d);
    IndexIsScan(claimed, accepted, d);
    if conflict.Some? {
      VisitConflict(env, factories, components, names, name, ds, accepted, findings, d, Finding(conflict.value, name));
      findings' := findings + [Finding(conflict.value, name)];
      return;
    }
    VisitAccepted(env, factories, components, names, name, ds, accepted, findings, d);
    claimed' := Claim(claimed, d, accepted);
    accepted' := accepted + [d];
  }

  /** The order in which the judge visits the components. */
  function JudgeOrder(components: map<string, Entry>): (names: seq<string>)
    ensures StrictlySorted(names) && Elements(names) == components.Keys
    ensures forall i :: 0 <= i < |names| ==> names[i] in components
  {
    var names := SortedSet(components.Keys);
    assert forall i :: 0 <= i < |names| ==> names[i] in Elements(names);
    names
  }

  lemma NextToVisit(names: seq<string>, k: nat)
    requires StrictlySorted(names) && k < |names|
    ensures names[k] !in names[..k] && names[..k + 1] == names[..k] + [names[k]]
  {
    StrictlySortedDistinct(names);
  }

  /**
    The admission half of Validate: the declarations that reach the graph are exactly the ones the
    registry keeps when given the same declarations in the same order; a conflict is reported
    exactly when some declaration is not kept; and every enabled component is either accepted or
    named by a finding, never both.
   */
  method Judge(env: Env, factories: Table, components: map<string, Entry>)
    returns (accepted: seq<Declaration>, findings: seq<Finding>)
    ensures var names := JudgeOrder(components);
      Judged(env, factories, components, names, Declared(env, factories, components, names), accepted, findings)
  {
    var names := JudgeOrder(components);
    ghost var ds;
    ds, accepted, findings := VisitAll(env, factories, components, names);
  }

  /** The loop of Validate. */
  method VisitAll(env: Env, factories: Table, components: map<string, Entry>, names: seq<string>)
    returns (ghost ds: seq<Declaration>, accepted: seq<Declaration>, findings: seq<Finding>)
    requires StrictlySorted(names) && forall i :: 0 <= i < |names| ==> names[i] in components
    ensures Judged(env, factories, components, names, ds, accepted, findings)
  {
    ds, accepted, findings := [], [], [];
    var claimed: map<string, string> := map[];
    NothingJudged(env, factories, components);
    for k := 0 to |names|
      invariant JudgedSoFar(env, factories, components, names[..k], ds, accepted, findings, claimed)
    {
      NextToVisit(names, k);
      ds, accepted, findings, claimed :=
        Visit(env, factories, components, names[..k], names[k], ds, accepted, findings, claimed);
    }
    assert names[..|names|] == names;
  }

  /** A resource is claimed exactly when an accepted declaration holds it. */
  lemma IndexIsScan(claimed: map<string, string>, accepted: seq<Declaration>, d: Declaration)
    requires Indexes(claimed, accepted)
    ensures (forall x :: x in d.exclusive ==> x !in claimed) <==> forall e :: e in accepted ==> !Shares(e, d)
  {
    forall x | x in d.exclusive && x in claimed ensures exists e :: e in accepted && Shares(e, d) {
      var e :| e in accepted && x in e.exclusive && e.instance == claimed[x];
      assert Shares(e, d);
    }
  }

  lemma KeptSnoc(ds: seq<Declaration>, d: Declaration)
    ensures Kept(ds + [d]) == if Admit(AdmitAll(map[], ds), false, d).Ok? then Kept(ds) + [d] else Kept(ds)
    ensures |Kept(ds)| <= |ds|
  {
    assert (ds + [d])[..|ds|] == ds;
    KeptShort(ds);
  }

  lemma {:induction false} KeptShort(ds: seq<Declaration>)
    ensures |Kept(ds)| <= |ds|
  {
    if ds != [] { KeptShort(ds[..|ds| - 1]); }
  }

  // ------------------------------------------------------------------- what it predicts

  /** No two of the declarations share an exclusive resource. */
  predicate PairwiseDisjoint(ds: seq<Declaration>)
  {
    forall i, j :: 0 <= i < j < |ds| ==> !Shares(ds[i], ds[j])
  }

  lemma DisjointSnoc(ds: seq<Declaration>, d: Declaration)
    ensures PairwiseDisjoint(ds + [d]) <==> PairwiseDisjoint(ds) && forall e :: e in ds ==> !Shares(e, d)
  {
    var all := ds + [d];
    assert all[|ds|] == d && forall i :: 0 <= i < |ds| ==> all[i] == ds[i];
    if PairwiseDisjoint(all) {
      forall e | e in ds ensures !Shares(e, d) {
        var i :| 0 <= i < |ds| && ds[i] == e;
        assert !Shares(all[i], all[|ds|]);
      }
      forall i, j | 0 <= i < j < |ds| ensures !Shares(ds[i], ds[j]) {
        assert !Shares(all[i], all[j]);
      }
    }
  }

  /** Everything is kept, so no conflict is reported, exactly when the declarations are pairwise disjoint. */
  lemma {:induction false} AllKeptIffDisjoint(ds: seq<Declaration>)
    requires DistinctNames(ds)
    ensures Kept(ds) == ds <==> PairwiseDisjoint(ds)
  {
    if ds != [] {
      var front, d := ds[..|ds| - 1], ds[|ds| - 1];
      assert ds == front + [d];
      AllKeptIffDisjoint(front);
      DisjointSnoc(front, d);
      NewIsKept(front, d);
      KeptShort(front);
      SnocInjective(Kept(front), front, d);
    }
  }

  /** Two lists that claim the same resources under the same names, position by position. */
  predicate SameClaimants(ds: seq<Declaration>, ps: seq<Declaration>)
  {
    |ds| == |ps| && forall i :: 0 <= i < |ds| ==> ds[i].instance == ps[i].instance && ds[i].exclusive == ps[i].exclusive
  }

  /** The outcome of admission depends on nothing else. */
  lemma {:induction false} KeptByClaims(ds: seq<Declaration>, ps: seq<Declaration>)
    requires SameClaimants(ds, ps) && DistinctNames(ds)
    ensures SameClaimants(Kept(ds), Kept(ps))
  {
    if ds != [] {
      var front, d := ds[..|ds| - 1], ds[|ds| - 1];
      var front', d' := ps[..|ps| - 1], ps[|ps| - 1];
      LastIsNew(ds);
      LastIsNew(ps);
      KeptByClaims(front, front');
      RefusedByClaims(front, front', d, d');
      SnocClaimants(Kept(front), Kept(front'), d, d');
    }
  }

  lemma LastIsNew(ds: seq<Declaration>)
    requires DistinctNames(ds) && ds != []
    ensures DistinctNames(ds[..|ds| - 1]) && forall e :: e in ds[..|ds| - 1] ==> e.instance != ds[|ds| - 1].instance
  {
  }

  lemma SnocClaimants(a: seq<Declaration>, b: seq<Declaration>, d: Declaration, e: Declaration)
    requires SameClaimants(a, b) && d.instance == e.instance && d.exclusive == e.exclusive
    ensures SameClaimants(a + [d], b + [e])
  {
  }

  lemma RefusedByClaims(front: seq<Declaration>, front': seq<Declaration>, d: Declaration, d': Declaration)
    requires SameClaimants(Kept(front), Kept(front')) && d.exclusive == d'.exclusive
    requires forall e :: e in front ==> e.instance != d.instance
    requires forall e :: e in front' ==> e.instance != d'.instance
    ensures Admit(AdmitAll(map[], front), false, d).Ok? <==> Admit(AdmitAll(map[], front'), false, d').Ok?
  {
    ScanRefusal(front, d);
    ScanRefusal(front', d');
    SharesByClaims(Kept(front), Kept(front'), d, d');
    SharesByClaims(Kept(front'), Kept(front), d', d);
  }

  lemma SharesByClaims(es: seq<Declaration>, es': seq<Declaration>, d: Declaration, d': Declaration)
    requires SameClaimants(es, es') && d.exclusive == d'.exclusive
    ensures (forall e :: e in es ==> !Shares(e, d)) ==> (forall e :: e in es' ==> !Shares(e, d'))
  {
    if forall e :: e in es ==> !Shares(e, d) {
      forall e | e in es' ensures !Shares(e, d') {
        var i :| 0 <= i < |es'| && es'[i] == e;
        assert es[i] in es;
        assert !Shares(es[i], d);
      }
    }
  }

  /**
    The judge predicts boot. If the configuration passes the gate and every enabled component
    prepares, then the declarations the judge lets through carry the same names and resources, in
    order, as those the registry admits when the constructed components are offered in the judge's
    order.
   */
  lemma {:induction false} JudgePredictsBoot(
    env: Env, factories: Table, components: map<string, Entry>, names: seq<string>,
    client: bool, built: string -> Built, made: seq<Declaration>)
    requires Settles(env.resolve) && StrictlySorted(names)
    requires forall i :: 0 <= i < |names| ==> names[i] in components
    requires EntriesValid(components)
    requires forall i :: 0 <= i < |names| && components[names[i]].enabled ==>
      Prepare(env, factories, names[i], components[names[i]], client, built(names[i])).Ok?
    requires made == Constructed(env, factories, components, names, client, built)
    ensures var ds := Declared(env, factories, components, names);
      DistinctNames(ds) && SameClaimants(ds, made) && SameClaimants(Kept(ds), Kept(made))
  {
    DeclaredMatchesConstructed(env, factories, components, names, client, built);
    KeptByClaims(Declared(env, factories, components, names), made);
  }

  /** What the constructed components declare, in the judge's order. */
  function Constructed(
    env: Env, factories: Table, components: map<string, Entry>, names: seq<string>, client: bool,
    built: string -> Built)
    : seq<Declaration>
    requires forall i :: 0 <= i < |names| ==> names[i] in components
  {
    if names == [] then []
    else
      var front, name := names[..|names| - 1], names[|names| - 1];
      var before := Constructed(env, factories, components, front, client, built);
      var one := Prepare(env, factories, name, components[name], client, built(name));
      if components[name].enabled && one.Ok? then before + [one.value] else before
  }

  lemma OneMatches(env: Env, factories: Table, name: string, entry: Entry, client: bool, built: Built)
    requires Settles(env.resolve) && KnownType(entry.typ) && Prepare(env, factories, name, entry, client, built).Ok?
    ensures var d := DeclareInstance(env, factories, name, entry);
      var p := Prepare(env, factories, name, entry, client, built);
      d.Ok? && d.value.instance == p.value.instance == name && d.value.exclusive == p.value.exclusive
  {
    PreparedAcceptedIffTypeKnown(env, factories, name, entry, client, built);
    PreparedIsRetained(env, factories, name, entry, client, built);
    DeclareInstanceExact(env, factories, name, entry);
  }

  lemma {:induction false} DeclaredMatchesConstructed(
    env: Env, factories: Table, components: map<string, Entry>, names: seq<string>, client: bool,
    built: string -> Built)
    requires Settles(env.resolve) && StrictlySorted(names)
    requires forall i :: 0 <= i < |names| ==> names[i] in components
    requires EntriesValid(components)
    requires forall i :: 0 <= i < |names| && components[names[i]].enabled ==>
      Prepare(env, factories, names[i], components[names[i]], client, built(names[i])).Ok?
    ensures var ds := Declared(env, factories, components, names);
      DistinctNames(ds) && SameClaimants(ds, Constructed(env, factories, components, names, client, built))
  {
    if names != [] {
      var front, name := names[..|names| - 1], names[|names| - 1];
      DeclaredMatchesConstructed(env, factories, components, front, client, built);
      if components[name].enabled {
        OneMatches(env, factories, name, components[name], client, built(name));
        NextToVisit(names, |names| - 1);
        var d := DeclareInstance(env, factories, name, components[name]).value;
        NewName(Declared(env, factories, components, front), front, d);
        SnocClaimants(Declared(env, factories, components, front),
                      Constructed(env, factories, components, front, client, built),
                      d, Prepare(env, factories, name, components[name], client, built(name)).value);
      }
    }
  }

  // ------------------------------------------------------- and what every boot order does

  /** A conflict-free set of declarations is admitted whole, whatever came first. */
  lemma {:induction false} ConflictFreeAdmitsAll(ds: seq<Declaration>)
    requires DistinctNames(ds) && PairwiseDisjoint(ds)
    ensures forall d :: d in ds ==> d.instance in AdmitAll(map[], ds) && AdmitAll(map[], ds)[d.instance] == d
  {
    AllKeptIffDisjoint(ds);
    KeptIsAdmitted(ds);
  }

  /**
    So in every interleaving whose admission attempts are of distinct instances with pairwise
    disjoint resources, each attempt made before the seal is admitted and stays admitted.
   */
  lemma ConflictFreeRunAdmitsAll(env: Env, steps: seq<Step>)
    requires DistinctNames(Attempts(env, Boot, steps)) && PairwiseDisjoint(Attempts(env, Boot, steps))
    ensures forall d :: d in Attempts(env, Boot, steps) ==>
      d.instance in Run(env, Boot, steps).declarations && Run(env, Boot, steps).declarations[d.instance] == d
  {
    RunLinearises(env, Boot, steps);
    ConflictFreeAdmitsAll(Attempts(env, Boot, steps));
  }

  lemma {:induction false} CountedOnce(ds: seq<Declaration>, d: Declaration)
    requires DistinctNames(ds)
    ensures multiset(ds)[d] <= 1
  {
    if ds != [] {
      var front, last := ds[..|ds| - 1], ds[|ds| - 1];
      assert ds == front + [last];
      CountedOnce(front, d);
      if d == last {
        assert d !in front;
        assert multiset(front)[d] == 0;
      }
    }
  }

  lemma CountedTwice(ds: seq<Declaration>, i: nat, j: nat)
    requires i < j < |ds| && ds[i] == ds[j]
    ensures multiset(ds)[ds[j]] >= 2
  {
    assert ds == ds[..j] + [ds[j]] + ds[j + 1..];
    assert ds[..j][i] == ds[j];
    assert multiset(ds[..j])[ds[j]] >= 1;
  }

  /** Distinct names survive any reordering. */
  lemma DistinctPermutes(a: seq<Declaration>, b: seq<Declaration>)
    requires DistinctNames(a) && multiset(a) == multiset(b)
    ensures DistinctNames(b)
  {
    forall i, j | 0 <= i < j < |b| ensures b[i].instance != b[j].instance {
      assert b[i] in multiset(a) && b[j] in multiset(a);
      CountedOnce(a, b[j]);
      if b[i] == b[j] { CountedTwice(b, i, j); }
    }
  }

  /** And so does having no resource in common. */
  lemma DisjointPermutes(a: seq<Declaration>, b: seq<Declaration>)
    requires DistinctNames(a) && DistinctNames(b) && multiset(a) == multiset(b) && PairwiseDisjoint(a)
    ensures PairwiseDisjoint(b)
  {
    forall i, j | 0 <= i < j < |b| ensures !Shares(b[i], b[j]) {
      assert b[i] in multiset(a) && b[j] in multiset(a);
      var k :| 0 <= k < |a| && a[k] == b[i];
      var l :| 0 <= l < |a| && a[l] == b[j];
      assert k != l;
      assert if k < l then !Shares(a[k], a[l]) else !Shares(a[l], a[k]);
    }
  }

  lemma DisjointByClaims(ds: seq<Declaration>, ps: seq<Declaration>)
    requires SameClaimants(ds, ps)
    ensures PairwiseDisjoint(ds) <==> PairwiseDisjoint(ps)
  {
    assert forall i, j :: 0 <= i < j < |ds| ==> Shares(ds[i], ds[j]) == Shares(ps[i], ps[j]);
  }

  /** Every one of these declarations is admitted, as it is. */
  ghost predicate AllAdmitted(admitted: Admitted, ds: seq<Declaration>)
  {
    forall d :: d in ds ==> d.instance in admitted && admitted[d.instance] == d
  }

  lemma AdmittedAreDisjoint(admitted: Admitted, ds: seq<Declaration>)
    requires Coherent(admitted) && DistinctNames(ds) && AllAdmitted(admitted, ds)
    ensures PairwiseDisjoint(ds)
  {
    forall i, j | 0 <= i < j < |ds| ensures !Shares(ds[i], ds[j]) {
      assert ds[i] in ds && ds[j] in ds;
    }
  }

  /** A run that offers each of `made` once before the seal admits all of them exactly when they are disjoint. */
  lemma RunAdmitsAllIff(env: Env, made: seq<Declaration>, steps: seq<Step>)
    requires Settles(env.resolve) && DistinctNames(made) && multiset(Attempts(env, Boot, steps)) == multiset(made)
    ensures AllAdmitted(Run(env, Boot, steps).declarations, made) <==> PairwiseDisjoint(made)
  {
    var attempts := Attempts(env, Boot, steps);
    DistinctPermutes(made, attempts);
    BootIsSafe(env, steps);
    if AllAdmitted(Run(env, Boot, steps).declarations, made) {
      AdmittedAreDisjoint(Run(env, Boot, steps).declarations, made);
    }
    if PairwiseDisjoint(made) {
      DisjointPermutes(made, attempts);
      ConflictFreeRunAdmitsAll(env, steps);
      assert forall d :: d in made ==> d in multiset(attempts);
    }
  }

  /**
    The verdict decides boot. When the configuration passes the gate that boot starts with and every
    enabled component prepares, the judge reports no conflict exactly when an interleaving in which
    each of them is offered once before the seal admits all of them; so the answer is the same for
    every such interleaving.
   */
  lemma VerdictDecidesBoot(
    env: Env, factories: Table, components: map<string, Entry>, client: bool, built: string -> Built,
    accepted: seq<Declaration>, findings: seq<Finding>, steps: seq<Step>)
    requires Settles(env.resolve) && EntriesValid(components)
    requires forall n :: n in components && components[n].enabled ==>
      Prepare(env, factories, n, components[n], client, built(n)).Ok?
    requires var names := JudgeOrder(components);
      && Judged(env, factories, components, names, Declared(env, factories, components, names), accepted, findings)
      && multiset(Attempts(env, Boot, steps)) == multiset(Constructed(env, factories, components, names, client, built))
    ensures !ConflictReported(findings) <==>
      AllAdmitted(Run(env, Boot, steps).declarations,
                  Constructed(env, factories, components, JudgeOrder(components), client, built))
  {
    var names := JudgeOrder(components);
    var ds := Declared(env, factories, components, names);
    var made := Constructed(env, factories, components, names, client, built);
    DeclaredMatchesConstructed(env, factories, components, names, client, built);
    AllKeptIffDisjoint(ds);
    DisjointByClaims(ds, made);
    RunAdmitsAllIff(env, made, steps);
  }
}
