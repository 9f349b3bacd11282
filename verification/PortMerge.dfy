/**
  Lane decoding and override merging (PortConfig.UnmarshalJSON and mergePortDirection in
  component/ports.go), each loop proved against a lookup specification.
 */
module PortMerge {
  import opened Outcome
  import opened PortGrammar
  import opened PortResolver

  datatype MergeError =
    | DuplicateDefault(name: string) | DuplicateOverride(name: string) | UnknownOverride(name: string)
    | Unresolvable(name: string, reason: PortError) | KindChanged(name: string)

  predicate Resolves(resolve: Resolver, def: Definition, d: Direction)
  {
    resolve(def, d).Ok?
  }

  /** definitionFromPort of the resolved definition. */
  function Settled(resolve: Resolver, def: Definition, d: Direction): Definition
    requires Resolves(resolve, def, d)
  {
    DefinitionOf(resolve(def, d).value.0)
  }

  /** kindOf; None for a nil config. */
  function KindOf(resolve: Resolver, def: Definition, d: Direction): Option<Kind>
    requires Resolves(resolve, def, d)
  {
    KindIn(Settled(resolve, def, d))
  }

  function KindIn(def: Definition): Option<Kind>
  {
    if def.config.None? then None else Some(def.config.value.Kind())
  }

  predicate DistinctDefs(defs: seq<Definition>)
  {
    forall i, j :: 0 <= i < j < |defs| ==> defs[i].name != defs[j].name
  }

  function NamesOf(defs: seq<Definition>): set<string>
  {
    set i | 0 <= i < |defs| :: defs[i].name
  }

  predicate LaneOk(resolve: Resolver, defs: seq<Definition>, d: Direction)
  {
    DistinctDefs(defs) && forall i :: 0 <= i < |defs| ==> Resolves(resolve, defs[i], d)
  }

  /** One lane of PortConfig.UnmarshalJSON, and the first loop of mergePortDirection. */
  method ResolveLane(resolve: Resolver, defs: seq<Definition>, d: Direction)
    returns (r: Result<seq<Definition>, MergeError>, indexes: map<string, nat>)
    ensures r.Ok? <==> LaneOk(resolve, defs, d)
    ensures r.Ok? ==> |r.value| == |defs|
    ensures r.Ok? ==> forall i :: 0 <= i < |defs| ==>
              Resolves(resolve, defs[i], d) && r.value[i] == Settled(resolve, defs[i], d)
    ensures r.Ok? ==> forall n :: n in indexes <==> exists i :: 0 <= i < |defs| && defs[i].name == n
    ensures r.Ok? ==> forall n :: n in indexes ==> indexes[n] < |defs| && defs[indexes[n]].name == n
    ensures r.Err? && r.error.DuplicateDefault? ==> !DistinctDefs(defs)
  {
    indexes := map[];
    var out: seq<Definition> := [];
    for k := 0 to |defs|
      invariant |out| == k
      invariant LaneOk(resolve, defs[..k], d)
      invariant forall i :: 0 <= i < k ==> Resolves(resolve, defs[i], d) && out[i] == Settled(resolve, defs[i], d)
      invariant forall n :: n in indexes <==> exists i :: 0 <= i < k && defs[i].name == n
      invariant forall n :: n in indexes ==> indexes[n] < k && defs[indexes[n]].name == n
    {
      if defs[k].name in indexes {
        assert defs[indexes[defs[k].name]].name == defs[k].name;
        return Err(DuplicateDefault(defs[k].name)), indexes;
      }
      var port := resolve(defs[k], d);
      if port.Err? {
        assert !Resolves(resolve, defs[k], d);
        return Err(Unresolvable(defs[k].name, port.error)), indexes;
      }
      indexes := indexes[defs[k].name := k];
      out := out + [DefinitionOf(port.value.0)];
      assert defs[..k + 1] == defs[..k] + [defs[k]];
    }
    assert defs[..|defs|] == defs;
    r := Ok(out);
  }

  /** The override a name selects, None when it has none. */
  function OverrideFor(overrides: seq<Definition>, name: string): (r: Option<Definition>)
    ensures r.None? <==> forall i :: 0 <= i < |overrides| ==> overrides[i].name != name
    ensures r.Some? ==> r.value in overrides && r.value.name == name
  {
    if overrides == [] then None
    else if overrides[0].name == name then Some(overrides[0])
    else OverrideFor(overrides[1..], name)
  }

  /** One override against the defaults: it names one of them, resolves, and keeps its kind. */
  predicate Replaces(resolve: Resolver, defaults: seq<Definition>, o: Definition, d: Direction)
  {
    && Resolves(resolve, o, d)
    && exists i :: 0 <= i < |defaults| && defaults[i].name == o.name && Resolves(resolve, defaults[i], d)
                   && KindOf(resolve, defaults[i], d) == KindOf(resolve, o, d)
  }

  /** The lookup specification: when a merge is accepted, */
  predicate MergeOk(resolve: Resolver, defaults: seq<Definition>, overrides: seq<Definition>, d: Direction)
  {
    && LaneOk(resolve, defaults, d)
    && DistinctDefs(overrides)
    && forall j :: 0 <= j < |overrides| ==> Replaces(resolve, defaults, overrides[j], d)
  }

  /** and what then sits in the slot of one default. */
  function Slot(resolve: Resolver, def: Definition, overrides: seq<Definition>, d: Direction): Definition
    requires Resolves(resolve, def, d)
    requires forall j :: 0 <= j < |overrides| ==> Resolves(resolve, overrides[j], d)
  {
    var o := OverrideFor(overrides, def.name);
    if o.None? then Settled(resolve, def, d) else Settled(resolve, o.value, d)
  }

  lemma {:induction false} OverrideForAppend(overrides: seq<Definition>, o: Definition, name: string)
    ensures OverrideFor(overrides + [o], name) ==
              if OverrideFor(overrides, name).Some? then OverrideFor(overrides, name)
              else if o.name == name then Some(o) else None
  {
    if overrides == [] {
      assert [] + [o] == [o];
    } else {
      OverrideForAppend(overrides[1..], o, name);
      assert (overrides + [o])[1..] == overrides[1..] + [o];
    }
  }

  /** The slots once the overrides in `done` have been applied. */
  ghost predicate SlotsFor(
    resolve: Resolver, defaults: seq<Definition>, done: seq<Definition>, d: Direction, slots: seq<Definition>)
    requires LaneOk(resolve, defaults, d)
  {
    && |slots| == |defaults|
    && (forall j :: 0 <= j < |done| ==> Resolves(resolve, done[j], d))
    && (forall i :: 0 <= i < |defaults| ==> slots[i] == Slot(resolve, defaults[i], done, d))
    && (forall i :: 0 <= i < |defaults| ==> KindIn(slots[i]) == KindOf(resolve, defaults[i], d))
  }

  lemma SlotsAfterOverride(
    resolve: Resolver, defaults: seq<Definition>, done: seq<Definition>, o: Definition,
    d: Direction, slots: seq<Definition>, at: nat)
    requires LaneOk(resolve, defaults, d) && SlotsFor(resolve, defaults, done, d, slots)
    requires forall j :: 0 <= j < |done| ==> done[j].name != o.name
    requires Resolves(resolve, o, d) && at < |defaults| && defaults[at].name == o.name
    requires KindOf(resolve, defaults[at], d) == KindOf(resolve, o, d)
    ensures SlotsFor(resolve, defaults, done + [o], d, slots[at := Settled(resolve, o, d)])
  {
    forall i | 0 <= i < |defaults|
      ensures slots[at := Settled(resolve, o, d)][i] == Slot(resolve, defaults[i], done + [o], d)
    {
      OverrideForAppend(done, o, defaults[i].name);
    }
  }

  lemma ReplacesByIndex(resolve: Resolver, defaults: seq<Definition>, o: Definition, d: Direction, at: nat)
    requires LaneOk(resolve, defaults, d) && at < |defaults| && defaults[at].name == o.name
    ensures Replaces(resolve, defaults, o, d) <==>
              Resolves(resolve, o, d) && KindOf(resolve, defaults[at], d) == KindOf(resolve, o, d)
  {
  }

  /** The body of mergePortDirection's second loop: one override replaces the slot it names. */
  method ReplaceSlot(
    resolve: Resolver, ghost defaults: seq<Definition>, ghost done: seq<Definition>, o: Definition, d: Direction,
    indexes: map<string, nat>, seen: set<string>, slots: seq<Definition>)
    returns (r: Result<seq<Definition>, MergeError>)
    requires LaneOk(resolve, defaults, d) && SlotsFor(resolve, defaults, done, d, slots)
    requires forall n :: n in indexes <==> exists i :: 0 <= i < |defaults| && defaults[i].name == n
    requires forall n :: n in indexes ==> indexes[n] < |defaults| && defaults[indexes[n]].name == n
    requires seen == NamesOf(done)
    ensures r.Ok? <==> o.name !in seen && Replaces(resolve, defaults, o, d)
    ensures r.Ok? ==> SlotsFor(resolve, defaults, done + [o], d, r.value)
  {
    if o.name in seen {
      return Err(DuplicateOverride(o.name));
    }
    if o.name !in indexes {
      return Err(UnknownOverride(o.name));
    }
    var at := indexes[o.name];
    ReplacesByIndex(resolve, defaults, o, d, at);
    var port := resolve(o, d);
    if port.Err? {
      return Err(Unresolvable(o.name, port.error));
    }
    var settled := DefinitionOf(port.value.0);
    if KindIn(settled) != KindIn(slots[at]) {
      return Err(KindChanged(o.name));
    }
    assert forall j :: 0 <= j < |done| ==> done[j].name in NamesOf(done);
    SlotsAfterOverride(resolve, defaults, done, o, d, slots, at);
    r := Ok(slots[at := settled]);
  }

  lemma MergeOkAppend(resolve: Resolver, defaults: seq<Definition>, done: seq<Definition>, o: Definition, d: Direction)
    ensures MergeOk(resolve, defaults, done + [o], d) <==>
              MergeOk(resolve, defaults, done, d) && o.name !in NamesOf(done) && Replaces(resolve, defaults, o, d)
    ensures NamesOf(done + [o]) == NamesOf(done) + {o.name}
  {
    var all := done + [o];
    assert all[|done|] == o && forall j :: 0 <= j < |done| ==> all[j] == done[j];
    if DistinctDefs(all) {
      assert forall i, j :: 0 <= i < j < |done| ==> all[i].name != all[j].name;
      assert forall j :: 0 <= j < |done| ==> all[j].name != all[|done|].name;
    }
    if forall j :: 0 <= j < |all| ==> Replaces(resolve, defaults, all[j], d) {
      assert forall j :: 0 <= j < |done| ==> Replaces(resolve, defaults, all[j], d);
    }
  }

  lemma MergeOkPrefix(resolve: Resolver, defaults: seq<Definition>, overrides: seq<Definition>, d: Direction, k: nat)
    requires MergeOk(resolve, defaults, overrides, d) && k <= |overrides|
    ensures MergeOk(resolve, defaults, overrides[..k], d)
  {
  }

  /** mergePortDirection. */
  method MergePortDirection(
    resolve: Resolver, defaults: seq<Definition>, overrides: seq<Definition>, d: Direction)
    returns (r: Result<seq<Definition>, MergeError>)
    ensures r.Ok? <==> MergeOk(resolve, defaults, overrides, d)
    ensures r.Ok? ==> SlotsFor(resolve, defaults, overrides, d, r.value)
  {
    var lane, indexes := ResolveLane(resolve, defaults, d);
    if lane.Err? { return lane; }
    var slots := lane.value;
    var seen: set<string> := {};
    for k := 0 to |overrides|
      invariant seen == NamesOf(overrides[..k])
      invariant MergeOk(resolve, defaults, overrides[..k], d)
      invariant SlotsFor(resolve, defaults, overrides[..k], d, slots)
    {
      assert overrides[..k + 1] == overrides[..k] + [overrides[k]];
      MergeOkAppend(resolve, defaults, overrides[..k], overrides[k], d);
      var next := ReplaceSlot(resolve, defaults, overrides[..k], overrides[k], d, indexes, seen, slots);
      if next.Err? {
        if MergeOk(resolve, defaults, overrides, d) { MergeOkPrefix(resolve, defaults, overrides, d, k + 1); }
        return next;
      }
      slots := next.value;
      seen := seen + {overrides[k].name};
    }
    assert overrides[..|overrides|] == overrides;
    r := Ok(slots);
  }

  lemma SettledFixpoint(resolve: Resolver, def: Definition, d: Direction)
    requires Settles(resolve) && Resolves(resolve, def, d)
    ensures Resolves(resolve, Settled(resolve, def, d), d)
    ensures Settled(resolve, def, d).name == def.name
    ensures Settled(resolve, Settled(resolve, def, d), d) == Settled(resolve, def, d)
  {
    assert resolve(def, d).Ok?;
  }

  /** An accepted merge keeps the order, the names and the kinds of the defaults. */
  lemma SlotKeepsNameAndKind(
    resolve: Resolver, defaults: seq<Definition>, overrides: seq<Definition>, d: Direction, i: nat)
    requires Settles(resolve) && MergeOk(resolve, defaults, overrides, d) && i < |defaults|
    ensures forall j :: 0 <= j < |overrides| ==> Resolves(resolve, overrides[j], d)
    ensures var s := Slot(resolve, defaults[i], overrides, d);
      s.name == defaults[i].name && Resolves(resolve, s, d) && Settled(resolve, s, d) == s
      && KindOf(resolve, s, d) == KindOf(resolve, defaults[i], d)
  {
    forall j | 0 <= j < |overrides| ensures Resolves(resolve, overrides[j], d) {
      assert Replaces(resolve, defaults, overrides[j], d);
    }
    var o := OverrideFor(overrides, defaults[i].name);
    if o.Some? {
      var j :| 0 <= j < |overrides| && overrides[j] == o.value;
      assert Replaces(resolve, defaults, overrides[j], d);
      var k :| 0 <= k < |defaults| && defaults[k].name == o.value.name && Resolves(resolve, defaults[k], d)
               && KindOf(resolve, defaults[k], d) == KindOf(resolve, o.value, d);
      assert k == i;
      SettledFixpoint(resolve, o.value, d);
    } else {
      SettledFixpoint(resolve, defaults[i], d);
    }
  }

  /** Merging the same overrides into an accepted result is accepted and changes nothing. */
  lemma MergeIdempotent(
    resolve: Resolver, defaults: seq<Definition>, overrides: seq<Definition>, d: Direction,
    merged: seq<Definition>)
    requires Settles(resolve) && MergeOk(resolve, defaults, overrides, d) && |merged| == |defaults|
    requires forall j :: 0 <= j < |overrides| ==> Resolves(resolve, overrides[j], d)
    requires forall i :: 0 <= i < |defaults| ==> merged[i] == Slot(resolve, defaults[i], overrides, d)
    ensures MergeOk(resolve, merged, overrides, d)
    ensures forall i :: 0 <= i < |merged| ==> Slot(resolve, merged[i], overrides, d) == merged[i]
  {
    forall i | 0 <= i < |merged|
      ensures merged[i].name == defaults[i].name && Resolves(resolve, merged[i], d)
      ensures KindOf(resolve, merged[i], d) == KindOf(resolve, defaults[i], d)
      ensures Slot(resolve, merged[i], overrides, d) == merged[i]
    {
      SlotKeepsNameAndKind(resolve, defaults, overrides, d, i);
    }
    forall j | 0 <= j < |overrides| ensures Replaces(resolve, merged, overrides[j], d) {
      assert Replaces(resolve, defaults, overrides[j], d);
      var k :| 0 <= k < |defaults| && defaults[k].name == overrides[j].name && Resolves(resolve, defaults[k], d)
               && KindOf(resolve, defaults[k], d) == KindOf(resolve, overrides[j], d);
      assert merged[k].name == overrides[j].name;
      assert KindOf(resolve, merged[k], d) == KindOf(resolve, overrides[j], d);
    }
  }
}
