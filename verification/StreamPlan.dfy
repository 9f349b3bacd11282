/**
  Admitting resolved streams at a point in time (planStreams, missingBounds,
  validateExceptionDeclarations and ExpiredMigrationOverrides in config/stream_bounds.go).
 */
module StreamPlan {
  import opened Outcome
  import opened Text
  import opened Duration
  import opened StreamBounds
  import PortGrammar

  datatype Exemption = NoExemption | MigrationOverride | ArchivalStream

  datatype OverrideStatus = OverrideStatus(stream: string, owner: string, reason: string, expires: int, remaining: int)
  datatype ArchivalStatus = ArchivalStatus(stream: string, owner: string, reason: string)
  datatype Report = Report(overrides: seq<OverrideStatus>, archival: seq<ArchivalStatus>)

  // ----------------------------------------------------------------------- exceptions

  /** parseOverrideExpiry: a date lasts to its end, a timestamp to itself. */
  function Expiry(env: Env, text: string): Option<int>
  {
    var trimmed := TrimSpace(text);
    if trimmed == "" then None
    else
      var day := env.parseDate(trimmed);
      if day.Some? then Some(day.value + DAY) else env.parseStamp(trimmed)
  }

  predicate ArchivalOk(env: Env, cfg: Config, name: string)
    requires name in cfg.archival
  {
    && env.ordinary(name) && !Blank(cfg.archival[name].owner) && !Blank(cfg.archival[name].reason)
    && name !in cfg.overrides
  }

  /** Everything an override must be, apart from being in force. */
  predicate OverrideShaped(env: Env, cfg: Config, name: string)
    requires name in cfg.overrides
  {
    env.ordinary(name) && !Blank(cfg.overrides[name].owner) && Expiry(env, cfg.overrides[name].expires).Some?
  }

  predicate InForce(env: Env, cfg: Config, name: string, now: int)
    requires name in cfg.overrides
  {
    Expiry(env, cfg.overrides[name].expires).Some? ==> now < Expiry(env, cfg.overrides[name].expires).value
  }

  predicate ExceptionsShaped(env: Env, cfg: Config)
  {
    && (forall name :: name in cfg.archival ==> ArchivalOk(env, cfg, name))
    && (forall name :: name in cfg.overrides ==> OverrideShaped(env, cfg, name))
  }

  /** The names ExpiredMigrationOverrides reports. */
  function Expired(env: Env, cfg: Config, now: int): set<string>
  {
    set name | name in cfg.overrides && !InForce(env, cfg, name, now)
  }

  function ExemptionOf(cfg: Config, name: string): Exemption
  {
    if name in cfg.overrides then MigrationOverride
    else if name in cfg.archival then ArchivalStream
    else NoExemption
  }

  /** time.Time.Sub: nanoseconds between two instants, saturating at 64 bits. */
  function Until(expires: int, now: int): int
  {
    var d := expires - now;
    if d < -TWO63 then -TWO63 else if d >= TWO63 then TWO63 - 1 else d
  }

  function StatusOf(env: Env, cfg: Config, name: string, now: int): OverrideStatus
    requires name in cfg.overrides && Expiry(env, cfg.overrides[name].expires).Some?
  {
    var o := cfg.overrides[name];
    var expires := Expiry(env, o.expires).value;
    OverrideStatus(name, o.owner, o.reason, expires, Until(expires, now))
  }

  function ArchivalStatusOf(cfg: Config, name: string): ArchivalStatus
    requires name in cfg.archival
  {
    ArchivalStatus(name, cfg.archival[name].owner, cfg.archival[name].reason)
  }

  /** One turn of validateExceptionDeclarations' first loop. */
  function ArchivalError(env: Env, cfg: Config, name: string): (r: Option<PlanError>)
    requires name in cfg.archival
    ensures r.None? <==> ArchivalOk(env, cfg, name)
  {
    if !env.ordinary(name) then Some(NotOrdinary(name))
    else if Blank(cfg.archival[name].owner) || Blank(cfg.archival[name].reason) then Some(ArchivalInvalid(name))
    else if name in cfg.overrides then Some(ArchivalInvalid(name))
    else None
  }

  /** One turn of its second. */
  function OverrideError(env: Env, cfg: Config, name: string, now: int): (r: Option<PlanError>)
    requires name in cfg.overrides
    ensures r.None? <==> OverrideShaped(env, cfg, name) && InForce(env, cfg, name, now)
  {
    var expires := Expiry(env, cfg.overrides[name].expires);
    if !env.ordinary(name) then Some(NotOrdinary(name))
    else if Blank(cfg.overrides[name].owner) then Some(OverrideInvalid(name))
    else if expires.None? then Some(OverrideInvalid(name))
    else if !(now < expires.value) then Some(OverrideExpired(name))
    else None
  }

  ghost predicate ListsArchival(cfg: Config, names: seq<string>, report: seq<ArchivalStatus>)
  {
    |report| == |names| &&
    forall i :: 0 <= i < |names| ==> names[i] in cfg.archival && report[i] == ArchivalStatusOf(cfg, names[i])
  }

  ghost predicate ListsOverride(env: Env, cfg: Config, name: string, now: int, status: OverrideStatus)
  {
    && name in cfg.overrides && Expiry(env, cfg.overrides[name].expires).Some?
    && status == StatusOf(env, cfg, name, now)
  }

  ghost predicate ListsOverrides(env: Env, cfg: Config, names: seq<string>, now: int, report: seq<OverrideStatus>)
  {
    |report| == |names| && forall i :: 0 <= i < |names| ==> ListsOverride(env, cfg, names[i], now, report[i])
  }

  function Marks(names: set<string>, e: Exemption): map<string, Exemption>
  {
    map name | name in names :: e
  }

  lemma MarksNext(names: seq<string>, k: nat, e: Exemption)
    requires k < |names|
    ensures Elements(names[..k + 1]) == Elements(names[..k]) + {names[k]}
    ensures Marks(Elements(names[..k + 1]), e) == Marks(Elements(names[..k]), e)[names[k] := e]
  {
    assert names[..k + 1] == names[..k] + [names[k]];
  }

  lemma ListsArchivalNext(cfg: Config, names: seq<string>, k: nat, report: seq<ArchivalStatus>)
    requires k < |names| && names[k] in cfg.archival && ListsArchival(cfg, names[..k], report)
    ensures ListsArchival(cfg, names[..k + 1], report + [ArchivalStatusOf(cfg, names[k])])
  {
    assert names[..k + 1] == names[..k] + [names[k]];
  }

  lemma ListsOverridesSnoc(
    env: Env, cfg: Config, names: seq<string>, name: string, now: int, report: seq<OverrideStatus>)
    requires ListsOverrides(env, cfg, names, now, report)
    requires name in cfg.overrides && Expiry(env, cfg.overrides[name].expires).Some?
    ensures ListsOverrides(env, cfg, names + [name], now, report + [StatusOf(env, cfg, name, now)])
  {
  }

  method CheckArchival(env: Env, cfg: Config, names: seq<string>)
    returns (r: Result<(seq<ArchivalStatus>, map<string, Exemption>), PlanError>)
    requires Elements(names) == cfg.archival.Keys
    ensures r.Ok? <==> forall name :: name in cfg.archival ==> ArchivalOk(env, cfg, name)
    ensures r.Ok? ==> ListsArchival(cfg, names, r.value.0) && r.value.1 == Marks(cfg.archival.Keys, ArchivalStream)
  {
    assert forall i :: 0 <= i < |names| ==> names[i] in Elements(names);
    var exemptions: map<string, Exemption> := map[];
    var report: seq<ArchivalStatus> := [];
    for k := 0 to |names|
      invariant ListsArchival(cfg, names[..k], report)
      invariant exemptions == Marks(Elements(names[..k]), ArchivalStream)
      invariant forall n :: n in Elements(names[..k]) ==> n in cfg.archival && ArchivalOk(env, cfg, n)
    {
      var bad := ArchivalError(env, cfg, names[k]);
      if bad.Some? { return Err(bad.value); }
      MarksNext(names, k, ArchivalStream);
      ListsArchivalNext(cfg, names, k, report);
      exemptions := exemptions[names[k] := ArchivalStream];
      report := report + [ArchivalStatusOf(cfg, names[k])];
    }
    assert names[..|names|] == names;
    r := Ok((report, exemptions));
  }

  method CheckOverrides(env: Env, cfg: Config, names: seq<string>, now: int)
    returns (r: Result<(seq<OverrideStatus>, map<string, Exemption>), PlanError>)
    requires Elements(names) == cfg.overrides.Keys
    ensures r.Ok? <==> forall name :: name in cfg.overrides ==>
      OverrideShaped(env, cfg, name) && InForce(env, cfg, name, now)
    ensures r.Ok? ==> ListsOverrides(env, cfg, names, now, r.value.0)
    ensures r.Ok? ==> r.value.1 == Marks(cfg.overrides.Keys, MigrationOverride)
  {
    assert forall i :: 0 <= i < |names| ==> names[i] in Elements(names);
    var exemptions: map<string, Exemption> := map[];
    var report: seq<OverrideStatus> := [];
    for k := 0 to |names|
      invariant ListsOverrides(env, cfg, names[..k], now, report)
      invariant exemptions == Marks(Elements(names[..k]), MigrationOverride)
      invariant forall n :: n in Elements(names[..k]) ==>
        n in cfg.overrides && OverrideShaped(env, cfg, n) && InForce(env, cfg, n, now)
    {
      var bad := OverrideError(env, cfg, names[k], now);
      if bad.Some? { return Err(bad.value); }
      MarksNext(names, k, MigrationOverride);
      ListsOverridesSnoc(env, cfg, names[..k], names[k], now, report);
      assert names[..k + 1] == names[..k] + [names[k]];
      exemptions := exemptions[names[k] := MigrationOverride];
      report := report + [StatusOf(env, cfg, names[k], now)];
    }
    assert names[..|names|] == names;
    r := Ok((report, exemptions));
  }

  /** The lapsed overrides among names, in their order. */
  function Lapsed(env: Env, cfg: Config, names: seq<string>, now: int): seq<string>
    requires forall i :: 0 <= i < |names| ==> names[i] in cfg.overrides
  {
    if names == [] then []
    else
      Lapsed(env, cfg, names[..|names| - 1], now)
      + if InForce(env, cfg, names[|names| - 1], now) then [] else [names[|names| - 1]]
  }

  lemma {:induction false} LapsedInOrder(env: Env, cfg: Config, names: seq<string>, now: int)
    requires (forall i :: 0 <= i < |names| ==> names[i] in cfg.overrides) && StrictlySorted(names)
    ensures StrictlySorted(Lapsed(env, cfg, names, now))
    ensures forall n :: n in Lapsed(env, cfg, names, now) <==> n in names && n in Expired(env, cfg, now)
  {
    if names != [] {
      var front := names[..|names| - 1];
      LapsedInOrder(env, cfg, front, now);
      assert names == front + [names[|names| - 1]];
      var l := Lapsed(env, cfg, front, now);
      forall i | 0 <= i < |l| ensures Before(l[i], names[|names| - 1]) {
        assert l[i] in l;
        var j :| 0 <= j < |front| && front[j] == l[i];
        assert names[j] == l[i];
      }
    }
  }

  method ListLapsed(env: Env, cfg: Config, names: seq<string>, now: int) returns (r: seq<OverrideStatus>)
    requires forall i :: 0 <= i < |names| ==> names[i] in cfg.overrides
    ensures ListsOverrides(env, cfg, Lapsed(env, cfg, names, now), now, r)
  {
    r := [];
    ghost var lapsed: seq<string> := [];
    var k := 0;
    while k < |names|
      invariant 0 <= k <= |names|
      invariant lapsed == Lapsed(env, cfg, names[..k], now)
      invariant ListsOverrides(env, cfg, lapsed, now, r)
    {
      LapsedNext(env, cfg, names, k, now);
      var expires := Expiry(env, cfg.overrides[names[k]].expires);
      if expires.Some? && !(now < expires.value) {
        ListsOverridesSnoc(env, cfg, lapsed, names[k], now, r);
        r := r + [StatusOf(env, cfg, names[k], now)];
        lapsed := lapsed + [names[k]];
      }
      k := k + 1;
    }
    assert names[..|names|] == names;
  }

  /** ExpiredMigrationOverrides: the lapsed bridges of a running instance, in name order. */
  method ExpiredMigrationOverrides(env: Env, cfg: Config, now: int) returns (r: seq<OverrideStatus>)
    ensures ListsOverrides(env, cfg, SortedSet(Expired(env, cfg, now)), now, r)
    ensures forall i :: 0 <= i < |r| ==> r[i].remaining <= 0 && (r[i].remaining == 0 <==> r[i].expires == now)
  {
    LapsedIsExpired(env, cfg, now);
    r := ListLapsed(env, cfg, SortedSet(cfg.overrides.Keys), now);
    ghost var names := SortedSet(Expired(env, cfg, now));
    forall i | 0 <= i < |r| ensures r[i].remaining <= 0 && (r[i].remaining == 0 <==> r[i].expires == now) {
      assert ListsOverride(env, cfg, names[i], now, r[i]);
      assert names[i] in Elements(names);
    }
  }

  lemma LapsedNext(env: Env, cfg: Config, names: seq<string>, k: nat, now: int)
    requires (forall i :: 0 <= i < |names| ==> names[i] in cfg.overrides) && k < |names|
    ensures Lapsed(env, cfg, names[..k + 1], now) ==
      Lapsed(env, cfg, names[..k], now) + if InForce(env, cfg, names[k], now) then [] else [names[k]]
  {
    assert names[..k + 1][..k] == names[..k];
  }

  lemma LapsedIsExpired(env: Env, cfg: Config, now: int)
    ensures forall i :: 0 <= i < |SortedSet(cfg.overrides.Keys)| ==> SortedSet(cfg.overrides.Keys)[i] in cfg.overrides
    ensures Lapsed(env, cfg, SortedSet(cfg.overrides.Keys), now) == SortedSet(Expired(env, cfg, now))
  {
    var names := SortedSet(cfg.overrides.Keys);
    assert forall i :: 0 <= i < |names| ==> names[i] in Elements(names);
    LapsedInOrder(env, cfg, names, now);
    assert Elements(Lapsed(env, cfg, names, now)) == Expired(env, cfg, now);
    StrictlySortedUnique(Lapsed(env, cfg, names, now), SortedSet(Expired(env, cfg, now)));
  }

  // ------------------------------------------------------------------------- the plan

  datatype Bound = MaxAge | MaxBytes | Discard

  /** missingBounds. */
  function MissingBounds(env: Env, cfg: StreamConfig, exemption: Exemption): seq<Bound>
  {
    if exemption != NoExemption then []
    else
      (if HasMaxAge(env, cfg) then [] else [MaxAge])
      + (if cfg.maxBytes <= 0 then [MaxBytes] else [])
      + (if cfg.discard != "old" && cfg.discard != "new" then [Discard] else [])
  }

  predicate HasMaxAge(env: Env, cfg: StreamConfig)
  {
    var d := ParseWithDays(env.parseDuration, cfg.maxAge);
    cfg.maxAge != "" && d.Some? && d.value > 0
  }

  /** All three bounds declared, as the parser reads them. */
  predicate Bounded(env: Env, cfg: StreamConfig)
  {
    HasMaxAge(env, cfg) && cfg.maxBytes > 0 && (cfg.discard == "old" || cfg.discard == "new")
  }

  datatype Planned = Planned(decl: Declaration, exemption: Exemption)

  /** Every declarable stream is bounded or exempt: the part of acceptance that ignores the clock. */
  predicate BoundsDeclared(env: Env, cfg: Config)
    requires Resolves(env, cfg)
  {
    var ds := PortStreams(env, cfg).value;
    forall name :: name in Declarable(env, cfg, ds) ==>
      Bounded(env, Winner(env, cfg, ds, name)) || ExemptionOf(cfg, name) != NoExemption
  }

  /** When planStreams accepts. */
  predicate Accepted(env: Env, cfg: Config, now: int)
  {
    && Resolves(env, cfg)
    && ExceptionsOk(env, cfg, now)
    && BoundsDeclared(env, cfg)
  }

  lemma MissingIff(env: Env, cfg: StreamConfig, exemption: Exemption)
    ensures MissingBounds(env, cfg, exemption) == [] <==> exemption != NoExemption || Bounded(env, cfg)
  {
  }

  ghost predicate Plans(env: Env, cfg: Config, decls: seq<Declaration>, plan: seq<Planned>)
  {
    |plan| == |decls| && forall i :: 0 <= i < |decls| ==> plan[i] == Planned(decls[i], ExemptionOf(cfg, decls[i].name))
  }

  /** What validateExceptionDeclarations accepts. */
  predicate ExceptionsOk(env: Env, cfg: Config, now: int)
  {
    ExceptionsShaped(env, cfg) && forall name :: name in cfg.overrides ==> InForce(env, cfg, name, now)
  }

  /** validateExceptionDeclarations: archival entries, then overrides, each in name order. */
  method ValidateExceptionDeclarations(env: Env, cfg: Config, now: int)
    returns (r: Result<(map<string, Exemption>, Report), PlanError>)
    ensures r.Ok? <==> ExceptionsOk(env, cfg, now)
    ensures r.Ok? ==>
      r.value.0 == Marks(cfg.archival.Keys, ArchivalStream) + Marks(cfg.overrides.Keys, MigrationOverride)
    ensures r.Ok? ==> ListsArchival(cfg, SortedSet(cfg.archival.Keys), r.value.1.archival)
    ensures r.Ok? ==> ListsOverrides(env, cfg, SortedSet(cfg.overrides.Keys), now, r.value.1.overrides)
  {
    var archival := CheckArchival(env, cfg, SortedSet(cfg.archival.Keys));
    if archival.Err? { return Err(archival.error); }
    var overrides := CheckOverrides(env, cfg, SortedSet(cfg.overrides.Keys), now);
    if overrides.Err? { return Err(overrides.error); }
    r := Ok((archival.value.1 + overrides.value.1, Report(overrides.value.0, archival.value.0)));
  }

  /** planStreams. */
  method PlanStreams(env: Env, cfg: Config, now: int)
    returns (r: Result<(seq<Planned>, Report), PlanError>, ghost decls: seq<Declaration>)
    ensures r.Ok? <==> Accepted(env, cfg, now)
    ensures r.Ok? ==> Resolution(env, cfg, PortStreams(env, cfg).value, decls) && Plans(env, cfg, decls, r.value.0)
    ensures r.Ok? ==> ListsArchival(cfg, SortedSet(cfg.archival.Keys), r.value.1.archival)
    ensures r.Ok? ==> ListsOverrides(env, cfg, SortedSet(cfg.overrides.Keys), now, r.value.1.overrides)
  {
    decls := [];
    var resolved := ResolveStreamDeclarations(env, cfg);
    if resolved.Err? { return Err(resolved.error), decls; }
    decls := resolved.value;
    var exceptions := ValidateExceptionDeclarations(env, cfg, now);
    if exceptions.Err? { return Err(exceptions.error), decls; }
    var plan, undeclared := MarkExemptions(env, cfg, resolved.value, exceptions.value.0);
    UndeclaredIff(env, cfg, decls);
    if undeclared != [] { return Err(BoundsUndeclared(undeclared)), decls; }
    r := Ok((plan, exceptions.value.1));
  }

  /** The loop of planStreams that marks exemptions and collects what is undeclared. */
  method MarkExemptions(env: Env, cfg: Config, decls: seq<Declaration>, exemptions: map<string, Exemption>)
    returns (plan: seq<Planned>, undeclared: seq<string>)
    requires exemptions == Marks(cfg.archival.Keys, ArchivalStream) + Marks(cfg.overrides.Keys, MigrationOverride)
    ensures Plans(env, cfg, decls, plan)
    ensures undeclared == [] <==> AllBounded(env, cfg, decls)
  {
    plan, undeclared := [], [];
    for k := 0 to |decls|
      invariant Plans(env, cfg, decls[..k], plan)
      invariant undeclared == [] <==> AllBounded(env, cfg, decls[..k])
    {
      var exemption := if decls[k].name in exemptions then exemptions[decls[k].name] else NoExemption;
      assert exemption == ExemptionOf(cfg, decls[k].name);
      assert decls[..k + 1] == decls[..k] + [decls[k]];
      plan := plan + [Planned(decls[k], exemption)];
      MissingIff(env, decls[k].cfg, exemption);
      AllBoundedSnoc(env, cfg, decls[..k], decls[k]);
      if MissingBounds(env, decls[k].cfg, exemption) != [] {
        undeclared := undeclared + [decls[k].name];
      }
    }
    assert decls[..|decls|] == decls;
  }

  predicate AllBounded(env: Env, cfg: Config, decls: seq<Declaration>)
  {
    forall i :: 0 <= i < |decls| ==> ExemptionOf(cfg, decls[i].name) != NoExemption || Bounded(env, decls[i].cfg)
  }

  lemma AllBoundedSnoc(env: Env, cfg: Config, decls: seq<Declaration>, d: Declaration)
    ensures AllBounded(env, cfg, decls + [d]) <==>
      AllBounded(env, cfg, decls) && (ExemptionOf(cfg, d.name) != NoExemption || Bounded(env, d.cfg))
  {
    var all := decls + [d];
    assert all[|decls|] == d;
    if AllBounded(env, cfg, all) {
      forall i | 0 <= i < |decls| ensures ExemptionOf(cfg, decls[i].name) != NoExemption || Bounded(env, decls[i].cfg) {
        assert all[i] == decls[i];
      }
    }
  }

  lemma UndeclaredIff(env: Env, cfg: Config, decls: seq<Declaration>)
    requires Resolves(env, cfg) && Resolution(env, cfg, PortStreams(env, cfg).value, decls)
    ensures BoundsDeclared(env, cfg) <==> AllBounded(env, cfg, decls)
  {
    var ds := PortStreams(env, cfg).value;
    var names := SortedSet(Declarable(env, cfg, ds));
    if AllBounded(env, cfg, decls) {
      forall name | name in Declarable(env, cfg, ds)
        ensures Bounded(env, Winner(env, cfg, ds, name)) || ExemptionOf(cfg, name) != NoExemption
      {
        assert name in Elements(names);
        var i :| 0 <= i < |names| && names[i] == name;
        assert decls[i] == DeclarationFor(env, cfg, ds, name);
      }
    }
  }

  // ------------------------------------------------------------------------ over time

  /** The only part of acceptance that the clock decides is whether some override has lapsed. */
  lemma AcceptedIff(env: Env, cfg: Config, now: int)
    ensures Accepted(env, cfg, now) <==>
      && Resolves(env, cfg) && ExceptionsShaped(env, cfg) && BoundsDeclared(env, cfg)
      && Expired(env, cfg, now) == {}
  {
    if Expired(env, cfg, now) == {} {
      forall name | name in cfg.overrides ensures InForce(env, cfg, name, now) {
        assert name !in Expired(env, cfg, now);
      }
    }
  }

  /**
    A plan accepted once is accepted at every earlier time, and at a later time exactly when
    ExpiredMigrationOverrides would report nothing; what it reports only grows.
   */
  lemma AcceptanceOverTime(env: Env, cfg: Config, accepted: int, t: int)
    requires Accepted(env, cfg, accepted)
    ensures t <= accepted ==> Accepted(env, cfg, t)
    ensures Accepted(env, cfg, t) <==> Expired(env, cfg, t) == {}
    ensures forall u :: u >= t ==> Expired(env, cfg, t) <= Expired(env, cfg, u)
  {
    AcceptedIff(env, cfg, accepted);
    AcceptedIff(env, cfg, t);
    forall u | u >= t ensures Expired(env, cfg, t) <= Expired(env, cfg, u) {
      assert forall name :: name in Expired(env, cfg, t) ==> name in cfg.overrides && !InForce(env, cfg, name, u);
    }
    if t <= accepted {
      assert Expired(env, cfg, t) <= Expired(env, cfg, accepted);
    }
  }

  /** In an accepted plan every stream is bounded or exempt for exactly one of the two reasons. */
  lemma AcceptedStreams(env: Env, cfg: Config, now: int, name: string)
    requires Accepted(env, cfg, now) && name in Declarable(env, cfg, PortStreams(env, cfg).value)
    ensures !(name in cfg.archival && name in cfg.overrides)
    ensures name in cfg.overrides ==> InForce(env, cfg, name, now)
    ensures name !in cfg.archival && name !in cfg.overrides ==>
      Bounded(env, Winner(env, cfg, PortStreams(env, cfg).value, name))
    // known only from ports: accepted only when exempt, because no port can say what to discard
    ensures name !in cfg.streams && name !in env.framework ==> name in cfg.archival || name in cfg.overrides
  {
    assert name in cfg.archival ==> ArchivalOk(env, cfg, name);
    if name !in cfg.streams && name !in env.framework {
      var k := FirstIsFirst(PortStreams(env, cfg).value, name);
      NoPortIsFixed(env, cfg, ComponentNames(cfg));
    }
  }

  /** What a port does declare is read back exactly: days as max_age, gibibytes as max_bytes. */
  lemma PortPolicyReadsBack(env: Env, f: PortGrammar.StreamFacts)
    requires ConfigFromFacts(f).Some?
    ensures var c := ConfigFromFacts(f).value;
      && (f.retentionDays > 0 ==>
            ParseWithDays(env.parseDuration, c.maxAge) == Some(f.retentionDays * DAY) && HasMaxAge(env, c))
      && (f.retentionDays == 0 ==> !HasMaxAge(env, c))
      && c.maxBytes == f.maxSizeGB * BYTES_PER_GIB && c.maxBytes < TWO63
  {
    if f.retentionDays > 0 {
      DaysReadBack(env.parseDuration, f.retentionDays);
    }
  }

  /**
    For an operator's own text "as the parser reads it" is the most one can say: 213504 days is
    read as less than one, and counts as a declared bound.
   */
  lemma WrappedMaxAge(env: Env, cfg: StreamConfig)
    requires cfg.maxAge == PortGrammar.Digits(213_504) + "d"
    ensures HasMaxAge(env, cfg)
    ensures ParseWithDays(env.parseDuration, cfg.maxAge).Some?
    ensures 0 < ParseWithDays(env.parseDuration, cfg.maxAge).value < DAY
  {
    DaysReadBack(env.parseDuration, 213_504);
    DaysWrap();
  }
}
