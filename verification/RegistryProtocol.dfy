/**
  createComponent as the concurrent protocol it is. Each creator reads the seal, then looks the
  factory up, then builds and runs its owner callback with no lock held, then admits; factory
  registrations, seals and other creators may come between any two of those steps.

  A run is any finite sequence of steps; a step that is not enabled leaves the system as it is.
 */
module RegistryProtocol {
  import opened Outcome
  import opened PortResolver
  import opened Admission
  import opened Registry

  datatype Job = Job(instance: string, entry: Entry, client: bool)

  /** Where one createComponent call stands. */
  datatype Creator =
    | Started(job: Job)
    | SawUnsealed(job: Job)
    | LookedUp(job: Job, table: Table)
    | Prepared(made: Declaration)
    | OwnerReady(made: Declaration)
    | Succeeded(made: Declaration)
    | Failed

  datatype System = System(factories: Table, declarations: Admitted, sealed: bool, creators: map<nat, Creator>)

  datatype Step =
    | Call(id: nat, job: Job)
    | ReadSeal(id: nat)
    | LookUp(id: nat)
    | Build(id: nat, built: Built)
    | Owner(id: nat, ok: bool)
    | TryAdmit(id: nat)
    | Register(name: string, offer: Offer)
    | Seal

  const Boot: System := System(map[], map[], false, map[])

  function Next(env: Env, s: System, step: Step): System
  {
    match step
    case Call(id, job) =>
      if id in s.creators then s else s.(creators := s.creators[id := Started(job)])
    case ReadSeal(id) =>
      if id in s.creators && s.creators[id].Started? then
        s.(creators := s.creators[id := if s.sealed then Failed else SawUnsealed(s.creators[id].job)])
      else s
    case LookUp(id) =>
      if id in s.creators && s.creators[id].SawUnsealed? then
        s.(creators := s.creators[id := LookedUp(s.creators[id].job, s.factories)])
      else s
    case Build(id, built) =>
      if id in s.creators && s.creators[id].LookedUp? then
        s.(creators := s.creators[id := AfterBuild(env, s.creators[id], built)])
      else s
    case Owner(id, ok) =>
      if id in s.creators && s.creators[id].Prepared? then
        s.(creators := s.creators[id := if ok then OwnerReady(s.creators[id].made) else Failed])
      else s
    case TryAdmit(id) =>
      if id in s.creators && s.creators[id].OwnerReady? then
        var made := s.creators[id].made;
        var r := Admit(s.declarations, s.sealed, made);
        if r.Ok? then s.(declarations := r.value, creators := s.creators[id := Succeeded(made)])
        else s.(creators := s.creators[id := Failed])
      else s
    case Register(name, offer) =>
      if Registers(s.factories, name, offer) then s.(factories := s.factories[name := RegistrationOf(offer)]) else s
    case Seal => s.(sealed := true)
  }

  function AfterBuild(env: Env, c: Creator, built: Built): Creator
    requires c.LookedUp?
  {
    var r := Prepare(env, c.table, c.job.instance, c.job.entry, c.job.client, built);
    if r.Ok? then Prepared(r.value) else Failed
  }

  function Run(env: Env, s: System, steps: seq<Step>): System
    decreases |steps|
  {
    if steps == [] then s else Run(env, Next(env, s, steps[0]), steps[1..])
  }

  lemma {:induction false} RunSplits(env: Env, s: System, a: seq<Step>, b: seq<Step>)
    ensures Run(env, s, a + b) == Run(env, Run(env, s, a), b)
    decreases |a|
  {
    if a == [] {
      assert a + b == b;
    } else {
      RunSplits(env, Next(env, s, a[0]), a[1..], b);
      assert (a + b)[1..] == a[1..] + b;
    }
  }

  // ------------------------------------------------------------------------- invariant

  /** Every declaration in flight or admitted was prepared, so it is retained. */
  ghost predicate Sound(env: Env, s: System)
  {
    && Coherent(s.declarations)
    && (forall n :: n in s.declarations ==> Retained(env.resolve, s.declarations[n]))
    && (forall id :: id in s.creators && (s.creators[id].Prepared? || s.creators[id].OwnerReady?) ==>
          Retained(env.resolve, s.creators[id].made))
  }

  /** Successful calls and admitted declarations are in one-to-one correspondence. */
  ghost predicate Accounted(s: System)
  {
    SuccessesAdmitted(s) && SuccessesDiffer(s) && forall n :: n in s.declarations ==> HasCreator(s, n)
  }

  ghost predicate SuccessesAdmitted(s: System)
  {
    forall id :: id in s.creators && s.creators[id].Succeeded? ==>
      s.creators[id].made.instance in s.declarations &&
      s.declarations[s.creators[id].made.instance] == s.creators[id].made
  }

  ghost predicate SuccessesDiffer(s: System)
  {
    forall i, j :: i in s.creators && j in s.creators && i != j &&
                   s.creators[i].Succeeded? && s.creators[j].Succeeded? ==>
      s.creators[i].made.instance != s.creators[j].made.instance
  }

  ghost predicate HasCreator(s: System, n: string)
    requires n in s.declarations
  {
    exists id :: id in s.creators && s.creators[id] == Succeeded(s.declarations[n])
  }

  lemma BuildSound(env: Env, s: System, id: nat, built: Built)
    requires Settles(env.resolve) && Sound(env, s)
    ensures Sound(env, Next(env, s, Build(id, built)))
  {
    if id in s.creators && s.creators[id].LookedUp? {
      var c := s.creators[id];
      if Prepare(env, c.table, c.job.instance, c.job.entry, c.job.client, built).Ok? {
        PreparedIsRetained(env, c.table, c.job.instance, c.job.entry, c.job.client, built);
      }
    }
  }

  lemma TryAdmitSound(env: Env, s: System, id: nat)
    requires Sound(env, s)
    ensures Sound(env, Next(env, s, TryAdmit(id)))
  {
    if id in s.creators && s.creators[id].OwnerReady? && Admit(s.declarations, s.sealed, s.creators[id].made).Ok? {
      AdmitKeepsCoherence(s.declarations, s.sealed, s.creators[id].made);
    }
  }

  lemma NextSound(env: Env, s: System, step: Step)
    requires Settles(env.resolve) && Sound(env, s)
    ensures Sound(env, Next(env, s, step))
  {
    match step
    case Build(id, built) =>
      BuildSound(env, s, id, built);
    case TryAdmit(id) =>
      TryAdmitSound(env, s, id);
    case _ =>
  }

  /** t has the successes and the declarations of s. */
  ghost predicate SameBooks(s: System, t: System)
  {
    && t.declarations == s.declarations
    && (forall id :: id in t.creators && t.creators[id].Succeeded? ==>
      id in s.creators && s.creators[id] == t.creators[id])
    && (forall id :: id in s.creators && s.creators[id].Succeeded? ==>
      id in t.creators && t.creators[id] == s.creators[id])
  }

  lemma SameBooksAccounted(s: System, t: System)
    requires Accounted(s) && SameBooks(s, t)
    ensures Accounted(t)
  {
    forall n | n in t.declarations ensures HasCreator(t, n) {
      assert HasCreator(s, n);
    }
  }

  lemma AdmissionAccounted(s: System, t: System, id: nat, made: Declaration)
    requires Accounted(s) && id in s.creators && s.creators[id] == OwnerReady(made)
    requires made.instance !in s.declarations
    requires t.declarations == s.declarations[made.instance := made]
    requires t.creators == s.creators[id := Succeeded(made)]
    ensures Accounted(t)
  {
    AdmissionSuccesses(s, t, id, made);
    forall n | n in t.declarations ensures HasCreator(t, n) {
      AdmissionCreator(s, t, id, made, n);
    }
  }

  lemma AdmissionSuccesses(s: System, t: System, id: nat, made: Declaration)
    requires SuccessesAdmitted(s) && SuccessesDiffer(s) && id in s.creators && made.instance !in s.declarations
    requires t.declarations == s.declarations[made.instance := made]
    requires t.creators == s.creators[id := Succeeded(made)]
    ensures SuccessesAdmitted(t) && SuccessesDiffer(t)
  {
    forall i | i in t.creators && i != id && t.creators[i].Succeeded?
      ensures t.creators[i].made.instance in s.declarations
    {
      assert s.creators[i] == t.creators[i];
    }
  }

  lemma AdmissionCreator(s: System, t: System, id: nat, made: Declaration, n: string)
    requires Accounted(s) && id in s.creators && s.creators[id] == OwnerReady(made)
    requires t.declarations == s.declarations[made.instance := made]
    requires t.creators == s.creators[id := Succeeded(made)] && n in t.declarations
    ensures HasCreator(t, n)
  {
    if n == made.instance {
      assert t.creators[id] == Succeeded(t.declarations[n]);
    } else {
      assert HasCreator(s, n);
      var k :| k in s.creators && s.creators[k] == Succeeded(s.declarations[n]);
      assert t.creators[k] == Succeeded(t.declarations[n]);
    }
  }

  predicate Admits(s: System, step: Step)
  {
    Offers(s, step) && Admit(s.declarations, false, s.creators[step.id].made).Ok?
  }

  lemma NextKeepsBooks(env: Env, s: System, step: Step)
    requires !Admits(s, step)
    ensures SameBooks(s, Next(env, s, step))
  {
  }

  lemma NextAccounted(env: Env, s: System, step: Step)
    requires Accounted(s)
    ensures Accounted(Next(env, s, step))
  {
    if Admits(s, step) {
      AdmissionAccounted(s, Next(env, s, step), step.id, s.creators[step.id].made);
    } else {
      NextKeepsBooks(env, s, step);
      SameBooksAccounted(s, Next(env, s, step));
    }
  }

  lemma NextGrows(env: Env, s: System, step: Step)
    requires Coherent(s.declarations)
    ensures Extends(s.declarations, Next(env, s, step).declarations)
    ensures forall n :: n in s.factories ==>
      n in Next(env, s, step).factories && Next(env, s, step).factories[n] == s.factories[n]
    ensures s.sealed ==> Next(env, s, step).sealed && Next(env, s, step).declarations == s.declarations
  {
  }

  // --------------------------------------------------------------------------- theorems

  /**
    In every run from boot: names are distinct, exclusive resources pairwise disjoint, every
    retained port re-resolves to itself (so cloning it cannot panic), and the calls that returned
    success are exactly the admitted declarations, one call each.
   */
  lemma {:induction false} EveryRunIsSafe(env: Env, s: System, steps: seq<Step>)
    requires Settles(env.resolve) && Sound(env, s) && Accounted(s)
    ensures Sound(env, Run(env, s, steps)) && Accounted(Run(env, s, steps))
    ensures forall n :: n in Run(env, s, steps).declarations ==>
      CloneDeclaration(env.resolve, Run(env, s, steps).declarations[n]) == Some(Run(env, s, steps).declarations[n])
    decreases |steps|
  {
    if steps == [] {
      forall n | n in s.declarations
        ensures CloneDeclaration(env.resolve, s.declarations[n]) == Some(s.declarations[n])
      {
        RetainedClones(env.resolve, s.declarations[n]);
      }
    } else {
      NextSound(env, s, steps[0]);
      NextAccounted(env, s, steps[0]);
      EveryRunIsSafe(env, Next(env, s, steps[0]), steps[1..]);
    }
  }

  lemma BootIsSafe(env: Env, steps: seq<Step>)
    requires Settles(env.resolve)
    ensures Sound(env, Run(env, Boot, steps)) && Accounted(Run(env, Boot, steps))
    ensures var ds := Run(env, Boot, steps).declarations;
      forall n :: n in ds ==> CloneDeclaration(env.resolve, ds[n]) == Some(ds[n])
  {
    EveryRunIsSafe(env, Boot, steps);
  }

  /**
    Admitted declarations and factories only grow, and nothing is admitted after the seal, not
    even by a creator that read the registry as unsealed before it.
   */
  lemma {:induction false} RunsOnlyGrow(env: Env, s: System, steps: seq<Step>)
    requires Settles(env.resolve) && Sound(env, s)
    ensures Extends(s.declarations, Run(env, s, steps).declarations)
    ensures forall n :: n in s.factories ==>
      n in Run(env, s, steps).factories && Run(env, s, steps).factories[n] == s.factories[n]
    ensures s.sealed ==> Run(env, s, steps).sealed && Run(env, s, steps).declarations == s.declarations
    decreases |steps|
  {
    if steps != [] {
      NextGrows(env, s, steps[0]);
      NextSound(env, s, steps[0]);
      RunsOnlyGrow(env, Next(env, s, steps[0]), steps[1..]);
    }
  }

  lemma SealedRun(env: Env, s: System, after: seq<Step>)
    requires Settles(env.resolve) && Sound(env, s)
    ensures Run(env, Next(env, s, Seal), after).declarations == s.declarations
  {
    NextSound(env, s, Seal);
    RunsOnlyGrow(env, Next(env, s, Seal), after);
  }

  lemma RunOne(env: Env, s: System, step: Step)
    ensures Run(env, s, [step]) == Next(env, s, step)
  {
    assert [step][1..] == [];
  }

  /** The seal fixes the composition of the whole rest of a run from boot. */
  lemma SealIsFinal(env: Env, before: seq<Step>, after: seq<Step>)
    requires Settles(env.resolve)
    ensures Run(env, Boot, before + [Seal] + after).declarations == Run(env, Boot, before).declarations
  {
    var s := Run(env, Boot, before);
    BootIsSafe(env, before);
    SealedRun(env, s, after);
    RunSplits(env, Boot, before + [Seal], after);
    RunSplits(env, Boot, before, [Seal]);
    RunOne(env, s, Seal);
  }

  // ----------------------------------------------------------- registering after the seal

  /** Once sealed, a new factory name enters the table exactly when the offer is acceptable. */
  lemma RegisterWhenSealed(env: Env, s: System, name: string, offer: Offer)
    requires s.sealed && name !in s.factories
    ensures var t := Next(env, s, Register(name, offer));
      (name in t.factories <==> Acceptable(name, offer)) && t.sealed && t.declarations == s.declarations
  {
  }

  predicate Offered(step: Step, name: string)
  {
    step.Register? && step.name == name && Acceptable(name, step.offer)
  }

  /** Over a whole run the table gains exactly the names offered acceptably, wherever the seal stands. */
  lemma {:induction false} FactoriesIgnoreSeal(env: Env, s: System, steps: seq<Step>, name: string)
    ensures name in Run(env, s, steps).factories <==>
      name in s.factories || exists i :: 0 <= i < |steps| && Offered(steps[i], name)
    decreases |steps|
  {
    if steps != [] {
      var t, rest := Next(env, s, steps[0]), steps[1..];
      FactoriesIgnoreSeal(env, t, rest, name);
      assert name in t.factories <==> name in s.factories || Offered(steps[0], name);
      assert forall i :: 0 <= i < |rest| ==> rest[i] == steps[i + 1];
      assert forall i :: 0 < i < |steps| ==> steps[i] == rest[i - 1];
    }
  }

  /** A seal followed by a registration that succeeds. */
  lemma RegisteredAfterSeal(env: Env)
    ensures var offer := Offer(true, "input", Some((raw: string, name: string) => None));
      var end := Run(env, Boot, [Seal, Register("late", offer)]);
      end.sealed && end.factories.Keys == {"late"}
  {
    var offer := Offer(true, "input", Some((raw: string, name: string) => None));
    var sealed := Next(env, Boot, Seal);
    assert [Seal, Register("late", offer)][1..] == [Register("late", offer)];
    RunOne(env, sealed, Register("late", offer));
  }

  // -------------------------------------------------------------------- linearisation

  /** The declarations offered for admission while unsealed, in write-lock order. */
  function Attempts(env: Env, s: System, steps: seq<Step>): seq<Declaration>
    decreases |steps|
  {
    if steps == [] then []
    else
      var rest := Attempts(env, Next(env, s, steps[0]), steps[1..]);
      if Offers(s, steps[0]) then [s.creators[steps[0].id].made] + rest else rest
  }

  predicate Offers(s: System, step: Step)
  {
    step.TryAdmit? && step.id in s.creators && s.creators[step.id].OwnerReady? && !s.sealed
  }

  /** Admitting one after the other, skipping what is refused: the registry with no concurrency. */
  function AdmitAll(admitted: Admitted, ds: seq<Declaration>): Admitted
    decreases |ds|
  {
    if ds == [] then admitted
    else
      var r := Admit(admitted, false, ds[0]);
      AdmitAll(if r.Ok? then r.value else admitted, ds[1..])
  }

  /** Every interleaving admits what sequential admission in write-lock order admits. */
  lemma {:induction false} RunLinearises(env: Env, s: System, steps: seq<Step>)
    ensures Run(env, s, steps).declarations == AdmitAll(s.declarations, Attempts(env, s, steps))
    decreases |steps|
  {
    if steps != [] {
      var t := Next(env, s, steps[0]);
      RunLinearises(env, t, steps[1..]);
      if Offers(s, steps[0]) {
        var made := s.creators[steps[0].id].made;
        assert ([made] + Attempts(env, t, steps[1..]))[1..] == Attempts(env, t, steps[1..]);
      }
    }
  }
}
