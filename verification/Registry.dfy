/**
  The boot-admission registry (component/registry.go): factory table, admitted declarations and
  the seal, one method per critical section.
 */
module Registry {
  import opened Outcome
  import opened Text
  import opened PortResolver
  import opened Admission

  type Table = map<string, Registration>
  type Admitted = map<string, Declaration>

  datatype Refusal = Sealed | AlreadyRegistered | ResourceConflict

  // ------------------------------------------------------------ one admission, on values

  predicate Shares(a: Declaration, b: Declaration)
  {
    exists r :: r in a.exclusive && r in b.exclusive
  }

  predicate Conflicts(admitted: Admitted, d: Declaration)
  {
    exists n :: n in admitted && n != d.instance && Shares(admitted[n], d)
  }

  /** admitPrepared under the write lock. */
  function Admit(admitted: Admitted, sealed: bool, d: Declaration): Result<Admitted, Refusal>
  {
    if sealed then Err(Sealed)
    else if d.instance in admitted then Err(AlreadyRegistered)
    else if Conflicts(admitted, d) then Err(ResourceConflict)
    else Ok(admitted[d.instance := d])
  }

  /** Admitted declarations sit under their own names and share no exclusive resource. */
  ghost predicate Coherent(admitted: Admitted)
  {
    && (forall n :: n in admitted ==> admitted[n].instance == n)
    && (forall m, n :: m in admitted && n in admitted && m != n ==> !Shares(admitted[m], admitted[n]))
  }

  /** `after` keeps every entry of `before`, unchanged. */
  ghost predicate Extends(before: Admitted, after: Admitted)
  {
    forall n :: n in before ==> n in after && after[n] == before[n]
  }

  lemma AdmitKeepsCoherence(admitted: Admitted, sealed: bool, d: Declaration)
    requires Coherent(admitted) && Admit(admitted, sealed, d).Ok?
    ensures Coherent(Admit(admitted, sealed, d).value)
    ensures Extends(admitted, Admit(admitted, sealed, d).value)
  {
    var next := Admit(admitted, sealed, d).value;
    forall m, n | m in next && n in next && m != n ensures !Shares(next[m], next[n]) {
      if m == d.instance { assert !Shares(admitted[n], d); }
      else if n == d.instance { assert !Shares(admitted[m], d); }
      else { assert !Shares(admitted[m], admitted[n]); }
    }
  }

  // --------------------------------------------------------------------- registrations

  /** A registration as offered: nil, or a record whose function fields may be nil. */
  datatype Offer =
    | NilOffer
    | Offer(hasFactory: bool, typ: string, ports: Option<(string, string) -> Option<PortConfig>>)

  predicate Acceptable(name: string, offer: Offer)
  {
    name != "" && offer.Offer? && offer.hasFactory && offer.typ != "" && offer.ports.Some?
  }

  /** The seal is not consulted: only declarations freeze. */
  predicate Registers(table: Table, name: string, offer: Offer)
  {
    Acceptable(name, offer) && name !in table
  }

  function RegistrationOf(offer: Offer): Registration
    requires offer.Offer? && offer.ports.Some?
  {
    Registration(offer.typ, offer.ports.value)
  }

  // -------------------------------------------------------------------------- the object

  class Registry {
    const env: Env
    var factories: Table
    var declarations: Admitted
    var sealed: bool

    ghost predicate Valid()
      reads this
    {
      Coherent(declarations) && forall n :: n in declarations ==> Retained(env.resolve, declarations[n])
    }

    constructor (env: Env)
      ensures Valid() && this.env == env && factories == map[] && declarations == map[] && !sealed
    {
      this.env := env;
      factories, declarations, sealed := map[], map[], false;
    }

    method RegisterFactory(name: string, offer: Offer) returns (ok: bool)
      modifies this`factories
      ensures ok <==> old(Registers(factories, name, offer))
      ensures factories == if ok then old(factories)[name := RegistrationOf(offer)] else old(factories)
    {
      if !Acceptable(name, offer) { return false; }
      if name in factories { return false; }
      factories := factories[name := RegistrationOf(offer)];
      return true;
    }

    method SealComposition()
      modifies this`sealed
      ensures sealed
    {
      sealed := true;
    }

    /** checkResourceConflictsLocked: every held resource against every wanted one. */
    method CheckResourceConflicts(instance: string, resources: seq<string>) returns (conflict: bool)
      ensures conflict <==>
        exists n :: n in declarations && n != instance && (exists r :: r in declarations[n].exclusive && r in resources)
    {
      var left := declarations.Keys;
      while left != {}
        invariant left <= declarations.Keys
        invariant forall n :: n in declarations && n !in left && n != instance ==>
                    forall r :: r in declarations[n].exclusive ==> r !in resources
        decreases |left|
      {
        var name :| name in left;
        left := left - {name};
        if name == instance { continue; }
        var held := declarations[name].exclusive;
        for i := 0 to |held|
          invariant forall k :: 0 <= k < i ==> held[k] !in resources
        {
          for j := 0 to |resources|
            invariant forall k :: 0 <= k < j ==> held[i] != resources[k]
          {
            if resources[j] == held[i] {
              assert held[i] in declarations[name].exclusive && held[i] in resources;
              return true;
            }
          }
        }
      }
      return false;
    }

    /** admitPrepared. */
    method AdmitPrepared(d: Declaration) returns (r: Option<Refusal>)
      requires Valid() && Retained(env.resolve, d)
      modifies this`declarations
      ensures Valid()
      ensures match old(Admit(declarations, sealed, d))
              case Ok(next) => r == None && declarations == next
              case Err(why) => r == Some(why) && declarations == old(declarations)
    {
      if sealed { return Some(Sealed); }
      if d.instance in declarations { return Some(AlreadyRegistered); }
      var conflict := CheckResourceConflicts(d.instance, d.exclusive);
      assert conflict <==> Conflicts(declarations, d) by {
        assert forall n :: n in declarations ==>
          (Shares(declarations[n], d) <==> exists r :: r in declarations[n].exclusive && r in d.exclusive);
      }
      if conflict { return Some(ResourceConflict); }
      AdmitKeepsCoherence(declarations, sealed, d);
      declarations := declarations[d.instance := d];
      return None;
    }

    /**
      createComponent with nothing interleaved. `built` is what the factory returned, `owner`
      whether the owner callback succeeded.
     */
    method CreateComponent(instance: string, entry: Entry, client: bool, built: Built, owner: bool) returns (ok: bool)
      requires Valid() && Settles(env.resolve)
      modifies this`declarations
      ensures Valid()
      ensures ok <==>
        && old(Prepare(env, factories, instance, entry, client, built)).Ok? && owner
        && old(Admit(declarations, sealed, Prepare(env, factories, instance, entry, client, built).value)).Ok?
      ensures declarations == if ok
        then old(declarations)[instance := old(Prepare(env, factories, instance, entry, client, built)).value]
        else old(declarations)
    {
      if sealed { return false; }
      var prepared := Prepare(env, factories, instance, entry, client, built);
      if prepared.Err? || !owner { return false; }
      PreparedIsRetained(env, factories, instance, entry, client, built);
      var refusal := AdmitPrepared(prepared.value);
      ok := refusal.None?;
    }

    /** declarationsLocked: clones of all declarations in name order. The Go clone would panic on None. */
    method DeclarationsSnapshot() returns (all: seq<Declaration>)
      requires Valid()
      ensures |all| == |SortedSet(declarations.Keys)|
      ensures forall i :: 0 <= i < |all| ==>
                SortedSet(declarations.Keys)[i] in declarations
                && all[i] == declarations[SortedSet(declarations.Keys)[i]]
    {
      var names := SortedSet(declarations.Keys);
      all := [];
      for i := 0 to |names|
        invariant |all| == i
        invariant forall k :: 0 <= k < i ==> names[k] in declarations && all[k] == declarations[names[k]]
      {
        assert names[i] in Elements(names);
        RetainedClones(env.resolve, declarations[names[i]]);
        var clone := CloneDeclaration(env.resolve, declarations[names[i]]);
        assert clone.Some?;
        all := all + [clone.value];
      }
    }
  }
}
