/**
  Concurrent configuration state (SafeConfig in config/config.go): Get, Update and Mutate under a
  read-write lock, step by step.

  C is the configuration. `check` is Config.Validate: it may reject, and it normalises what it
  accepts in place. A mutation is a function that may fail.
 */
module SafeConfig {
  import opened Outcome

  type Mutation<!C> = C -> Option<C>

  /** What one mutation makes of a configuration; a failure of the function or of validation changes nothing. */
  function Mutated<C>(check: Mutation<C>, fn: Mutation<C>, c: C): Option<C>
  {
    var draft :- fn(c);
    check(draft)
  }

  class SafeConfig<C> {
    const check: Mutation<C>
    var config: C

    /** NewSafeConfig: nil stands for the empty configuration. */
    constructor (check: Mutation<C>, config: Option<C>, empty: C)
      ensures this.check == check
      ensures this.config == if config.Some? then config.value else empty
    {
      this.check := check;
      this.config := match config case Some(c) => c case None => empty;
    }

    method Get() returns (c: C)
      ensures c == config
    {
      c := config;
    }

    /** None is a nil argument, which is refused. */
    method Update(cfg: Option<C>) returns (ok: bool)
      modifies this`config
      ensures ok <==> cfg.Some? && check(cfg.value).Some?
      ensures config == if ok then check(cfg.value).value else old(config)
    {
      if cfg.None? { return false; }
      var valid := check(cfg.value);
      if valid.None? { return false; }
      config := valid.value;
      return true;
    }

    method Mutate(fn: Mutation<C>) returns (ok: bool)
      modifies this`config
      ensures ok <==> Mutated(check, fn, old(config)).Some?
      ensures config == if ok then Mutated(check, fn, old(config)).value else old(config)
    {
      var draft := fn(config);
      if draft.None? { return false; }
      var valid := check(draft.value);
      if valid.None? { return false; }
      config := valid.value;
      return true;
    }
  }

  // ----------------------------------------------------------------------- interleavings

  datatype Call<!C> = Mutating(fn: Mutation<C>) | Updating(cfg: C) | Getting

  /** Where one call stands. Locked, Drafted and Applied hold the write lock, Reading a read lock. */
  datatype Thread<!C> =
    | Waiting(call: Call<C>)
    | Locked(fn: Mutation<C>)
    | Drafted(fn: Mutation<C>, draft: C)
    | Applied(fn: Mutation<C>, draft: C)
    | Validated(cfg: C)
    | Reading
    | Stored
    | Got(cfg: C)
    | Refused
  {
    predicate Writing() { Locked? || Drafted? || Applied? }
  }

  /** One change of the stored configuration, as it happened. */
  datatype Entry<!C> = ByMutate(id: nat, fn: Mutation<C>) | ByUpdate(id: nat, cfg: C)

  /** The lock, the stored configuration, the calls in progress, and the history of changes. */
  datatype State<!C> = State(
    config: C, writer: Option<nat>, readers: set<nat>, threads: map<nat, Thread<C>>, log: seq<Entry<C>>)

  datatype Step<!C> = Start(id: nat, call: Call<C>) | Go(id: nat)

  function Move<C>(s: State<C>, id: nat, t: Thread<C>): State<C>
  {
    s.(threads := s.threads[id := t])
  }

  function Release<C>(s: State<C>, id: nat, t: Thread<C>): State<C>
  {
    s.(threads := s.threads[id := t], writer := None)
  }

  /** The next micro-step of one call, when the lock allows it. */
  function Advance<C>(check: Mutation<C>, s: State<C>, id: nat): State<C>
    requires id in s.threads
  {
    match s.threads[id]
    case Waiting(call) =>
      (match call
       case Mutating(fn) =>
         if s.writer.None? && s.readers == {} then Move(s, id, Locked(fn)).(writer := Some(id)) else s
       case Updating(cfg) =>
         if check(cfg).None? then Move(s, id, Refused) else Move(s, id, Validated(check(cfg).value))
       case Getting =>
         if s.writer.None? then Move(s, id, Reading).(readers := s.readers + {id}) else s)
    case Locked(fn) => Move(s, id, Drafted(fn, s.config))
    case Drafted(fn, draft) =>
      if fn(draft).None? then Release(s, id, Refused) else Move(s, id, Applied(fn, fn(draft).value))
    case Applied(fn, draft) =>
      if check(draft).None? then Release(s, id, Refused)
      else Release(s, id, Stored).(config := check(draft).value, log := s.log + [ByMutate(id, fn)])
    case Validated(cfg) =>
      if s.writer.None? && s.readers == {} then Move(s, id, Stored).(config := cfg, log := s.log + [ByUpdate(id, cfg)])
      else s
    case Reading => Move(s, id, Got(s.config)).(readers := s.readers - {id})
    case _ => s
  }

  function Next<C>(check: Mutation<C>, s: State<C>, step: Step<C>): State<C>
  {
    match step
    case Start(id, call) => if id in s.threads then s else Move(s, id, Waiting(call))
    case Go(id) => if id in s.threads then Advance(check, s, id) else s
  }

  function Run<C>(check: Mutation<C>, s: State<C>, steps: seq<Step<C>>): State<C>
    decreases |steps|
  {
    if steps == [] then s else Run(check, Next(check, s, steps[0]), steps[1..])
  }

  function Initial<C>(c: C): State<C>
  {
    State(c, None, {}, map[], [])
  }

  // ---------------------------------------------------------------------------- history

  /** One history entry applied to a configuration; None when it would not have gone through. */
  function Apply<C>(check: Mutation<C>, c: C, e: Entry<C>): Option<C>
  {
    match e
    case ByMutate(_, fn) => Mutated(check, fn, c)
    case ByUpdate(_, cfg) => Some(cfg)
  }

  /** The history replayed in lock order; None if any entry would fail where it stands. */
  function Replay<C>(check: Mutation<C>, c: C, log: seq<Entry<C>>): Option<C>
  {
    if log == [] then Some(c)
    else
      var before :- Replay(check, c, log[..|log| - 1]);
      Apply(check, before, log[|log| - 1])
  }

  lemma ReplaySnoc<C>(check: Mutation<C>, c: C, log: seq<Entry<C>>, e: Entry<C>)
    ensures Replay(check, c, log + [e]) ==
      if Replay(check, c, log).None? then None else Apply(check, Replay(check, c, log).value, e)
  {
    assert (log + [e])[..|log|] == log;
  }

  /** A writer excludes everyone, and its draft is of the configuration still stored. */
  ghost predicate Exclusive<C(!new)>(s: State<C>)
  {
    && (forall id :: id in s.threads && s.threads[id].Writing() ==> s.writer == Some(id))
    && (s.writer.Some? ==> s.readers == {} && s.writer.value in s.threads && s.threads[s.writer.value].Writing())
    && (forall id :: id in s.threads && s.threads[id].Drafted? ==> s.threads[id].draft == s.config)
    && (forall id :: id in s.threads && s.threads[id].Applied? ==>
      s.threads[id].fn(s.config) == Some(s.threads[id].draft))
  }

  ghost predicate Distinct<C(!new)>(log: seq<Entry<C>>)
  {
    forall i, j :: 0 <= i < j < |log| ==> log[i].id != log[j].id
  }

  ghost predicate Logged<C(!new)>(log: seq<Entry<C>>, id: nat)
  {
    exists i :: 0 <= i < |log| && log[i].id == id
  }

  /** The stored configuration is its history, and a call is in it, once, exactly when it succeeded. */
  ghost predicate Faithful<C(!new)>(check: Mutation<C>, c: C, s: State<C>)
  {
    && Replay(check, c, s.log) == Some(s.config)
    && Distinct(s.log)
    && (forall id :: Logged(s.log, id) <==> id in s.threads && s.threads[id].Stored?)
  }

  lemma NextExclusive<C(!new)>(check: Mutation<C>, s: State<C>, step: Step<C>)
    requires Exclusive(s)
    ensures Exclusive(Next(check, s, step))
  {
  }

  lemma StoreFaithful<C(!new)>(check: Mutation<C>, c: C, s: State<C>, t: State<C>, e: Entry<C>)
    requires Faithful(check, c, s) && e.id in s.threads && !s.threads[e.id].Stored?
    requires Apply(check, s.config, e) == Some(t.config) && t.log == s.log + [e]
    requires t.threads == s.threads[e.id := Stored]
    ensures Faithful(check, c, t)
  {
    ReplaySnoc(check, c, s.log, e);
    assert !Logged(s.log, e.id);
    assert t.log[|s.log|] == e && forall i :: 0 <= i < |s.log| ==> t.log[i] == s.log[i];
    forall id ensures Logged(t.log, id) <==> id in t.threads && t.threads[id].Stored? {
      if Logged(s.log, id) {
        var i :| 0 <= i < |s.log| && s.log[i].id == id;
        assert t.log[i].id == id;
      }
      assert Logged(t.log, e.id);
      assert Logged(t.log, id) ==> Logged(s.log, id) || id == e.id;
    }
  }

  lemma StepFaithful<C(!new)>(check: Mutation<C>, c: C, s: State<C>, t: State<C>, id: nat)
    requires Faithful(check, c, s) && t.config == s.config && t.log == s.log
    requires t.threads.Keys == s.threads.Keys + {id}
    requires !t.threads[id].Stored? && (id in s.threads ==> !s.threads[id].Stored?)
    requires forall k :: k in s.threads && k != id ==> t.threads[k] == s.threads[k]
    ensures Faithful(check, c, t)
  {
    forall k ensures Logged(t.log, k) <==> k in t.threads && t.threads[k].Stored? {
      assert Logged(s.log, k) <==> k in s.threads && s.threads[k].Stored?;
    }
  }

  lemma NextFaithful<C(!new)>(check: Mutation<C>, c: C, s: State<C>, step: Step<C>)
    requires Exclusive(s) && Faithful(check, c, s)
    ensures Faithful(check, c, Next(check, s, step))
  {
    var t := Next(check, s, step);
    if t.log != s.log {
      StoreFaithful(check, c, s, t, t.log[|s.log|]);
    } else if t != s {
      StepFaithful(check, c, s, t, step.id);
    }
  }

  /**
    In every interleaving of Mutate, Update and Get calls the stored configuration is the
    composition, in lock order, of exactly the calls that returned success: none is lost and none
    is applied to anything but the configuration it replaces.
   */
  lemma {:induction false} NoChangeIsLost<C(!new)>(check: Mutation<C>, c: C, s: State<C>, steps: seq<Step<C>>)
    requires Exclusive(s) && Faithful(check, c, s)
    ensures Exclusive(Run(check, s, steps)) && Faithful(check, c, Run(check, s, steps))
    decreases |steps|
  {
    if steps != [] {
      NextExclusive(check, s, steps[0]);
      NextFaithful(check, c, s, steps[0]);
      NoChangeIsLost(check, c, Next(check, s, steps[0]), steps[1..]);
    }
  }

  /** From a fresh SafeConfig, whatever calls are made and however they interleave. */
  lemma NoChangeIsLostFromStart<C(!new)>(check: Mutation<C>, c: C, steps: seq<Step<C>>)
    ensures Exclusive(Run(check, Initial(c), steps)) && Faithful(check, c, Run(check, Initial(c), steps))
  {
    NoChangeIsLost(check, c, Initial(c), steps);
  }

  // ------------------------------------------------------------------------ what Get returns

  /** got was stored once the first k changes had been made, for some k from `since` on. */
  ghost predicate WasStored<C(!new)>(check: Mutation<C>, c: C, log: seq<Entry<C>>, since: nat, got: C)
  {
    exists k :: since <= k <= |log| && Replay(check, c, log[..k]) == Some(got)
  }

  /** A Get that has not returned, or that returned a configuration stored since then. */
  ghost predicate Current<C(!new)>(check: Mutation<C>, c: C, s: State<C>, id: nat, since: nat)
  {
    && id in s.threads && since <= |s.log|
    && (s.threads[id] == Waiting(Getting) || s.threads[id].Reading? ||
        (s.threads[id].Got? && WasStored(check, c, s.log, since, s.threads[id].cfg)))
  }

  lemma WasStoredLater<C(!new)>(
    check: Mutation<C>, c: C, log: seq<Entry<C>>, more: seq<Entry<C>>, since: nat, got: C)
    requires WasStored(check, c, log, since, got)
    ensures WasStored(check, c, log + more, since, got)
  {
    var k :| since <= k <= |log| && Replay(check, c, log[..k]) == Some(got);
    assert (log + more)[..k] == log[..k];
  }

  /** What one step can do to a Get and to the log. */
  lemma NextOfGet<C>(check: Mutation<C>, s: State<C>, step: Step<C>, id: nat)
    requires id in s.threads && (s.threads[id] == Waiting(Getting) || s.threads[id].Reading? || s.threads[id].Got?)
    ensures var t := Next(check, s, step);
      && id in t.threads && s.log <= t.log
      && (t.threads[id] == s.threads[id] || t.threads[id].Reading? || t.threads[id] == Got(s.config))
  {
  }

  lemma NextCurrent<C(!new)>(check: Mutation<C>, c: C, s: State<C>, step: Step<C>, id: nat, since: nat)
    requires Faithful(check, c, s) && Current(check, c, s, id, since)
    ensures Current(check, c, Next(check, s, step), id, since)
  {
    var t := Next(check, s, step);
    NextOfGet(check, s, step, id);
    assert s.log[..|s.log|] == s.log;
    assert WasStored(check, c, s.log, since, s.config);
    var more := t.log[|s.log|..];
    assert t.log == s.log + more;
    WasStoredLater(check, c, s.log, more, since, s.config);
    if s.threads[id].Got? { WasStoredLater(check, c, s.log, more, since, s.threads[id].cfg); }
  }

  lemma {:induction false} RunCurrent<C(!new)>(
    check: Mutation<C>, c: C, s: State<C>, steps: seq<Step<C>>, id: nat, since: nat)
    requires Exclusive(s) && Faithful(check, c, s) && Current(check, c, s, id, since)
    ensures Current(check, c, Run(check, s, steps), id, since)
    decreases |steps|
  {
    if steps != [] {
      NextExclusive(check, s, steps[0]);
      NextFaithful(check, c, s, steps[0]);
      NextCurrent(check, c, s, steps[0], id, since);
      RunCurrent(check, c, Next(check, s, steps[0]), steps[1..], id, since);
    }
  }

  lemma {:induction false} LogGrows<C>(check: Mutation<C>, s: State<C>, steps: seq<Step<C>>)
    ensures s.log <= Run(check, s, steps).log
    decreases |steps|
  {
    if steps != [] {
      assert s.log <= Next(check, s, steps[0]).log;
      LogGrows(check, Next(check, s, steps[0]), steps[1..]);
    }
  }

  /**
    A Get started in state s returns, however the steps after it interleave, a configuration that
    was the stored one at some point between its start and its return: one left by a change made
    no earlier than the last before the start and no later than the last before the return.
   */
  lemma GetReturnsCurrent<C(!new)>(check: Mutation<C>, c: C, s: State<C>, id: nat, steps: seq<Step<C>>)
    requires Exclusive(s) && Faithful(check, c, s) && id !in s.threads
    ensures var u := Run(check, Next(check, s, Start(id, Getting)), steps);
      && id in u.threads && s.log <= u.log
      && (u.threads[id].Got? ==> WasStored(check, c, u.log, |s.log|, u.threads[id].cfg))
  {
    NextExclusive(check, s, Start(id, Getting));
    NextFaithful(check, c, s, Start(id, Getting));
    RunCurrent(check, c, Next(check, s, Start(id, Getting)), steps, id, |s.log|);
    LogGrows(check, Next(check, s, Start(id, Getting)), steps);
  }

  // -------------------------------------------------------------- Get then Update is not that

  lemma {:induction false} RunAppend<C>(check: Mutation<C>, s: State<C>, a: seq<Step<C>>, b: seq<Step<C>>)
    ensures Run(check, s, a + b) == Run(check, Run(check, s, a), b)
    decreases |a|
  {
    if a == [] {
      assert a + b == b;
    } else {
      RunAppend(check, Next(check, s, a[0]), a[1..], b);
      assert (a + b)[1..] == a[1..] + b;
    }
  }

  lemma ThreeSteps<C>(check: Mutation<C>, s: State<C>, x: seq<Step<C>>)
    requires |x| == 3
    ensures Run(check, s, x) == Next(check, Next(check, Next(check, s, x[0]), x[1]), x[2])
  {
    assert x[1..][1..] == [x[2]];
    var t := Next(check, Next(check, s, x[0]), x[1]);
    assert Run(check, t, [x[2]]) == Next(check, t, x[2]);
  }

  /** One Get, from its start to its return, with the lock free throughout. */
  lemma ReadAlone<C>(check: Mutation<C>, s: State<C>, id: nat)
    requires s.writer.None? && s.readers == {} && id !in s.threads
    ensures Run(check, s, GetSteps(id)) == Move(s, id, Got(s.config))
  {
    ThreeSteps(check, s, GetSteps(id));
    var m: map<nat, Thread<C>> := s.threads;
    assert m[id := Waiting(Getting)][id := Reading][id := Got(s.config)] == m[id := Got(s.config)];
    assert s.readers + {id} - {id} == s.readers;
  }

  /** One Update of an acceptable configuration, with the lock free throughout. */
  lemma StoreAlone<C>(check: Mutation<C>, s: State<C>, id: nat, cfg: C)
    requires s.writer.None? && s.readers == {} && id !in s.threads && check(cfg).Some?
    ensures Run(check, s, UpdateSteps(id, cfg)) ==
      Move(s, id, Stored).(config := check(cfg).value, log := s.log + [ByUpdate(id, check(cfg).value)])
  {
    ThreeSteps(check, s, UpdateSteps(id, cfg));
    var m: map<nat, Thread<C>> := s.threads;
    assert m[id := Waiting(Updating(cfg))][id := Validated(check(cfg).value)][id := Stored] == m[id := Stored];
  }

  /** The steps of one Get and of one Update, each run without a pause. */
  function GetSteps<C>(id: nat): seq<Step<C>>
  {
    [Start(id, Getting), Go(id), Go(id)]
  }

  function UpdateSteps<C>(id: nat, cfg: C): seq<Step<C>>
  {
    [Start(id, Updating(cfg)), Go(id), Go(id)]
  }

  function MutateSteps<C>(id: nat, fn: Mutation<C>): seq<Step<C>>
  {
    [Start(id, Mutating(fn)), Go(id), Go(id)] + [Go(id), Go(id)]
  }

  lemma TwoSteps<C>(check: Mutation<C>, s: State<C>, a: Step<C>, b: Step<C>)
    ensures Run(check, s, [a, b]) == Next(check, Next(check, s, a), b)
  {
    assert [a, b][1..] == [b] && [b][1..] == [];
    assert Run(check, Next(check, s, a), [b]) == Run(check, Next(check, Next(check, s, a), b), []);
  }

  /** One Mutate with the lock free throughout. */
  lemma MutateAlone<C>(check: Mutation<C>, s: State<C>, id: nat, fn: Mutation<C>)
    requires s.writer.None? && s.readers == {} && id !in s.threads
    ensures LeftBehind(Run(check, s, MutateSteps(id, fn)), id) == Mutated(check, fn, s.config)
    ensures Run(check, s, MutateSteps(id, fn)).config ==
      if Mutated(check, fn, s.config).Some? then Mutated(check, fn, s.config).value else s.config
  {
    var x := [Start(id, Mutating(fn)), Go(id), Go(id)];
    RunAppend(check, s, x, [Go(id), Go(id)]);
    ThreeSteps(check, s, x);
    var drafted := Run(check, s, x);
    assert drafted.threads[id] == Drafted(fn, s.config);
    TwoSteps(check, drafted, Go(id), Go(id));
  }

  /** What a call left behind: the configuration it stored, or nothing. */
  function LeftBehind<C>(s: State<C>, id: nat): Option<C>
  {
    if id in s.threads && s.threads[id].Stored? then Some(s.config) else None
  }

  /** The client that read `read`, computes fn on it and, if that succeeds, calls Update. */
  function UpdateFrom<C>(check: Mutation<C>, s: State<C>, id: nat, fn: Mutation<C>, read: C): State<C>
  {
    match fn(read)
    case None => s
    case Some(draft) => Run(check, s, UpdateSteps(id, draft))
  }

  lemma UpdateFromAlone<C>(check: Mutation<C>, s: State<C>, id: nat, fn: Mutation<C>, read: C)
    requires s.writer.None? && s.readers == {} && id !in s.threads
    ensures LeftBehind(UpdateFrom(check, s, id, fn, read), id) == Mutated(check, fn, read)
  {
    if fn(read).Some? {
      var draft := fn(read).value;
      if check(draft).Some? { StoreAlone(check, s, id, draft); } else { RefuseAlone(check, s, id, draft); }
    }
  }

  lemma RefuseAlone<C>(check: Mutation<C>, s: State<C>, id: nat, cfg: C)
    requires id !in s.threads && check(cfg).None?
    ensures LeftBehind(Run(check, s, UpdateSteps(id, cfg)), id) == None
  {
    ThreeSteps(check, s, UpdateSteps(id, cfg));
  }

  /** Two configurations that no client computation tells apart are one, if any configuration is acceptable. */
  lemma ToldApart<C(!new)>(check: Mutation<C>, read: C, stored: C)
    requires exists ok :: check(ok).Some?
    ensures (forall fn: Mutation<C> :: Mutated(check, fn, read) == Mutated(check, fn, stored)) <==> read == stored
  {
    var ok :| check(ok).Some?;
    var fn := (c: C) => if c == read then Some(ok) else None;
    if forall g: Mutation<C> :: Mutated(check, g, read) == Mutated(check, g, stored) {
      assert Mutated(check, fn, read) == Mutated(check, fn, stored);
      assert Mutated(check, fn, read).Some?;
    }
  }

  /**
    A client reads in state s and, after any steps whatever, computes on what it read and updates.
    That does what Mutate would, whatever the client computes, exactly when the configuration it
    read is still the one stored; and so in particular when nothing was stored in between.
   */
  lemma UpdateIsMutateIff<C(!new)>(check: Mutation<C>, c: C, s: State<C>, steps: seq<Step<C>>, id: nat)
    requires Exclusive(s) && Faithful(check, c, s) && exists ok :: check(ok).Some?
    requires var u := Run(check, s, steps); u.writer.None? && u.readers == {} && id !in u.threads
    ensures var u := Run(check, s, steps);
      && ((forall fn: Mutation<C> ::
             LeftBehind(UpdateFrom(check, u, id, fn, s.config), id) ==
             LeftBehind(Run(check, u, MutateSteps(id, fn)), id))
          <==> s.config == u.config)
      && (u.log == s.log ==> s.config == u.config)
  {
    var u := Run(check, s, steps);
    NoChangeIsLost(check, c, s, steps);
    ToldApart(check, s.config, u.config);
    forall fn: Mutation<C>
      ensures LeftBehind(UpdateFrom(check, u, id, fn, s.config), id) == Mutated(check, fn, s.config)
      ensures LeftBehind(Run(check, u, MutateSteps(id, fn)), id) == Mutated(check, fn, u.config)
    {
      UpdateFromAlone(check, u, id, fn, s.config);
      MutateAlone(check, u, id, fn);
    }
  }

  lemma FourCalls<C>(
    check: Mutation<C>, s: State<C>, w: seq<Step<C>>, x: seq<Step<C>>, y: seq<Step<C>>, z: seq<Step<C>>)
    ensures Run(check, s, w + (x + (y + z))) == Run(check, Run(check, Run(check, Run(check, s, w), x), y), z)
  {
    RunAppend(check, s, w, x + (y + z));
    RunAppend(check, Run(check, s, w), x, y + z);
    RunAppend(check, Run(check, Run(check, s, w), x), y, z);
  }

  function Accept(n: int): Option<int> { Some(n) }

  /**
    Two clients of a counter each read it and then store its successor. Both read 0, both updates
    succeed, and the counter ends at 1: one increment is lost.
   */
  lemma GetThenUpdateLosesOne()
    ensures var end := Run(Accept, Initial(0), GetSteps(0) + (GetSteps(1) + (UpdateSteps(2, 1) + UpdateSteps(3, 1))));
      && end.threads == map[0 := Got(0), 1 := Got(0), 2 := Stored, 3 := Stored]
      && end.config == 1
  {
    var s := Initial(0);
    FourCalls(Accept, s, GetSteps(0), GetSteps(1), UpdateSteps(2, 1), UpdateSteps(3, 1));
    ReadAlone(Accept, s, 0);
    var a := Move(s, 0, Got(0));
    ReadAlone(Accept, a, 1);
    var b := Move(a, 1, Got(0));
    StoreAlone(Accept, b, 2, 1);
    var d := Move(b, 2, Stored).(config := 1, log := b.log + [ByUpdate(2, 1)]);
    StoreAlone(Accept, d, 3, 1);
  }
}
