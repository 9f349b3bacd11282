/**
  The agentic loop state machine (agentic/state.go): the entity with its four stepping methods,
  and what every run of them keeps.
 */
module LoopEntity {
  import opened Outcome

  /** The state vocabulary; Undefined is any other string, "" included. */
  datatype LoopState =
    | Exploring | Planning | Architecting | Executing | Reviewing
    | Complete | Failed | Cancelled
    | AwaitingApproval
    | Undefined(spelling: string)
  {
    predicate IsTerminal() { Complete? || Failed? || Cancelled? }
    predicate IsValid() { !Undefined? }
  }

  const NoState := Undefined("")

  /** The gated tool call. `detail` stands for arguments, reason, time stamp, timeout and trace. */
  datatype Pending = Pending(callID: string, toolName: string, detail: string)

  /** The part of the entity the methods read and write. */
  datatype Loop = Loop(
    state: LoopState, before: LoopState, pending: Option<Pending>, iterations: int, maxIterations: int)

  datatype Op =
    | Transition(target: LoopState)
    | Begin(call: Pending)
    | Resolve
    | Increment

  // ----------------------------------------------------------------- the steps, on values

  predicate TransitionOk(l: Loop, target: LoopState)
  {
    target.IsValid() && (l.state == target || !l.state.IsTerminal())
  }

  predicate BeginOk(l: Loop, call: Pending)
  {
    && !l.state.IsTerminal()
    && (l.pending.Some? ==> l.pending.value.callID == call.callID)
    && call.callID != "" && call.toolName != ""
  }

  predicate ResolveOk(l: Loop)
  {
    l.state == AwaitingApproval && l.pending.Some?
  }

  predicate IncrementOk(l: Loop)
  {
    l.iterations < l.maxIterations
  }

  predicate Succeeds(l: Loop, op: Op)
  {
    match op
    case Transition(target) => TransitionOk(l, target)
    case Begin(call) => BeginOk(l, call)
    case Resolve => ResolveOk(l)
    case Increment => IncrementOk(l)
  }

  function Restored(before: LoopState): LoopState
  {
    if before == NoState || before == AwaitingApproval then Executing else before
  }

  /** A failing call changes nothing. */
  function Step(l: Loop, op: Op): Loop
  {
    if !Succeeds(l, op) then l
    else
      match op
      case Transition(target) => l.(state := target)
      case Begin(call) => l.(state := AwaitingApproval, before := l.state, pending := Some(call))
      case Resolve => l.(state := Restored(l.before), before := NoState, pending := None)
      case Increment => l.(iterations := l.iterations + 1)
  }

  function Run(l: Loop, ops: seq<Op>): Loop
    decreases |ops|
  {
    if ops == [] then l else Run(Step(l, ops[0]), ops[1..])
  }

  // -------------------------------------------------------------------------- the object

  class Entity {
    var state: LoopState
    var before: LoopState
    var pending: Option<Pending>
    var iterations: int
    const maxIterations: int

    ghost function Value(): Loop
      reads this
    {
      Loop(state, before, pending, iterations, maxIterations)
    }

    /** NewLoopEntity. */
    constructor (maxIterations: seq<int>)
      ensures Value() == Fresh(maxIterations)
    {
      var max := 20;
      if |maxIterations| > 0 && maxIterations[0] > 0 { max := maxIterations[0]; }
      state, before, pending, iterations := Exploring, NoState, None, 0;
      this.maxIterations := max;
    }

    method TransitionTo(target: LoopState) returns (ok: bool)
      modifies this`state
      ensures ok == old(Succeeds(Value(), Transition(target)))
      ensures Value() == old(Step(Value(), Transition(target)))
    {
      if !target.IsValid() { return false; }
      if state == target { return true; }
      if state.IsTerminal() { return false; }
      state := target;
      return true;
    }

    method BeginAwaitingApproval(call: Pending) returns (ok: bool)
      modifies this`state, this`before, this`pending
      ensures ok == old(Succeeds(Value(), Begin(call)))
      ensures Value() == old(Step(Value(), Begin(call)))
    {
      if state.IsTerminal() { return false; }
      if pending.Some? && pending.value.callID != call.callID { return false; }
      if call.callID == "" { return false; }
      if call.toolName == "" { return false; }
      before := state;
      state := AwaitingApproval;
      pending := Some(call);
      return true;
    }

    method ResolveApproval() returns (ok: bool)
      modifies this`state, this`before, this`pending
      ensures ok == old(Succeeds(Value(), Resolve))
      ensures Value() == old(Step(Value(), Resolve))
    {
      if state != AwaitingApproval { return false; }
      if pending.None? { return false; }
      var restore := before;
      if restore == NoState || restore == AwaitingApproval { restore := Executing; }
      state := restore;
      before := NoState;
      pending := None;
      return true;
    }

    method IncrementIteration() returns (ok: bool)
      modifies this`iterations
      ensures ok == old(Succeeds(Value(), Increment))
      ensures Value() == old(Step(Value(), Increment))
    {
      if iterations >= maxIterations { return false; }
      iterations := iterations + 1;
      return true;
    }
  }

  function Fresh(maxIterations: seq<int>): Loop
  {
    Loop(Exploring, NoState, None, 0,
         if |maxIterations| > 0 && maxIterations[0] > 0 then maxIterations[0] else 20)
  }

  // ---------------------------------------------------------------------------- every run

  /** What NewLoopEntity establishes and every step keeps. */
  predicate Sound(l: Loop)
  {
    && l.state.IsValid()
    && (l.before == NoState || (l.before.IsValid() && !l.before.IsTerminal()))
    && (l.pending.Some? ==> l.pending.value.callID != "")
    && 0 <= l.iterations <= l.maxIterations
  }

  function Increments(l: Loop, ops: seq<Op>): nat
    decreases |ops|
  {
    if ops == [] then 0
    else (if ops[0].Increment? && Succeeds(l, ops[0]) then 1 else 0) + Increments(Step(l, ops[0]), ops[1..])
  }

  /** Some Resolve in the run succeeds. */
  predicate Resolves(l: Loop, ops: seq<Op>)
    decreases |ops|
  {
    ops != [] && ((ops[0].Resolve? && Succeeds(l, ops[0])) || Resolves(Step(l, ops[0]), ops[1..]))
  }

  /**
    Over every run: the state stays in the vocabulary, a terminal state is final, the budget is
    fixed and Iterations counts exactly the successful increments within it, and a pending call
    keeps its ID until a Resolve succeeds.
   */
  lemma {:induction false} EveryRun(l: Loop, ops: seq<Op>)
    requires Sound(l)
    ensures Sound(Run(l, ops))
    ensures l.state.IsTerminal() ==> Run(l, ops).state == l.state
    ensures Run(l, ops).maxIterations == l.maxIterations
    ensures Run(l, ops).iterations == l.iterations + Increments(l, ops)
    ensures l.pending.Some? && !Resolves(l, ops) ==>
      Run(l, ops).pending.Some? && Run(l, ops).pending.value.callID == l.pending.value.callID
    decreases |ops|
  {
    if ops != [] {
      EveryRun(Step(l, ops[0]), ops[1..]);
    }
  }

  lemma {:induction false} RunSplits(l: Loop, ops: seq<Op>, more: seq<Op>)
    ensures Run(l, ops + more) == Run(Run(l, ops), more)
    decreases |ops|
  {
    if ops == [] {
      assert ops + more == more;
    } else {
      RunSplits(Step(l, ops[0]), ops[1..], more);
      assert (ops + more)[1..] == ops[1..] + more;
    }
  }

  /** Over every run of a newly made loop, and every continuation of that run. */
  lemma EveryRunFromNew(maxIterations: seq<int>, ops: seq<Op>, more: seq<Op>)
    ensures var l, after := Run(Fresh(maxIterations), ops), Run(Fresh(maxIterations), ops + more);
      && Sound(l) && l.iterations == Increments(Fresh(maxIterations), ops)
      && l.maxIterations == Fresh(maxIterations).maxIterations
      && (l.state.IsTerminal() ==> after.state == l.state)
      && (l.pending.Some? && !Resolves(l, more) ==>
            after.pending.Some? && after.pending.value.callID == l.pending.value.callID)
  {
    EveryRun(Fresh(maxIterations), ops);
    EveryRun(Run(Fresh(maxIterations), ops), more);
    RunSplits(Fresh(maxIterations), ops, more);
  }

  /** A successful Resolve never lands in a terminal or awaiting state. */
  lemma ResolveLands(maxIterations: seq<int>, ops: seq<Op>)
    requires ResolveOk(Run(Fresh(maxIterations), ops))
    ensures var l := Step(Run(Fresh(maxIterations), ops), Resolve);
      l.state.IsValid() && !l.state.IsTerminal() && l.state != AwaitingApproval && l.pending.None?
  {
    EveryRun(Fresh(maxIterations), ops);
  }

  // ------------------------------------------------------------------------ approval pairs

  lemma RunTwo(l: Loop, a: Op, b: Op)
    ensures Run(l, [a, b]) == Step(Step(l, a), b)
  {
    assert [a, b][1..] == [b] && [b][1..] == [];
    assert Run(Step(l, a), [b]) == Run(Step(Step(l, a), b), []);
  }

  /**
    Begin then Resolve gives back the exact entity, save a pending call it replaced, if and only if
    the loop was not already awaiting; from awaiting it lands in executing.
   */
  lemma ApprovalRestores(l: Loop, call: Pending)
    requires Sound(l) && BeginOk(l, call)
    ensures Run(l, [Begin(call), Resolve]).state == l.state <==> l.state != AwaitingApproval
    ensures l.state != AwaitingApproval && l.pending.None? && l.before == NoState ==>
      Run(l, [Begin(call), Resolve]) == l
    ensures l.state == AwaitingApproval ==> Run(l, [Begin(call), Resolve]).state == Executing
  {
    RunTwo(l, Begin(call), Resolve);
  }

  /** A repeated Begin for the same call forgets the prior state: Resolve then lands in executing. */
  lemma RepeatedBeginForgets(l: Loop, call: Pending, again: Pending)
    requires Sound(l) && BeginOk(l, call) && again.callID == call.callID && again.toolName != ""
    ensures Run(l, [Begin(call), Begin(again), Resolve]).state == Executing
  {
    var ops := [Begin(call), Begin(again), Resolve];
    assert ops[1..] == [Begin(again), Resolve];
    assert Run(l, ops) == Run(Step(l, Begin(call)), [Begin(again), Resolve]);
    RunTwo(Step(l, Begin(call)), Begin(again), Resolve);
  }

  // ------------------------------------------------------- awaiting and pending can part

  predicate InStep(l: Loop)
  {
    l.state == AwaitingApproval <==> l.pending.Some?
  }

  /** A transition that enters or leaves awaiting_approval without its pending call. */
  predicate Detaches(l: Loop, op: Op)
  {
    op.Transition? && TransitionOk(l, op.target) && (op.target == AwaitingApproval) != (l.state == AwaitingApproval)
  }

  /** Awaiting approval and holding a pending call stay in step exactly as long as no step detaches them. */
  lemma InStepUnlessDetached(l: Loop, op: Op)
    requires Sound(l) && InStep(l)
    ensures InStep(Step(l, op)) <==> !Detaches(l, op)
  {
  }

  /** A new loop that is moved to awaiting_approval awaits with nothing pending. */
  lemma AwaitsNothing()
    ensures var l := Run(Fresh([]), [Transition(AwaitingApproval)]);
      l.state == AwaitingApproval && l.pending.None?
  {
    var op := Transition(AwaitingApproval);
    assert [op][1..] == [];
    assert Run(Step(Fresh([]), op), []) == Step(Fresh([]), op);
  }

  predicate NeverDetaches(l: Loop, ops: seq<Op>)
    decreases |ops|
  {
    ops == [] || (!Detaches(l, ops[0]) && NeverDetaches(Step(l, ops[0]), ops[1..]))
  }

  /** They agree at every point of a run exactly when the run never detaches them. */
  predicate AlwaysInStep(l: Loop, ops: seq<Op>)
    decreases |ops|
  {
    InStep(l) && (ops == [] || AlwaysInStep(Step(l, ops[0]), ops[1..]))
  }

  lemma {:induction false} InStepThroughout(l: Loop, ops: seq<Op>)
    requires Sound(l) && InStep(l)
    ensures AlwaysInStep(l, ops) <==> NeverDetaches(l, ops)
    decreases |ops|
  {
    if ops != [] {
      InStepUnlessDetached(l, ops[0]);
      EveryRun(l, [ops[0]]);
      assert Run(l, [ops[0]]) == Step(l, ops[0]);
      if !Detaches(l, ops[0]) { InStepThroughout(Step(l, ops[0]), ops[1..]); }
    }
  }
}
