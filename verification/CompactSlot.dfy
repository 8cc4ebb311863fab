// The one-shot slot for the text to inject after a compaction. A compact
// request parks its continuation on the session's agent and then injects the
// compact command; a hook takes the continuation out when compaction is done
// and injects it. Requests, failed injections, hooks and agent replacements
// interleave freely; only the agent's own message handling is atomic.

module CompactSlot {
  import opened Options

  // The agent, whose messages are handled one at a time. current: whether it
  // still owns the session's pane.
  class SessionAgent {
    var slot: Option<nat>

    constructor ()
      ensures slot == None
    {
      slot := None;
    }

    method TrySet(text: nat, current: bool) returns (acquired: bool)
      modifies this
      ensures acquired <==> current && old(slot).None?
      ensures slot == if acquired then Some(text) else old(slot)
    {
      acquired := current && slot.None?;
      if acquired {
        slot := Some(text);
      }
    }

    method Drain(current: bool) returns (taken: Option<nat>)
      modifies this
      ensures taken == if current then old(slot) else None
      ensures slot == if current then None else old(slot)
    {
      taken := None;
      if current {
        taken := slot;
        slot := None;
      }
    }
  }

  datatype CompactResult = Busy | InjectionFailed(drained: Option<nat>) | Compacting

  // A compact request that nothing interleaves with: a failed one leaves the
  // slot as it found it, and a parked continuation is never overwritten.
  method Compact(agent: SessionAgent, text: nat, injects: bool) returns (result: CompactResult)
    modifies agent
    ensures old(agent.slot).Some? ==> result == Busy && agent.slot == old(agent.slot)
    ensures old(agent.slot).None? && injects ==> result == Compacting && agent.slot == Some(text)
    ensures old(agent.slot).None? && !injects ==> result == InjectionFailed(Some(text)) && agent.slot == None
  {
    var parked := agent.TrySet(text, true);
    if !parked {
      return Busy;
    }
    if !injects {
      var drained := agent.Drain(true);
      return InjectionFailed(drained);
    }
    return Compacting;
  }

  // ----- interleavings -----

  datatype Stage = Injecting | RollingBack | Done

  // Continuations are named by the request that parked them, in the order of parking.
  datatype Sys = Sys(
    current: Option<nat>,                // the session's agent
    slots: map<nat, Option<nat>>,        // the slot of every live agent
    agents: nat,                         // agents started so far
    requests: seq<Stage>,                // requests that parked
    hooks: map<nat, nat>,                // hooks with a continuation in hand
    injected: multiset<nat>,
    discarded: multiset<nat>,            // taken out by a rollback
    lost: multiset<nat>)                 // injection failed, or the agent stopped

  datatype Step =
    | Spawn                              // a new agent takes over the session
    | Leave                              // the session has no agent
    | Stop(agent: nat)
    | Park
    | Compacted(req: nat, ok: bool)      // the compact command was injected, or not
    | RollBack(req: nat)
    | HookDrain(hook: nat)
    | HookInject(hook: nat, ok: bool)

  function SlotNow(sys: Sys): Option<nat> {
    if sys.current.Some? && sys.current.value in sys.slots then sys.slots[sys.current.value] else None
  }

  predicate Enabled(sys: Sys, step: Step) {
    match step
    case Spawn => true
    case Leave => true
    case Stop(agent) => agent in sys.slots
    case Park => sys.current.Some? && sys.current.value in sys.slots && SlotNow(sys).None?
    case Compacted(req, _) => req < |sys.requests| && sys.requests[req].Injecting?
    case RollBack(req) => req < |sys.requests| && sys.requests[req].RollingBack?
    case HookDrain(hook) => hook !in sys.hooks
    case HookInject(hook, _) => hook in sys.hooks
  }

  function One(taken: Option<nat>): multiset<nat> {
    if taken.Some? then multiset{taken.value} else multiset{}
  }

  function Emptied(sys: Sys): map<nat, Option<nat>> {
    if SlotNow(sys).Some? then sys.slots[sys.current.value := None] else sys.slots
  }

  function Next(sys: Sys, step: Step): Sys
    requires Enabled(sys, step)
  {
    match step
    case Spawn => sys.(current := Some(sys.agents), slots := sys.slots[sys.agents := None], agents := sys.agents + 1)
    case Leave => sys.(current := None)
    case Stop(agent) => sys.(slots := sys.slots - {agent}, lost := sys.lost + One(sys.slots[agent]))
    case Park =>
      sys.(slots := sys.slots[sys.current.value := Some(|sys.requests|)], requests := sys.requests + [Injecting])
    case Compacted(req, ok) => sys.(requests := sys.requests[req := if ok then Done else RollingBack])
    case RollBack(req) =>
      sys.(slots := Emptied(sys), requests := sys.requests[req := Done], discarded := sys.discarded + One(SlotNow(sys)))
    case HookDrain(hook) =>
      if SlotNow(sys).Some? then sys.(slots := Emptied(sys), hooks := sys.hooks[hook := SlotNow(sys).value]) else sys
    case HookInject(hook, ok) =>
      var t := sys.hooks[hook];
      var rest := sys.(hooks := sys.hooks - {hook});
      if ok then rest.(injected := rest.injected + multiset{t}) else rest.(lost := rest.lost + multiset{t})
  }

  function Exec(sys: Sys, steps: seq<Step>): Sys
    requires Valid(sys, steps)
    decreases |steps|
  {
    if steps == [] then sys else Exec(Next(sys, steps[0]), steps[1..])
  }

  predicate Valid(sys: Sys, steps: seq<Step>)
    decreases |steps|
  {
    steps == [] || (Enabled(sys, steps[0]) && Valid(Next(sys, steps[0]), steps[1..]))
  }

  const START := Sys(None, map[], 0, [], map[], multiset{}, multiset{}, multiset{})

  // ----- where a continuation is -----

  function Agents(slots: map<nat, Option<nat>>, t: nat): set<nat> {
    set a | a in slots && slots[a] == Some(t)
  }

  function Hooks(hooks: map<nat, nat>, t: nat): set<nat> {
    set h | h in hooks && hooks[h] == t
  }

  function Copies(sys: Sys, t: nat): nat {
    |Agents(sys.slots, t)| + |Hooks(sys.hooks, t)| + sys.injected[t] + sys.discarded[t] + sys.lost[t]
  }

  // Every parked continuation is in exactly one place.
  predicate OnePlace(sys: Sys, t: nat) {
    Copies(sys, t) == if t < |sys.requests| then 1 else 0
  }

  // Agents are numbered as they start, and what the current agent has parked
  // is the newest continuation of all.
  ghost predicate Ordered(sys: Sys) {
    && (forall a :: a in sys.slots ==> a < sys.agents)
    && (SlotNow(sys).Some? ==> SlotNow(sys).value + 1 == |sys.requests|)
    && (sys.current.Some? ==> sys.current.value < sys.agents)
  }

  lemma SlotSet(slots: map<nat, Option<nat>>, a: nat, filled: nat, t: nat)
    requires a in slots ==> slots[a].None?
    ensures |Agents(slots[a := Some(filled)], t)| == |Agents(slots, t)| + (if filled == t then 1 else 0)
    ensures Agents(slots[a := None], t) == Agents(slots, t)
  {
    assert Agents(slots[a := Some(filled)], t) == if filled == t then Agents(slots, t) + {a} else Agents(slots, t);
  }

  lemma SlotCleared(slots: map<nat, Option<nat>>, a: nat, t: nat)
    requires a in slots
    ensures |Agents(slots, t)| == |Agents(slots[a := None], t)| + One(slots[a])[t]
    ensures Agents(slots - {a}, t) == Agents(slots[a := None], t)
  {
    assert Agents(slots, t) == Agents(slots[a := None], t) + (if slots[a] == Some(t) then {a} else {});
  }

  lemma HookSet(hooks: map<nat, nat>, h: nat, held: nat, t: nat)
    requires h !in hooks
    ensures |Hooks(hooks[h := held], t)| == |Hooks(hooks, t)| + (if held == t then 1 else 0)
  {
    assert Hooks(hooks[h := held], t) == if held == t then Hooks(hooks, t) + {h} else Hooks(hooks, t);
  }

  lemma HookDone(hooks: map<nat, nat>, h: nat, t: nat)
    requires h in hooks
    ensures |Hooks(hooks, t)| == |Hooks(hooks - {h}, t)| + (if hooks[h] == t then 1 else 0)
  {
    HookSet(hooks - {h}, h, hooks[h], t);
    assert (hooks - {h})[h := hooks[h]] == hooks;
  }

  lemma AgentStepKeepsPlace(sys: Sys, step: Step, t: nat)
    requires Enabled(sys, step) && Ordered(sys) && OnePlace(sys, t)
    requires step.Spawn? || step.Leave? || step.Stop? || step.Park? || step.Compacted?
    ensures OnePlace(Next(sys, step), t)
  {
    match step
    case Spawn => SlotSet(sys.slots, sys.agents, 0, t);
    case Stop(agent) => SlotCleared(sys.slots, agent, t);
    case Park => SlotSet(sys.slots, sys.current.value, |sys.requests|, t);
    case _ =>
  }

  lemma DrainStepKeepsPlace(sys: Sys, step: Step, t: nat)
    requires Enabled(sys, step) && OnePlace(sys, t)
    requires step.RollBack? || step.HookDrain? || step.HookInject?
    ensures OnePlace(Next(sys, step), t)
  {
    if !step.HookInject? && SlotNow(sys).Some? {
      SlotCleared(sys.slots, sys.current.value, t);
    }
    match step
    case HookDrain(hook) =>
      if SlotNow(sys).Some? {
        HookSet(sys.hooks, hook, SlotNow(sys).value, t);
      }
    case HookInject(hook, _) => HookDone(sys.hooks, hook, t);
    case _ =>
  }

  lemma StepKeepsOrder(sys: Sys, step: Step)
    requires Enabled(sys, step) && Ordered(sys)
    ensures Ordered(Next(sys, step))
  {
  }

  lemma {:induction false} RunKeepsPlace(sys: Sys, steps: seq<Step>, t: nat)
    requires Valid(sys, steps) && Ordered(sys) && OnePlace(sys, t)
    ensures Ordered(Exec(sys, steps)) && OnePlace(Exec(sys, steps), t)
    decreases |steps|
  {
    if steps != [] {
      if steps[0].RollBack? || steps[0].HookDrain? || steps[0].HookInject? {
        DrainStepKeepsPlace(sys, steps[0], t);
      } else {
        AgentStepKeepsPlace(sys, steps[0], t);
      }
      StepKeepsOrder(sys, steps[0]);
      RunKeepsPlace(Next(sys, steps[0]), steps[1..], t);
    }
  }

  // Over every interleaving a parked continuation is in one place: still in a
  // slot, in a hook's hands, injected, discarded or lost. So none is ever
  // overwritten, and each is drained at most once and injected at most once.
  lemma ContinuationsAreConserved(steps: seq<Step>, t: nat)
    requires Valid(START, steps)
    ensures OnePlace(Exec(START, steps), t)
    ensures Exec(START, steps).injected[t] <= 1
  {
    assert Agents(START.slots, t) == {} && Hooks(START.hooks, t) == {};
    RunKeepsPlace(START, steps, t);
  }

  // What a rollback takes out of the slot.
  function Taken(sys: Sys, req: nat): multiset<nat>
    requires Enabled(sys, RollBack(req))
  {
    Next(sys, RollBack(req)).discarded - sys.discarded
  }

  // A rollback takes whatever the current agent has parked: nothing, or the
  // continuation of the newest request. So it takes no other request's
  // continuation exactly when the slot is empty or no later request has parked.
  lemma RollbackTakesTheNewest(steps: seq<Step>, req: nat)
    requires Valid(START, steps) && Enabled(Exec(START, steps), RollBack(req))
    ensures var sys := Exec(START, steps);
            && (Taken(sys, req) == multiset{} || Taken(sys, req) == multiset{|sys.requests| - 1})
            && (Taken(sys, req) <= multiset{req} <==> SlotNow(sys).None? || |sys.requests| == req + 1)
  {
    ContinuationsAreConserved(steps, req);
    RunKeepsPlace(START, steps, req);
    var sys := Exec(START, steps);
    assert sys.discarded + One(SlotNow(sys)) - sys.discarded == One(SlotNow(sys));
    assert SlotNow(sys).Some? ==> SlotNow(sys).value in One(SlotNow(sys));
  }

  // ----- how another request's continuation gets into the slot -----

  // The steps that take the current agent's continuation out of its slot, or
  // the agent from the session.
  predicate Empties(sys: Sys, step: Step) {
    step.HookDrain? || step.RollBack? || step.Spawn? || step.Leave? || (step.Stop? && Some(step.agent) == sys.current)
  }

  predicate EmptiedBy(sys: Sys, steps: seq<Step>)
    requires Valid(sys, steps)
    decreases |steps|
  {
    steps != [] && (Empties(sys, steps[0]) || EmptiedBy(Next(sys, steps[0]), steps[1..]))
  }

  predicate ParksIn(steps: seq<Step>) {
    exists i :: 0 <= i < |steps| && steps[i].Park?
  }

  // While its continuation is parked, no other request can park; once it has
  // been taken out, it never comes back.
  lemma {:induction false} SlotHistory(sys: Sys, steps: seq<Step>, req: nat)
    requires Valid(sys, steps) && Ordered(sys) && SlotNow(sys) == Some(req)
    ensures SlotNow(Exec(sys, steps)) == Some(req) <==> !EmptiedBy(sys, steps)
    ensures |Exec(sys, steps).requests| == |sys.requests| <==> !ParksIn(steps)
    ensures ParksIn(steps) ==> EmptiedBy(sys, steps)
    decreases |steps|
  {
    if steps != [] {
      var next := Next(sys, steps[0]);
      StepKeepsOrder(sys, steps[0]);
      ParksFrom(next, steps[1..]);
      ParksLater(steps);
      if Empties(sys, steps[0]) {
        EmptyStays(next, steps[1..], req);
      } else {
        SlotHistory(next, steps[1..], req);
      }
    }
  }

  lemma ParksLater(steps: seq<Step>)
    requires steps != []
    ensures ParksIn(steps) <==> steps[0].Park? || ParksIn(steps[1..])
  {
    if ParksIn(steps[1..]) {
      var i :| 0 <= i < |steps[1..]| && steps[1..][i].Park?;
      assert steps[i + 1].Park?;
    }
    if ParksIn(steps) && !steps[0].Park? {
      var i :| 0 <= i < |steps| && steps[i].Park?;
      assert steps[1..][i - 1].Park?;
    }
  }

  lemma {:induction false} ParksFrom(sys: Sys, steps: seq<Step>)
    requires Valid(sys, steps)
    ensures |sys.requests| <= |Exec(sys, steps).requests|
    ensures |Exec(sys, steps).requests| == |sys.requests| <==> !ParksIn(steps)
    decreases |steps|
  {
    if steps != [] {
      ParksLater(steps);
      ParksFrom(Next(sys, steps[0]), steps[1..]);
    }
  }

  // A request's continuation enters a slot when it parks and at no other time.
  lemma {:induction false} EmptyStays(sys: Sys, steps: seq<Step>, req: nat)
    requires Valid(sys, steps) && Ordered(sys) && SlotNow(sys) != Some(req) && req < |sys.requests|
    ensures SlotNow(Exec(sys, steps)) != Some(req)
    decreases |steps|
  {
    if steps != [] {
      StepKeepsOrder(sys, steps[0]);
      EmptyStays(Next(sys, steps[0]), steps[1..], req);
    }
  }

  // From the moment a request has parked to the moment its injection is
  // reported failed: its rollback discards another request's continuation if
  // and only if the slot is full and another request has parked in between,
  // which takes a hook, another rollback or a change of agent to have emptied
  // the slot first.
  lemma RollbackSparesOthersIff(before: seq<Step>, steps: seq<Step>, req: nat)
    requires Valid(START, before) && SlotNow(Exec(START, before)) == Some(req)
    requires Valid(Exec(START, before), steps)
    requires Enabled(Exec(Exec(START, before), steps), RollBack(req))
    ensures var sys := Exec(Exec(START, before), steps);
            && (Taken(sys, req) <= multiset{req} <==> SlotNow(sys).None? || !ParksIn(steps))
            && (ParksIn(steps) ==> EmptiedBy(Exec(START, before), steps))
            && (Taken(sys, req) == multiset{req} <==> !EmptiedBy(Exec(START, before), steps))
  {
    var parked := Exec(START, before);
    ContinuationsAreConserved(before, req);
    RunKeepsPlace(START, before, req);
    RunAppends(START, before, steps);
    RollbackTakesTheNewest(before + steps, req);
    SlotHistory(parked, steps, req);
    var sys := Exec(parked, steps);
    assert sys.discarded + One(SlotNow(sys)) - sys.discarded == One(SlotNow(sys));
    assert One(SlotNow(sys)) == multiset{req} <==> SlotNow(sys) == Some(req);
  }

  lemma {:induction false} RunAppends(sys: Sys, a: seq<Step>, b: seq<Step>)
    requires Valid(sys, a) && Valid(Exec(sys, a), b)
    ensures Valid(sys, a + b) && Exec(sys, a + b) == Exec(Exec(sys, a), b)
    decreases |a|
  {
    if a == [] {
      assert a + b == b;
    } else {
      assert (a + b)[1..] == a[1..] + b;
      RunAppends(Next(sys, a[0]), a[1..], b);
    }
  }

  // From every state in which a request has parked and is still injecting, a
  // hook can empty the slot and another request park and succeed; when the
  // first injection then fails, its rollback discards the other's continuation.
  lemma RollbackCanTakeAnother(sys: Sys, req: nat, hook: nat)
    requires SlotNow(sys) == Some(req) && hook !in sys.hooks
    requires req + 1 == |sys.requests| && sys.requests[req].Injecting?
    ensures Enabled(sys, HookDrain(hook))
    ensures var drained := Next(sys, HookDrain(hook));
            && Enabled(drained, Park)
            && var parked := Next(drained, Park);
               && Enabled(parked, Compacted(req + 1, true))
               && var sent := Next(parked, Compacted(req + 1, true));
                  && Enabled(sent, Compacted(req, false))
                  && var failed := Next(sent, Compacted(req, false));
                     && Enabled(failed, RollBack(req))
                     && failed.requests[req + 1].Done?
                     && Next(failed, RollBack(req)).discarded == sys.discarded + multiset{req + 1}
  {
  }

  // ----- where a continuation ends up -----

  // From every state in which a request can park, its continuation arrives: if
  // the compact command goes in, the next hook takes the continuation out, and
  // it is injected once if that succeeds and lost if it does not. If the command
  // does not go in, the request takes its own continuation back. Nothing else
  // is touched, and the slot is free again.
  lemma ParkedArrives(sys: Sys, hook: nat, ok: bool)
    requires Enabled(sys, Park) && hook !in sys.hooks
    ensures var req := |sys.requests|;
            var parked := Next(sys, Park);
            && SlotNow(parked) == Some(req) && !Enabled(parked, Park)
            && Enabled(parked, Compacted(req, true))
            && var compacted := Next(parked, Compacted(req, true));
               && Enabled(compacted, HookDrain(hook))
               && var drained := Next(compacted, HookDrain(hook));
                  && Enabled(drained, HookInject(hook, ok)) && Enabled(drained, Park)
                  && Next(drained, HookInject(hook, ok)) ==
                     sys.(requests := sys.requests + [Done],
                          injected := sys.injected + (if ok then multiset{req} else multiset{}),
                          lost := sys.lost + (if ok then multiset{} else multiset{req}))
  {
    var req := |sys.requests|;
    var compacted := Next(Next(sys, Park), Compacted(req, true));
    var drained := Next(compacted, HookDrain(hook));
    assert compacted.requests == sys.requests + [Done];
    assert drained.slots == sys.slots && drained.hooks == sys.hooks[hook := req];
    assert drained.hooks - {hook} == sys.hooks;
  }

  lemma FailedRequestTakesItsOwnBack(sys: Sys)
    requires Enabled(sys, Park)
    ensures var req := |sys.requests|;
            var failed := Next(Next(sys, Park), Compacted(req, false));
            && Enabled(failed, RollBack(req))
            && Next(failed, RollBack(req)) ==
               sys.(requests := sys.requests + [Done], discarded := sys.discarded + multiset{req})
  {
    var req := |sys.requests|;
    var failed := Next(Next(sys, Park), Compacted(req, false));
    assert Next(failed, RollBack(req)).requests == sys.requests + [Done];
    assert Next(failed, RollBack(req)).slots == sys.slots;
  }

  // A new agent takes over with an empty slot, and the continuation parked on
  // the old one is out of reach until it comes to nothing with that agent.
  lemma NewAgentStartsEmpty(sys: Sys)
    requires sys.agents !in sys.slots
    ensures Enabled(sys, Spawn) && Enabled(sys, Leave)
    ensures var spawned := Next(sys, Spawn);
            && SlotNow(spawned) == None && Enabled(spawned, Park)
            && (forall a :: a in sys.slots ==> a in spawned.slots && spawned.slots[a] == sys.slots[a])
            && (forall a :: a in sys.slots ==> Next(spawned, Stop(a)).lost == sys.lost + One(sys.slots[a]))
    ensures SlotNow(Next(sys, Leave)) == None && !Enabled(Next(sys, Leave), Park)
  {
  }
}
