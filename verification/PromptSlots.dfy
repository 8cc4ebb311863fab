// Queued prompts: one slot for each session, and any number of workers that
// take a prompt out, try to deliver it, put it back when that fails and retry a
// bounded number of times. Readiness signals, fallback timers and retries
// interleave freely; only the slot operations are atomic.

module PromptSlots {
  import opened Options
  import opened Snapshot

  datatype Prompt = Prompt(paneId: string, text: string, backendSessionId: Option<string>, owner: Option<Owner>)

  type Slots = map<string, Prompt>

  const MAX_RETRIES := 3

  // A waiting retry recognizes its prompt by pane, text and backend session; the owner is not compared.
  predicate Recognizes(template: Prompt, p: Prompt) {
    p.paneId == template.paneId && p.text == template.text && p.backendSessionId == template.backendSessionId
  }

  // The slot table under its mutex.
  class PromptTable {
    var slots: Slots

    constructor ()
      ensures slots == map[]
    {
      slots := map[];
    }

    method Queue(name: string, p: Prompt)
      modifies this
      ensures slots == old(slots)[name := p]
    {
      slots := slots[name := p];
    }

    method Take(name: string) returns (taken: Option<Prompt>)
      modifies this
      ensures name in old(slots) ==> taken == Some(old(slots)[name]) && slots == old(slots) - {name}
      ensures name !in old(slots) ==> taken == None && slots == old(slots)
    {
      if name !in slots {
        return None;
      }
      taken := Some(slots[name]);
      slots := slots - {name};
    }

    // The owner is not compared.
    method ReserveIfMatches(name: string, template: Prompt) returns (taken: Option<Prompt>)
      modifies this
      ensures taken.Some? <==> Wakes(old(slots), name, template)
      ensures taken.Some? <==>
                name in old(slots) && old(slots)[name] == template.(owner := old(slots)[name].owner)
      ensures taken.Some? ==> taken.value == old(slots)[name] && slots == old(slots) - {name}
      ensures taken.None? ==> slots == old(slots)
    {
      taken := None;
      if name in slots && slots[name].paneId == template.paneId && slots[name].text == template.text
         && slots[name].backendSessionId == template.backendSessionId {
        taken := Take(name);
      }
    }

    // A prompt queued meanwhile is newer and wins.
    method RestoreIfAbsent(name: string, p: Prompt)
      modifies this
      ensures slots == PutBack(old(slots), name, p)
      ensures forall n :: n in old(slots) ==> n in slots && slots[n] == old(slots)[n]
    {
      if name !in slots {
        slots := slots[name := p];
      }
    }
  }

  predicate Wakes(slots: Slots, name: string, template: Prompt) {
    name in slots && Recognizes(template, slots[name])
  }

  function PutBack(slots: Slots, name: string, p: Prompt): Slots {
    if name in slots then slots else slots[name := p]
  }

  // ----- workers -----

  // Chains started by a readiness signal check the owner around their first
  // attempt only, those started by a timer around every attempt.
  datatype Chain = Readiness | Timer

  datatype Stage =
    | Inspecting                      // readiness: about to read the registry
    | TryingHttp
    | OwnerBeforeSend                 // check that the session is still the one the prompt is for
    | TryingRaw(checkAfter: bool)
    | OwnerBeforeReturn
    | Returning(retry: bool)
    | Waiting                         // asleep, with only a copy to recognize the prompt by
    | Finished

  // p is the prompt in hand, or the copy a waiting worker recognizes it by;
  // attempt counts the retries of the chain, 0 for the first attempt.
  datatype Worker = Worker(stage: Stage, name: string, p: Prompt, attempt: nat, chain: Chain)

  datatype Registry = OwnerGone | Moved | HttpBound | RawOnly

  datatype HttpAnswer = Accepted | Uncertain | Rejected

  datatype Sys = Sys(
    slots: Slots,
    workers: seq<Worker>,
    queued: multiset<Prompt>,       // every prompt ever handed over
    delivered: multiset<Prompt>,    // delivered, or possibly so
    superseded: multiset<Prompt>,   // discarded: the session it was for was replaced
    displaced: multiset<Prompt>,    // discarded: a newer prompt holds the slot
    signals: nat,
    handovers: nat,
    httpAttempts: nat,
    rawAttempts: nat)

  datatype Step =
    | Queue(name: string, p: Prompt)
    | Offer(name: string, p: Prompt)         // a prompt whose first delivery failed elsewhere
    | Signal(name: string)
    | Inspect(w: nat, registry: Registry)
    | Http(w: nat, answer: HttpAnswer)
    | CheckOwner(w: nat, current: bool)
    | Raw(w: nat, ok: bool)
    | Return(w: nat)
    | Wake(w: nat)

  // The steps that no worker takes.
  predicate Arrival(step: Step) {
    step.Queue? || step.Offer? || step.Signal?
  }

  predicate Ready(worker: Worker, step: Step)
    requires !Arrival(step)
  {
    match step
    case Inspect(_, _) => worker.stage.Inspecting?
    case Http(_, _) => worker.stage.TryingHttp?
    case CheckOwner(_, _) => worker.stage.OwnerBeforeSend? || worker.stage.OwnerBeforeReturn?
    case Raw(_, _) => worker.stage.TryingRaw?
    case Return(_) => worker.stage.Returning?
    case Wake(_) => worker.stage.Waiting?
  }

  predicate Enabled(sys: Sys, step: Step) {
    !Arrival(step) ==> step.w < |sys.workers| && Ready(sys.workers[step.w], step)
  }

  function Inspected(registry: Registry): Stage {
    match registry
    case OwnerGone => Finished
    case Moved => Returning(false)
    case HttpBound => TryingHttp
    case RawOnly => TryingRaw(true)
  }

  function OwnerChecked(worker: Worker, current: bool): Stage {
    if !current then Finished
    else if worker.stage.OwnerBeforeSend? then TryingRaw(worker.chain.Timer?)
    else Returning(true)
  }

  function RawTried(checkAfter: bool, ok: bool): Stage {
    if ok then Finished else if checkAfter then OwnerBeforeReturn else Returning(true)
  }

  // The last failure of a chain leaves the prompt in the slot for the next signal.
  function Returned(worker: Worker, retry: bool): Worker {
    if retry && worker.attempt < MAX_RETRIES then worker.(stage := Waiting, attempt := worker.attempt + 1)
    else worker.(stage := Finished)
  }

  // The retry goes on with the prompt it finds in the slot, not with its copy.
  function Woken(worker: Worker, slots: Slots): Worker {
    if !Wakes(slots, worker.name, worker.p) then worker.(stage := Finished)
    else worker.(p := slots[worker.name], stage := if worker.chain.Timer? then OwnerBeforeSend else TryingRaw(false))
  }

  // After a rejected HTTP attempt the owner is checked before falling back.
  function WorkerAfter(worker: Worker, step: Step, slots: Slots): Worker
    requires !Arrival(step) && Ready(worker, step)
  {
    match step
    case Inspect(_, registry) => worker.(stage := Inspected(registry))
    case Http(_, answer) => worker.(stage := if answer.Rejected? then OwnerBeforeSend else Finished)
    case CheckOwner(_, current) => worker.(stage := OwnerChecked(worker, current))
    case Raw(_, ok) => worker.(stage := RawTried(worker.stage.checkAfter, ok))
    case Return(_) => Returned(worker, worker.stage.retry)
    case Wake(_) => Woken(worker, slots)
  }

  function SlotsAfter(worker: Worker, step: Step, slots: Slots): Slots
    requires !Arrival(step) && Ready(worker, step)
  {
    match step
    case Return(_) => PutBack(slots, worker.name, worker.p)
    case Wake(_) => if Wakes(slots, worker.name, worker.p) then slots - {worker.name} else slots
    case _ => slots
  }

  predicate Delivers(step: Step) {
    (step.Http? && !step.answer.Rejected?) || (step.Raw? && step.ok)
  }

  predicate Supersedes(step: Step) {
    (step.Inspect? && step.registry.OwnerGone?) || (step.CheckOwner? && !step.current)
  }

  function If(condition: bool, p: Prompt): multiset<Prompt> {
    if condition then multiset{p} else multiset{}
  }

  function Worked(sys: Sys, step: Step): Sys
    requires !Arrival(step) && Enabled(sys, step)
  {
    var worker := sys.workers[step.w];
    sys.(slots := SlotsAfter(worker, step, sys.slots),
         workers := sys.workers[step.w := WorkerAfter(worker, step, sys.slots)],
         delivered := sys.delivered + If(Delivers(step), worker.p),
         superseded := sys.superseded + If(Supersedes(step), worker.p),
         displaced := sys.displaced + If(step.Return? && worker.name in sys.slots, worker.p),
         httpAttempts := sys.httpAttempts + (if step.Http? then 1 else 0),
         rawAttempts := sys.rawAttempts + (if step.Raw? then 1 else 0))
  }

  function Next(sys: Sys, step: Step): Sys
    requires Enabled(sys, step)
  {
    match step
    case Queue(name, p) =>
      sys.(slots := sys.slots[name := p],
           workers := sys.workers + [Worker(Waiting, name, p, 0, Timer)],
           queued := sys.queued + multiset{p},
           displaced := sys.displaced + (if name in sys.slots then multiset{sys.slots[name]} else multiset{}),
           handovers := sys.handovers + 1)
    case Offer(name, p) =>
      sys.(slots := PutBack(sys.slots, name, p),
           workers := sys.workers + [Worker(Waiting, name, p, 1, Timer)],
           queued := sys.queued + multiset{p},
           displaced := sys.displaced + If(name in sys.slots, p),
           handovers := sys.handovers + 1)
    case Signal(name) =>
      if name in sys.slots
      then sys.(slots := sys.slots - {name},
                workers := sys.workers + [Worker(Inspecting, name, sys.slots[name], 0, Readiness)],
                signals := sys.signals + 1)
      else sys.(signals := sys.signals + 1)
    case _ => Worked(sys, step)
  }

  // ----- counting -----

  // A sleeping worker holds a copy to compare with, not a prompt to deliver.
  function Holds(worker: Worker, p: Prompt): nat {
    if !worker.stage.Waiting? && !worker.stage.Finished? && worker.p == p then 1 else 0
  }

  function Total(workers: seq<Worker>, weight: Worker -> nat): nat {
    if workers == [] then 0 else Total(workers[..|workers| - 1], weight) + weight(workers[|workers| - 1])
  }

  lemma {:induction false} TotalUpdate(workers: seq<Worker>, w: nat, worker: Worker, weight: Worker -> nat)
    requires w < |workers|
    ensures Total(workers[w := worker], weight) + weight(workers[w]) == Total(workers, weight) + weight(worker)
  {
    var n := |workers| - 1;
    if w == n {
      assert workers[w := worker][..n] == workers[..n];
    } else {
      assert workers[w := worker][..n] == workers[..n][w := worker];
      TotalUpdate(workers[..n], w, worker, weight);
    }
  }

  lemma TotalAppend(workers: seq<Worker>, worker: Worker, weight: Worker -> nat)
    ensures Total(workers + [worker], weight) == Total(workers, weight) + weight(worker)
  {
    assert (workers + [worker])[..|workers|] == workers;
  }

  function Held(workers: seq<Worker>, p: Prompt): nat {
    Total(workers, worker => Holds(worker, p))
  }

  function InSlots(slots: Slots, p: Prompt): nat {
    |NamesOf(slots, p)|
  }

  function NamesOf(slots: Slots, p: Prompt): set<string> {
    set n | n in slots && slots[n] == p
  }

  lemma SlotFilled(slots: Slots, name: string, filled: Prompt, p: Prompt)
    requires name !in slots
    ensures InSlots(slots[name := filled], p) == InSlots(slots, p) + (if filled == p then 1 else 0)
  {
    var before := NamesOf(slots, p);
    assert NamesOf(slots[name := filled], p) == if filled == p then before + {name} else before;
  }

  lemma SlotEmptied(slots: Slots, name: string, p: Prompt)
    requires name in slots
    ensures InSlots(slots, p) == InSlots(slots - {name}, p) + (if slots[name] == p then 1 else 0)
  {
    SlotFilled(slots - {name}, name, slots[name], p);
    assert (slots - {name})[name := slots[name]] == slots;
  }

  // Where the copies of p are: every one ever queued is delivered, discarded
  // for a stated reason, in a slot or in the hands of one worker.
  ghost predicate Accounted(sys: Sys, p: Prompt) {
    sys.queued[p] ==
    sys.delivered[p] + sys.superseded[p] + sys.displaced[p] + InSlots(sys.slots, p) + Held(sys.workers, p)
  }

  lemma QueueKeepsAccount(sys: Sys, name: string, q: Prompt, p: Prompt)
    requires Accounted(sys, p)
    ensures Accounted(Next(sys, Queue(name, q)), p)
  {
    TotalAppend(sys.workers, Worker(Waiting, name, q, 0, Timer), worker => Holds(worker, p));
    if name in sys.slots {
      SlotEmptied(sys.slots, name, p);
      assert (sys.slots - {name})[name := q] == sys.slots[name := q];
    } else {
      assert sys.slots - {name} == sys.slots;
    }
    SlotFilled(sys.slots - {name}, name, q, p);
  }

  lemma OfferKeepsAccount(sys: Sys, name: string, q: Prompt, p: Prompt)
    requires Accounted(sys, p)
    ensures Accounted(Next(sys, Offer(name, q)), p)
  {
    TotalAppend(sys.workers, Worker(Waiting, name, q, 1, Timer), worker => Holds(worker, p));
    if name !in sys.slots {
      SlotFilled(sys.slots, name, q, p);
    }
  }

  lemma SignalKeepsAccount(sys: Sys, name: string, p: Prompt)
    requires Accounted(sys, p)
    ensures Accounted(Next(sys, Signal(name)), p)
  {
    if name in sys.slots {
      TotalAppend(sys.workers, Worker(Inspecting, name, sys.slots[name], 0, Readiness), worker => Holds(worker, p));
      SlotEmptied(sys.slots, name, p);
    }
  }

  lemma ArrivalKeepsAccount(sys: Sys, step: Step, p: Prompt)
    requires Arrival(step)
    requires Accounted(sys, p)
    ensures Accounted(Next(sys, step), p)
  {
    match step
    case Queue(name, q) => QueueKeepsAccount(sys, name, q, p);
    case Offer(name, q) => OfferKeepsAccount(sys, name, q, p);
    case Signal(name) => SignalKeepsAccount(sys, name, p);
  }

  lemma WorkMovesOnePrompt(worker: Worker, step: Step, slots: Slots, p: Prompt)
    requires !Arrival(step) && Ready(worker, step)
    ensures Holds(worker, p) + InSlots(slots, p) ==
            Holds(WorkerAfter(worker, step, slots), p) + InSlots(SlotsAfter(worker, step, slots), p)
            + If(Delivers(step), worker.p)[p] + If(Supersedes(step), worker.p)[p]
            + If(step.Return? && worker.name in slots, worker.p)[p]
  {
    match step
    case Return(_) =>
      if worker.name !in slots {
        SlotFilled(slots, worker.name, worker.p, p);
      }
    case Wake(_) =>
      if Wakes(slots, worker.name, worker.p) {
        SlotEmptied(slots, worker.name, p);
      }
    case _ =>
  }

  // What leaves a worker's hands is delivered, discarded or put into a slot,
  // and what a worker picks up leaves its slot.
  lemma WorkKeepsAccount(sys: Sys, step: Step, p: Prompt)
    requires Enabled(sys, step) && !Arrival(step)
    requires Accounted(sys, p)
    ensures Accounted(Next(sys, step), p)
  {
    var worker := sys.workers[step.w];
    WorkMovesOnePrompt(worker, step, sys.slots, p);
    TotalUpdate(sys.workers, step.w, WorkerAfter(worker, step, sys.slots), w => Holds(w, p));
  }

  // ----- bounds on attempts -----

  // Raw attempts a worker can still make.
  function RawBudget(worker: Worker): nat {
    if worker.attempt > MAX_RETRIES then 0
    else match worker.stage
      case Finished => 0
      case OwnerBeforeReturn => 3 - worker.attempt
      case Returning(retry) => if retry then 3 - worker.attempt else 0
      case _ => 4 - worker.attempt
  }

  function HttpBudget(worker: Worker): nat {
    if worker.stage.Inspecting? || worker.stage.TryingHttp? then 1 else 0
  }

  // A measure that every step of a worker lowers.
  function Rank(worker: Worker): nat {
    7 * RawBudget(worker) +
    match worker.stage
    case Inspecting => 6
    case TryingHttp => 5
    case OwnerBeforeSend => 3
    case TryingRaw(_) => 2
    case OwnerBeforeReturn => 6
    case Returning(_) => 5
    case Waiting => 4
    case Finished => 0
  }

  predicate AttemptOk(worker: Worker) {
    worker.attempt <= MAX_RETRIES
  }

  ghost predicate Bounded(sys: Sys) {
    && AllAttemptsOk(sys.workers)
    && sys.httpAttempts + Total(sys.workers, HttpBudget) <= sys.signals
    && sys.rawAttempts + Total(sys.workers, RawBudget) <= 4 * (sys.signals + sys.handovers)
  }

  ghost predicate AllAttemptsOk(workers: seq<Worker>) {
    forall w :: 0 <= w < |workers| ==> AttemptOk(workers[w])
  }

  lemma WorkSpendsBudget(worker: Worker, step: Step, slots: Slots)
    requires !Arrival(step) && Ready(worker, step) && AttemptOk(worker)
    ensures var after := WorkerAfter(worker, step, slots);
            && AttemptOk(after)
            && RawBudget(after) + (if step.Raw? then 1 else 0) <= RawBudget(worker)
            && HttpBudget(after) + (if step.Http? then 1 else 0) <= HttpBudget(worker)
            && Rank(after) < Rank(worker)
  {
  }

  lemma NewWorkerKeepsBounds(sys: Sys, after: Sys, worker: Worker)
    requires Bounded(sys) && after.workers == sys.workers + [worker] && AttemptOk(worker)
    requires after.httpAttempts == sys.httpAttempts && after.rawAttempts == sys.rawAttempts
    requires HttpBudget(worker) <= after.signals - sys.signals
    requires RawBudget(worker) <= 4 && after.signals + after.handovers == sys.signals + sys.handovers + 1
    ensures Bounded(after)
  {
    TotalAppend(sys.workers, worker, HttpBudget);
    TotalAppend(sys.workers, worker, RawBudget);
  }

  lemma ArrivalKeepsBounds(sys: Sys, step: Step)
    requires Arrival(step) && Bounded(sys)
    ensures Bounded(Next(sys, step))
  {
    var after := Next(sys, step);
    if |after.workers| > |sys.workers| {
      NewWorkerKeepsBounds(sys, after, after.workers[|sys.workers|]);
    }
  }

  lemma WorkKeepsBounds(sys: Sys, step: Step)
    requires Enabled(sys, step) && !Arrival(step) && Bounded(sys)
    ensures Bounded(Next(sys, step))
  {
    var worker := sys.workers[step.w];
    var after := WorkerAfter(worker, step, sys.slots);
    WorkSpendsBudget(worker, step, sys.slots);
    TotalUpdate(sys.workers, step.w, after, HttpBudget);
    TotalUpdate(sys.workers, step.w, after, RawBudget);
  }

  lemma StepKeepsBounds(sys: Sys, step: Step)
    requires Enabled(sys, step) && Bounded(sys)
    ensures Bounded(Next(sys, step))
  {
    if Arrival(step) {
      ArrivalKeepsBounds(sys, step);
    } else {
      WorkKeepsBounds(sys, step);
    }
  }

  // A chain cannot go on for ever: each step of a worker lowers its rank.
  lemma ChainTerminates(sys: Sys, step: Step)
    requires Enabled(sys, step) && Bounded(sys) && !Arrival(step)
    ensures Rank(Next(sys, step).workers[step.w]) < Rank(sys.workers[step.w])
  {
    WorkSpendsBudget(sys.workers[step.w], step, sys.slots);
  }

  // ----- whole runs -----

  function Exec(sys: Sys, steps: seq<Step>): Sys
    requires Valid(sys, steps)
    decreases |steps|
  {
    if steps == [] then sys else Exec(Next(sys, steps[0]), steps[1..])
  }

  predicate Valid(sys: Sys, steps: seq<Step>)
    decreases |steps|
  {
    steps == [] || (Enabled(sys, steps[0]) && Valid(Next(sys, steps[0]), steps[1..]))
  }

  const START := Sys(map[], [], multiset{}, multiset{}, multiset{}, multiset{}, 0, 0, 0, 0)

  lemma {:induction false} RunKeepsAccount(sys: Sys, steps: seq<Step>, p: Prompt)
    requires Valid(sys, steps) && Accounted(sys, p) && Bounded(sys)
    ensures Accounted(Exec(sys, steps), p) && Bounded(Exec(sys, steps))
    decreases |steps|
  {
    if steps != [] {
      if Arrival(steps[0]) {
        ArrivalKeepsAccount(sys, steps[0], p);
      } else {
        WorkKeepsAccount(sys, steps[0], p);
      }
      StepKeepsBounds(sys, steps[0]);
      RunKeepsAccount(Next(sys, steps[0]), steps[1..], p);
    }
  }

  // Over every interleaving: a prompt is delivered, or possibly delivered, at
  // most as often as it was queued, and copies still in slots or in a worker's
  // hands count against that; no copy is lost except by being superseded or
  // displaced.
  lemma AtMostOnceDelivery(steps: seq<Step>, p: Prompt)
    requires Valid(START, steps)
    ensures var end := Exec(START, steps);
            && end.delivered[p] + InSlots(end.slots, p) + Held(end.workers, p) <= end.queued[p]
            && Accounted(end, p)
  {
    assert NamesOf(START.slots, p) == {};
    RunKeepsAccount(START, steps, p);
  }

  // At most one HTTP attempt a readiness signal, and at most four raw ones a
  // signal or handover, however the retries interleave.
  lemma AttemptsAreBounded(steps: seq<Step>)
    requires Valid(START, steps)
    ensures var end := Exec(START, steps);
            end.httpAttempts <= end.signals && end.rawAttempts <= 4 * (end.signals + end.handovers)
  {
    var p := Prompt("", "", None, None);
    assert NamesOf(START.slots, p) == {};
    RunKeepsAccount(START, steps, p);
  }

  // ----- what favourable runs achieve -----

  lemma FirstThen(sys: Sys, step: Step, rest: seq<Step>)
    requires Enabled(sys, step) && Valid(Next(sys, step), rest)
    ensures Valid(sys, [step] + rest) && Exec(sys, [step] + rest) == Exec(Next(sys, step), rest)
  {
    assert ([step] + rest)[1..] == rest;
  }

  // The run is possible, delivers p once with that many attempts, leaves the
  // slots as they were, and ends with the worker that did it.
  predicate Achieves(sys: Sys, steps: seq<Step>, w: nat, p: Prompt, raw: nat, http: nat) {
    && Valid(sys, steps)
    && var end := Exec(sys, steps);
       && end.delivered == sys.delivered + multiset{p}
       && end.superseded == sys.superseded && end.displaced == sys.displaced
       && end.slots == sys.slots
       && end.rawAttempts == sys.rawAttempts + raw && end.httpAttempts == sys.httpAttempts + http
       && w < |end.workers| && end.workers[w].stage.Finished?
  }

  // Worker w is at this stage with p in hand.
  predicate Has(sys: Sys, w: nat, p: Prompt, stage: Stage) {
    w < |sys.workers| && sys.workers[w].p == p && sys.workers[w].stage == stage
  }

  // A step that only moves the worker on, or fails an HTTP attempt, before it.
  lemma AchievesAfter(sys: Sys, step: Step, rest: seq<Step>, w: nat, p: Prompt, raw: nat, http: nat)
    requires Enabled(sys, step) && (step.Inspect? || step.CheckOwner? || step.Http?)
    requires !Delivers(step) && !Supersedes(step)
    requires Achieves(Next(sys, step), rest, w, p, raw, http)
    ensures Achieves(sys, [step] + rest, w, p, raw, if step.Http? then http + 1 else http)
  {
    FirstThen(sys, step, rest);
  }

  lemma TypingAchieves(sys: Sys, w: nat, p: Prompt, checkAfter: bool)
    requires Has(sys, w, p, TryingRaw(checkAfter))
    ensures Achieves(sys, [Raw(w, true)], w, p, 1, 0)
  {
    FirstThen(sys, Raw(w, true), []);
  }

  lemma CheckingAchieves(sys: Sys, w: nat, p: Prompt)
    requires Has(sys, w, p, OwnerBeforeSend)
    ensures Achieves(sys, [CheckOwner(w, true), Raw(w, true)], w, p, 1, 0)
  {
    var after := Next(sys, CheckOwner(w, true));
    TypingAchieves(after, w, p, sys.workers[w].chain.Timer?);
    AchievesAfter(sys, CheckOwner(w, true), [Raw(w, true)], w, p, 1, 0);
  }

  lemma PostingAchieves(sys: Sys, w: nat, p: Prompt)
    requires Has(sys, w, p, TryingHttp)
    ensures Achieves(sys, [Http(w, Accepted)], w, p, 0, 1)
  {
    FirstThen(sys, Http(w, Accepted), []);
  }

  lemma FallingBackAchieves(sys: Sys, w: nat, p: Prompt)
    requires Has(sys, w, p, TryingHttp)
    ensures Achieves(sys, [Http(w, Rejected), CheckOwner(w, true), Raw(w, true)], w, p, 1, 1)
  {
    CheckingAchieves(Next(sys, Http(w, Rejected)), w, p);
    AchievesAfter(sys, Http(w, Rejected), [CheckOwner(w, true), Raw(w, true)], w, p, 1, 0);
  }

  lemma InspectingRawAchieves(sys: Sys, w: nat, p: Prompt)
    requires Has(sys, w, p, Inspecting)
    ensures Achieves(sys, [Inspect(w, RawOnly), Raw(w, true)], w, p, 1, 0)
  {
    TypingAchieves(Next(sys, Inspect(w, RawOnly)), w, p, true);
    AchievesAfter(sys, Inspect(w, RawOnly), [Raw(w, true)], w, p, 1, 0);
  }

  lemma InspectingHttpAchieves(sys: Sys, w: nat, p: Prompt, rest: seq<Step>, raw: nat)
    requires Has(sys, w, p, Inspecting)
    requires || (rest == [Http(w, Accepted)] && raw == 0)
             || (rest == [Http(w, Rejected), CheckOwner(w, true), Raw(w, true)] && raw == 1)
    ensures Achieves(sys, [Inspect(w, HttpBound)] + rest, w, p, raw, 1)
  {
    var after := Next(sys, Inspect(w, HttpBound));
    if raw == 0 {
      PostingAchieves(after, w, p);
    } else {
      FallingBackAchieves(after, w, p);
    }
    AchievesAfter(sys, Inspect(w, HttpBound), rest, w, p, raw, 1);
  }

  // From every state with a prompt in the slot, a readiness signal takes it out,
  // and if its worker finds the session current it delivers that prompt: by
  // typing into the pane of a session without an HTTP binding, over HTTP, or by
  // typing after HTTP was refused.
  lemma SignalDelivers(sys: Sys, name: string)
    requires name in sys.slots
    ensures var w, p := |sys.workers|, sys.slots[name];
            var signalled := Next(sys, Signal(name));
            && signalled.slots == sys.slots - {name} && signalled.delivered == sys.delivered
            && Achieves(signalled, [Inspect(w, RawOnly), Raw(w, true)], w, p, 1, 0)
            && Achieves(signalled, [Inspect(w, HttpBound)] + [Http(w, Accepted)], w, p, 0, 1)
            && Achieves(signalled, [Inspect(w, HttpBound)] + [Http(w, Rejected), CheckOwner(w, true), Raw(w, true)],
                        w, p, 1, 1)
  {
    var w, p := |sys.workers|, sys.slots[name];
    var signalled := Next(sys, Signal(name));
    InspectingRawAchieves(signalled, w, p);
    InspectingHttpAchieves(signalled, w, p, [Http(w, Accepted)], 0);
    InspectingHttpAchieves(signalled, w, p, [Http(w, Rejected), CheckOwner(w, true), Raw(w, true)], 1);
  }

  // If the worker finds that the pane has moved on, the prompt goes back to its
  // slot untried; if it finds the session replaced, the prompt is dropped.
  lemma SignalSparesStrangers(sys: Sys, name: string)
    requires name in sys.slots
    ensures var w, p := |sys.workers|, sys.slots[name];
            var signalled := Next(sys, Signal(name));
            var moved, gone := Next(signalled, Inspect(w, Moved)), Next(signalled, Inspect(w, OwnerGone));
            && Enabled(moved, Return(w))
            && (forall step :: !Arrival(step) && Enabled(moved, step) && step.w == w ==> step == Return(w))
            && Next(moved, Return(w)) == sys.(workers := sys.workers + [Worker(Finished, name, p, 0, Readiness)],
                                              signals := sys.signals + 1)
            && gone == sys.(slots := sys.slots - {name}, superseded := sys.superseded + multiset{p},
                            workers := sys.workers + [Worker(Finished, name, p, 0, Readiness)],
                            signals := sys.signals + 1)
  {
    var w := |sys.workers|;
    var signalled := Next(sys, Signal(name));
    var back := Next(Next(signalled, Inspect(w, Moved)), Return(w));
    assert back.slots == sys.slots;
    assert back.workers == sys.workers + [Worker(Finished, name, sys.slots[name], 0, Readiness)];
    assert Next(signalled, Inspect(w, OwnerGone)).workers == back.workers;
  }

  // A prompt whose session has been replaced is dropped at either check.
  lemma ReplacedIsDropped(sys: Sys, w: nat)
    requires w < |sys.workers| && (sys.workers[w].stage.OwnerBeforeSend? || sys.workers[w].stage.OwnerBeforeReturn?)
    ensures var after := Next(sys, CheckOwner(w, false));
            && after.workers == sys.workers[w := sys.workers[w].(stage := Finished)]
            && after.superseded == sys.superseded + multiset{sys.workers[w].p}
            && after.slots == sys.slots && after.delivered == sys.delivered
  {
  }

  // A prompt that is handed over, and still in the slot when its timer wakes, is
  // delivered then if the session is current.
  lemma TimerDelivers(sys: Sys, name: string, p: Prompt, offered: bool)
    requires offered ==> name !in sys.slots
    ensures var w := |sys.workers|;
            var handed := Next(sys, if offered then Offer(name, p) else Queue(name, p));
            && handed.slots == sys.slots[name := p] && handed.delivered == sys.delivered
            && Enabled(handed, Wake(w))
            && var woken := Next(handed, Wake(w));
               && woken.slots == sys.slots - {name} && woken.delivered == sys.delivered
               && Achieves(woken, [CheckOwner(w, true), Raw(w, true)], w, p, 1, 0)
  {
    var w := |sys.workers|;
    var handed := Next(sys, if offered then Offer(name, p) else Queue(name, p));
    CheckingAchieves(Next(handed, Wake(w)), w, p);
  }

  // A prompt in the hands of a worker is not lost: from every stage on some run
  // delivers it, unless a newer prompt holds the slot it has to go back to.
  lemma HeldPromptCanBeDelivered(sys: Sys, w: nat) returns (steps: seq<Step>)
    requires w < |sys.workers| && Holds(sys.workers[w], sys.workers[w].p) == 1
    requires sys.workers[w].stage.OwnerBeforeReturn? || sys.workers[w].stage.Returning? ==>
               sys.workers[w].name !in sys.slots
    ensures Valid(sys, steps) && Exec(sys, steps).delivered == sys.delivered + multiset{sys.workers[w].p}
    ensures Exec(sys, steps).slots == sys.slots
  {
    var worker := sys.workers[w];
    match worker.stage {
      case Inspecting =>
        InspectingRawAchieves(sys, w, worker.p);
        steps := [Inspect(w, RawOnly), Raw(w, true)];
      case TryingHttp =>
        PostingAchieves(sys, w, worker.p);
        steps := [Http(w, Accepted)];
      case OwnerBeforeSend =>
        CheckingAchieves(sys, w, worker.p);
        steps := [CheckOwner(w, true), Raw(w, true)];
      case TryingRaw(checkAfter) =>
        TypingAchieves(sys, w, worker.p, checkAfter);
        steps := [Raw(w, true)];
      case OwnerBeforeReturn =>
        var rest := ReturnedIsDelivered(Next(sys, CheckOwner(w, true)), w);
        FirstThen(sys, CheckOwner(w, true), rest);
        steps := [CheckOwner(w, true)] + rest;
      case Returning(_) =>
        steps := ReturnedIsDelivered(sys, w);
    }
  }

  lemma ReturnedIsDelivered(sys: Sys, w: nat) returns (steps: seq<Step>)
    requires w < |sys.workers| && sys.workers[w].stage.Returning? && sys.workers[w].name !in sys.slots
    ensures Valid(sys, steps) && Exec(sys, steps).delivered == sys.delivered + multiset{sys.workers[w].p}
    ensures Exec(sys, steps).slots == sys.slots
  {
    var name, next := sys.workers[w].name, |sys.workers|;
    var returned := Next(sys, Return(w));
    var rest := [Inspect(next, RawOnly), Raw(next, true)];
    InspectingRawAchieves(Next(returned, Signal(name)), next, returned.slots[name]);
    assert returned.slots - {name} == sys.slots;
    FirstThen(returned, Signal(name), rest);
    FirstThen(sys, Return(w), [Signal(name)] + rest);
    steps := [Return(w)] + ([Signal(name)] + rest);
  }

  // ----- the bound on attempts is attained -----

  // Worker w sleeps between attempts with its prompt in the slot.
  predicate Sleeps(sys: Sys, w: nat, name: string, chain: Chain, attempt: nat) {
    && name in sys.slots && w < |sys.workers|
    && sys.workers[w] == Worker(Waiting, name, sys.slots[name], attempt, chain)
  }

  // One failing attempt after another, up to the last.
  function FailingRetries(w: nat, chain: Chain, n: nat): seq<Step> {
    if n == 0 then []
    else
      (if chain.Readiness? then [Wake(w), Raw(w, false), Return(w)]
       else [Wake(w), CheckOwner(w, true), Raw(w, false), CheckOwner(w, true), Return(w)])
      + FailingRetries(w, chain, n - 1)
  }

  // The run is possible, makes this many raw attempts, and leaves the slots as
  // they were, with the worker finished and nothing delivered or discarded.
  predicate TriesInVain(sys: Sys, steps: seq<Step>, attempts: nat, w: nat) {
    && Valid(sys, steps)
    && var end := Exec(sys, steps);
       && end.rawAttempts == sys.rawAttempts + attempts
       && end.slots == sys.slots
       && end.delivered == sys.delivered && end.superseded == sys.superseded && end.displaced == sys.displaced
       && w < |end.workers| && end.workers[w].stage.Finished?
  }

  lemma FailingAttempt(sys: Sys, w: nat, name: string, attempt: nat, rest: seq<Step>)
    requires Sleeps(sys, w, name, Readiness, attempt)
    ensures var a := Next(sys, Wake(w));
            && Enabled(a, Raw(w, false))
            && var b := Next(a, Raw(w, false));
               && Enabled(b, Return(w))
               && var c := Next(b, Return(w));
                  && c.rawAttempts == sys.rawAttempts + 1 && c.slots == sys.slots
                  && c.delivered == sys.delivered && c.superseded == sys.superseded && c.displaced == sys.displaced
                  && (if attempt < MAX_RETRIES then Sleeps(c, w, name, Readiness, attempt + 1)
                      else w < |c.workers| && c.workers[w].stage.Finished?)
                  && (Valid(c, rest) ==>
                        && Valid(sys, [Wake(w), Raw(w, false), Return(w)] + rest)
                        && Exec(sys, [Wake(w), Raw(w, false), Return(w)] + rest) == Exec(c, rest))
  {
    var a := Next(sys, Wake(w));
    var b := Next(a, Raw(w, false));
    var c := Next(b, Return(w));
    assert c.slots == sys.slots;
    if Valid(c, rest) {
      FirstThen(b, Return(w), rest);
      FirstThen(a, Raw(w, false), [Return(w)] + rest);
      FirstThen(sys, Wake(w), [Raw(w, false)] + ([Return(w)] + rest));
      assert [Wake(w), Raw(w, false), Return(w)] + rest == [Wake(w)] + ([Raw(w, false)] + ([Return(w)] + rest));
    }
  }

  lemma FailingTimerAttempt(sys: Sys, w: nat, name: string, attempt: nat, rest: seq<Step>)
    requires Sleeps(sys, w, name, Timer, attempt)
    ensures var a := Next(sys, Wake(w));
            && Enabled(a, CheckOwner(w, true))
            && var b := Next(a, CheckOwner(w, true));
               && Enabled(b, Raw(w, false))
               && var c := Next(b, Raw(w, false));
                  && Enabled(c, CheckOwner(w, true))
                  && var d := Next(c, CheckOwner(w, true));
                     && Enabled(d, Return(w))
                     && var e := Next(d, Return(w));
                        && e.rawAttempts == sys.rawAttempts + 1 && e.slots == sys.slots
                        && e.delivered == sys.delivered && e.superseded == sys.superseded
                        && e.displaced == sys.displaced
                        && (if attempt < MAX_RETRIES then Sleeps(e, w, name, Timer, attempt + 1)
                            else w < |e.workers| && e.workers[w].stage.Finished?)
                        && var steps := [Wake(w), CheckOwner(w, true), Raw(w, false), CheckOwner(w, true), Return(w)];
                           (Valid(e, rest) ==> Valid(sys, steps + rest) && Exec(sys, steps + rest) == Exec(e, rest))
  {
    var check, raw, back := CheckOwner(w, true), Raw(w, false), Return(w);
    var a := Next(sys, Wake(w));
    var b := Next(a, check);
    var c := Next(b, raw);
    var d := Next(c, check);
    var e := Next(d, back);
    assert e.slots == sys.slots;
    if Valid(e, rest) {
      FirstThen(d, back, rest);
      FirstThen(c, check, [back] + rest);
      FirstThen(b, raw, [check] + ([back] + rest));
      FirstThen(a, check, [raw] + ([check] + ([back] + rest)));
      FirstThen(sys, Wake(w), [check] + ([raw] + ([check] + ([back] + rest))));
      assert [Wake(w), check, raw, check, back] + rest ==
             [Wake(w)] + ([check] + ([raw] + ([check] + ([back] + rest))));
    }
  }

  // A sleeping chain that has made some retries makes all that are left.
  lemma {:induction false} RetriesAreUsedUp(sys: Sys, w: nat, name: string, chain: Chain, attempt: nat)
    requires attempt <= MAX_RETRIES && Sleeps(sys, w, name, chain, attempt)
    ensures TriesInVain(sys, FailingRetries(w, chain, 4 - attempt), 4 - attempt, w)
    decreases 4 - attempt
  {
    var rest := FailingRetries(w, chain, 3 - attempt);
    if chain.Readiness? {
      FailingAttempt(sys, w, name, attempt, rest);
      var after := Next(Next(Next(sys, Wake(w)), Raw(w, false)), Return(w));
      if attempt < MAX_RETRIES {
        RetriesAreUsedUp(after, w, name, chain, attempt + 1);
      }
    } else {
      FailingTimerAttempt(sys, w, name, attempt, rest);
      var checked := Next(Next(Next(sys, Wake(w)), CheckOwner(w, true)), Raw(w, false));
      var after := Next(Next(checked, CheckOwner(w, true)), Return(w));
      if attempt < MAX_RETRIES {
        RetriesAreUsedUp(after, w, name, chain, attempt + 1);
      }
    }
  }

  // A chain whose injections all fail makes exactly four raw attempts, after a
  // signal or a handover, and three if its first delivery failed elsewhere; then
  // the prompt is in the slot for the next signal.
  lemma FourAttemptsAreMade(sys: Sys, name: string)
    requires name in sys.slots
    ensures var w := |sys.workers|;
            var first := [Inspect(w, RawOnly), Raw(w, false), CheckOwner(w, true), Return(w)];
            var steps := [Signal(name)] + (first + FailingRetries(w, Readiness, 3));
            TriesInVain(sys, steps, 4, w)
    ensures var w, p := |sys.workers|, sys.slots[name];
            TriesInVain(Next(sys.(slots := sys.slots - {name}), Queue(name, p)), FailingRetries(w, Timer, 4), 4, w)
    ensures var w, p := |sys.workers|, sys.slots[name];
            TriesInVain(Next(sys.(slots := sys.slots - {name}), Offer(name, p)), FailingRetries(w, Timer, 3), 3, w)
  {
    var w, p := |sys.workers|, sys.slots[name];
    var emptied := sys.(slots := sys.slots - {name});
    SignalTriesFour(sys, name);
    HandoverSleeps(emptied, Queue(name, p), name);
    RetriesAreUsedUp(Next(emptied, Queue(name, p)), w, name, Timer, 0);
    HandoverSleeps(emptied, Offer(name, p), name);
    RetriesAreUsedUp(Next(emptied, Offer(name, p)), w, name, Timer, 1);
  }

  lemma HandoverSleeps(sys: Sys, step: Step, name: string)
    requires name !in sys.slots && (step.Queue? || step.Offer?) && step.name == name
    ensures Sleeps(Next(sys, step), |sys.workers|, name, Timer, if step.Queue? then 0 else 1)
  {
  }

  // The first attempt after a signal, if it fails, leads to sleep.
  lemma FirstAttemptFails(sys: Sys, name: string)
    requires name in sys.slots
    ensures var w := |sys.workers|;
            var steps := [Inspect(w, RawOnly), Raw(w, false), CheckOwner(w, true), Return(w)];
            var signalled := Next(sys, Signal(name));
            && Valid(signalled, steps)
            && var e := Exec(signalled, steps);
               && e.rawAttempts == sys.rawAttempts + 1 && e.slots == sys.slots
               && e.delivered == sys.delivered && e.superseded == sys.superseded && e.displaced == sys.displaced
               && Sleeps(e, w, name, Readiness, 1)
  {
    var w, p := |sys.workers|, sys.slots[name];
    var inspect, raw, check, back := Inspect(w, RawOnly), Raw(w, false), CheckOwner(w, true), Return(w);
    var a := Next(sys, Signal(name));
    var b := Next(a, inspect);
    assert Has(b, w, p, TryingRaw(true));
    FailingSend(b, w, p);
    FirstThen(a, inspect, [raw, check, back]);
    assert Exec(b, [raw, check, back]).slots == sys.slots;
  }

  lemma FailingSend(sys: Sys, w: nat, p: Prompt)
    requires Has(sys, w, p, TryingRaw(true)) && sys.workers[w].attempt == 0 && sys.workers[w].name !in sys.slots
    ensures var steps := [Raw(w, false), CheckOwner(w, true), Return(w)];
            && Valid(sys, steps)
            && var e := Exec(sys, steps);
               && e.rawAttempts == sys.rawAttempts + 1 && e.slots == sys.slots[sys.workers[w].name := p]
               && e.delivered == sys.delivered && e.superseded == sys.superseded && e.displaced == sys.displaced
               && Sleeps(e, w, sys.workers[w].name, sys.workers[w].chain, 1)
  {
    var raw, check, back := Raw(w, false), CheckOwner(w, true), Return(w);
    var c := Next(sys, raw);
    var d := Next(c, check);
    FirstThen(d, back, []);
    FirstThen(c, check, [back]);
    FirstThen(sys, raw, [check, back]);
  }

  lemma {:induction false} Concatenated(sys: Sys, first: seq<Step>, second: seq<Step>)
    requires Valid(sys, first) && Valid(Exec(sys, first), second)
    ensures Valid(sys, first + second) && Exec(sys, first + second) == Exec(Exec(sys, first), second)
    decreases |first|
  {
    if first == [] {
      assert first + second == second;
    } else {
      assert (first + second)[1..] == first[1..] + second;
      Concatenated(Next(sys, first[0]), first[1..], second);
    }
  }

  lemma SignalTriesFour(sys: Sys, name: string)
    requires name in sys.slots
    ensures var w := |sys.workers|;
            var first := [Inspect(w, RawOnly), Raw(w, false), CheckOwner(w, true), Return(w)];
            var steps := [Signal(name)] + (first + FailingRetries(w, Readiness, 3));
            TriesInVain(sys, steps, 4, w)
  {
    var w := |sys.workers|;
    var first := [Inspect(w, RawOnly), Raw(w, false), CheckOwner(w, true), Return(w)];
    var rest := FailingRetries(w, Readiness, 3);
    var a := Next(sys, Signal(name));
    FirstAttemptFails(sys, name);
    RetriesAreUsedUp(Exec(a, first), w, name, Readiness, 1);
    Concatenated(a, first, rest);
    FirstThen(sys, Signal(name), first + rest);
  }
}
