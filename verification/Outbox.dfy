// Workers that may crash between any two awaits, the queue store they share, and the event ledger.
module Outbox {
  import opened Wrappers
  import opened QueueStore
  import opened QueueInvariant
  import opened QueueEvolution

  type WorkerId = nat

  /** One attempt of one job. */
  datatype Run = Run(id: Id, attempt: nat)

  /** Idempotency keys of the lifecycle events a transition stands for. */
  datatype EventKey =
    | RetryScheduled(id: Id, attempt: nat)
    | ReviewCompleted(id: Id, attempt: nat)
    | ReviewFailed(id: Id)

  function RunOf(t: Transition): Run {
    Run(t.job.id, t.job.attempts)
  }

  function KeyOf(t: Transition): EventKey {
    match t.job.status
    case Completed => ReviewCompleted(t.job.id, t.job.attempts)
    case Failed => ReviewFailed(t.job.id)
    case _ => RetryScheduled(t.job.id, t.job.attempts)
  }

  /** Where a worker is between two awaits, with the records it read. */
  datatype Worker =
    | Idle
    | Activating(job: Job)
    | Holding(job: Job)
    | Settling(t: Transition, noted: bool)

  /**
   * The store, the workers and the ledger's transition events, with four histories: ids and leases handed out,
   * the transition staged for every run, and the events the ledger refused because access was revoked.
   */
  datatype System = System(
    store: Store,
    workers: map<WorkerId, Worker>,
    recorded: map<EventKey, Transition>,
    refused: set<EventKey>,
    usedIds: set<Id>,
    usedLeases: set<LeaseId>,
    outcomes: map<Run, Transition>)

  function At(sys: System, w: WorkerId): Worker {
    if w in sys.workers then sys.workers[w] else Idle
  }

  datatype Step =
    | Enqueue(w: WorkerId, job: Job, keys: seq<string>)
    | ReadActivation(w: WorkerId, id: Id)
    | FinishActivation(w: WorkerId)
    | RefuseActivation(w: WorkerId, failedAt: int, error: string)
    | RecoverExpired(now: int, expired: seq<Id>)
    | ReadTransition(w: WorkerId, id: Id)
    | ClaimNext(w: WorkerId, now: int, leaseMs: int, leaseId: LeaseId, candidates: seq<Id>)
    | Heartbeat(w: WorkerId, expiresAt: int)
    | StageOutcome(w: WorkerId, t: Transition)
    | Note(w: WorkerId, revoked: bool)
    | Settle(w: WorkerId)
    | Crash(w: WorkerId)
    | Background(a: Action)

  /** A finished attempt as processNext builds it from the job it claimed. */
  ghost predicate Finishes(j: Job, t: Transition) {
    var at := t.job.updatedAt;
    || (t.result.Some? && t.job == j.(status := Completed, updatedAt := at, completedAt := Some(at)))
    || (t.result.None? && t.job == j.(status := Failed, updatedAt := at, completedAt := Some(at), lastError := t.job.lastError))
    || (t.result.None? && j.attempts < j.maxAttempts
        && t.job == j.(status := Retrying, updatedAt := at, availableAt := t.job.availableAt, completedAt := None,
                       lastError := t.job.lastError))
  }

  /** The store action of a step, if it has one. */
  function ActionOf(sys: System, step: Step): Option<Action> {
    match step
    case Enqueue(_, job, keys) => Some(Create(job, keys))
    case FinishActivation(w) => if At(sys, w).Activating? then Some(Activate(At(sys, w).job.id)) else None
    case RefuseActivation(w, at, error) => if At(sys, w).Activating? then Some(FailActivation(At(sys, w).job.id, at, error)) else None
    case RecoverExpired(now, expired) => Some(Recover(now, expired))
    case ClaimNext(_, now, leaseMs, leaseId, candidates) => Some(Claim(now, leaseMs, leaseId, candidates))
    case Heartbeat(w, expiresAt) =>
      (match At(sys, w)
       case Holding(j) => if j.leaseId.Some? then Some(Renew(j.id, j.leaseId.value, expiresAt)) else None
       case Settling(t, _) => if t.job.leaseId.Some? then Some(Renew(t.job.id, t.job.leaseId.value, expiresAt)) else None
       case _ => None)
    case StageOutcome(_, t) => Some(Stage(t))
    case Settle(w) => if At(sys, w).Settling? then Some(Acknowledge(At(sys, w).t.job.id)) else None
    case Background(a) => Some(a)
    case _ => None
  }

  ghost predicate Allowed(sys: System, step: Step) {
    && (ActionOf(sys, step).Some? && !step.StageOutcome? ==> Enabled(sys.store, ActionOf(sys, step).value))
    && match step
       case Enqueue(w, job, _) => At(sys, w).Idle? && job.id !in sys.usedIds
       case ReadActivation(w, id) => At(sys, w).Idle? && id in sys.store.activation && id in sys.store.jobs
       case FinishActivation(w) => At(sys, w).Activating?
       case RefuseActivation(w, _, _) => At(sys, w).Activating?
       case ReadTransition(w, id) => At(sys, w).Idle? && id in sys.store.transitions
       case ClaimNext(w, _, _, leaseId, _) => At(sys, w).Idle? && leaseId !in sys.usedLeases
       case Heartbeat(w, _) => At(sys, w).Holding? || At(sys, w).Settling?
       case StageOutcome(w, t) => At(sys, w).Holding? && Finishes(At(sys, w).job, t)
       case Note(w, _) => At(sys, w).Settling? && !At(sys, w).noted
       case Settle(w) => At(sys, w).Settling? && At(sys, w).noted
       case Background(a) => a.Prune? || a.ExpireRecord? || a.ExpireAlias? || a.Tick?
       case _ => true
  }

  /** What an action adds to the history of outcomes. */
  function NewOutcomes(s: Store, s': Store): map<Run, Transition> {
    map id | id in s'.transitions && id !in s.transitions ::
      Run(id, s'.transitions[id].job.attempts) := s'.transitions[id]
  }

  function Act(sys: System, a: Action): System {
    var s' := Next(sys.store, a);
    sys.(store := s',
         usedIds := if a.Create? then sys.usedIds + {a.job.id} else sys.usedIds,
         usedLeases := if a.Claim? then sys.usedLeases + {a.leaseId} else sys.usedLeases,
         outcomes := sys.outcomes + NewOutcomes(sys.store, s'))
  }

  function Put(sys: System, w: WorkerId, worker: Worker): System {
    sys.(workers := sys.workers[w := worker])
  }

  /** Recording a transition's event: idempotent under its key; a different fact under the same key is a conflict. */
  function Noted(sys: System, w: WorkerId, t: Transition, revoked: bool): System {
    if revoked then Put(sys.(refused := sys.refused + {KeyOf(t)}), w, Settling(t, true))
    else if KeyOf(t) !in sys.recorded then Put(sys.(recorded := sys.recorded[KeyOf(t) := t]), w, Settling(t, true))
    else if sys.recorded[KeyOf(t)] == t then Put(sys, w, Settling(t, true))
    else Put(sys, w, Idle)
  }

  function Perform(sys: System, step: Step): System {
    var acted := if ActionOf(sys, step).Some? then Act(sys, ActionOf(sys, step).value) else sys;
    match step
    case Enqueue(w, job, keys) =>
      var stored := QueueStore.Create(sys.store, job, keys).1;
      if stored.status.Queued? then Put(acted, w, Activating(stored)) else acted
    case ReadActivation(w, id) => if id in sys.store.jobs then Put(sys, w, Activating(sys.store.jobs[id])) else sys
    case FinishActivation(w) => Put(acted, w, Idle)
    case RefuseActivation(w, _, _) => Put(acted, w, Idle)
    case ReadTransition(w, id) => if id in sys.store.transitions then Put(sys, w, Settling(sys.store.transitions[id], false)) else sys
    case ClaimNext(w, now, leaseMs, leaseId, candidates) =>
      var claimed := QueueStore.Claim(sys.store, now, leaseMs, leaseId, candidates).1;
      if claimed.Some? then Put(acted, w, Holding(claimed.value)) else acted
    case StageOutcome(w, t) =>
      if QueueStore.Stage(sys.store, t).1 then Put(acted, w, Settling(t, false)) else Put(acted, w, Idle)
    case Note(w, revoked) => if At(sys, w).Settling? then Noted(sys, w, At(sys, w).t, revoked) else sys
    case Settle(w) => Put(acted, w, Idle)
    case Crash(w) => Put(sys, w, Idle)
    case _ => acted
  }

  // ----- the invariant

  /** A view fits the history of its id: earlier runs were retried, the current one ended as the job says. */
  ghost predicate Fits(v: View, id: Id, usedIds: set<Id>, usedLeases: set<LeaseId>, outcomes: map<Run, Transition>) {
    match v
    case Absent => id !in usedIds ==> forall n: nat :: Run(id, n) !in outcomes
    case Present(core, pending) =>
      var run := Run(id, core.attempts);
      && core.id == id && id in usedIds
      && (forall n: nat | Run(id, n) in outcomes ::
            0 < n <= core.attempts && (n < core.attempts ==> !Terminal(outcomes[Run(id, n)].job.status)))
      && match core.status
         case Queued => core.attempts == 0 && pending.None?
         case Running =>
           && core.leaseId.Some? && core.leaseId.value in usedLeases && 0 < core.attempts
           && (run in outcomes <==> pending.Some?)
           && (pending.Some? ==> outcomes[run] == pending.value && Outcome(core, pending.value))
         case Failed => pending.None? && (core.attempts == 0 || (run in outcomes && outcomes[run].job.status.Failed?))
         case status => pending.None? && run in outcomes && outcomes[run].job.status == status
  }

  ghost predicate RunInv(sys: System, id: Id) {
    Fits(ViewOf(sys.store, id), id, sys.usedIds, sys.usedLeases, sys.outcomes)
  }

  ghost predicate OutcomeInv(sys: System, r: Run) {
    r in sys.outcomes ==>
      var t := sys.outcomes[r];
      && RunOf(t) == r && r.id in sys.usedIds
      && t.job.leaseId.Some? && t.job.leaseId.value in sys.usedLeases
      && (t.job.status.Retrying? || Terminal(t.job.status))
  }

  /** After a finished run there is no later one. */
  ghost predicate LastRun(sys: System, r: Run, r': Run) {
    r in sys.outcomes && r' in sys.outcomes && r.id == r'.id && Terminal(sys.outcomes[r].job.status) ==> r'.attempt <= r.attempt
  }

  /** A lease belongs to one run. */
  ghost predicate OneRunPerLease(sys: System, r: Run, r': Run) {
    r in sys.outcomes && r' in sys.outcomes && sys.outcomes[r].job.leaseId == sys.outcomes[r'].job.leaseId ==> r == r'
  }

  ghost predicate HoldsLease(s: Store, id: Id, leaseId: LeaseId) {
    id in s.jobs && s.jobs[id].status.Running? && s.jobs[id].leaseId == Some(leaseId)
  }

  ghost predicate LeaseInv(sys: System, id: Id, leaseId: LeaseId) {
    HoldsLease(sys.store, id, leaseId) ==>
      && (forall x | HoldsLease(sys.store, x, leaseId) :: x == id)
      && (forall r | r in sys.outcomes :: sys.outcomes[r].job.leaseId == Some(leaseId) ==> r == Run(id, sys.store.jobs[id].attempts))
  }

  ghost predicate Known(sys: System, t: Transition) {
    RunOf(t) in sys.outcomes && sys.outcomes[RunOf(t)] == t
  }

  ghost predicate EventInv(sys: System, key: EventKey) {
    key in sys.recorded ==> KeyOf(sys.recorded[key]) == key && Known(sys, sys.recorded[key])
  }

  ghost predicate InLedger(sys: System, t: Transition) {
    KeyOf(t) in sys.recorded || KeyOf(t) in sys.refused
  }

  ghost predicate WorkerInv(sys: System, w: WorkerId) {
    match At(sys, w)
    case Holding(j) =>
      && j.leaseId.Some? && j.leaseId.value in sys.usedLeases
      && forall id | HoldsLease(sys.store, id, j.leaseId.value) :: SameRun(sys.store.jobs[id], j)
    case Settling(t, noted) => Known(sys, t) && (noted ==> InLedger(sys, t))
    case _ => true
  }

  ghost predicate HistoryInv(sys: System) {
    && Inv(sys.store)
    && (forall id {:trigger RunInv(sys, id)} :: RunInv(sys, id))
    && (forall r {:trigger OutcomeInv(sys, r)} :: OutcomeInv(sys, r))
    && (forall r, r' {:trigger LastRun(sys, r, r')} :: LastRun(sys, r, r'))
    && (forall r, r' {:trigger OneRunPerLease(sys, r, r')} :: OneRunPerLease(sys, r, r'))
    && (forall id, l {:trigger LeaseInv(sys, id, l)} :: LeaseInv(sys, id, l))
  }

  ghost predicate LedgerInv(sys: System) {
    && (forall key {:trigger EventInv(sys, key)} :: EventInv(sys, key))
    && (forall w {:trigger WorkerInv(sys, w)} :: WorkerInv(sys, w))
  }

  ghost predicate SystemInv(sys: System) {
    HistoryInv(sys) && LedgerInv(sys)
  }
}
