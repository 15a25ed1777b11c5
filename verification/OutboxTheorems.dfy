// Runs of the whole system: what holds in every reachable state, and when the outbox keeps its promise.
module OutboxTheorems {
  import opened Wrappers
  import opened QueueStore
  import opened QueueInvariant
  import opened QueueEvolution
  import opened Outbox
  import opened OutboxProof

  function Initial(clock: int): System {
    System(Store(map[], map[], map[], map[], map[], map[], map[], map[], map[], map[], clock), map[], map[], {}, {}, {}, map[])
  }

  /** A run of allowed steps, interleaved and cut short by crashes in any way. */
  ghost predicate Reaches(from: System, steps: seq<Step>, to: System)
    decreases |steps|
  {
    if steps == [] then from == to
    else Allowed(from, steps[0]) && Reaches(Perform(from, steps[0]), steps[1..], to)
  }

  lemma InitialInv(clock: int)
    ensures SystemInv(Initial(clock))
  {
    var sys := Initial(clock);
    forall id ensures JobInv(sys.store, id) && LockInv(sys.store, id) && RunInv(sys, id) {}
    forall r ensures OutcomeInv(sys, r) {}
    forall r, r' ensures LastRun(sys, r, r') && OneRunPerLease(sys, r, r') {}
    forall id, l ensures LeaseInv(sys, id, l) {}
    forall key ensures EventInv(sys, key) {}
    forall w ensures WorkerInv(sys, w) {}
  }

  /** The store action of an allowed step can happen and hands out nothing twice. */
  lemma AllowedIsFresh(sys: System, step: Step)
    requires SystemInv(sys) && Allowed(sys, step) && ActionOf(sys, step).Some?
    ensures Fresh(sys, ActionOf(sys, step).value)
  {
    if step.StageOutcome? {
      StagedIsOutcome(sys, step.w, step.t);
    }
  }

  lemma PerformKeeps(sys: System, step: Step)
    requires SystemInv(sys) && Allowed(sys, step)
    ensures SystemInv(Perform(sys, step))
  {
    hide SystemInv, Act, Known, Finishes;
    var acted := if ActionOf(sys, step).Some? then Act(sys, ActionOf(sys, step).value) else sys;
    if ActionOf(sys, step).Some? {
      AllowedIsFresh(sys, step);
      ActKeepsLedger(sys, ActionOf(sys, step).value);
    }
    match step
    case Enqueue(w, job, keys) =>
      PutKeeps(acted, w, Activating(QueueStore.Create(sys.store, job, keys).1));
    case ReadActivation(w, id) => PutKeeps(sys, w, Activating(sys.store.jobs[id]));
    case FinishActivation(w) => PutKeeps(acted, w, Idle);
    case RefuseActivation(w, _, _) => PutKeeps(acted, w, Idle);
    case ReadTransition(w, id) => ReadKeeps(sys, w, id);
    case ClaimNext(w, _, _, _, _) => ClaimKeepsSystem(sys, step);
    case StageOutcome(w, t) => StageKeepsSystem(sys, w, t);
    case Note(w, revoked) => NotedKeeps(sys, w, revoked);
    case Settle(w) => PutKeeps(acted, w, Idle);
    case Crash(w) => PutKeeps(sys, w, Idle);
    case _ =>
  }

  lemma ReadKeeps(sys: System, w: WorkerId, id: Id)
    requires SystemInv(sys) && id in sys.store.transitions
    ensures SystemInv(Put(sys, w, Settling(sys.store.transitions[id], false)))
  {
    PendingIsKnown(sys, id);
    hide HistoryInv;
    PutKeeps(sys, w, Settling(sys.store.transitions[id], false));
  }

  lemma ClaimKeepsSystem(sys: System, step: Step)
    requires SystemInv(sys) && Allowed(sys, step) && step.ClaimNext?
    ensures SystemInv(Perform(sys, step))
  {
    var a := ActionOf(sys, step).value;
    var claimed := QueueStore.Claim(sys.store, step.now, step.leaseMs, step.leaseId, step.candidates).1;
    ActKeepsLedger(sys, a);
    if claimed.Some? {
      ClaimedHolds(sys, a, claimed.value);
      hide HistoryInv, Next, NewOutcomes;
      PutKeeps(Act(sys, a), step.w, Holding(claimed.value));
    }
  }

  lemma StageKeepsSystem(sys: System, w: WorkerId, t: Transition)
    requires SystemInv(sys) && Allowed(sys, StageOutcome(w, t))
    ensures SystemInv(Perform(sys, StageOutcome(w, t)))
  {
    StagedIsOutcome(sys, w, t);
    ActKeepsLedger(sys, Stage(t));
    if QueueStore.Stage(sys.store, t).1 {
      JustStagedIsKnown(sys, t);
      hide HistoryInv, Next, NewOutcomes;
      PutKeeps(Act(sys, Stage(t)), w, Settling(t, false));
    } else {
      hide HistoryInv, Next, NewOutcomes;
      PutKeeps(Act(sys, Stage(t)), w, Idle);
    }
  }

  /** The invariant holds in every reachable state. */
  lemma {:induction false} ReachableInv(from: System, steps: seq<Step>, to: System)
    requires SystemInv(from) && Reaches(from, steps, to)
    ensures SystemInv(to)
    decreases |steps|
  {
    hide SystemInv, Allowed, Perform;
    if steps != [] {
      PerformKeeps(from, steps[0]);
      ReachableInv(Perform(from, steps[0]), steps[1..], to);
    }
  }

  // ----- exclusion and progress, in every reachable state

  lemma NoTwoLiveLeases(clock: int, steps: seq<Step>, sys: System, x: Id, y: Id)
    requires Reaches(Initial(clock), steps, sys)
    requires Live(sys.store, x) && Live(sys.store, y) && x != y
    ensures sys.store.jobs[x].installationId != sys.store.jobs[y].installationId
    ensures RepositoryLock(sys.store.jobs[x]) != RepositoryLock(sys.store.jobs[y])
  {
    InitialInv(clock);
    ReachableInv(Initial(clock), steps, sys);
    LiveLeasesAreExclusive(sys.store, x, y);
  }

  lemma NoJobStranded(clock: int, steps: seq<Step>, sys: System, id: Id)
    requires Reaches(Initial(clock), steps, sys)
    requires id in sys.store.jobs && !Terminal(sys.store.jobs[id].status)
    ensures var s := sys.store; id in s.scheduled || id in s.active || id in s.activation || id in s.transitionIndex
    ensures sys.store.jobs[id].attempts <= Max(1, sys.store.jobs[id].maxAttempts)
  {
    InitialInv(clock);
    ReachableInv(Initial(clock), steps, sys);
    UnfinishedIsIndexed(sys.store, id);
  }

  /** Once a job has been claimed, its attempts are within their bound exactly when the bound allows any. */
  lemma AttemptsBoundedExactly(clock: int, steps: seq<Step>, sys: System, id: Id)
    requires Reaches(Initial(clock), steps, sys)
    requires id in sys.store.jobs && 0 < sys.store.jobs[id].attempts
    ensures sys.store.jobs[id].attempts <= sys.store.jobs[id].maxAttempts <==> 1 <= sys.store.jobs[id].maxAttempts
    ensures sys.store.jobs[id].maxAttempts < 1 ==> sys.store.jobs[id].attempts == 1
  {
    InitialInv(clock);
    ReachableInv(Initial(clock), steps, sys);
    assert JobInv(sys.store, id);
  }

  /** A finished job is never changed, nor brought back once forgotten. */
  lemma NeverResurrected(sys: System, step: Step, id: Id)
    requires SystemInv(sys) && Allowed(sys, step) && id in sys.usedIds
    requires id in sys.store.jobs ==> Terminal(sys.store.jobs[id].status)
    ensures var s, s' := sys.store, Perform(sys, step).store;
            id in s'.jobs ==> id in s.jobs && s'.jobs[id] == s.jobs[id]
    ensures id in Perform(sys, step).usedIds
  {
    hide *;
    PerformsAction(sys, step);
    if ActionOf(sys, step).Some? {
      AllowedIsFresh(sys, step);
      EndedStays(sys, ActionOf(sys, step).value, id);
    }
  }

  lemma EndedStays(sys: System, a: Action, id: Id)
    requires SystemInv(sys) && Fresh(sys, a) && id in sys.usedIds
    requires id in sys.store.jobs ==> Terminal(sys.store.jobs[id].status)
    ensures var s, s' := sys.store, Next(sys.store, a); id in s'.jobs ==> id in s.jobs && s'.jobs[id] == s.jobs[id]
  {
    hide Next, Inv, LedgerInv;
    if id in sys.store.jobs {
      FinishedStays(sys.store, a, id);
    } else {
      NextMoves(sys.store, a, id);
      AbsentStays(ViewOf(sys.store, id), ViewOf(Next(sys.store, a), id), a, id);
    }
  }

  lemma AbsentStays(v: View, v': View, a: Action, id: Id)
    requires Moves(v, v', a, id) && v.Absent? && (a.Create? ==> a.job.id != id)
    ensures v'.Absent?
  {
  }

  // ----- one outcome per run, one terminal event per job, harmless replay

  /** A lease stages at most one transition: staging succeeds only for a run without an outcome. */
  lemma StagesOncePerRun(sys: System, w: WorkerId, t: Transition)
    requires SystemInv(sys) && Allowed(sys, StageOutcome(w, t)) && QueueStore.Stage(sys.store, t).1
    ensures RunOf(t) !in sys.outcomes
    ensures forall r | r in sys.outcomes :: sys.outcomes[r].job.leaseId != t.job.leaseId
  {
    StagedIsOutcome(sys, w, t);
    var id := t.job.id;
    assert RunInv(sys, id) && JobInv(sys.store, id) && LeaseInv(sys, id, t.job.leaseId.value);
    hide Inv;
  }

  /** Events of different transitions have different keys. */
  lemma KeysAreDistinct(sys: System, t: Transition, u: Transition)
    requires HistoryInv(sys) && Known(sys, t) && Known(sys, u) && KeyOf(t) == KeyOf(u)
    ensures t == u
  {
    hide Inv, Fits;
    assert OutcomeInv(sys, RunOf(t)) && OutcomeInv(sys, RunOf(u));
    assert LastRun(sys, RunOf(t), RunOf(u)) && LastRun(sys, RunOf(u), RunOf(t));
  }

  predicate IsTerminalOf(key: EventKey, id: Id) {
    key == ReviewFailed(id) || (key.ReviewCompleted? && key.id == id)
  }

  lemma TerminalEventsAgree(sys: System, x: EventKey, y: EventKey, id: Id)
    requires SystemInv(sys) && x in sys.recorded && y in sys.recorded && IsTerminalOf(x, id) && IsTerminalOf(y, id)
    ensures x == y
  {
    hide Inv, RunInv, LeaseInv;
    var t, u := sys.recorded[x], sys.recorded[y];
    assert EventInv(sys, x) && EventInv(sys, y);
    assert OutcomeInv(sys, RunOf(t)) && OutcomeInv(sys, RunOf(u));
    assert LastRun(sys, RunOf(t), RunOf(u)) && LastRun(sys, RunOf(u), RunOf(t));
    hide HistoryInv, LedgerInv, OneRunPerLease, WorkerInv;
  }

  /** No job has both a completed and a failed event. */
  lemma OneTerminalEvent(clock: int, steps: seq<Step>, sys: System, id: Id, n: nat)
    requires Reaches(Initial(clock), steps, sys)
    ensures !(ReviewCompleted(id, n) in sys.recorded && ReviewFailed(id) in sys.recorded)
    ensures forall m: nat | ReviewCompleted(id, n) in sys.recorded && ReviewCompleted(id, m) in sys.recorded :: m == n
  {
    hide Reaches, SystemInv;
    InitialInv(clock);
    ReachableInv(Initial(clock), steps, sys);
    forall x, y | x in sys.recorded && y in sys.recorded && IsTerminalOf(x, id) && IsTerminalOf(y, id)
      ensures x == y
    {
      TerminalEventsAgree(sys, x, y, id);
    }
  }

  /** In every reachable state an event tells what happened: its run ended as it says. */
  lemma EventsAreTrue(clock: int, steps: seq<Step>, sys: System, key: EventKey)
    requires Reaches(Initial(clock), steps, sys) && key in sys.recorded
    ensures var t := sys.recorded[key];
            && RunOf(t) in sys.outcomes && sys.outcomes[RunOf(t)] == t && t.job.id == key.id
            && match key
               case RetryScheduled(_, n) => t.job.status == Retrying && t.job.attempts == n
               case ReviewCompleted(_, n) => t.job.status == Completed && t.job.attempts == n
               case ReviewFailed(_) => t.job.status == Failed
  {
    InitialInv(clock);
    ReachableInv(Initial(clock), steps, sys);
    assert EventInv(sys, key) && OutcomeInv(sys, RunOf(sys.recorded[key]));
    hide Inv, Reaches, RunInv, LeaseInv;
  }

  /** Replaying a staged transition neither appends its event again nor conflicts with the one that is there. */
  lemma ReplayIsHarmless(sys: System, w: WorkerId)
    requires SystemInv(sys) && At(sys, w).Settling? && KeyOf(At(sys, w).t) in sys.recorded
    ensures Perform(sys, Note(w, false)) == Put(sys, w, Settling(At(sys, w).t, true))
  {
    var t := At(sys, w).t;
    assert WorkerInv(sys, w) && EventInv(sys, KeyOf(t));
    KeysAreDistinct(sys, t, sys.recorded[KeyOf(t)]);
  }

  /** A pending transition disappears only by acknowledgement. */
  lemma PendingUntilSettled(sys: System, step: Step, id: Id)
    requires SystemInv(sys) && Allowed(sys, step) && id in sys.store.transitions
    requires !(step.Settle? && At(sys, step.w).t.job.id == id)
    ensures id in Perform(sys, step).store.transitions && Perform(sys, step).store.transitions[id] == sys.store.transitions[id]
  {
    if ActionOf(sys, step).Some? {
      AllowedIsFresh(sys, step);
      PendingStays(sys.store, ActionOf(sys, step).value, id);
      hide SystemInv, Next, Enabled, Finishes, NewOutcomes;
    }
  }

  // ----- the outbox

  /** What is known of a job that ended after running. */
  ghost predicate Ran(v: View) {
    v.Present? && Terminal(v.core.status) && 0 < v.core.attempts
  }

  /** A job that ended after running has the event of its end in the ledger, unless the ledger refused it. */
  ghost predicate OutboxInv(sys: System, id: Id) {
    var v := ViewOf(sys.store, id);
    Ran(v) ==>
      Run(id, v.core.attempts) in sys.outcomes && InLedger(sys, sys.outcomes[Run(id, v.core.attempts)])
  }

  /** What is pending goes back to the queue, or still carries the lease of the transition the worker read. */
  predicate SafeToSettle(pending: Transition, t: Transition) {
    Reschedules(pending.job.status) || pending.job.leaseId == t.job.leaseId
  }

  ghost predicate SafeStep(sys: System, step: Step) {
    step.Settle? && At(sys, step.w).Settling? ==>
      var t := At(sys, step.w).t;
      t.job.id in sys.store.transitions ==> SafeToSettle(sys.store.transitions[t.job.id], t)
  }

  lemma LedgerGrows(sys: System, step: Step, t: Transition)
    requires InLedger(sys, t)
    ensures InLedger(Perform(sys, step), t)
  {
    hide Next, QueueStore.Create, QueueStore.Claim, QueueStore.Stage, NewOutcomes, KeyOf;
  }

  lemma HistoryOnlyGrows(sys: System, step: Step, r: Run)
    requires SystemInv(sys) && Allowed(sys, step) && r in sys.outcomes
    ensures r in Perform(sys, step).outcomes && Perform(sys, step).outcomes[r] == sys.outcomes[r]
  {
    assert HistoryInv(sys);
    hide *;
    PerformsAction(sys, step);
    if ActionOf(sys, step).Some? {
      var a := ActionOf(sys, step).value;
      AllowedIsFresh(sys, step);
      ActChanges(sys, a, r.id);
      HistoryStays(sys, Act(sys, a), a, r);
    }
  }

  /** The one transition of a lease is the one that is pending under it. */
  lemma SameLeaseSameTransition(sys: System, t: Transition, id: Id)
    requires HistoryInv(sys) && Known(sys, t) && id in sys.store.transitions
    requires sys.store.transitions[id].job.leaseId == t.job.leaseId
    ensures sys.store.transitions[id] == t
  {
    PendingIsKnown(sys, id);
    hide Inv, Fits;
    assert OneRunPerLease(sys, RunOf(sys.store.transitions[id]), RunOf(t));
  }

  ghost predicate EventsFirst(sys: System) {
    forall id {:trigger OutboxInv(sys, id)} :: OutboxInv(sys, id)
  }

  lemma EndingMoves(v: View, v': View, a: Action, id: Id)
    requires Moves(v, v', a, id) && Ran(v') && v' != v && (a.Create? ==> a.job.status.Queued?)
    ensures a == Acknowledge(id) && v.Present? && v.pending.Some? && v'.core == Core(Settled(v.pending.value))
  {
    assert v.Present? && v.core.status.Running? ==> !Waits(v.core.status);
    hide Core;
  }

  /** A job ends only by an acknowledgement of a terminal transition, or without ever having run. */
  lemma EndsBySettling(sys: System, step: Step, id: Id)
    requires SystemInv(sys) && Allowed(sys, step)
    ensures var v, v' := ViewOf(sys.store, id), ViewOf(Perform(sys, step).store, id);
            Ran(v') && v' != v ==>
              && step.Settle? && At(sys, step.w).Settling? && At(sys, step.w).t.job.id == id
              && id in sys.store.transitions && v'.core == Core(Settled(sys.store.transitions[id]))
  {
    var v, v' := ViewOf(sys.store, id), ViewOf(Perform(sys, step).store, id);
    PerformsAction(sys, step);
    if ActionOf(sys, step).Some? && Ran(v') && v' != v {
      var a := ActionOf(sys, step).value;
      AllowedIsFresh(sys, step);
      ActChanges(sys, a, id);
      EndingMoves(v, v', a, id);
      OnlySettleAcknowledges(sys, step, id);
      assert v.pending.value == sys.store.transitions[id];
      hide *;
    }
  }

  lemma PerformsAction(sys: System, step: Step)
    ensures Perform(sys, step).store == if ActionOf(sys, step).Some? then Next(sys.store, ActionOf(sys, step).value) else sys.store
    ensures sys.usedIds <= Perform(sys, step).usedIds
    ensures Perform(sys, step).outcomes == if ActionOf(sys, step).Some? then Act(sys, ActionOf(sys, step).value).outcomes else sys.outcomes
  {
    hide Next, NewOutcomes, QueueStore.Create, QueueStore.Claim, QueueStore.Stage, KeyOf;
  }

  lemma OnlySettleAcknowledges(sys: System, step: Step, id: Id)
    requires Allowed(sys, step) && ActionOf(sys, step) == Some(Acknowledge(id))
    ensures step.Settle? && At(sys, step.w).Settling? && At(sys, step.w).t.job.id == id
  {
  }

  lemma StepKeepsOutbox(sys: System, step: Step)
    requires SystemInv(sys) && EventsFirst(sys) && Allowed(sys, step) && SafeStep(sys, step)
    ensures EventsFirst(Perform(sys, step))
  {
    forall id
      ensures OutboxInv(Perform(sys, step), id)
    {
      hide *;
      EndingKeepsOutbox(sys, step, id);
    }
  }

  lemma EndingKeepsOutbox(sys: System, step: Step, id: Id)
    requires SystemInv(sys) && EventsFirst(sys) && Allowed(sys, step) && SafeStep(sys, step)
    ensures OutboxInv(Perform(sys, step), id)
  {
    var sys' := Perform(sys, step);
    assert OutboxInv(sys, id) && RunInv(sys, id);
    var v, v' := ViewOf(sys.store, id), ViewOf(sys'.store, id);
    EndsBySettling(sys, step, id);
    if Ran(v') {
      var t := if v' == v then sys.outcomes[Run(id, v.core.attempts)] else sys.store.transitions[id];
      if v' != v {
        SettledWasNoted(sys, step.w, id);
      }
      hide SystemInv, Allowed, Perform, SafeStep, KeyOf, Core, ViewOf;
      HistoryOnlyGrows(sys, step, Run(id, v'.core.attempts));
      LedgerGrows(sys, step, t);
    }
  }

  /** The transition about to end a job is the one whose event the worker recorded. */
  lemma SettledWasNoted(sys: System, w: WorkerId, id: Id)
    requires SystemInv(sys) && Allowed(sys, Settle(w)) && SafeStep(sys, Settle(w))
    requires At(sys, w).t.job.id == id && id in sys.store.transitions && Terminal(sys.store.transitions[id].job.status)
    ensures var t := sys.store.transitions[id];
            InLedger(sys, t) && Known(sys, t) && Core(Settled(t)).attempts == t.job.attempts && t.job.id == id
  {
    assert WorkerInv(sys, w);
    hide HistoryInv;
    SameLeaseSameTransition(sys, At(sys, w).t, id);
  }

  ghost predicate AllSafe(from: System, steps: seq<Step>)
    decreases |steps|
  {
    steps != [] ==> SafeStep(from, steps[0]) && AllSafe(Perform(from, steps[0]), steps[1..])
  }

  lemma {:induction false} RunKeepsOutbox(from: System, steps: seq<Step>, to: System)
    requires SystemInv(from) && EventsFirst(from) && Reaches(from, steps, to) && AllSafe(from, steps)
    ensures EventsFirst(to)
    decreases |steps|
  {
    hide SystemInv, EventsFirst, Allowed, SafeStep, Perform;
    if steps != [] {
      PerformKeeps(from, steps[0]);
      StepKeepsOutbox(from, steps[0]);
      RunKeepsOutbox(Perform(from, steps[0]), steps[1..], to);
    }
  }

  /** Over every run of safe steps, no job ends before its event is in the ledger. */
  lemma OutboxHolds(clock: int, steps: seq<Step>, sys: System)
    requires Reaches(Initial(clock), steps, sys) && AllSafe(Initial(clock), steps)
    ensures EventsFirst(sys)
  {
    InitialInv(clock);
    assert forall id :: OutboxInv(Initial(clock), id);
    RunKeepsOutbox(Initial(clock), steps, sys);
  }

  /** The same store, history and worker, with any ledger and other workers the invariants allow. */
  ghost predicate Alike(sys: System, other: System, w: WorkerId) {
    && other.store == sys.store && other.outcomes == sys.outcomes && other.usedIds == sys.usedIds && other.usedLeases == sys.usedLeases
    && At(other, w) == At(sys, w) && SystemInv(other) && EventsFirst(other)
  }

  /** Exactly when a settling is safe whatever else the ledger holds. */
  lemma SettleSafeExactly(sys: System, w: WorkerId)
    requires SystemInv(sys) && EventsFirst(sys) && Allowed(sys, Settle(w)) && At(sys, w).t.job.id in sys.store.transitions
    ensures var t, pending := At(sys, w).t, sys.store.transitions[At(sys, w).t.job.id];
            (forall other | Alike(sys, other, w) :: EventsFirst(Perform(other, Settle(w)))) <==> SafeToSettle(pending, t)
  {
    var pending := sys.store.transitions[At(sys, w).t.job.id];
    if SafeToSettle(pending, At(sys, w).t) {
      forall other | Alike(sys, other, w)
        ensures EventsFirst(Perform(other, Settle(w)))
      {
        hide HistoryInv, LedgerInv, EventsFirst, Perform;
        StepKeepsOutbox(other, Settle(w));
      }
    } else {
      var other := Unrecorded(sys, w, pending);
      UnrecordedIsAlike(sys, w);
      SettleUnsafe(other, w);
    }
  }

  /** The system as it is when nobody has recorded the pending transition's event yet. */
  ghost function Unrecorded(sys: System, w: WorkerId, pending: Transition): System {
    sys.(workers := map[w := At(sys, w)], recorded := sys.recorded - {KeyOf(pending)}, refused := sys.refused - {KeyOf(pending)})
  }

  lemma UnrecordedIsAlike(sys: System, w: WorkerId)
    requires SystemInv(sys) && EventsFirst(sys) && Allowed(sys, Settle(w)) && At(sys, w).t.job.id in sys.store.transitions
    requires sys.store.transitions[At(sys, w).t.job.id].job.leaseId != At(sys, w).t.job.leaseId
    ensures Alike(sys, Unrecorded(sys, w, sys.store.transitions[At(sys, w).t.job.id]), w)
  {
    var id := At(sys, w).t.job.id;
    var pending := sys.store.transitions[id];
    var other := Unrecorded(sys, w, pending);
    PendingIsKnown(sys, id);
    WorkersDoNotMatter(sys, other);
    assert SystemInv(other) by {
      forall key ensures EventInv(other, key) { assert EventInv(sys, key); KnownAnywhere(sys, other); }
      forall x ensures WorkerInv(other, x) {
        if x == w {
          assert WorkerInv(sys, w);
          if KeyOf(At(sys, w).t) == KeyOf(pending) {
            KeysAreDistinct(sys, At(sys, w).t, pending);
          }
        }
      }
    }
    forall x
      ensures OutboxInv(other, x)
    {
      assert OutboxInv(sys, x) && RunInv(sys, x) && RunInv(sys, id);
      var v := ViewOf(sys.store, x);
      if Ran(v) {
        var t := sys.outcomes[Run(x, v.core.attempts)];
        assert OutcomeInv(sys, Run(x, v.core.attempts));
        if KeyOf(t) == KeyOf(pending) {
          KeysAreDistinct(sys, t, pending);
        }
      }
    }
  }

  lemma WorkersDoNotMatter(sys: System, other: System)
    requires HistoryInv(sys)
    requires other == sys.(workers := other.workers, recorded := other.recorded, refused := other.refused)
    ensures HistoryInv(other)
  {
    hide Inv, Fits;
    forall id ensures RunInv(other, id) { assert RunInv(sys, id); }
    forall r ensures OutcomeInv(other, r) { assert OutcomeInv(sys, r); }
    forall r, r' ensures LastRun(other, r, r') && OneRunPerLease(other, r, r') { assert LastRun(sys, r, r') && OneRunPerLease(sys, r, r'); }
    forall id, l ensures LeaseInv(other, id, l) { assert LeaseInv(sys, id, l); }
  }

  /** Settling a terminal transition whose event nobody recorded breaks the promise. */
  lemma SettleUnsafe(sys: System, w: WorkerId)
    requires SystemInv(sys) && Allowed(sys, Settle(w)) && At(sys, w).t.job.id in sys.store.transitions
    requires var pending := sys.store.transitions[At(sys, w).t.job.id];
             !Reschedules(pending.job.status) && !InLedger(sys, pending)
    ensures !EventsFirst(Perform(sys, Settle(w)))
  {
    var id := At(sys, w).t.job.id;
    var pending := sys.store.transitions[id];
    var sys' := Perform(sys, Settle(w));
    PendingIsKnown(sys, id);
    assert RunInv(sys, id) && JobInv(sys.store, id);
    SettledView(sys, w, id);
    HistoryOnlyGrows(sys, Settle(w), RunOf(pending));
    hide SystemInv, Allowed, Perform;
    assert !OutboxInv(sys', id);
  }

  lemma SettledView(sys: System, w: WorkerId, id: Id)
    requires SystemInv(sys) && Allowed(sys, Settle(w)) && At(sys, w).t.job.id == id && id in sys.store.transitions
    ensures ViewOf(Perform(sys, Settle(w)).store, id) == Present(Core(Settled(sys.store.transitions[id])), None)
    ensures Perform(sys, Settle(w)).recorded == sys.recorded && Perform(sys, Settle(w)).refused == sys.refused
    ensures id in sys.store.jobs && Outcome(sys.store.jobs[id], sys.store.transitions[id]) && 0 < sys.store.transitions[id].job.attempts
  {
    hide Release, InstallationLock, RepositoryLock, NewOutcomes, LedgerInv;
    assert JobInv(sys.store, id);
    PerformsAction(sys, Settle(w));
    hide HistoryInv;
  }
}
