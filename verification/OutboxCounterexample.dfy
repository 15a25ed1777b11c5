// Runs in which a job completes although nobody ever records its completion, and in which a job is attempted more often than its bound.
module OutboxCounterexample {
  import opened Wrappers
  import opened QueueStore
  import opened QueueInvariant
  import opened QueueEvolution
  import opened Outbox
  import opened OutboxTheorems
  import opened OutboxLoss

  const JOB: Id := "j"

  function Queue(maxAttempts: int): Job { Job(JOB, 1, "o", "r", Queued, 0, maxAttempts, 0, 0, 0, None, None, None, None, None) }
  function First(): Job { Lease(Queue(2), 0, 9, "first") }
  function Retry(): Transition { Transition(First().(status := Retrying, lastError := Some("timeout")), None) }
  function Second(): Job { Lease(Settled(Retry()), 0, 9, "second") }
  function Done(): Transition { Transition(Second().(status := Completed, completedAt := Some(0)), Some("review")) }

  /** A store with the one job, which nobody runs. */
  function Free(job: Job, scheduled: map<Id, Score>, activation: map<Id, Score>, terminal: map<Id, Score>): Store {
    Store(map[JOB := job], scheduled, map[], activation, map[JOB := 0], terminal, map[], map[], map[], map[], 0)
  }

  function Locks(job: Job): map<LockKey, Lock> {
    map[InstallationLock(job) := Lock(JOB, 9), RepositoryLock(job) := Lock(JOB, 9)]
  }

  /** A store with the one job running, and perhaps a transition pending. */
  function Taken(job: Job, index: map<Id, Score>, pending: map<Id, Transition>): Store {
    Store(map[JOB := job], map[], map[JOB := 9], map[], map[JOB := 0], map[], index, pending, Locks(job), map[], 0)
  }

  function State(store: Store, w0: Worker, w1: Worker, recorded: map<EventKey, Transition>,
                 leases: set<LeaseId>, outcomes: map<Run, Transition>): System
  {
    System(store, map[0 := w0, 1 := w1], recorded, {}, {JOB}, leases, outcomes)
  }

  lemma Claiming(job: Job, leaseId: LeaseId)
    ensures QueueStore.Claim(Free(job, map[JOB := 0], map[], map[]), 0, 9, leaseId, [JOB])
            == (Taken(Lease(job, 0, 9, leaseId), map[], map[]), Some(Lease(job, 0, 9, leaseId)))
  {
    hide Lower;
    var s := Free(job, map[JOB := 0], map[], map[]);
    var s' := Take(s, JOB, 0, 9, leaseId);
    assert s'.locks == Locks(job) && s'.jobs == map[JOB := Lease(job, 0, 9, leaseId)] && s'.scheduled == map[] && s'.active == map[JOB := 9];
    assert RepositoryLock(Lease(job, 0, 9, leaseId)) == RepositoryLock(job);
    assert s' == Taken(Lease(job, 0, 9, leaseId), map[], map[]);
    hide Take, Taken, Lease;
    assert ClaimOne(s, 0, 9, leaseId, JOB) == (s', Some(Lease(job, 0, 9, leaseId)));
    assert [JOB][1..] == [];
  }

  lemma ClaimRange(job: Job)
    ensures IsRange(Free(job, map[JOB := 0], map[], map[]).scheduled, 0, CLAIM_LIMIT, [JOB])
  {
  }

  lemma Staging(job: Job, t: Transition)
    requires job.status.Running? && t.job.id == JOB && t.job.leaseId == job.leaseId && t.job.updatedAt == 0
    ensures QueueStore.Stage(Taken(job, map[], map[]), t) == (Taken(job, map[JOB := 0], map[JOB := t]), true)
  {
    hide Locks;
  }

  lemma Acknowledging(job: Job, t: Transition)
    requires t.job.leaseId == job.leaseId
    requires if t.job.status.Retrying? then t.job.availableAt == 0 else t.job.status.Completed? && t.job.completedAt == Some(0)
    ensures QueueStore.Acknowledge(Taken(job, map[JOB := 0], map[JOB := t]), JOB).0
            == if t.job.status.Retrying? then Free(Settled(t), map[JOB := 0], map[], map[])
               else Free(Settled(t), map[], map[], map[JOB := 0])
  {
    Releasing(job);
    hide RepositoryLock, InstallationLock, Release, Locks;
  }

  lemma Releasing(job: Job)
    ensures Release(Release(Locks(job), 0, InstallationLock(job), JOB), 0, RepositoryLock(job), JOB) == map[]
  {
    hide RepositoryLock;
  }

  lemma NothingNew(s: Store, s': Store, outcomes: map<Run, Transition>)
    requires forall id | id in s'.transitions :: id in s.transitions
    ensures outcomes + NewOutcomes(s, s') == outcomes
  {
  }

  lemma PutState(store: Store, w0: Worker, w1: Worker, recorded: map<EventKey, Transition>,
                 leases: set<LeaseId>, outcomes: map<Run, Transition>, w: Worker)
    ensures var sys := State(store, w0, w1, recorded, leases, outcomes);
            && At(sys, 0) == w0 && At(sys, 1) == w1
            && Put(sys, 0, w) == State(store, w, w1, recorded, leases, outcomes)
            && Put(sys, 1, w) == State(store, w0, w, recorded, leases, outcomes)
  {
    PutWorkers(w0, w1, w);
  }

  lemma PutWorkers(w0: Worker, w1: Worker, w: Worker)
    ensures var workers: map<WorkerId, Worker> := map[0 := w0, 1 := w1];
            workers[0 := w] == map[0 := w, 1 := w1] && workers[1 := w] == map[0 := w0, 1 := w]
  {
  }

  lemma ActIs(sys: System, a: Action, s': Store, outcomes: map<Run, Transition>)
    requires Next(sys.store, a) == s' && sys.outcomes + NewOutcomes(sys.store, s') == outcomes
    ensures Act(sys, a) == sys.(store := s', outcomes := outcomes,
                                usedIds := if a.Create? then sys.usedIds + {a.job.id} else sys.usedIds,
                                usedLeases := if a.Claim? then sys.usedLeases + {a.leaseId} else sys.usedLeases)
  {
    hide Next, NewOutcomes;
  }

  /** An action that stages nothing. */
  lemma ActState(store: Store, w0: Worker, w1: Worker, recorded: map<EventKey, Transition>,
                 leases: set<LeaseId>, outcomes: map<Run, Transition>, a: Action)
    requires !a.Create? && !a.Claim? && forall id | id in Next(store, a).transitions :: id in store.transitions
    ensures Act(State(store, w0, w1, recorded, leases, outcomes), a)
            == State(Next(store, a), w0, w1, recorded, leases, outcomes)
  {
    hide Act, Next;
    NothingNew(store, Next(store, a), outcomes);
    hide NewOutcomes;
    ActIs(State(store, w0, w1, recorded, leases, outcomes), a, Next(store, a), outcomes);
  }

  lemma OneNew(s: Store, s': Store, t: Transition, outcomes: map<Run, Transition>)
    requires s.transitions == map[] && s'.transitions == map[JOB := t]
    ensures outcomes + NewOutcomes(s, s') == outcomes[Run(JOB, t.job.attempts) := t]
  {
    var n := NewOutcomes(s, s');
    assert JOB in s'.transitions && JOB !in s.transitions && s'.transitions[JOB] == t;
    assert forall id | id in s'.transitions :: id == JOB;
    assert n.Keys == {Run(JOB, t.job.attempts)} && n[Run(JOB, t.job.attempts)] == t;
    hide NewOutcomes;
  }

  // What the steps with a store action come to.

  lemma Acts(sys: System, step: Step)
    requires Allowed(sys, step) && ActionOf(sys, step).Some?
    ensures var acted := Act(sys, ActionOf(sys, step).value);
            && (step.FinishActivation? || step.Settle? ==> Perform(sys, step) == Put(acted, step.w, Idle))
            && (step.Enqueue? && QueueStore.Create(sys.store, step.job, step.keys).1 == step.job && step.job.status.Queued? ==>
                  Perform(sys, step) == Put(acted, step.w, Activating(step.job)))
            && (step.StageOutcome? && QueueStore.Stage(sys.store, step.t).1 ==> Perform(sys, step) == Put(acted, step.w, Settling(step.t, false)))
            && (step.ClaimNext? ==>
                  var claimed := QueueStore.Claim(sys.store, step.now, step.leaseMs, step.leaseId, step.candidates).1;
                  claimed.Some? ==> Perform(sys, step) == Put(acted, step.w, Holding(claimed.value)))
  {
    hide Act, Put, Enabled, QueueStore.Create, QueueStore.Claim, QueueStore.Stage, Finishes;
  }

  // ----- the run

  ghost predicate Reached(sys: System) {
    exists steps :: Reaches(Initial(0), steps, sys)
  }

  lemma {:induction false} Extend(from: System, steps: seq<Step>, sys: System, step: Step)
    requires Reaches(from, steps, sys) && Allowed(sys, step)
    ensures Reaches(from, steps + [step], Perform(sys, step))
    decreases |steps|
  {
    hide Allowed, Perform;
    if steps == [] {
      assert [step][1..] == [];
    } else {
      assert (steps + [step])[1..] == steps[1..] + [step];
      Extend(Perform(from, steps[0]), steps[1..], sys, step);
    }
  }

  lemma Go(sys: System, step: Step, next: System)
    requires Reached(sys) && Allowed(sys, step) && Perform(sys, step) == next
    ensures Reached(next)
  {
    hide Allowed, Perform;
    var steps :| Reaches(Initial(0), steps, sys);
    Extend(Initial(0), steps, sys, step);
  }

  /** A step with a store action that hands out nothing, and what it makes of the workers. */
  lemma ActGo(s: Store, s': Store, w0: Worker, w1: Worker, recorded: map<EventKey, Transition>,
              leases: set<LeaseId>, outcomes: map<Run, Transition>, step: Step, w: WorkerId)
    requires Reached(State(s, w0, w1, recorded, leases, outcomes))
    requires var sys := State(s, w0, w1, recorded, leases, outcomes);
             && (step == FinishActivation(w) || step == Settle(w)) && (w == 0 || w == 1)
             && Allowed(sys, step) && ActionOf(sys, step).Some? && Next(s, ActionOf(sys, step).value) == s'
    requires s.transitions == map[] || s'.transitions == map[]
    requires s.transitions == map[] ==> s'.transitions == map[]
    ensures Reached(State(s', if w == 0 then Idle else w0, if w == 0 then w1 else Idle, recorded, leases, outcomes))
  {
    var sys := State(s, w0, w1, recorded, leases, outcomes);
    var a := ActionOf(sys, step).value;
    assert !a.Create? && !a.Claim?;
    Acts(sys, step);
    hide Reached, Allowed, Next, ActionOf, Perform;
    ActState(s, w0, w1, recorded, leases, outcomes, a);
    PutState(s', w0, w1, recorded, leases, outcomes, Idle);
    hide State, Act, Put;
    Go(sys, step, State(s', if w == 0 then Idle else w0, if w == 0 then w1 else Idle, recorded, leases, outcomes));
  }

  lemma Creating(maxAttempts: int)
    ensures var s := Initial(0).store;
            && QueueStore.Create(s, Queue(maxAttempts), []) == (Free(Queue(maxAttempts), map[], map[JOB := 0], map[]), Queue(maxAttempts)) && NewJob(s, Queue(maxAttempts))
            && Free(Queue(maxAttempts), map[], map[JOB := 0], map[]).transitions == s.transitions && Queue(maxAttempts).status.Queued? && Queue(maxAttempts).id == JOB
  {
  }

  lemma ActCreate(one: System, s': Store, job: Job)
    requires one.usedIds == {} && job.id == JOB
    requires QueueStore.Create(one.store, job, []) == (s', job) && s'.transitions == one.store.transitions
    ensures Act(one, Create(job, [])) == one.(store := s', usedIds := {JOB})
  {
    hide Act, QueueStore.Create;
    assert Next(one.store, Create(job, [])) == s';
    hide Next;
    NothingNew(one.store, s', one.outcomes);
    hide *;
    ActIs(one, Create(job, []), s', one.outcomes);
  }

  lemma PutCreated(one: System, s': Store, job: Job)
    requires one == Initial(0).(workers := map[1 := Idle], store := s', usedIds := {JOB})
    ensures Put(one, 0, Activating(job)) == State(s', Activating(job), Idle, map[], {}, map[])
  {
    assert one.workers[0 := Activating(job)] == map[0 := Activating(job), 1 := Idle];
  }

  lemma FirstStep(one: System)
    requires one == Initial(0).(workers := map[1 := Idle])
    ensures Reached(one)
  {
    hide Act, Next, Enabled, NewOutcomes, QueueStore.Create, QueueStore.Claim, QueueStore.Stage;
    assert Reached(Initial(0)) by { assert Reaches(Initial(0), [], Initial(0)); }
    hide Reached;
    Go(Initial(0), Crash(1), one);
  }

  lemma StartStep(maxAttempts: int)
    ensures Reached(State(Free(Queue(maxAttempts), map[], map[JOB := 0], map[]), Activating(Queue(maxAttempts)), Idle, map[], {}, map[]))
  {
    var one := Initial(0).(workers := map[1 := Idle]);
    var s' := Free(Queue(maxAttempts), map[], map[JOB := 0], map[]);
    var step := Enqueue(0, Queue(maxAttempts), []);
    assert one.store == Initial(0).store && At(one, 0) == Idle && one.usedIds == {};
    hide Initial, Reached, QueueStore.Create, Queue, Free, NewJob, Perform, At, Act, Put, State;
    FirstStep(one);
    Creating(maxAttempts);
    assert Allowed(one, step) && ActionOf(one, step) == Some(Create(Queue(maxAttempts), []));
    hide Allowed, ActionOf;
    ActCreate(one, s', Queue(maxAttempts));
    Acts(one, step);
    PutCreated(one.(store := s', usedIds := {JOB}), s', Queue(maxAttempts));
    Go(one, step, State(s', Activating(Queue(maxAttempts)), Idle, map[], {}, map[]));
  }

  lemma ActivateStep(maxAttempts: int)
    requires Reached(State(Free(Queue(maxAttempts), map[], map[JOB := 0], map[]), Activating(Queue(maxAttempts)), Idle, map[], {}, map[]))
    ensures Reached(State(Free(Queue(maxAttempts), map[JOB := 0], map[], map[]), Idle, Idle, map[], {}, map[]))
  {
    var s, s' := Free(Queue(maxAttempts), map[], map[JOB := 0], map[]), Free(Queue(maxAttempts), map[JOB := 0], map[], map[]);
    var sys := State(s, Activating(Queue(maxAttempts)), Idle, map[], {}, map[]);
    assert Next(s, Activate(JOB)) == s' && s.transitions == s'.transitions == map[] && Queue(maxAttempts).id == JOB;
    hide Reached, Free, Queue, Next;
    assert Allowed(sys, FinishActivation(0)) && ActionOf(sys, FinishActivation(0)) == Some(Activate(JOB));
    hide State, Allowed, ActionOf;
    ActGo(s, s', Activating(Queue(maxAttempts)), Idle, map[], {}, map[], FinishActivation(0), 0);
  }

  lemma ActClaim(s: Store, s': Store, w1: Worker, recorded: map<EventKey, Transition>, leases: set<LeaseId>,
                 outcomes: map<Run, Transition>, l: LeaseId, claimed: Job)
    requires QueueStore.Claim(s, 0, 9, l, [JOB]) == (s', Some(claimed)) && s'.transitions == map[]
    ensures Act(State(s, Idle, w1, recorded, leases, outcomes), Claim(0, 9, l, [JOB])) == State(s', Idle, w1, recorded, leases + {l}, outcomes)
  {
    hide Act, QueueStore.Claim;
    assert Next(s, Claim(0, 9, l, [JOB])) == s';
    hide Next;
    NothingNew(s, s', outcomes);
    hide NewOutcomes;
    ActIs(State(s, Idle, w1, recorded, leases, outcomes), Claim(0, 9, l, [JOB]), s', outcomes);
  }

  lemma ActStage(s: Store, s': Store, job: Job, w1: Worker, recorded: map<EventKey, Transition>, leases: set<LeaseId>,
                 outcomes: map<Run, Transition>, t: Transition)
    requires QueueStore.Stage(s, t) == (s', true) && s.transitions == map[] && s'.transitions == map[JOB := t]
    ensures Act(State(s, Holding(job), w1, recorded, leases, outcomes), Stage(t))
            == State(s', Holding(job), w1, recorded, leases, outcomes[Run(JOB, t.job.attempts) := t])
  {
    hide Act, QueueStore.Stage;
    assert Next(s, Stage(t)) == s';
    hide Next;
    OneNew(s, s', t, outcomes);
    hide NewOutcomes;
    ActIs(State(s, Holding(job), w1, recorded, leases, outcomes), Stage(t), s', outcomes[Run(JOB, t.job.attempts) := t]);
  }

  lemma ClaimAllowed(sys: System, l: LeaseId)
    requires At(sys, 0).Idle? && l !in sys.usedLeases && sys.store.clock == 0 && IsRange(sys.store.scheduled, 0, CLAIM_LIMIT, [JOB])
    ensures Allowed(sys, ClaimNext(0, 0, 9, l, [JOB])) && ActionOf(sys, ClaimNext(0, 0, 9, l, [JOB])) == Some(Claim(0, 9, l, [JOB]))
  {
    hide At, IsRange;
  }

  lemma SettleAllowed(sys: System, w: WorkerId, t: Transition)
    requires At(sys, w) == Settling(t, true)
    ensures Allowed(sys, Settle(w)) && ActionOf(sys, Settle(w)) == Some(Acknowledge(t.job.id))
  {
    hide At;
  }

  lemma StageAllowed(sys: System, job: Job, t: Transition)
    requires At(sys, 0) == Holding(job) && Finishes(job, t)
    ensures Allowed(sys, StageOutcome(0, t)) && ActionOf(sys, StageOutcome(0, t)) == Some(Stage(t))
  {
    hide At, Finishes;
  }

  lemma ClaimStep(job: Job, l: LeaseId, w1: Worker, recorded: map<EventKey, Transition>, leases: set<LeaseId>, outcomes: map<Run, Transition>)
    requires Reached(State(Free(job, map[JOB := 0], map[], map[]), Idle, w1, recorded, leases, outcomes)) && l !in leases
    ensures var claimed := Lease(job, 0, 9, l);
            Reached(State(Taken(claimed, map[], map[]), Holding(claimed), w1, recorded, leases + {l}, outcomes))
  {
    var s, claimed := Free(job, map[JOB := 0], map[], map[]), Lease(job, 0, 9, l);
    var s' := Taken(claimed, map[], map[]);
    var sys, step := State(s, Idle, w1, recorded, leases, outcomes), ClaimNext(0, 0, 9, l, [JOB]);
    hide Reached, Act, Put, Perform, Lease, QueueStore.Claim, IsRange, Locks;
    Claiming(job, l);
    ClaimRange(job);
    assert s.clock == 0 && s'.transitions == map[] && s.scheduled == map[JOB := 0];
    hide Free, Taken;
    PutState(s, Idle, w1, recorded, leases, outcomes, Holding(claimed));
    PutState(s', Idle, w1, recorded, leases + {l}, outcomes, Holding(claimed));
    ActClaim(s, s', w1, recorded, leases, outcomes, l, claimed);
    assert sys.store == s && sys.usedLeases == leases;
    hide At, State, Allowed, ActionOf;
    ClaimAllowed(sys, l);
    Acts(sys, step);
    Go(sys, step, State(s', Holding(claimed), w1, recorded, leases + {l}, outcomes));
  }

  lemma StageStep(job: Job, t: Transition, w1: Worker, recorded: map<EventKey, Transition>, leases: set<LeaseId>, outcomes: map<Run, Transition>)
    requires Reached(State(Taken(job, map[], map[]), Holding(job), w1, recorded, leases, outcomes))
    requires job.status.Running? && Finishes(job, t) && t.job.id == JOB && t.job.updatedAt == 0
    ensures Reached(State(Taken(job, map[JOB := 0], map[JOB := t]), Settling(t, false), w1, recorded, leases,
                          outcomes[Run(JOB, t.job.attempts) := t]))
  {
    var s, s' := Taken(job, map[], map[]), Taken(job, map[JOB := 0], map[JOB := t]);
    var outcomes' := outcomes[Run(JOB, t.job.attempts) := t];
    var sys := State(s, Holding(job), w1, recorded, leases, outcomes);
    assert t.job.leaseId == job.leaseId;
    Staging(job, t);
    assert s.transitions == map[] && s'.transitions == map[JOB := t];
    hide Reached, QueueStore.Stage, Finishes, Taken, Locks, Act, Put, Perform;
    PutState(s, Holding(job), w1, recorded, leases, outcomes, Idle);
    PutState(s', Holding(job), w1, recorded, leases, outcomes', Settling(t, false));
    ActStage(s, s', job, w1, recorded, leases, outcomes, t);
    assert sys.store == s;
    hide At, KeyOf, Outcome, State, Allowed, ActionOf;
    StageAllowed(sys, job, t);
    Acts(sys, StageOutcome(0, t));
    Go(sys, StageOutcome(0, t), State(s', Settling(t, false), w1, recorded, leases, outcomes'));
  }

  lemma NoteStep(w: WorkerId, s: Store, w0: Worker, w1: Worker, recorded: map<EventKey, Transition>,
                 leases: set<LeaseId>, outcomes: map<Run, Transition>, t: Transition)
    requires Reached(State(s, w0, w1, recorded, leases, outcomes))
    requires (w == 0 && w0 == Settling(t, false)) || (w == 1 && w1 == Settling(t, false))
    requires KeyOf(t) in recorded ==> recorded[KeyOf(t)] == t
    ensures Reached(State(s, if w == 0 then Settling(t, true) else w0, if w == 0 then w1 else Settling(t, true),
                          recorded[KeyOf(t) := t], leases, outcomes))
  {
    PutState(s, w0, w1, recorded, leases, outcomes, Settling(t, true));
    PutState(s, w0, w1, recorded[KeyOf(t) := t], leases, outcomes, Settling(t, true));
    var sys := State(s, w0, w1, recorded, leases, outcomes);
    assert KeyOf(t) in recorded ==> recorded[KeyOf(t) := t] == recorded;
    assert sys.recorded == recorded && sys.(recorded := recorded[KeyOf(t) := t]) == State(s, w0, w1, recorded[KeyOf(t) := t], leases, outcomes);
    hide Reached, KeyOf, State, Put;
    Go(sys, Note(w, false), State(s, if w == 0 then Settling(t, true) else w0, if w == 0 then w1 else Settling(t, true),
                                  recorded[KeyOf(t) := t], leases, outcomes));
  }

  lemma SettleStep(w: WorkerId, job: Job, pending: Transition, w0: Worker, w1: Worker, recorded: map<EventKey, Transition>,
                   leases: set<LeaseId>, outcomes: map<Run, Transition>, t: Transition)
    requires Reached(State(Taken(job, map[JOB := 0], map[JOB := pending]), w0, w1, recorded, leases, outcomes))
    requires (w == 0 && w0 == Settling(t, true)) || (w == 1 && w1 == Settling(t, true))
    requires t.job.id == JOB && pending.job.leaseId == job.leaseId
    requires if pending.job.status.Retrying? then pending.job.availableAt == 0
             else pending.job.status.Completed? && pending.job.completedAt == Some(0)
    ensures var s' := if pending.job.status.Retrying? then Free(Settled(pending), map[JOB := 0], map[], map[])
                      else Free(Settled(pending), map[], map[], map[JOB := 0]);
            Reached(State(s', if w == 0 then Idle else w0, if w == 0 then w1 else Idle, recorded, leases, outcomes))
  {
    var s := Taken(job, map[JOB := 0], map[JOB := pending]);
    var s' := if pending.job.status.Retrying? then Free(Settled(pending), map[JOB := 0], map[], map[])
              else Free(Settled(pending), map[], map[], map[JOB := 0]);
    var sys := State(s, w0, w1, recorded, leases, outcomes);
    hide Reached, Act, Put, Perform, Settled, Locks;
    Acknowledging(job, pending);
    assert Next(s, Acknowledge(JOB)) == s' && s'.transitions == map[] && s.transitions != map[];
    hide Taken, Free, Next;
    PutState(s, w0, w1, recorded, leases, outcomes, Idle);
    hide State, At;
    hide Allowed, ActionOf;
    SettleAllowed(sys, w, t);
    ActGo(s, s', w0, w1, recorded, leases, outcomes, Settle(w), w);
  }

  /** Worker 1 reads the pending transition. */
  lemma ReadStep(job: Job, t: Transition, w0: Worker, recorded: map<EventKey, Transition>,
                 leases: set<LeaseId>, outcomes: map<Run, Transition>)
    requires Reached(State(Taken(job, map[JOB := 0], map[JOB := t]), w0, Idle, recorded, leases, outcomes))
    ensures Reached(State(Taken(job, map[JOB := 0], map[JOB := t]), w0, Settling(t, false), recorded, leases, outcomes))
  {
    var s := Taken(job, map[JOB := 0], map[JOB := t]);
    var sys := State(s, w0, Idle, recorded, leases, outcomes);
    assert s.transitions == map[JOB := t] && sys.store == s;
    PutState(s, w0, Idle, recorded, leases, outcomes, Settling(t, false));
    hide Reached, Taken, State, Put;
    Go(sys, ReadTransition(1, JOB), State(s, w0, Settling(t, false), recorded, leases, outcomes));
  }

  lemma CrashStep(s: Store, w0: Worker, w1: Worker, recorded: map<EventKey, Transition>, leases: set<LeaseId>, outcomes: map<Run, Transition>)
    requires Reached(State(s, w0, w1, recorded, leases, outcomes))
    ensures Reached(State(s, Idle, w1, recorded, leases, outcomes))
  {
    PutState(s, w0, w1, recorded, leases, outcomes, Idle);
    hide Reached, State, Put;
    Go(State(s, w0, w1, recorded, leases, outcomes), Crash(0), State(s, Idle, w1, recorded, leases, outcomes));
  }

  /** Whatever the bound, a first claim is allowed: below one the attempts exceed it. */
  lemma AttemptsExceedBound(maxAttempts: int)
    requires maxAttempts < 1
    ensures exists sys ::
              Reached(sys) && JOB in sys.store.jobs && sys.store.jobs[JOB].maxAttempts == maxAttempts < sys.store.jobs[JOB].attempts
  {
    StartStep(maxAttempts);
    ActivateStep(maxAttempts);
    ClaimStep(Queue(maxAttempts), "first", Idle, map[], {}, map[]);
    hide Reached;
    var claimed := Lease(Queue(maxAttempts), 0, 9, "first");
    var sys := State(Taken(claimed, map[], map[]), Holding(claimed), Idle, map[], {} + {"first"}, map[]);
    assert Reached(sys) && sys.store.jobs[JOB].maxAttempts == maxAttempts < sys.store.jobs[JOB].attempts;
  }

  /** The job is complete, nothing is pending, and its completion is neither recorded nor refused. */
  ghost predicate Unannounced(sys: System) {
    && JOB in sys.store.jobs && sys.store.jobs[JOB].status.Completed? && sys.store.jobs[JOB].attempts == 2
    && JOB !in sys.store.transitions && ReviewCompleted(JOB, 2) !in sys.recorded && sys.refused == {}
  }

  ghost predicate NeverAnnounced(sys: System) {
    forall steps, to | Reaches(sys, steps, to) :: ReviewCompleted(JOB, 2) !in to.recorded
  }

  function Left(): System {
    var recorded := map[KeyOf(Retry()) := Retry()];
    State(Free(Settled(Done()), map[], map[], map[JOB := 0]), Idle, Idle, recorded, {"first"} + {"second"},
          map[Run(JOB, 1) := Retry()][Run(JOB, 2) := Done()])
  }

  lemma LeftIsUnannounced()
    ensures Unannounced(Left()) && !EventsFirst(Left())
  {
    assert !OutboxInv(Left(), JOB) && KeyOf(Done()) == ReviewCompleted(JOB, 2);
  }

  lemma LeftIsLost()
    requires Reached(Left())
    ensures NeverAnnounced(Left())
  {
    var sys, u := Left(), Done();
    assert SystemInv(sys) by {
      hide *;
      ReachedInv(sys);
    }
    hide SystemInv;
    assert Known(sys, u) && KeyOf(u) == ReviewCompleted(JOB, 2) && KeyOf(u) !in sys.recorded && sys.store.jobs[JOB].status.Completed?;
    assert forall w :: At(sys, w) == Idle;
    hide Left, Done, Known, KeyOf, At, Reaches;
    assert Lost(sys, u);
    forall steps, to | Reaches(sys, steps, to)
      ensures ReviewCompleted(JOB, 2) !in to.recorded
    {
      LostStays(sys, steps, to, u);
    }
  }

  lemma ReachedInv(sys: System)
    requires Reached(sys)
    ensures SystemInv(sys)
  {
    var steps :| Reaches(Initial(0), steps, sys);
    InitialInv(0);
    ReachableInv(Initial(0), steps, sys);
  }

  /** There is a run that completes a job, and after which no continuation ever records its completion. */
  lemma EventsFirstFails()
    ensures exists sys :: Reached(sys) && Unannounced(sys) && !EventsFirst(sys) && NeverAnnounced(sys)
  {
    LeftIsReached();
    hide *;
    LeftIsLost();
    LeftIsUnannounced();
  }

  lemma LeftIsReached()
    ensures Reached(Left())
  {
    var t, u := Retry(), Done();
    var recorded := map[KeyOf(t) := t];
    var outcomes1 := map[Run(JOB, 1) := t];
    var outcomes2 := outcomes1[Run(JOB, 2) := u];
    var both := {"first"} + {"second"};
    StartStep(2);
    ActivateStep(2);
    assert {} + {"first"} == {"first"} && map[][Run(JOB, 1) := t] == outcomes1;
    assert Finishes(First(), t) && Finishes(Second(), u) && t.job.attempts == 1 && u.job.attempts == 2;
    assert First().status.Running? && Second().status.Running? && t.job.updatedAt == u.job.updatedAt == 0 && t.job.id == u.job.id == JOB;
    assert t.job.leaseId == First().leaseId && u.job.leaseId == Second().leaseId && t.job.status.Retrying? && t.job.availableAt == 0;
    assert u.job.status.Completed? && u.job.completedAt == Some(0);
    assert recorded[KeyOf(t) := t] == recorded && map[][KeyOf(t) := t] == recorded;
    assert First() == Lease(Queue(2), 0, 9, "first") && Second() == Lease(Settled(t), 0, 9, "second");
    assert Left() == State(Free(Settled(u), map[], map[], map[JOB := 0]), Idle, Idle, recorded, both, outcomes2);
    hide Reached, Finishes, State, Taken, Free, First, Second, Retry, Done, Queue, Lease, Settled, Left, KeyOf;
    // Worker 0 claims and stages a retry; worker 1 reads it, and is slow.
    ClaimStep(Queue(2), "first", Idle, map[], {}, map[]);
    StageStep(First(), t, Idle, map[], {"first"}, map[]);
    ReadStep(First(), t, Settling(t, false), map[], {"first"}, outcomes1);
    // Worker 0 settles the retry, claims the job again and stages its completion.
    NoteStep(0, Taken(First(), map[JOB := 0], map[JOB := t]), Settling(t, false), Settling(t, false), map[], {"first"}, outcomes1, t);
    SettleStep(0, First(), t, Settling(t, true), Settling(t, false), recorded, {"first"}, outcomes1, t);
    ClaimStep(Settled(t), "second", Settling(t, false), recorded, {"first"}, outcomes1);
    StageStep(Second(), u, Settling(t, false), recorded, both, outcomes1);
    // Worker 1 replays the retry's event, and acknowledges what is pending by now.
    NoteStep(1, Taken(Second(), map[JOB := 0], map[JOB := u]), Settling(u, false), Settling(t, false), recorded, both, outcomes2, t);
    SettleStep(1, Second(), u, Settling(u, false), Settling(t, true), recorded, both, outcomes2, t);
    // Worker 0 crashes before it records the completion.
    CrashStep(Free(Settled(u), map[], map[], map[JOB := 0]), Settling(u, false), Idle, recorded, both, outcomes2);
  }
}
