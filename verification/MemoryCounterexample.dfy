// A run of the in-memory queue store in which a completed outcome is undone.
module MemoryCounterexample {
  import opened Wrappers
  import opened QueueStore
  import opened MemoryQueue
  import opened MemoryHistory

  const JOB: Id := "j"

  function Queue(): Job { Job(JOB, 1, "o", "r", Queued, 0, 3, 0, 0, 0, None, None, None, None, None) }
  function First(): Job { Lease(Queue(), 0, 10, "a") }
  function Retry(): Transition { Transition(First().(status := Retrying), None) }
  function Second(): Job { Lease(Settled(Retry()), 0, 10, "b") }
  function Done(): Transition { Transition(Second().(status := Completed, completedAt := Some(0)), Some("review")) }

  /** The one job, waiting or running. */
  function Single(job: Job, locks: map<LockKey, Lock>, transitions: map<Id, Transition>, ready: set<Id>, activations: set<Id>): Memory {
    Memory(map[JOB := job], [JOB], locks, map[], transitions, ready, activations)
  }

  function Both(job: Job): map<LockKey, Lock> {
    map[InstallationLock(job) := Lock(JOB, 10), RepositoryLock(job) := Lock(JOB, 10)]
  }

  function Waiting(job: Job, ready: set<Id>): Memory { Single(job, map[], map[], ready, {}) }
  function Working(job: Job, transitions: map<Id, Transition>): Memory { Single(job, Both(job), transitions, {}, {}) }

  lemma CreateStep()
    ensures Created(EMPTY, Queue(), []).0 == Single(Queue(), map[], map[], {}, {JOB})
    ensures Activated(Single(Queue(), map[], map[], {}, {JOB}), JOB).0 == Waiting(Queue(), {JOB})
  {
  }

  lemma ClaimStep(job: Job, leaseId: LeaseId, ready: set<Id>)
    requires job.id == JOB && job.availableAt <= 0 && (job.status.Retrying? || (job.status.Queued? && JOB in ready)) && ready <= {JOB}
    ensures Claimed(Waiting(job, ready), 0, 10, leaseId).0 == Working(Lease(job, 0, 10, leaseId), map[])
  {
    var m := Waiting(job, ready);
    assert m.ids[1..] == [] && Candidates(m, [], 0) == [];
    assert Candidates(m, m.ids, 0) == [job];
    assert Unexpired(map[], 0) == map[];
    assert InstallationLock(Lease(job, 0, 10, leaseId)) == InstallationLock(job) && RepositoryLock(Lease(job, 0, 10, leaseId)) == RepositoryLock(job);
    hide InstallationLock, RepositoryLock;
    assert ready - {JOB} == {};
  }

  lemma StageStep(job: Job, t: Transition)
    requires job.status.Running? && t.job.id == JOB && t.job.leaseId == job.leaseId
    ensures Staged(Working(job, map[]), t) == (Working(job, map[JOB := t]), true)
  {
    hide Both;
  }

  lemma AcknowledgeStep(job: Job, t: Transition, record: Job)
    requires t.job.leaseId == job.leaseId && record.id == JOB
    ensures Acknowledged(Working(job, map[JOB := t]), record) == (Waiting(record.(leaseId := None, leaseExpiresAt := None), {}), true)
  {
    assert Unowned(Both(job), JOB) == map[] by { hide InstallationLock, RepositoryLock; }
    hide Both;
    var stored := record.(leaseId := None, leaseExpiresAt := None);
    assert map[JOB := t] - {JOB} == map[] && map[JOB := job][JOB := stored] == map[JOB := stored];
    var m := Working(job, map[JOB := t]);
    assert m.jobs == map[JOB := job] && m.transitions == map[JOB := t] && m.ids == [JOB] && m.keys == map[] && m.ready == m.activations == {};
  }

  /** What the run of one job leaves behind. */
  function After(m: Memory, known: set<Transition>, leases: set<LeaseId>): History {
    History(m, known, leases, {JOB})
  }

  ghost predicate AtZero(run: seq<Timed>) {
    forall s | s in run :: s.now == 0
  }

  ghost predicate Reached(h: History) {
    exists run :: AtZero(run) && Runs(START, 0, run, h)
  }

  lemma {:induction false} RunThen(h: History, run: seq<Timed>, g: History, a: Action)
    requires AtZero(run) && Runs(h, 0, run, g) && Allowed(g, a)
    ensures Runs(h, 0, run + [At(0, a)], Follow(g, 0, a))
    decreases |run|
  {
    hide Follow, Allowed;
    if run == [] {
      assert [At(0, a)][1..] == [];
    } else {
      assert (run + [At(0, a)])[1..] == run[1..] + [At(0, a)] && (run + [At(0, a)])[0] == run[0];
      RunThen(Follow(h, 0, run[0].a), run[1..], g, a);
    }
  }

  lemma Go(h: History, a: Action, g: History)
    requires Reached(h) && Allowed(h, a) && Follow(h, 0, a) == g
    ensures Reached(g)
  {
    hide Follow, Allowed;
    var run :| AtZero(run) && Runs(START, 0, run, h);
    RunThen(START, run, h, a);
    assert AtZero(run + [At(0, a)]);
  }

  lemma FollowSingle(m: Memory, n: Memory, known: set<Transition>, leases: set<LeaseId>, a: Action, more: set<Transition>)
    requires Next(m, 0, a) == n && Pending(n) == more && !a.Create?
    ensures Follow(After(m, known, leases), 0, a) == After(n, known + more, if a.Claim? then leases + {a.leaseId} else leases)
  {
    hide Next, Pending;
  }

  lemma PendingOf(m: Memory)
    ensures m.transitions == map[] ==> Pending(m) == {}
    ensures forall t | m.transitions == map[JOB := t] :: Pending(m) == {t}
  {
    forall t | m.transitions == map[JOB := t] ensures Pending(m) == {t} {
      assert JOB in m.transitions;
    }
  }

  lemma FirstSteps()
    ensures Reached(After(Waiting(Queue(), {JOB}), {}, {}))
  {
    assert Reached(START) by { assert Runs(START, 0, [], START); }
    hide Reached, Waiting;
    var m1 := Single(Queue(), map[], map[], {}, {JOB});
    CreateStep();
    PendingOf(m1);
    assert Follow(START, 0, Create(Queue(), [])) == After(m1, {}, {}) by { hide Pending, Created; }
    assert Allowed(START, Create(Queue(), []));
    Go(START, Create(Queue(), []), After(m1, {}, {}));
    PendingOf(Waiting(Queue(), {JOB}));
    assert Waiting(Queue(), {JOB}).transitions == map[] by { WaitingIs(Queue(), {JOB}); }
    hide Single, Activated;
    FollowSingle(m1, Waiting(Queue(), {JOB}), {}, {}, Activate(JOB), {});
    Go(After(m1, {}, {}), Activate(JOB), After(Waiting(Queue(), {JOB}), {}, {}));
  }

  lemma WaitingIs(job: Job, ready: set<Id>)
    ensures Waiting(job, ready).transitions == map[] && Waiting(job, ready).jobs == map[JOB := job]
    ensures Working(job, map[]).transitions == map[]
  {
  }

  lemma WorkingIs(job: Job, t: Transition)
    ensures Working(job, map[JOB := t]).transitions == map[JOB := t] && Working(job, map[]).jobs == map[JOB := job]
  {
  }

  /** Claims the waiting job and stages an outcome. */
  lemma AttemptSteps(job: Job, leaseId: LeaseId, ready: set<Id>, t: Transition, known: set<Transition>, leases: set<LeaseId>)
    requires Reached(After(Waiting(job, ready), known, leases)) && leaseId !in leases && Outcome(t.job.status)
    requires job.id == JOB && job.availableAt <= 0 && (job.status.Retrying? || (job.status.Queued? && JOB in ready)) && ready <= {JOB}
    requires t.job.id == JOB && t.job.leaseId == Some(leaseId) && t.job.attempts == job.attempts + 1
    ensures Reached(After(Working(Lease(job, 0, 10, leaseId), map[JOB := t]), known + {t}, leases + {leaseId}))
  {
    var claimed := Lease(job, 0, 10, leaseId);
    var m, n, k := Waiting(job, ready), Working(claimed, map[]), Working(claimed, map[JOB := t]);
    assert claimed.status.Running? && claimed.leaseId == Some(leaseId) && claimed.attempts == job.attempts + 1;
    hide Reached, Waiting, Working, Claimed, Lease, Staged;
    ClaimStep(job, leaseId, ready);
    WaitingIs(claimed, ready);
    PendingOf(n);
    FollowSingle(m, n, known, leases, Claim(10, leaseId), {});
    assert known + {} == known;
    Go(After(m, known, leases), Claim(10, leaseId), After(n, known, leases + {leaseId}));
    StageStep(claimed, t);
    WorkingIs(claimed, t);
    PendingOf(k);
    FollowSingle(n, k, known, leases + {leaseId}, Stage(t), {t});
    Go(After(n, known, leases + {leaseId}), Stage(t), After(k, known + {t}, leases + {leaseId}));
  }

  /** Acknowledges with a record that was staged. */
  lemma AcknowledgeSteps(job: Job, t: Transition, u: Transition, known: set<Transition>, leases: set<LeaseId>)
    requires Reached(After(Working(job, map[JOB := t]), known, leases)) && u in known && u.job.id == JOB && t.job.leaseId == job.leaseId
    ensures Reached(After(Waiting(Settled(u), {}), known, leases))
  {
    var m, n := Working(job, map[JOB := t]), Waiting(Settled(u), {});
    assert u.job.(leaseId := None, leaseExpiresAt := None) == Settled(u);
    hide Reached, Waiting, Working, Acknowledged, Settled;
    AcknowledgeStep(job, t, u.job);
    WaitingIs(Settled(u), {});
    PendingOf(n);
    FollowSingle(m, n, known, leases, Acknowledge(u.job), {});
    assert known + {} == known;
    Go(After(m, known, leases), Acknowledge(u.job), After(n, known, leases));
  }

  /**
   * A pump that read the retry of the first attempt acknowledges the completion of the second: the job is to be retried
   * after its first attempt again, and the completion is gone.
   */
  lemma CompletionUndone()
    ensures exists run, h :: Runs(START, 0, run, h)
              && (exists t :: t in h.known && t.job.id == JOB && t.job.status.Completed? && t.job.attempts == 2)
              && h.m.transitions == map[] && JOB in h.m.jobs && h.m.jobs[JOB].status.Retrying? && h.m.jobs[JOB].attempts == 1
  {
    var t, u := Retry(), Done();
    var last := After(Waiting(Settled(t), {}), {} + {t} + {u}, {} + {"a"} + {"b"});
    assert First() == Lease(Queue(), 0, 10, "a") && Second() == Lease(Settled(t), 0, 10, "b");
    FirstSteps();
    AttemptSteps(Queue(), "a", {JOB}, t, {}, {});
    AcknowledgeSteps(First(), t, t, {} + {t}, {} + {"a"});
    AttemptSteps(Settled(t), "b", {}, u, {} + {t}, {} + {"a"});
    AcknowledgeSteps(Second(), u, t, {} + {t} + {u}, {} + {"a"} + {"b"});
    assert Reached(last) && u in last.known && last.m.transitions == map[] && last.m.jobs == map[JOB := Settled(t)];
  }
}
