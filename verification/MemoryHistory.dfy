// Acknowledgements in the in-memory queue store: which outcome they settle, over all runs.
module MemoryHistory {
  import opened Wrappers
  import opened QueueStore
  import opened MemoryQueue

  /** The store, every transition that was ever pending, and the leases and ids handed out. */
  datatype History = History(m: Memory, known: set<Transition>, leases: set<LeaseId>, ids: set<Id>)

  const START := History(EMPTY, {}, {}, {})

  function Pending(m: Memory): set<Transition> {
    set id | id in m.transitions :: m.transitions[id]
  }

  function Follow(h: History, now: int, a: Action): History {
    var m := Next(h.m, now, a);
    History(m, h.known + Pending(m),
            if a.Claim? then h.leases + {a.leaseId} else h.leases, if a.Create? then h.ids + {a.job.id} else h.ids)
  }

  predicate Outcome(status: Status) {
    status.Retrying? || status.Failed? || status.Completed?
  }

  /**
   * Ids and leases are new when they are handed out; a worker stages an outcome of the attempt it claimed; and whoever
   * acknowledges brings a record that was staged.
   */
  ghost predicate Allowed(h: History, a: Action) {
    match a
    case Create(job, _) => job.id !in h.ids && job.status.Queued?
    case Claim(_, leaseId) => leaseId !in h.leases
    case Stage(t) => Staged(h.m, t).1 ==> Outcome(t.job.status) && t.job.attempts == h.m.jobs[t.job.id].attempts
    case Acknowledge(job) => exists t :: t in h.known && t.job == job
    case _ => true
  }

  /** The lease under which a job runs. */
  function Holder(m: Memory, id: Id): Option<LeaseId> {
    if id in m.jobs && m.jobs[id].status.Running? then m.jobs[id].leaseId else None
  }

  // ----- what every run keeps

  /** A job is stored under its id, and has a lease while it runs. */
  predicate Filed(m: Memory, id: Id)
    requires id in m.jobs
  {
    m.jobs[id].id == id && (m.jobs[id].status.Running? ==> m.jobs[id].leaseId.Some?)
  }

  ghost predicate JobOk(h: History, id: Id) {
    id in h.m.jobs ==> Filed(h.m, id) && id in h.ids
  }

  ghost predicate HolderOk(h: History, id: Id) {
    Holder(h.m, id).Some? ==> Holder(h.m, id).value in h.leases && forall x | Holder(h.m, x) == Holder(h.m, id) :: x == id
  }

  /** What is pending under an id belongs to the lease under which the job runs. */
  ghost predicate PendingOk(h: History, id: Id) {
    id in h.m.transitions ==>
      var t := h.m.transitions[id];
      t in h.known && t.job.id == id && t.job.leaseId.Some? && t.job.leaseId == Holder(h.m, id)
  }

  /** A transition that was ever pending is pending still while its lease is held. */
  ghost predicate KnownOk(h: History, t: Transition) {
    t in h.known ==>
      && t.job.leaseId.Some? && t.job.leaseId.value in h.leases && Outcome(t.job.status)
      && forall id | Holder(h.m, id) == t.job.leaseId :: id in h.m.transitions && h.m.transitions[id] == t
  }

  /** A lease has one transition. */
  ghost predicate OnePerLease(h: History, t: Transition, u: Transition) {
    t in h.known && u in h.known && t.job.leaseId == u.job.leaseId ==> t == u
  }

  ghost predicate HistoryInv(h: History) {
    && (forall id {:trigger JobOk(h, id)} :: JobOk(h, id))
    && (forall id {:trigger HolderOk(h, id)} :: HolderOk(h, id))
    && (forall id {:trigger PendingOk(h, id)} :: PendingOk(h, id))
    && (forall t {:trigger KnownOk(h, t)} :: KnownOk(h, t))
    && (forall t, u {:trigger OnePerLease(h, t, u)} :: OnePerLease(h, t, u))
  }

  lemma PendingKnown(h: History)
    requires HistoryInv(h)
    ensures h.known + Pending(h.m) == h.known
  {
    hide Holder;
    forall t | t in Pending(h.m) ensures t in h.known {
      var id :| id in h.m.transitions && h.m.transitions[id] == t;
      assert PendingOk(h, id);
    }
  }

  /** Changes that leave the running jobs, their leases and what is pending as they are. */
  lemma QuietKeeps(h: History, m: Memory, ids: set<Id>)
    requires HistoryInv(h) && m.transitions == h.m.transitions && h.ids <= ids
    requires forall id :: Holder(m, id) == Holder(h.m, id)
    requires forall id | id in m.jobs :: Filed(m, id) && id in ids
    ensures HistoryInv(h.(m := m, ids := ids))
  {
    hide Holder;
    var n := h.(m := m, ids := ids);
    forall id ensures JobOk(n, id) {}
    forall id ensures HolderOk(n, id) { assert HolderOk(h, id); }
    forall id ensures PendingOk(n, id) { assert PendingOk(h, id); }
    forall t ensures KnownOk(n, t) { assert KnownOk(h, t); }
    forall t, u ensures OnePerLease(n, t, u) { assert OnePerLease(h, t, u); }
  }

  lemma ClaimKeepsHistory(h: History, now: int, leaseMs: int, leaseId: LeaseId)
    requires HistoryInv(h) && leaseId !in h.leases
    ensures HistoryInv(Follow(h, now, Claim(leaseMs, leaseId)))
  {
    var n := Follow(h, now, Claim(leaseMs, leaseId));
    var found := FirstFree(Unexpired(h.m.locks, now), Candidates(h.m, h.m.ids, now));
    FirstFreeIs(Unexpired(h.m.locks, now), Candidates(h.m, h.m.ids, now));
    if found.Some? {
      CandidateStored(h.m, h.m.ids, now, found.value);
      var id :| id in h.m.jobs && h.m.jobs[id] == found.value;
      assert JobOk(h, id);
    }
    assert n.m.transitions == h.m.transitions && Pending(n.m) == Pending(h.m);
    PendingKnown(h);
    assert forall id :: Holder(n.m, id) == if found.Some? && id == found.value.id then Some(leaseId) else Holder(h.m, id);
    assert found.Some? ==> Holder(h.m, found.value.id) == None;
    forall id | id in n.m.jobs
      ensures id in h.m.jobs && Filed(n.m, id)
    {
      assert JobOk(h, id);
    }
    hide Claimed, Holder, Candidates, FirstFree, Pending;
    forall id ensures JobOk(n, id) { assert JobOk(h, id); }
    forall id ensures HolderOk(n, id) {
      assert HolderOk(h, id);
      forall x | Holder(n.m, x) == Holder(n.m, id) && Holder(n.m, id).Some? ensures x == id { assert HolderOk(h, x); }
    }
    forall id ensures PendingOk(n, id) { assert PendingOk(h, id); }
    forall t ensures KnownOk(n, t) { assert KnownOk(h, t); }
    forall t, u ensures OnePerLease(n, t, u) { assert OnePerLease(h, t, u); }
  }

  lemma {:induction false} CandidateStored(m: Memory, ids: seq<Id>, now: int, j: Job)
    requires j in Candidates(m, ids, now)
    ensures exists id :: id in m.jobs && m.jobs[id] == j && !j.status.Running?
  {
    if Claimable(m, ids[0], now) && j in InsertJob(m.jobs[ids[0]], Candidates(m, ids[1..], now)) {
      Inserted(m.jobs[ids[0]], Candidates(m, ids[1..], now), j);
    }
    if j in Candidates(m, ids[1..], now) {
      CandidateStored(m, ids[1..], now, j);
    }
  }

  /** The history after one more transition is pending. */
  function WithPending(h: History, id: Id, t: Transition): History {
    h.(m := h.m.(transitions := h.m.transitions[id := t]), known := h.known + {t})
  }

  lemma PendKeeps(h: History, id: Id, t: Transition)
    requires HistoryInv(h) && id !in h.m.transitions && t.job.id == id && Outcome(t.job.status)
    requires t.job.leaseId.Some? && t.job.leaseId == Holder(h.m, id)
    ensures HistoryInv(WithPending(h, id, t))
  {
    var n := WithPending(h, id, t);
    assert forall x :: Holder(n.m, x) == Holder(h.m, x);
    assert HolderOk(h, id);
    hide Holder;
    forall x ensures JobOk(n, x) { assert JobOk(h, x); }
    forall x ensures HolderOk(n, x) { assert HolderOk(h, x); }
    forall x ensures PendingOk(n, x) { assert PendingOk(h, x); }
    forall u ensures KnownOk(n, u) { assert KnownOk(h, u); }
    forall u, v ensures OnePerLease(n, u, v) {
      assert OnePerLease(h, u, v);
      assert KnownOk(h, u) && KnownOk(h, v);
    }
  }

  lemma PendingGrows(m: Memory, id: Id, t: Transition)
    requires id !in m.transitions
    ensures Pending(m.(transitions := m.transitions[id := t])) == Pending(m) + {t}
  {
    var n := m.(transitions := m.transitions[id := t]);
    forall u | u in Pending(m) + {t} ensures u in Pending(n) {
      if u != t {
        var x :| x in m.transitions && m.transitions[x] == u;
        assert n.transitions[x] == u;
      } else {
        assert n.transitions[id] == t;
      }
    }
  }

  lemma StageKeepsHistory(h: History, now: int, t: Transition)
    requires HistoryInv(h) && Allowed(h, Stage(t))
    ensures HistoryInv(Follow(h, now, Stage(t)))
  {
    PendingKnown(h);
    if Staged(h.m, t).1 {
      HeldLease(h, t.job.id);
      PendingGrows(h.m, t.job.id, t);
      PendKeeps(h, t.job.id, t);
      assert Follow(h, now, Stage(t)) == WithPending(h, t.job.id, t);
    }
  }

  /** A running job has a lease. */
  lemma HeldLease(h: History, id: Id)
    requires HistoryInv(h)
    ensures id in h.m.jobs && h.m.jobs[id].status.Running? ==> h.m.jobs[id].leaseId.Some?
  {
    assert JobOk(h, id);
  }

  lemma {:induction false} RecoverKeepsHistory(h: History, ids: seq<Id>, now: int)
    requires HistoryInv(h)
    ensures var m := RecoveredAll(h.m, ids, now); HistoryInv(h.(m := m, known := h.known + Pending(m)))
    decreases |ids|
  {
    if ids == [] {
      PendingKnown(h);
      assert h.(m := h.m, known := h.known + Pending(h.m)) == h;
    } else {
      var id := ids[0];
      if Abandoned(h.m, id, now) {
        var t := Recovered(h.m.jobs[id], now);
        assert JobOk(h, id) && Outcome(t.job.status);
        PendKeeps(h, id, t);
        var next := WithPending(h, id, t);
        RecoverKeepsHistory(next, ids[1..], now);
        RecoveryKeepsPending(next.m, ids[1..], now, id);
        var m := RecoveredAll(h.m, ids, now);
        assert t in Pending(m);
        hide HistoryInv, RecoveredAll, Pending;
        assert next.known + Pending(m) == h.known + Pending(m);
        assert next.(m := m, known := next.known + Pending(m)) == h.(m := m, known := h.known + Pending(m));
      } else {
        RecoverKeepsHistory(h, ids[1..], now);
      }
    }
  }

  lemma {:induction false} RecoveryKeepsPending(m: Memory, ids: seq<Id>, now: int, id: Id)
    requires id in m.transitions
    ensures id in RecoveredAll(m, ids, now).transitions && RecoveredAll(m, ids, now).transitions[id] == m.transitions[id]
    decreases |ids|
  {
    if ids != [] {
      RecoveryKeepsPending(if Abandoned(m, ids[0], now) then m.(transitions := m.transitions[ids[0] := Recovered(m.jobs[ids[0]], now)]) else m,
                           ids[1..], now, id);
    }
  }

  lemma AcknowledgeKeepsHistory(h: History, now: int, job: Job)
    requires HistoryInv(h) && Allowed(h, Acknowledge(job))
    ensures HistoryInv(Follow(h, now, Acknowledge(job)))
  {
    PendingKnown(h);
    var n := Follow(h, now, Acknowledge(job));
    if Acknowledged(h.m, job).1 {
      var t :| t in h.known && t.job == job;
      assert KnownOk(h, t) && JobOk(h, job.id) && PendingOk(h, job.id);
      assert forall id :: Holder(n.m, id) == if id == job.id then None else Holder(h.m, id);
      assert Pending(n.m) <= Pending(h.m) && n.known == h.known;
      assert n.m.transitions == h.m.transitions - {job.id};
      assert forall id | id in n.m.jobs && id != job.id :: id in h.m.jobs && n.m.jobs[id] == h.m.jobs[id];
      assert Filed(n.m, job.id);
      hide Acknowledged, Holder, Pending;
      forall id ensures JobOk(n, id) { assert JobOk(h, id); }
      forall id ensures HolderOk(n, id) { assert HolderOk(h, id); }
      forall id ensures PendingOk(n, id) { assert PendingOk(h, id); }
      forall u ensures KnownOk(n, u) { assert KnownOk(h, u); }
      forall u, v ensures OnePerLease(n, u, v) { assert OnePerLease(h, u, v); }
    }
  }

  lemma FollowKeeps(h: History, now: int, a: Action)
    requires HistoryInv(h) && Allowed(h, a)
    ensures HistoryInv(Follow(h, now, a))
  {
    hide HistoryInv, Quiet, Follow;
    match a
    case Claim(leaseMs, leaseId) => ClaimKeepsHistory(h, now, leaseMs, leaseId);
    case Stage(t) => StageKeepsHistory(h, now, t);
    case Acknowledge(job) => AcknowledgeKeepsHistory(h, now, job);
    case Recover =>
      RecoverKeepsHistory(h, h.m.ids, now);
      RecoverFollows(h, now);
    case Create(job, aliases) =>
      CreateIsQuiet(h, job, aliases);
      QuietFollows(h, now, a);
    case Prune(before, limit) =>
      PruneIsQuiet(h, before, limit);
      QuietFollows(h, now, a);
    case _ =>
      OthersAreQuiet(h, now, a);
      QuietFollows(h, now, a);
  }

  lemma RecoverFollows(h: History, now: int)
    ensures Follow(h, now, Recover) == h.(m := RecoveredAll(h.m, h.m.ids, now), known := h.known + Pending(RecoveredAll(h.m, h.m.ids, now)))
  {
  }

  lemma {:induction false} PruneLeavesPending(m: Memory, ids: seq<Id>, before: int, limit: nat)
    ensures Pruned(m, ids, before, limit).transitions == m.transitions
    decreases |ids|
  {
    if ids != [] && limit != 0 {
      if Prunable(m, ids[0], before) {
        PruneLeavesPending(m.(jobs := m.jobs - {ids[0]}, ids := Without(m.ids, ids[0]), ready := m.ready - {ids[0]}, activations := m.activations - {ids[0]}),
                           ids[1..], before, limit - 1);
      } else {
        PruneLeavesPending(m, ids[1..], before, limit);
      }
    }
  }

  /** What a quiet action makes of the store. */
  ghost predicate Quiet(m: Memory, n: Memory, ids: set<Id>) {
    && n.transitions == m.transitions
    && (forall id :: Holder(n, id) == Holder(m, id))
    && (forall id | id in n.jobs :: Filed(n, id) && id in ids)
  }

  lemma CreateIsQuiet(h: History, job: Job, aliases: seq<string>)
    requires HistoryInv(h) && job.id !in h.ids && job.status.Queued?
    ensures Quiet(h.m, Created(h.m, job, aliases).0, h.ids + {job.id})
  {
    hide FindExisting, Attach, SetAll;
    var n := Created(h.m, job, aliases).0;
    assert JobOk(h, job.id);
    assert n.jobs == h.m.jobs || n.jobs == h.m.jobs[job.id := job];
    forall id | id in n.jobs ensures Filed(n, id) && id in h.ids + {job.id} { assert JobOk(h, id); }
  }

  lemma OthersAreQuiet(h: History, now: int, a: Action)
    requires HistoryInv(h) && (a.Activate? || a.FailActivation? || a.Renew?)
    ensures Quiet(h.m, Next(h.m, now, a), h.ids)
  {
    var n := Next(h.m, now, a);
    forall id | id in n.jobs ensures Filed(n, id) && id in h.ids { assert JobOk(h, id); }
  }

  lemma PruneIsQuiet(h: History, before: int, limit: nat)
    requires HistoryInv(h)
    ensures Quiet(h.m, Pruned(h.m, h.m.ids, before, limit), h.ids)
  {
    PruneKeeps(h.m, h.m.ids, before, limit);
    PruneLeavesPending(h.m, h.m.ids, before, limit);
    hide Pruned;
    var n := Pruned(h.m, h.m.ids, before, limit);
    forall id | id in n.jobs ensures Filed(n, id) && id in h.ids { assert JobOk(h, id); }
  }

  lemma QuietFollows(h: History, now: int, a: Action)
    requires HistoryInv(h) && !a.Claim?
    requires Quiet(h.m, Next(h.m, now, a), if a.Create? then h.ids + {a.job.id} else h.ids)
    ensures HistoryInv(Follow(h, now, a))
  {
    hide Next, Holder, Pending;
    PendingKnown(h);
    var m, ids := Next(h.m, now, a), if a.Create? then h.ids + {a.job.id} else h.ids;
    QuietKeeps(h, m, ids);
    SamePending(m, h.m);
    assert Follow(h, now, a) == h.(m := m, ids := ids);
  }

  lemma SamePending(m: Memory, n: Memory)
    requires m.transitions == n.transitions
    ensures Pending(m) == Pending(n)
  {
  }

  ghost predicate Runs(h: History, now: int, run: seq<Timed>, g: History)
    decreases |run|
  {
    if run == [] then h == g
    else now <= run[0].now && Allowed(h, run[0].a) && Runs(Follow(h, run[0].now, run[0].a), run[0].now, run[1..], g)
  }

  lemma {:induction false} RunKeepsHistory(h: History, now: int, run: seq<Timed>, g: History)
    requires HistoryInv(h) && Runs(h, now, run, g)
    ensures HistoryInv(g)
    decreases |run|
  {
    hide HistoryInv, Allowed, Follow;
    if run != [] {
      FollowKeeps(h, run[0].now, run[0].a);
      RunKeepsHistory(Follow(h, run[0].now, run[0].a), run[0].now, run[1..], g);
    }
  }

  lemma StartsKept()
    ensures HistoryInv(START)
  {
    forall id ensures JobOk(START, id) && HolderOk(START, id) && PendingOk(START, id) {}
    forall t ensures KnownOk(START, t) {}
    forall t, u ensures OnePerLease(START, t, u) {}
  }

  /**
   * In every run: the record a caller brings is the pending one exactly when it carries the pending lease, and then the
   * pending outcome is what the job becomes.
   */
  lemma AcknowledgesItsLease(now: int, run: seq<Timed>, h: History, job: Job)
    requires Runs(START, now, run, h) && Allowed(h, Acknowledge(job)) && Acknowledged(h.m, job).1
    ensures var pending := h.m.transitions[job.id];
            && (job == pending.job <==> job.leaseId == pending.job.leaseId)
            && (job.leaseId == pending.job.leaseId ==> Acknowledged(h.m, job).0.jobs[job.id] == Settled(pending))
  {
    StartsKept();
    RunKeepsHistory(START, now, run, h);
    var t :| t in h.known && t.job == job;
    assert PendingOk(h, job.id) && OnePerLease(h, t, h.m.transitions[job.id]);
    hide HistoryInv;
  }

  // ----- attempts, while acknowledgements bring the pending lease

  /** No attempt that is known is later than the job's, and only the pending one can be the running one. */
  ghost predicate TriedOk(h: History, t: Transition) {
    t in h.known ==>
      && t.job.id in h.ids
      && (t.job.id in h.m.jobs ==>
            var attempts, holder := h.m.jobs[t.job.id].attempts, Holder(h.m, t.job.id);
            t.job.attempts <= attempts && (holder.Some? && holder != t.job.leaseId ==> t.job.attempts < attempts))
  }

  ghost predicate PendingTried(h: History, id: Id) {
    id in h.m.transitions && id in h.m.jobs ==> h.m.transitions[id].job.attempts == h.m.jobs[id].attempts
  }

  /** An attempt of a job has one transition. */
  ghost predicate OnePerAttempt(h: History, t: Transition, u: Transition) {
    t in h.known && u in h.known && t.job.id == u.job.id && t.job.attempts == u.job.attempts ==> t == u
  }

  ghost predicate TriesInv(h: History) {
    && HistoryInv(h)
    && (forall t {:trigger TriedOk(h, t)} :: TriedOk(h, t))
    && (forall id {:trigger PendingTried(h, id)} :: PendingTried(h, id))
    && (forall t, u {:trigger OnePerAttempt(h, t, u)} :: OnePerAttempt(h, t, u))
  }

  /** The caller acknowledges the transition that is pending. */
  ghost predicate InTime(h: History, a: Action) {
    a.Acknowledge? && Acknowledged(h.m, a.job).1 ==> a.job.leaseId == h.m.transitions[a.job.id].job.leaseId
  }

  lemma PendKeepsTries(h: History, id: Id, t: Transition)
    requires TriesInv(h) && HistoryInv(WithPending(h, id, t)) && id !in h.m.transitions && t.job.id == id
    requires id in h.m.jobs && t.job.attempts == h.m.jobs[id].attempts && t.job.leaseId.Some? && t.job.leaseId == Holder(h.m, id)
    ensures TriesInv(WithPending(h, id, t))
  {
    var n := WithPending(h, id, t);
    assert JobOk(h, id);
    assert forall x :: Holder(n.m, x) == Holder(h.m, x);
    hide Holder;
    forall u ensures TriedOk(n, u) { assert TriedOk(h, u); }
    forall x ensures PendingTried(n, x) { assert PendingTried(h, x); }
    forall u, v ensures OnePerAttempt(n, u, v) {
      assert OnePerAttempt(h, u, v) && TriedOk(h, u) && TriedOk(h, v) && KnownOk(h, u) && KnownOk(h, v);
    }
  }

  /** Attempts of jobs that were there stay, and no old transition is about a new job. */
  lemma QuietKeepsTries(h: History, n: History)
    requires TriesInv(h) && HistoryInv(n) && n.known == h.known && n.m.transitions == h.m.transitions && h.ids <= n.ids
    requires forall id :: Holder(n.m, id) == Holder(h.m, id)
    requires forall id | id in n.m.jobs && id in h.ids :: id in h.m.jobs && n.m.jobs[id].attempts == h.m.jobs[id].attempts
    ensures TriesInv(n)
  {
    assert forall id | Holder(h.m, id).Some? :: id in h.m.jobs;
    hide Holder;
    forall t ensures TriedOk(n, t) { assert TriedOk(h, t); }
    forall id ensures PendingTried(n, id) { assert PendingTried(h, id) && PendingOk(h, id) && JobOk(h, id); }
    forall t, u ensures OnePerAttempt(n, t, u) { assert OnePerAttempt(h, t, u); }
  }

  lemma ClaimKeepsTries(h: History, now: int, leaseMs: int, leaseId: LeaseId)
    requires TriesInv(h) && leaseId !in h.leases
    ensures TriesInv(Follow(h, now, Claim(leaseMs, leaseId)))
  {
    var n := Follow(h, now, Claim(leaseMs, leaseId));
    ClaimKeepsHistory(h, now, leaseMs, leaseId);
    var found := FirstFree(Unexpired(h.m.locks, now), Candidates(h.m, h.m.ids, now));
    FirstFreeIs(Unexpired(h.m.locks, now), Candidates(h.m, h.m.ids, now));
    if found.Some? {
      CandidateStored(h.m, h.m.ids, now, found.value);
      var id :| id in h.m.jobs && h.m.jobs[id] == found.value;
      assert JobOk(h, id);
    }
    PendingKnown(h);
    assert n.m.transitions == h.m.transitions && n.known == h.known && n.ids == h.ids by { SamePending(n.m, h.m); }
    assert forall id :: Holder(n.m, id) == if found.Some? && id == found.value.id then Some(leaseId) else Holder(h.m, id);
    assert found.Some? ==> Holder(h.m, found.value.id) == None && found.value.id in h.m.jobs;
    assert forall id | id in n.m.jobs :: id in h.m.jobs
             && n.m.jobs[id].attempts == h.m.jobs[id].attempts + if found.Some? && id == found.value.id then 1 else 0;
    hide Claimed, Holder, Candidates, FirstFree, Pending, Follow;
    forall t ensures TriedOk(n, t) { assert TriedOk(h, t); }
    forall id ensures PendingTried(n, id) { assert PendingTried(h, id) && PendingOk(h, id); }
    forall t, u ensures OnePerAttempt(n, t, u) { assert OnePerAttempt(h, t, u); }
  }

  lemma {:induction false} RecoverKeepsTries(h: History, ids: seq<Id>, now: int)
    requires TriesInv(h)
    ensures var m := RecoveredAll(h.m, ids, now); TriesInv(h.(m := m, known := h.known + Pending(m)))
    decreases |ids|
  {
    if ids == [] {
      PendingKnown(h);
      assert h.(m := h.m, known := h.known + Pending(h.m)) == h;
    } else {
      var id := ids[0];
      if Abandoned(h.m, id, now) {
        var t := Recovered(h.m.jobs[id], now);
        assert JobOk(h, id) && Outcome(t.job.status);
        PendKeeps(h, id, t);
        PendKeepsTries(h, id, t);
        var next := WithPending(h, id, t);
        RecoverKeepsTries(next, ids[1..], now);
        RecoveryKeepsPending(next.m, ids[1..], now, id);
        var m := RecoveredAll(h.m, ids, now);
        assert t in Pending(m);
        hide TriesInv, HistoryInv, RecoveredAll, Pending;
        assert next.known + Pending(m) == h.known + Pending(m);
        assert next.(m := m, known := next.known + Pending(m)) == h.(m := m, known := h.known + Pending(m));
      } else {
        RecoverKeepsTries(h, ids[1..], now);
      }
    }
  }

  lemma AcknowledgeKeepsTries(h: History, now: int, job: Job)
    requires TriesInv(h) && Allowed(h, Acknowledge(job)) && InTime(h, Acknowledge(job))
    ensures TriesInv(Follow(h, now, Acknowledge(job)))
  {
    PendingKnown(h);
    AcknowledgeKeepsHistory(h, now, job);
    var n := Follow(h, now, Acknowledge(job));
    if Acknowledged(h.m, job).1 {
      var t :| t in h.known && t.job == job;
      assert PendingOk(h, job.id) && PendingTried(h, job.id) && OnePerLease(h, t, h.m.transitions[job.id]);
      assert forall id :: Holder(n.m, id) == if id == job.id then None else Holder(h.m, id);
      assert Pending(n.m) <= Pending(h.m) && n.known == h.known;
      assert n.m.transitions == h.m.transitions - {job.id};
      assert forall id | id in n.m.jobs :: id in h.m.jobs && n.m.jobs[id].attempts == h.m.jobs[id].attempts;
      hide Acknowledged, Holder, Pending, Follow, Allowed;
      forall u ensures TriedOk(n, u) { assert TriedOk(h, u); }
      forall id ensures PendingTried(n, id) { assert PendingTried(h, id); }
      forall u, v ensures OnePerAttempt(n, u, v) { assert OnePerAttempt(h, u, v); }
    }
  }

  lemma StageKeepsTries(h: History, now: int, t: Transition)
    requires TriesInv(h) && Allowed(h, Stage(t))
    ensures TriesInv(Follow(h, now, Stage(t)))
  {
    PendingKnown(h);
    StageKeepsHistory(h, now, t);
    if Staged(h.m, t).1 {
      HeldLease(h, t.job.id);
      PendingGrows(h.m, t.job.id, t);
      PendKeeps(h, t.job.id, t);
      PendKeepsTries(h, t.job.id, t);
      assert Follow(h, now, Stage(t)) == WithPending(h, t.job.id, t);
    }
  }

  lemma QuietFollowsTries(h: History, now: int, a: Action)
    requires TriesInv(h) && Allowed(h, a) && (a.Create? || a.Activate? || a.FailActivation? || a.Renew? || a.Prune?)
    ensures TriesInv(Follow(h, now, a))
  {
    var n := Follow(h, now, a);
    FollowKeeps(h, now, a);
    if a.Create? {
      CreateIsQuiet(h, a.job, a.aliases);
      CreateKeepsJobs(h.m, a.job, a.aliases);
    } else if a.Prune? {
      PruneIsQuiet(h, a.before, a.limit);
      PruneKeeps(h.m, h.m.ids, a.before, a.limit);
    } else {
      OthersAreQuiet(h, now, a);
    }
    hide Created, Pruned, FindExisting;
    PendingKnown(h);
    SamePending(n.m, h.m);
    assert forall id | id in n.m.jobs && id in h.ids :: id in h.m.jobs && n.m.jobs[id].attempts == h.m.jobs[id].attempts;
    hide Next, Holder, Pending;
    QuietKeepsTries(h, n);
  }

  lemma CreateKeepsJobs(m: Memory, job: Job, aliases: seq<string>)
    ensures forall id | id in Created(m, job, aliases).0.jobs && id != job.id :: id in m.jobs && Created(m, job, aliases).0.jobs[id] == m.jobs[id]
  {
    hide FindExisting, Attach, SetAll;
  }

  lemma FollowKeepsTries(h: History, now: int, a: Action)
    requires TriesInv(h) && Allowed(h, a) && InTime(h, a)
    ensures TriesInv(Follow(h, now, a))
  {
    hide TriesInv, InTime, Follow;
    match a
    case Claim(leaseMs, leaseId) => ClaimKeepsTries(h, now, leaseMs, leaseId);
    case Stage(t) => StageKeepsTries(h, now, t);
    case Acknowledge(job) => AcknowledgeKeepsTries(h, now, job);
    case Recover =>
      RecoverKeepsTries(h, h.m.ids, now);
      RecoverFollows(h, now);
    case _ => QuietFollowsTries(h, now, a);
  }

  ghost predicate AllInTime(h: History, run: seq<Timed>)
    decreases |run|
  {
    run != [] ==> InTime(h, run[0].a) && AllInTime(Follow(h, run[0].now, run[0].a), run[1..])
  }

  lemma {:induction false} RunKeepsTries(h: History, now: int, run: seq<Timed>, g: History)
    requires TriesInv(h) && Runs(h, now, run, g) && AllInTime(h, run)
    ensures TriesInv(g)
    decreases |run|
  {
    hide TriesInv, Allowed, InTime, Follow;
    if run != [] {
      FollowKeepsTries(h, run[0].now, run[0].a);
      RunKeepsTries(Follow(h, run[0].now, run[0].a), run[0].now, run[1..], g);
    }
  }

  /**
   * While acknowledgements have brought the pending lease, the next one makes the job what the pending outcome says
   * exactly when it does, too; otherwise the job goes back to an earlier attempt and the outcome is gone.
   */
  lemma SettlesExactly(now: int, run: seq<Timed>, h: History, job: Job)
    requires Runs(START, now, run, h) && AllInTime(START, run)
    requires Allowed(h, Acknowledge(job)) && Acknowledged(h.m, job).1
    ensures var pending, n := h.m.transitions[job.id], Acknowledged(h.m, job).0;
            && (n.jobs[job.id] == Settled(pending) <==> job.leaseId == pending.job.leaseId)
            && (job.leaseId != pending.job.leaseId ==> n.jobs[job.id].attempts < pending.job.attempts && job.id !in n.transitions)
  {
    assert TriesInv(START) by {
      StartsKept();
      forall t ensures TriedOk(START, t) {}
      forall id ensures PendingTried(START, id) {}
      forall t, u ensures OnePerAttempt(START, t, u) {}
    }
    RunKeepsTries(START, now, run, h);
    var t :| t in h.known && t.job == job;
    var pending := h.m.transitions[job.id];
    assert PendingOk(h, job.id) && PendingTried(h, job.id) && OnePerLease(h, t, pending) && TriedOk(h, t);
    hide HistoryInv, TriesInv;
  }
}
