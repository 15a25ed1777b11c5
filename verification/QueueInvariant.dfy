// What every script keeps, whatever the interleaving: no job is stranded or resurrected, and leases own their locks.
module QueueInvariant {
  import opened Wrappers
  import opened QueueStore

  function Max(x: int, y: int): int {
    if x < y then y else x
  }

  predicate Terminal(status: Status) {
    status.Failed? || status.Completed?
  }

  /** Two records of the same job in the same attempt. */
  ghost predicate SameRun(j: Job, k: Job) {
    && j.id == k.id && j.installationId == k.installationId && j.owner == k.owner && j.repo == k.repo
    && j.attempts == k.attempts && j.maxAttempts == k.maxAttempts
  }

  /** A transition that may stand against a running job: same run, same lease, and an outcome its attempts allow. */
  ghost predicate Outcome(j: Job, t: Transition) {
    && SameRun(j, t.job) && t.job.leaseId == j.leaseId
    && match t.job.status
       case Retrying => j.attempts < j.maxAttempts
       case Failed => t.job.completedAt.Some?
       case Completed => t.job.completedAt.Some?
       case _ => false
  }

  ghost predicate Unindexed(s: Store, id: Id) {
    id !in s.scheduled && id !in s.active && id !in s.activation && id !in s.transitions && id !in s.transitionIndex
  }

  ghost predicate StatusOk(s: Store, id: Id, j: Job) {
    match j.status
    case Queued => j.attempts == 0 && (id in s.scheduled <==> id !in s.activation) && id !in s.terminal
    case Retrying => id in s.scheduled && id !in s.activation && 0 < j.attempts < j.maxAttempts && id !in s.terminal
    case Running =>
      && j.leaseId.Some? && j.leaseExpiresAt.Some? && 0 < j.attempts && id !in s.terminal
      && id !in s.scheduled && id !in s.activation
      && (id in s.active || id in s.transitions)
      && (id in s.active ==> s.active[id] == j.leaseExpiresAt.value)
      && (id in s.transitions ==> Outcome(j, s.transitions[id]))
    case _ => Unindexed(s, id) && j.completedAt.Some?
  }

  /** Everything that is stored about one id. */
  ghost predicate JobInv(s: Store, id: Id) {
    if id !in s.jobs then Unindexed(s, id)
    else
      var j := s.jobs[id];
      && j.id == id && j.attempts <= Max(1, j.maxAttempts)
      && (id in s.transitions <==> id in s.transitionIndex)
      && (id in s.scheduled ==> s.scheduled[id] == j.availableAt)
      && (!j.status.Running? ==> j.leaseId.None? && j.leaseExpiresAt.None? && id !in s.active && id !in s.transitions)
      && StatusOk(s, id, j)
  }

  ghost predicate Live(s: Store, id: Id) {
    id in s.jobs && s.jobs[id].status.Running? && s.jobs[id].leaseExpiresAt.Some? && s.clock < s.jobs[id].leaseExpiresAt.value
  }

  ghost predicate Owns(s: Store, key: LockKey, id: Id, until: int) {
    key in s.locks && s.locks[key].owner == id && until <= s.locks[key].expiresAt
  }

  /** A live lease owns both of its locks for at least as long as it lasts. */
  ghost predicate LockInv(s: Store, id: Id) {
    Live(s, id) ==>
      && Owns(s, InstallationLock(s.jobs[id]), id, s.jobs[id].leaseExpiresAt.value)
      && Owns(s, RepositoryLock(s.jobs[id]), id, s.jobs[id].leaseExpiresAt.value)
  }

  ghost predicate Inv(s: Store) {
    && (forall id {:trigger JobInv(s, id)} :: JobInv(s, id))
    && (forall id {:trigger LockInv(s, id)} :: LockInv(s, id))
  }

  /** Lease exclusion. */
  lemma LiveLeasesAreExclusive(s: Store, x: Id, y: Id)
    requires Inv(s) && Live(s, x) && Live(s, y) && x != y
    ensures s.jobs[x].installationId != s.jobs[y].installationId
    ensures RepositoryLock(s.jobs[x]) != RepositoryLock(s.jobs[y])
  {
    hide RepositoryLock;
    assert LockInv(s, x) && LockInv(s, y);
  }

  /** No job is stranded: whatever is not finished is in an index some worker looks at. */
  lemma UnfinishedIsIndexed(s: Store, id: Id)
    requires Inv(s) && id in s.jobs && !Terminal(s.jobs[id].status)
    ensures id in s.scheduled || id in s.active || id in s.activation || id in s.transitionIndex
    ensures s.jobs[id].attempts <= Max(1, s.jobs[id].maxAttempts)
  {
    assert JobInv(s, id);
  }

  // ----- actions

  datatype Action =
    | Create(job: Job, keys: seq<string>)
    | Activate(id: Id)
    | FailActivation(id: Id, failedAt: int, error: string)
    | Claim(now: int, leaseMs: int, leaseId: LeaseId, candidates: seq<Id>)
    | Stage(t: Transition)
    | Acknowledge(id: Id)
    | Recover(now: int, expired: seq<Id>)
    | Renew(id: Id, leaseId: LeaseId, expiresAt: int)
    | Prune(before: int, limit: nat, ids: seq<Id>)
    | ExpireRecord(id: Id)
    | ExpireAlias(key: string)
    | Tick(clock: int)

  function Next(s: Store, a: Action): Store {
    match a
    case Create(job, keys) => QueueStore.Create(s, job, keys).0
    case Activate(id) => QueueStore.Activate(s, id).0
    case FailActivation(id, failedAt, error) => QueueStore.FailActivation(s, id, failedAt, error).0
    case Claim(now, leaseMs, leaseId, candidates) => QueueStore.Claim(s, now, leaseMs, leaseId, candidates).0
    case Stage(t) => QueueStore.Stage(s, t).0
    case Acknowledge(id) => QueueStore.Acknowledge(s, id).0
    case Recover(now, expired) => QueueStore.Recover(s, now, expired)
    case Renew(id, leaseId, expiresAt) => QueueStore.Renew(s, id, leaseId, expiresAt).0
    case Prune(_, _, ids) => QueueStore.Prune(s, ids)
    case ExpireRecord(id) => if id in s.jobs && Terminal(s.jobs[id].status) then s.(jobs := s.jobs - {id}) else s
    case ExpireAlias(key) => s.(aliases := s.aliases - {key})
    case Tick(clock) => s.(clock := clock)
  }

  /** A job as enqueue makes it, with an id never used before. */
  ghost predicate NewJob(s: Store, job: Job) {
    && job.id !in s.jobs && job.id !in s.terminal
    && job.status.Queued? && job.attempts == 0 && job.leaseId.None? && job.leaseExpiresAt.None?
  }

  /**
   * When an action can happen: ids of new jobs are new, the worker's `now` is no later than the server's clock,
   * replies of the sorted sets are what they hold, and a staged transition is an outcome of the run it names.
   */
  ghost predicate Enabled(s: Store, a: Action) {
    match a
    case Create(job, keys) => NewJob(s, job)
    case Claim(now, leaseMs, leaseId, candidates) => now <= s.clock && IsRange(s.scheduled, now, CLAIM_LIMIT, candidates)
    case Stage(t) => QueueStore.Stage(s, t).1 ==> Outcome(s.jobs[t.job.id], t)
    case Recover(now, expired) => IsRange(s.active, now, |s.active|, expired)
    case Prune(before, limit, ids) => IsRange(s.terminal, before, limit, ids)
    case Tick(clock) => s.clock <= clock
    case _ => true
  }

  // ----- each script keeps the invariant

  lemma AliasesDoNotMatter(s: Store, aliases: map<string, Id>)
    requires Inv(s)
    ensures Inv(s.(aliases := aliases))
  {
    hide InstallationLock, RepositoryLock;
    forall id
      ensures JobInv(s.(aliases := aliases), id) && LockInv(s.(aliases := aliases), id)
    {
      assert JobInv(s, id) && LockInv(s, id);
    }
  }

  lemma AddJobKeeps(s: Store, job: Job)
    requires Inv(s) && NewJob(s, job)
    ensures Inv(s.(jobs := s.jobs[job.id := job], all := s.all[job.id := job.createdAt], activation := s.activation[job.id := job.createdAt]))
  {
    hide InstallationLock, RepositoryLock;
    var s' := s.(jobs := s.jobs[job.id := job], all := s.all[job.id := job.createdAt], activation := s.activation[job.id := job.createdAt]);
    forall id
      ensures JobInv(s', id) && LockInv(s', id)
    {
      assert JobInv(s, id) && LockInv(s, id);
    }
  }

  lemma CreateKeeps(s: Store, job: Job, keys: seq<string>)
    requires Inv(s) && NewJob(s, job)
    ensures Inv(QueueStore.Create(s, job, keys).0)
  {
    hide Inv, FindExisting, AttachAliases;
    var (aliases, existing) := FindExisting(s.jobs, s.aliases, keys);
    match existing
    case Some(found) =>
      AliasesDoNotMatter(s, AttachAliases(aliases, keys, found.id));
    case None =>
      AliasesDoNotMatter(s, AttachAliases(aliases, keys, job.id));
      AddJobKeeps(s.(aliases := AttachAliases(aliases, keys, job.id)), job);
  }

  lemma ActivateKeeps(s: Store, x: Id)
    requires Inv(s)
    ensures Inv(QueueStore.Activate(s, x).0)
  {
    hide InstallationLock, RepositoryLock;
    var s' := QueueStore.Activate(s, x).0;
    forall id
      ensures JobInv(s', id) && LockInv(s', id)
    {
      assert JobInv(s, id) && LockInv(s, id);
    }
  }

  lemma FailActivationKeeps(s: Store, x: Id, failedAt: int, error: string)
    requires Inv(s)
    ensures Inv(QueueStore.FailActivation(s, x, failedAt, error).0)
  {
    hide InstallationLock, RepositoryLock;
    var s' := QueueStore.FailActivation(s, x, failedAt, error).0;
    forall id
      ensures JobInv(s', id) && LockInv(s', id)
    {
      assert JobInv(s, id) && LockInv(s, id);
    }
  }

  /** The candidates still to be tried are waiting. */
  ghost predicate Waiting(s: Store, candidates: seq<Id>) {
    Distinct(candidates) && forall id | id in candidates :: id in s.scheduled
  }

  /** Dropping a lock that is not held harms no live lease. */
  lemma DropFreeLockKeeps(s: Store, key: LockKey)
    requires Inv(s) && !Held(s.locks, s.clock, key)
    ensures Inv(s.(locks := s.locks - {key}))
  {
    hide InstallationLock, RepositoryLock;
    var s' := s.(locks := s.locks - {key});
    forall id
      ensures JobInv(s', id) && LockInv(s', id)
    {
      assert JobInv(s, id) && LockInv(s, id);
    }
  }

  lemma DeferKeeps(s: Store, x: Id, now: int)
    requires Inv(s) && x in s.jobs && x in s.scheduled
    ensures Inv(Defer(s, x, now))
  {
    hide InstallationLock, RepositoryLock;
    var s' := Defer(s, x, now);
    assert JobInv(s, x);
    forall id
      ensures JobInv(s', id) && LockInv(s', id)
    {
      assert JobInv(s, id) && LockInv(s, id);
      assert id != x ==> (id in s'.jobs <==> id in s.jobs);
    }
  }

  /** Taking two free locks leaves every other live lease with its own. */
  lemma TakeKeeps(s: Store, x: Id, now: int, leaseMs: int, leaseId: LeaseId)
    requires Inv(s) && x in s.jobs && x in s.scheduled && now <= s.clock
    requires !Held(s.locks, s.clock, InstallationLock(s.jobs[x])) && !Held(s.locks, s.clock, RepositoryLock(s.jobs[x]))
    ensures Inv(Take(s, x, now, leaseMs, leaseId))
  {
    hide Lower;
    var s' := Take(s, x, now, leaseMs, leaseId);
    assert JobInv(s, x);
    forall id
      ensures JobInv(s', id) && LockInv(s', id)
    {
      assert JobInv(s, id) && LockInv(s, id);
    }
  }

  lemma ClaimOneKeeps(s: Store, now: int, leaseMs: int, leaseId: LeaseId, x: Id)
    requires Inv(s) && x in s.scheduled && now <= s.clock
    ensures Inv(ClaimOne(s, now, leaseMs, leaseId, x).0)
    ensures ClaimOne(s, now, leaseMs, leaseId, x).1.None? ==> ClaimOne(s, now, leaseMs, leaseId, x).0.scheduled.Keys == s.scheduled.Keys
    ensures ClaimOne(s, now, leaseMs, leaseId, x).0.clock == s.clock
  {
    hide InstallationLock, RepositoryLock;
    assert JobInv(s, x);
    var job := s.jobs[x];
    if Held(s.locks, s.clock, InstallationLock(job)) {
      DeferKeeps(s, x, now);
    } else if Held(s.locks, s.clock, RepositoryLock(job)) {
      DropFreeLockKeeps(s, InstallationLock(job));
      DeferKeeps(s.(locks := s.locks - {InstallationLock(job)}), x, now);
    } else {
      TakeKeeps(s, x, now, leaseMs, leaseId);
    }
  }

  lemma {:induction false} ClaimKeeps(s: Store, now: int, leaseMs: int, leaseId: LeaseId, candidates: seq<Id>)
    requires Inv(s) && now <= s.clock && Waiting(s, candidates)
    ensures Inv(QueueStore.Claim(s, now, leaseMs, leaseId, candidates).0)
    decreases |candidates|
  {
    hide Inv, ClaimOne;
    if candidates != [] {
      var (next, claimed) := ClaimOne(s, now, leaseMs, leaseId, candidates[0]);
      ClaimOneKeeps(s, now, leaseMs, leaseId, candidates[0]);
      if claimed.None? {
        ClaimKeeps(next, now, leaseMs, leaseId, candidates[1..]);
      }
    }
  }

  lemma StageKeeps(s: Store, t: Transition)
    requires Inv(s) && Enabled(s, Stage(t))
    ensures Inv(QueueStore.Stage(s, t).0)
  {
    hide InstallationLock, RepositoryLock;
    var s' := QueueStore.Stage(s, t).0;
    forall id
      ensures JobInv(s', id) && LockInv(s', id)
    {
      assert JobInv(s, id) && LockInv(s, id);
    }
  }

  /** The locks an acknowledgement releases belong to the job it settles. */
  lemma AcknowledgeKeeps(s: Store, x: Id)
    requires Inv(s)
    ensures Inv(QueueStore.Acknowledge(s, x).0)
  {
    hide InstallationLock, RepositoryLock;
    var s' := QueueStore.Acknowledge(s, x).0;
    assert JobInv(s, x);
    forall id
      ensures JobInv(s', id)
    {
      assert JobInv(s, id);
    }
    forall id
      ensures LockInv(s', id)
    {
      assert LockInv(s, id);
    }
  }

  lemma RecoveryIsOutcome(j: Job, now: int)
    requires Expired(j, now)
    ensures var t := Recovery(j, now);
            Outcome(j, t) && t.job.id == j.id && t.job.leaseId == j.leaseId && t.job.updatedAt == now
  {
  }

  /** A job leaves the active index only when its transition is pending. */
  lemma LeaveActiveKeeps(s: Store, x: Id)
    requires Inv(s) && (x in s.jobs && s.jobs[x].status.Running? ==> x in s.transitions)
    ensures Inv(s.(active := s.active - {x}))
  {
    hide InstallationLock, RepositoryLock;
    forall id
      ensures JobInv(s.(active := s.active - {x}), id) && LockInv(s.(active := s.active - {x}), id)
    {
      assert JobInv(s, id) && LockInv(s, id);
    }
  }

  lemma RecoverOneKeeps(s: Store, now: int, x: Id)
    requires Inv(s) && (x in s.active ==> s.active[x] <= now)
    ensures Inv(RecoverOne(s, now, x))
  {
    hide Recovery, Outcome, InstallationLock, RepositoryLock;
    assert JobInv(s, x);
    if x !in s.transitions {
      if x in s.jobs && Expired(s.jobs[x], now) {
        var t := Recovery(s.jobs[x], now);
        RecoveryIsOutcome(s.jobs[x], now);
        StageKeeps(s, t);
        LeaveActiveKeeps(QueueStore.Stage(s, t).0, x);
      } else {
        LeaveActiveKeeps(s, x);
      }
    }
  }

  lemma {:induction false} RecoverKeeps(s: Store, now: int, expired: seq<Id>)
    requires Inv(s) && Distinct(expired) && forall id | id in expired :: id in s.active ==> s.active[id] <= now
    ensures Inv(QueueStore.Recover(s, now, expired))
    decreases |expired|
  {
    hide Inv;
    if expired != [] {
      RecoverOneKeeps(s, now, expired[0]);
      RecoverKeeps(RecoverOne(s, now, expired[0]), now, expired[1..]);
    }
  }

  lemma RenewKeeps(s: Store, x: Id, leaseId: LeaseId, expiresAt: int)
    requires Inv(s)
    ensures Inv(QueueStore.Renew(s, x, leaseId, expiresAt).0)
  {
    hide Lower;
    var s' := QueueStore.Renew(s, x, leaseId, expiresAt).0;
    assert JobInv(s, x);
    forall id
      ensures JobInv(s', id)
    {
      assert JobInv(s, id);
    }
    forall id
      ensures LockInv(s', id)
    {
      assert LockInv(s, id);
    }
  }

  lemma PruneOneKeeps(s: Store, x: Id)
    requires Inv(s) && x in s.terminal
    ensures Inv(PruneOne(s, x))
  {
    hide InstallationLock, RepositoryLock;
    var s' := PruneOne(s, x);
    forall id
      ensures JobInv(s', id) && LockInv(s', id)
    {
      assert JobInv(s, id) && LockInv(s, id);
    }
  }

  lemma {:induction false} PruneKeeps(s: Store, ids: seq<Id>)
    requires Inv(s) && Distinct(ids) && forall id | id in ids :: id in s.terminal
    ensures Inv(QueueStore.Prune(s, ids))
    decreases |ids|
  {
    hide Inv;
    if ids != [] {
      PruneOneKeeps(s, ids[0]);
      PruneKeeps(PruneOne(s, ids[0]), ids[1..]);
    }
  }

  lemma ExpireRecordKeeps(s: Store, x: Id)
    requires Inv(s)
    ensures Inv(Next(s, ExpireRecord(x)))
  {
    hide InstallationLock, RepositoryLock;
    var s' := if x in s.jobs && Terminal(s.jobs[x].status) then s.(jobs := s.jobs - {x}) else s;
    forall id
      ensures JobInv(s', id) && LockInv(s', id)
    {
      assert JobInv(s, id) && LockInv(s, id);
    }
  }

  lemma TickKeeps(s: Store, clock: int)
    requires Inv(s) && s.clock <= clock
    ensures Inv(s.(clock := clock))
  {
    hide InstallationLock, RepositoryLock;
    forall id
      ensures JobInv(s.(clock := clock), id) && LockInv(s.(clock := clock), id)
    {
      assert JobInv(s, id) && LockInv(s, id);
    }
  }

  /** Every enabled action keeps the invariant. */
  lemma NextKeeps(s: Store, a: Action)
    requires Inv(s) && Enabled(s, a)
    ensures Inv(Next(s, a))
  {
    hide Inv;
    match a
    case Create(job, keys) => CreateKeeps(s, job, keys);
    case Activate(id) => ActivateKeeps(s, id);
    case FailActivation(id, failedAt, error) => FailActivationKeeps(s, id, failedAt, error);
    case Claim(now, leaseMs, leaseId, candidates) => ClaimKeeps(s, now, leaseMs, leaseId, candidates);
    case Stage(t) => StageKeeps(s, t);
    case Acknowledge(id) => AcknowledgeKeeps(s, id);
    case Recover(now, expired) => RecoverKeeps(s, now, expired);
    case Renew(id, leaseId, expiresAt) => RenewKeeps(s, id, leaseId, expiresAt);
    case Prune(_, _, ids) => PruneKeeps(s, ids);
    case ExpireRecord(id) => ExpireRecordKeeps(s, id);
    case ExpireAlias(key) => AliasesDoNotMatter(s, s.aliases - {key});
    case Tick(clock) => TickKeeps(s, clock);
  }
}
