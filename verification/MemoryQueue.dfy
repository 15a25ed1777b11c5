// The in-memory review queue: when its leases exclude each other, and what its acknowledgement applies.
module MemoryQueue {
  import opened Wrappers
  import opened QueueStore

  /** Maps and sets of the store; ids are the jobs in the order in which they were first stored. */
  datatype Memory = Memory(
    jobs: map<Id, Job>, ids: seq<Id>, locks: map<LockKey, Lock>, keys: map<string, Id>,
    transitions: map<Id, Transition>, ready: set<Id>, activations: set<Id>)

  const EMPTY := Memory(map[], [], map[], map[], map[], {}, {})

  // ----- operations

  function PutJob(m: Memory, job: Job): Memory {
    m.(jobs := m.jobs[job.id := job], ids := if job.id in m.jobs then m.ids else m.ids + [job.id])
  }

  function Attach(keys: map<string, Id>, aliases: seq<string>, id: Id): map<string, Id>
    decreases |aliases|
  {
    if aliases == [] then keys else Attach(if aliases[0] in keys then keys else keys[aliases[0] := id], aliases[1..], id)
  }

  function SetAll(keys: map<string, Id>, aliases: seq<string>, id: Id): map<string, Id>
    decreases |aliases|
  {
    if aliases == [] then keys else SetAll(keys[aliases[0] := id], aliases[1..], id)
  }

  function Created(m: Memory, job: Job, aliases: seq<string>): (Memory, Job) {
    var (keys, existing) := FindExisting(m.jobs, m.keys, aliases);
    match existing
    case Some(found) => (m.(keys := Attach(keys, aliases, found.id)), found)
    case None => (PutJob(m, job).(keys := SetAll(keys, aliases, job.id), activations := m.activations + {job.id}), job)
  }

  function Activated(m: Memory, id: Id): (Memory, bool) {
    if id !in m.jobs || !m.jobs[id].status.Queued? then (m, false)
    else (m.(ready := m.ready + {id}, activations := m.activations - {id}), true)
  }

  function ActivationFailed(m: Memory, id: Id, failedAt: int, error: string): (Memory, bool) {
    if id !in m.jobs || !m.jobs[id].status.Queued? || id !in m.activations then (m, false)
    else
      var job := m.jobs[id].(status := Failed, updatedAt := failedAt, completedAt := Some(failedAt), lastError := Some(error));
      (m.(jobs := m.jobs[id := job], activations := m.activations - {id}, ready := m.ready - {id}), true)
  }

  predicate Claimable(m: Memory, id: Id, now: int) {
    id in m.jobs && (m.jobs[id].status.Retrying? || (m.jobs[id].status.Queued? && id in m.ready)) && m.jobs[id].availableAt <= now
  }

  predicate Later(j: Job, k: Job) {
    k.availableAt < j.availableAt || (k.availableAt == j.availableAt && k.createdAt < j.createdAt)
  }

  function InsertJob(j: Job, js: seq<Job>): seq<Job> {
    if js == [] || !Later(j, js[0]) then [j] + js else [js[0]] + InsertJob(j, js[1..])
  }

  /** The jobs that can be claimed, by availability and age, otherwise as they are stored. */
  function Candidates(m: Memory, ids: seq<Id>, now: int): seq<Job> {
    if ids == [] then []
    else if Claimable(m, ids[0], now) then InsertJob(m.jobs[ids[0]], Candidates(m, ids[1..], now))
    else Candidates(m, ids[1..], now)
  }

  function Unexpired(locks: map<LockKey, Lock>, now: int): map<LockKey, Lock> {
    map key | key in locks && now < locks[key].expiresAt :: locks[key]
  }

  predicate Free(locks: map<LockKey, Lock>, j: Job) {
    InstallationLock(j) !in locks && RepositoryLock(j) !in locks
  }

  function FirstFree(locks: map<LockKey, Lock>, js: seq<Job>): Option<Job> {
    if js == [] then None else if Free(locks, js[0]) then Some(js[0]) else FirstFree(locks, js[1..])
  }

  function Claimed(m: Memory, now: int, leaseMs: int, leaseId: LeaseId): (Memory, Option<Job>) {
    var locks := Unexpired(m.locks, now);
    match FirstFree(locks, Candidates(m, m.ids, now))
    case None => (m.(locks := locks), None)
    case Some(job) =>
      var lock := Lock(job.id, now + leaseMs);
      var claimed := Lease(job, now, leaseMs, leaseId);
      (PutJob(m, claimed).(locks := locks[InstallationLock(job) := lock][RepositoryLock(job) := lock], ready := m.ready - {job.id}), Some(claimed))
  }

  function Staged(m: Memory, t: Transition): (Memory, bool) {
    var id := t.job.id;
    if id !in m.jobs || id in m.transitions || !m.jobs[id].status.Running? || m.jobs[id].leaseId != t.job.leaseId then (m, false)
    else (m.(transitions := m.transitions[id := t]), true)
  }

  function Unowned(locks: map<LockKey, Lock>, id: Id): map<LockKey, Lock> {
    map key | key in locks && locks[key].owner != id :: locks[key]
  }

  /** Stores the caller's record of the job, not the pending one. */
  function Acknowledged(m: Memory, job: Job): (Memory, bool) {
    var id := job.id;
    if id !in m.transitions || id !in m.jobs || m.jobs[id].leaseId != m.transitions[id].job.leaseId then (m, false)
    else
      (m.(jobs := m.jobs[id := job.(leaseId := None, leaseExpiresAt := None)], transitions := m.transitions - {id},
          locks := Unowned(m.locks, id)), true)
  }

  function Extended(locks: map<LockKey, Lock>, id: Id, expiresAt: int): map<LockKey, Lock> {
    map key | key in locks :: if locks[key].owner == id then locks[key].(expiresAt := expiresAt) else locks[key]
  }

  /** Extends the lease and whatever locks the job owns; it does not ask whether it owns any. */
  function Renewed(m: Memory, id: Id, leaseId: LeaseId, expiresAt: int): (Memory, bool) {
    if id !in m.jobs || !m.jobs[id].status.Running? || m.jobs[id].leaseId != Some(leaseId) then (m, false)
    else (m.(jobs := m.jobs[id := m.jobs[id].(leaseExpiresAt := Some(expiresAt))], locks := Extended(m.locks, id, expiresAt)), true)
  }

  predicate Abandoned(m: Memory, id: Id, now: int) {
    && id in m.jobs && id !in m.transitions && m.jobs[id].status.Running?
    && m.jobs[id].leaseExpiresAt.Some? && m.jobs[id].leaseExpiresAt.value != 0 && m.jobs[id].leaseExpiresAt.value <= now
  }

  function Recovered(j: Job, now: int): Transition {
    var exhausted := j.attempts >= j.maxAttempts;
    Transition(j.(status := if exhausted then Failed else Retrying, availableAt := now, updatedAt := now,
                  completedAt := if exhausted then Some(now) else None, lastError := Some(LEASE_EXPIRED), leaseExpiresAt := None), None)
  }

  function RecoveredAll(m: Memory, ids: seq<Id>, now: int): Memory
    decreases |ids|
  {
    if ids == [] then m
    else
      RecoveredAll(if Abandoned(m, ids[0], now) then m.(transitions := m.transitions[ids[0] := Recovered(m.jobs[ids[0]], now)]) else m,
                 ids[1..], now)
  }

  predicate Prunable(m: Memory, id: Id, before: int) {
    id in m.jobs && (m.jobs[id].status.Completed? || m.jobs[id].status.Failed?)
    && m.jobs[id].completedAt.Some? && m.jobs[id].completedAt.value <= before
  }

  function Without(ids: seq<Id>, id: Id): seq<Id> {
    if ids == [] then [] else (if ids[0] == id then [] else [ids[0]]) + Without(ids[1..], id)
  }

  /** Forgets the first finished jobs among ids, at most limit of them. */
  function Pruned(m: Memory, ids: seq<Id>, before: int, limit: nat): Memory
    decreases |ids|
  {
    if ids == [] || limit == 0 then m
    else if Prunable(m, ids[0], before) then
      Pruned(m.(jobs := m.jobs - {ids[0]}, ids := Without(m.ids, ids[0]), ready := m.ready - {ids[0]}, activations := m.activations - {ids[0]}),
            ids[1..], before, limit - 1)
    else Pruned(m, ids[1..], before, limit)
  }

  // ----- the store as it runs

  class InMemoryReviewQueueStore {
    var jobs: map<Id, Job>
    var ids: seq<Id>
    var locks: map<LockKey, Lock>
    var idempotencyKeys: map<string, Id>
    var transitions: map<Id, Transition>
    var ready: set<Id>
    var activations: set<Id>

    ghost function State(): Memory
      reads this
    {
      Memory(jobs, ids, locks, idempotencyKeys, transitions, ready, activations)
    }

    constructor ()
      ensures State() == EMPTY
    {
      jobs, ids, locks, idempotencyKeys, transitions, ready, activations := map[], [], map[], map[], map[], {}, {};
    }

    method SetJob(job: Job)
      modifies this`jobs, this`ids
      ensures State() == PutJob(old(State()), job)
    {
      if job.id !in jobs {
        ids := ids + [job.id];
      }
      jobs := jobs[job.id := job];
    }

    method Create(job: Job, aliases: seq<string>) returns (stored: Job)
      modifies this
      ensures (State(), stored) == Created(old(State()), job, aliases)
    {
      for i := 0 to |aliases|
        invariant State() == old(State()).(keys := idempotencyKeys)
        invariant FindExisting(jobs, idempotencyKeys, aliases[i..]) == FindExisting(jobs, old(idempotencyKeys), aliases)
      {
        var key := aliases[i];
        assert aliases[i..][1..] == aliases[i + 1..];
        if key in idempotencyKeys {
          if idempotencyKeys[key] in jobs {
            stored := jobs[idempotencyKeys[key]];
            ghost var keys := idempotencyKeys;
            assert aliases[0..] == aliases;
            for k := 0 to |aliases|
              invariant State() == old(State()).(keys := idempotencyKeys)
              invariant Attach(idempotencyKeys, aliases[k..], stored.id) == Attach(keys, aliases, stored.id)
            {
              assert aliases[k..][1..] == aliases[k + 1..];
              if aliases[k] !in idempotencyKeys {
                idempotencyKeys := idempotencyKeys[aliases[k] := stored.id];
              }
            }
            return;
          }
          idempotencyKeys := idempotencyKeys - {key};
        }
      }
      SetJob(job);
      activations := activations + {job.id};
      ghost var keys := idempotencyKeys;
      assert aliases[0..] == aliases;
      for k := 0 to |aliases|
        invariant State() == PutJob(old(State()), job).(keys := idempotencyKeys, activations := old(activations) + {job.id})
        invariant SetAll(idempotencyKeys, aliases[k..], job.id) == SetAll(keys, aliases, job.id)
      {
        assert aliases[k..][1..] == aliases[k + 1..];
        idempotencyKeys := idempotencyKeys[aliases[k] := job.id];
      }
      stored := job;
    }

    method Activate(id: Id) returns (activated: bool)
      modifies this
      ensures (State(), activated) == Activated(old(State()), id)
    {
      if id !in jobs || !jobs[id].status.Queued? { return false; }
      ready := ready + {id};
      activations := activations - {id};
      return true;
    }

    method FailActivation(id: Id, failedAt: int, error: string) returns (failed: bool)
      modifies this
      ensures (State(), failed) == ActivationFailed(old(State()), id, failedAt, error)
    {
      if id !in jobs || !jobs[id].status.Queued? || id !in activations { return false; }
      jobs := jobs[id := jobs[id].(status := Failed, updatedAt := failedAt, completedAt := Some(failedAt), lastError := Some(error))];
      activations := activations - {id};
      ready := ready - {id};
      return true;
    }

    method Claim(now: int, leaseMs: int, leaseId: LeaseId) returns (claimed: Option<Job>)
      modifies this
      ensures (State(), claimed) == Claimed(old(State()), now, leaseMs, leaseId)
    {
      hide InstallationLock, RepositoryLock;
      locks := Unexpired(locks, now);
      var candidates := Candidates(Memory(jobs, ids, locks, idempotencyKeys, transitions, ready, activations), ids, now);
      SameCandidates(old(State()), State(), ids, now);
      assert candidates[0..] == candidates;
      for i := 0 to |candidates|
        invariant State() == old(State()).(locks := Unexpired(old(locks), now))
        invariant FirstFree(locks, candidates[i..]) == FirstFree(locks, candidates)
      {
        var job := candidates[i];
        assert candidates[i..][1..] == candidates[i + 1..];
        if InstallationLock(job) !in locks && RepositoryLock(job) !in locks {
          var lock := Lock(job.id, now + leaseMs);
          locks := locks[InstallationLock(job) := lock][RepositoryLock(job) := lock];
          SetJob(Lease(job, now, leaseMs, leaseId));
          ready := ready - {job.id};
          return Some(Lease(job, now, leaseMs, leaseId));
        }
      }
      return None;
    }

    lemma SameCandidates(m: Memory, n: Memory, ids: seq<Id>, now: int)
      requires m.jobs == n.jobs && m.ready == n.ready
      ensures Candidates(m, ids, now) == Candidates(n, ids, now)
    {
    }

    method StageTransition(t: Transition) returns (staged: bool)
      modifies this
      ensures (State(), staged) == Staged(old(State()), t)
    {
      var id := t.job.id;
      if id !in jobs || id in transitions || !jobs[id].status.Running? || jobs[id].leaseId != t.job.leaseId { return false; }
      transitions := transitions[id := t];
      return true;
    }

    method AcknowledgeTransition(job: Job) returns (acknowledged: bool)
      modifies this
      ensures (State(), acknowledged) == Acknowledged(old(State()), job)
    {
      if job.id !in transitions || job.id !in jobs || jobs[job.id].leaseId != transitions[job.id].job.leaseId { return false; }
      SetJob(job.(leaseId := None, leaseExpiresAt := None));
      transitions := transitions - {job.id};
      locks := Unowned(locks, job.id);
      return true;
    }

    method Renew(id: Id, leaseId: LeaseId, expiresAt: int) returns (renewed: bool)
      modifies this
      ensures (State(), renewed) == Renewed(old(State()), id, leaseId, expiresAt)
    {
      if id !in jobs || !jobs[id].status.Running? || jobs[id].leaseId != Some(leaseId) { return false; }
      jobs := jobs[id := jobs[id].(leaseExpiresAt := Some(expiresAt))];
      locks := Extended(locks, id, expiresAt);
      return true;
    }

    method RecoverExpired(now: int)
      modifies this
      ensures State() == RecoveredAll(old(State()), old(ids), now)
    {
      assert ids[0..] == ids;
      for i := 0 to |ids|
        invariant ids == old(ids)
        invariant RecoveredAll(State(), ids[i..], now) == RecoveredAll(old(State()), ids, now)
      {
        var id := ids[i];
        assert ids[i..][1..] == ids[i + 1..];
        if id in jobs && id !in transitions && jobs[id].status.Running?
           && jobs[id].leaseExpiresAt.Some? && jobs[id].leaseExpiresAt.value != 0 && jobs[id].leaseExpiresAt.value <= now {
          transitions := transitions[id := Recovered(jobs[id], now)];
        }
      }
    }

    method PruneTerminal(before: int, limit: nat)
      modifies this
      ensures State() == Pruned(old(State()), old(ids), before, limit)
    {
      var all := ids;
      var left: int := limit;
      assert all[0..] == all;
      for i := 0 to |all|
        invariant 0 <= left <= limit
        invariant Pruned(State(), all[i..], before, left) == Pruned(old(State()), all, before, limit)
      {
        var id := all[i];
        assert all[i..][1..] == all[i + 1..];
        if left > 0 && id in jobs && (jobs[id].status.Completed? || jobs[id].status.Failed?)
           && jobs[id].completedAt.Some? && jobs[id].completedAt.value <= before {
          jobs := jobs - {id};
          ids := Without(ids, id);
          ready := ready - {id};
          activations := activations - {id};
          left := left - 1;
        }
      }
    }
  }

  // ----- runs on one clock

  datatype Action =
    | Create(job: Job, aliases: seq<string>)
    | Activate(id: Id)
    | FailActivation(id: Id, error: string)
    | Claim(leaseMs: int, leaseId: LeaseId)
    | Stage(t: Transition)
    | Acknowledge(job: Job)
    | Renew(id: Id, leaseId: LeaseId, expiresAt: int)
    | Recover
    | Prune(before: int, limit: nat)

  /** What an action makes of the store at a time. */
  function Next(m: Memory, now: int, a: Action): Memory {
    match a
    case Create(job, aliases) => Created(m, job, aliases).0
    case Activate(id) => Activated(m, id).0
    case FailActivation(id, error) => ActivationFailed(m, id, now, error).0
    case Claim(leaseMs, leaseId) => Claimed(m, now, leaseMs, leaseId).0
    case Stage(t) => Staged(m, t).0
    case Acknowledge(job) => Acknowledged(m, job).0
    case Renew(id, leaseId, expiresAt) => Renewed(m, id, leaseId, expiresAt).0
    case Recover => RecoveredAll(m, m.ids, now)
    case Prune(before, limit) => Pruned(m, m.ids, before, limit)
  }

  /** New jobs are queued under new ids; nobody acknowledges a running record. */
  ghost predicate Enabled(m: Memory, a: Action) {
    && (a.Create? ==> a.job.id !in m.jobs && a.job.status.Queued?)
    && (a.Acknowledge? ==> !a.job.status.Running?)
  }

  predicate Live(m: Memory, id: Id, now: int) {
    id in m.jobs && m.jobs[id].status.Running? && m.jobs[id].leaseExpiresAt.Some? && now < m.jobs[id].leaseExpiresAt.value
  }

  predicate ScopeOf(j: Job, key: LockKey) {
    key == InstallationLock(j) || key == RepositoryLock(j)
  }

  /** A live lease holds both locks of its job, for exactly as long. */
  ghost predicate Holds(m: Memory, id: Id, now: int) {
    Live(m, id, now) ==> forall key | ScopeOf(m.jobs[id], key) :: key in m.locks && m.locks[key] == Lock(id, m.jobs[id].leaseExpiresAt.value)
  }

  /** A lock belongs to a running job, and to one of its scopes. */
  ghost predicate LockOk(m: Memory, key: LockKey) {
    key in m.locks ==> m.locks[key].owner in m.jobs && m.jobs[m.locks[key].owner].status.Running? && ScopeOf(m.jobs[m.locks[key].owner], key)
  }

  ghost predicate Locked(m: Memory) {
    && (forall id | id in m.jobs :: m.jobs[id].id == id)
    && (forall key {:trigger LockOk(m, key)} :: LockOk(m, key))
  }

  ghost predicate MemoryInv(m: Memory, now: int) {
    Locked(m) && forall id {:trigger Holds(m, id, now)} :: Holds(m, id, now)
  }

  ghost predicate Exclusive(m: Memory, now: int) {
    forall x, y, key | x != y && Live(m, x, now) && Live(m, y, now) && ScopeOf(m.jobs[x], key) :: !ScopeOf(m.jobs[y], key)
  }

  lemma HoldersExclude(m: Memory, now: int)
    requires MemoryInv(m, now)
    ensures Exclusive(m, now)
  {
    hide ScopeOf;
    forall x, y, key | x != y && Live(m, x, now) && Live(m, y, now) && ScopeOf(m.jobs[x], key)
      ensures !ScopeOf(m.jobs[y], key)
    {
      assert Holds(m, x, now);
      assert Holds(m, y, now);
    }
  }

  /** Nothing changed for one job and its locks. */
  lemma StillHolds(m: Memory, n: Memory, id: Id, now: int, later: int)
    requires Holds(m, id, now) && now <= later
    requires Live(n, id, later) ==> id in m.jobs && n.jobs[id].(availableAt := 0) == m.jobs[id].(availableAt := 0)
    requires forall key | key in m.locks && m.locks[key].owner == id && later < m.locks[key].expiresAt :: key in n.locks && n.locks[key] == m.locks[key]
    ensures Holds(n, id, later)
  {
  }

  lemma TickKeeps(m: Memory, now: int, later: int)
    requires MemoryInv(m, now) && now <= later
    ensures MemoryInv(m, later)
  {
    hide ScopeOf;
    forall id ensures Holds(m, id, later) {
      assert Holds(m, id, now);
      StillHolds(m, m, id, now, later);
    }
  }

  lemma {:induction false} CandidateIsJob(m: Memory, ids: seq<Id>, now: int, j: Job)
    requires Locked(m) && j in Candidates(m, ids, now)
    ensures j.id in m.jobs && m.jobs[j.id] == j && !j.status.Running?
  {
    if Claimable(m, ids[0], now) && j in InsertJob(m.jobs[ids[0]], Candidates(m, ids[1..], now)) {
      Inserted(m.jobs[ids[0]], Candidates(m, ids[1..], now), j);
    }
    if j in Candidates(m, ids[1..], now) {
      CandidateIsJob(m, ids[1..], now, j);
    }
  }

  lemma {:induction false} Inserted(j: Job, js: seq<Job>, x: Job)
    requires x in InsertJob(j, js)
    ensures x == j || x in js
  {
    if js != [] && Later(j, js[0]) && x != js[0] {
      Inserted(j, js[1..], x);
    }
  }

  lemma {:induction false} FirstFreeIs(locks: map<LockKey, Lock>, js: seq<Job>)
    ensures FirstFree(locks, js).Some? ==> FirstFree(locks, js).value in js && Free(locks, FirstFree(locks, js).value)
  {
    if js != [] {
      FirstFreeIs(locks, js[1..]);
    }
  }

  lemma ClaimKeeps(m: Memory, now: int, leaseMs: int, leaseId: LeaseId)
    requires MemoryInv(m, now)
    ensures MemoryInv(Claimed(m, now, leaseMs, leaseId).0, now)
  {
    var n := Claimed(m, now, leaseMs, leaseId).0;
    var locks := Unexpired(m.locks, now);
    var found := FirstFree(locks, Candidates(m, m.ids, now));
    FirstFreeIs(locks, Candidates(m, m.ids, now));
    if found.Some? {
      CandidateIsJob(m, m.ids, now, found.value);
    }
    hide Candidates, FirstFree, InstallationLock, RepositoryLock;
    forall key ensures LockOk(n, key) { assert LockOk(m, key); }
    forall id ensures Holds(n, id, now) {
      assert Holds(m, id, now);
      if found.None? || id != found.value.id {
        StillHolds(m, n, id, now, now);
      }
    }
  }

  lemma {:induction false} RecoverKeeps(m: Memory, ids: seq<Id>, now: int)
    ensures RecoveredAll(m, ids, now).jobs == m.jobs && RecoveredAll(m, ids, now).locks == m.locks
    decreases |ids|
  {
    if ids != [] {
      RecoverKeeps(if Abandoned(m, ids[0], now) then m.(transitions := m.transitions[ids[0] := Recovered(m.jobs[ids[0]], now)]) else m, ids[1..], now);
    }
  }

  lemma {:induction false} PruneKeeps(m: Memory, ids: seq<Id>, before: int, limit: nat)
    ensures Pruned(m, ids, before, limit).locks == m.locks
    ensures forall id | id in Pruned(m, ids, before, limit).jobs :: id in m.jobs && Pruned(m, ids, before, limit).jobs[id] == m.jobs[id]
    ensures forall id | id in m.jobs && m.jobs[id].status.Running? :: id in Pruned(m, ids, before, limit).jobs
    decreases |ids|
  {
    if ids != [] && limit != 0 {
      if Prunable(m, ids[0], before) {
        PruneKeeps(m.(jobs := m.jobs - {ids[0]}, ids := Without(m.ids, ids[0]), ready := m.ready - {ids[0]}, activations := m.activations - {ids[0]}),
                   ids[1..], before, limit - 1);
      } else {
        PruneKeeps(m, ids[1..], before, limit);
      }
    }
  }

  /** Changes to what does not run, and letting go of one job's locks, keep the invariant. */
  lemma OthersKeep(m: Memory, n: Memory, now: int, released: Option<Id>)
    requires MemoryInv(m, now)
    requires n.locks == if released.Some? then Unowned(m.locks, released.value) else m.locks
    requires forall id | id in n.jobs :: n.jobs[id].id == id
    requires forall id | id in n.jobs && n.jobs[id].status.Running? :: id in m.jobs && n.jobs[id] == m.jobs[id] && Some(id) != released
    requires forall id | id in m.jobs && m.jobs[id].status.Running? && Some(id) != released :: id in n.jobs && n.jobs[id] == m.jobs[id]
    ensures MemoryInv(n, now)
  {
    hide ScopeOf;
    forall key ensures LockOk(n, key) { assert LockOk(m, key); }
    forall id ensures Holds(n, id, now) { assert Holds(m, id, now); }
  }

  lemma AcknowledgeKeeps(m: Memory, now: int, job: Job)
    requires MemoryInv(m, now) && !job.status.Running?
    ensures MemoryInv(Acknowledged(m, job).0, now)
  {
    hide ScopeOf, Unowned;
    if Acknowledged(m, job).1 {
      OthersKeep(m, Acknowledged(m, job).0, now, Some(job.id));
    }
  }

  /** The locks of the job are its own. */
  predicate OwnsLocks(m: Memory, id: Id)
    requires id in m.jobs
  {
    var i, r := InstallationLock(m.jobs[id]), RepositoryLock(m.jobs[id]);
    i in m.locks && m.locks[i].owner == id && r in m.locks && m.locks[r].owner == id
  }

  /** A renewal keeps the invariant exactly when the job still owns its locks, expired or not, or the new expiry is past. */
  lemma RenewKeepsExactly(m: Memory, now: int, id: Id, leaseId: LeaseId, expiresAt: int)
    requires MemoryInv(m, now) && Renewed(m, id, leaseId, expiresAt).1
    ensures MemoryInv(Renewed(m, id, leaseId, expiresAt).0, now) <==> expiresAt <= now || OwnsLocks(m, id)
  {
    var n := Renewed(m, id, leaseId, expiresAt).0;
    hide InstallationLock, RepositoryLock;
    assert forall key :: ScopeOf(n.jobs[id], key) <==> ScopeOf(m.jobs[id], key) by { SameScope(m.jobs[id], n.jobs[id]); }
    forall key ensures LockOk(n, key) { assert LockOk(m, key); }
    forall x | x != id ensures Holds(n, x, now) { assert Holds(m, x, now); }
    if !(expiresAt <= now || OwnsLocks(m, id)) {
      var key :| ScopeOf(m.jobs[id], key) && (key !in m.locks || m.locks[key].owner != id);
      assert !Holds(n, id, now);
    }
  }

  lemma SameScope(j: Job, k: Job)
    requires j.installationId == k.installationId && j.owner == k.owner && j.repo == k.repo
    ensures InstallationLock(j) == InstallationLock(k) && RepositoryLock(j) == RepositoryLock(k)
  {
  }

  /** Right after a renewal leases exclude each other exactly when no other live job holds a lock the job needs. */
  lemma RenewExcludesExactly(m: Memory, now: int, id: Id, leaseId: LeaseId, expiresAt: int)
    requires MemoryInv(m, now) && Renewed(m, id, leaseId, expiresAt).1
    ensures Exclusive(Renewed(m, id, leaseId, expiresAt).0, now) <==>
            expiresAt <= now
            || forall key | ScopeOf(m.jobs[id], key) && key in m.locks :: m.locks[key].owner == id || !Live(m, m.locks[key].owner, now)
  {
    var n := Renewed(m, id, leaseId, expiresAt).0;
    hide InstallationLock, RepositoryLock;
    HoldersExclude(m, now);
    SameScope(m.jobs[id], n.jobs[id]);
    assert forall x | x != id :: Live(n, x, now) <==> Live(m, x, now);
    forall y, key | y != id && Live(m, y, now)
      ensures ScopeOf(m.jobs[y], key) <==> key in m.locks && m.locks[key].owner == y
    {
      assert Holds(m, y, now);
      assert LockOk(m, key);
    }
    if now < expiresAt {
      assert Live(n, id, now);
      if key :| ScopeOf(m.jobs[id], key) && key in m.locks && m.locks[key].owner != id && Live(m, m.locks[key].owner, now) {
        var y := m.locks[key].owner;
        assert Live(n, y, now) && ScopeOf(n.jobs[id], key) && ScopeOf(n.jobs[y], key);
      } else {
        forall x, y, key | x != y && Live(n, x, now) && Live(n, y, now) && ScopeOf(n.jobs[x], key)
          ensures !ScopeOf(n.jobs[y], key)
        {
          assert x != id ==> n.jobs[x] == m.jobs[x];
          assert y != id ==> n.jobs[y] == m.jobs[y];
          assert ScopeOf(n.jobs[id], key) <==> ScopeOf(m.jobs[id], key);
        }
      }
    } else {
      assert forall x | Live(n, x, now) :: x != id && n.jobs[x] == m.jobs[x];
    }
  }

  ghost predicate Timely(m: Memory, now: int, a: Action) {
    a.Renew? && Renewed(m, a.id, a.leaseId, a.expiresAt).1 ==> a.expiresAt <= now || OwnsLocks(m, a.id)
  }

  lemma NextKeeps(m: Memory, now: int, a: Action)
    requires MemoryInv(m, now) && Enabled(m, a) && Timely(m, now, a)
    ensures MemoryInv(Next(m, now, a), now)
  {
    match a
    case Claim(leaseMs, leaseId) => ClaimingKeeps(m, now, leaseMs, leaseId);
    case Acknowledge(job) => AcknowledgingKeeps(m, now, job);
    case Renew(id, leaseId, expiresAt) => RenewingKeeps(m, now, id, leaseId, expiresAt);
    case Recover => RecoveringKeeps(m, now);
    case Prune(before, limit) => PruningKeeps(m, now, before, limit);
    case Create(job, aliases) => CreatingKeeps(m, now, job, aliases);
    case _ => WaitingKeeps(m, now, a);
    hide *;
  }

  lemma CreatingKeeps(m: Memory, now: int, job: Job, aliases: seq<string>)
    requires MemoryInv(m, now) && Enabled(m, Create(job, aliases))
    ensures MemoryInv(Next(m, now, Create(job, aliases)), now)
  {
    assert forall id | id in m.jobs :: m.jobs[id].id == id;
    hide FindExisting, Attach, SetAll, MemoryInv;
    OthersKeep(m, Created(m, job, aliases).0, now, None);
  }

  /** Activating, failing an activation and staging change neither locks nor running jobs. */
  lemma WaitingKeeps(m: Memory, now: int, a: Action)
    requires MemoryInv(m, now) && (a.Activate? || a.FailActivation? || a.Stage?)
    ensures MemoryInv(Next(m, now, a), now)
  {
    assert forall id | id in m.jobs :: m.jobs[id].id == id;
    hide MemoryInv;
    OthersKeep(m, Next(m, now, a), now, None);
  }

  lemma ClaimingKeeps(m: Memory, now: int, leaseMs: int, leaseId: LeaseId)
    requires MemoryInv(m, now) && Enabled(m, Claim(leaseMs, leaseId))
    ensures MemoryInv(Next(m, now, Claim(leaseMs, leaseId)), now)
  {
    hide Claimed, MemoryInv;
    ClaimKeeps(m, now, leaseMs, leaseId);
  }

  lemma AcknowledgingKeeps(m: Memory, now: int, job: Job)
    requires MemoryInv(m, now) && Enabled(m, Acknowledge(job))
    ensures MemoryInv(Next(m, now, Acknowledge(job)), now)
  {
    hide Acknowledged, MemoryInv;
    AcknowledgeKeeps(m, now, job);
  }

  lemma RenewingKeeps(m: Memory, now: int, id: Id, leaseId: LeaseId, expiresAt: int)
    requires MemoryInv(m, now) && Enabled(m, Renew(id, leaseId, expiresAt)) && Timely(m, now, Renew(id, leaseId, expiresAt))
    ensures MemoryInv(Next(m, now, Renew(id, leaseId, expiresAt)), now)
  {
    hide ScopeOf, OwnsLocks;
    if Renewed(m, id, leaseId, expiresAt).1 {
      RenewKeepsExactly(m, now, id, leaseId, expiresAt);
    }
  }

  lemma RecoveringKeeps(m: Memory, now: int)
    requires MemoryInv(m, now)
    ensures MemoryInv(Next(m, now, Recover), now)
  {
    RecoverKeeps(m, m.ids, now);
    OthersKeep(m, Next(m, now, Recover), now, None);
  }

  lemma PruningKeeps(m: Memory, now: int, before: int, limit: nat)
    requires MemoryInv(m, now)
    ensures MemoryInv(Next(m, now, Prune(before, limit)), now)
  {
    PruneKeeps(m, m.ids, before, limit);
    OthersKeep(m, Next(m, now, Prune(before, limit)), now, None);
  }

  /** An action and the time at which it happens. */
  datatype Timed = At(now: int, a: Action)

  ghost predicate Reaches(m: Memory, now: int, run: seq<Timed>, n: Memory, later: int)
    decreases |run|
  {
    if run == [] then m == n && now <= later
    else now <= run[0].now && Enabled(m, run[0].a) && Reaches(Next(m, run[0].now, run[0].a), run[0].now, run[1..], n, later)
  }

  ghost predicate AllTimely(m: Memory, run: seq<Timed>)
    decreases |run|
  {
    run != [] ==> Timely(m, run[0].now, run[0].a) && AllTimely(Next(m, run[0].now, run[0].a), run[1..])
  }

  /** In every run whose renewals come while the job owns its locks, live leases exclude each other at all times. */
  lemma {:induction false} TimelyRunsExclude(m: Memory, now: int, run: seq<Timed>, n: Memory, later: int)
    requires MemoryInv(m, now) && Reaches(m, now, run, n, later) && AllTimely(m, run)
    ensures MemoryInv(n, later) && Exclusive(n, later)
    decreases |run|
  {
    hide MemoryInv, Enabled, Timely, Next, Exclusive;
    if run == [] {
      TickKeeps(m, now, later);
      HoldersExclude(m, later);
    } else {
      TickKeeps(m, now, run[0].now);
      NextKeeps(m, run[0].now, run[0].a);
      TimelyRunsExclude(Next(m, run[0].now, run[0].a), run[0].now, run[1..], n, later);
    }
  }

  lemma ExclusiveFromEmpty(now: int, run: seq<Timed>, n: Memory, later: int)
    requires Reaches(EMPTY, now, run, n, later) && AllTimely(EMPTY, run)
    ensures Exclusive(n, later)
  {
    assert MemoryInv(EMPTY, now);
    TimelyRunsExclude(EMPTY, now, run, n, later);
  }

  // ----- a late renewal

  function Fresh(id: Id, createdAt: int): Job {
    Job(id, 1, "o", id, Queued, 0, 3, createdAt, 0, 0, None, None, None, None, None)
  }

  function First(): Job { Fresh("a", 0) }
  function Second(): Job { Fresh("b", 1) }

  /** Two jobs of one installation, of which some are ready or have their locks. */
  function Two(a: Job, b: Job, locks: map<LockKey, Lock>, ready: set<Id>, activations: set<Id>): Memory {
    Memory(map["a" := a, "b" := b], ["a", "b"], locks, map[], map[], ready, activations)
  }

  function LocksOf(j: Job, until: int): map<LockKey, Lock> {
    map[InstallationLock(j) := Lock(j.id, until), RepositoryLock(j) := Lock(j.id, until)]
  }

  lemma CreateTwo()
    ensures Next(Next(EMPTY, 0, Create(First(), [])), 0, Create(Second(), [])) == Two(First(), Second(), map[], {}, {"a", "b"})
    ensures Enabled(EMPTY, Create(First(), [])) && Enabled(Next(EMPTY, 0, Create(First(), [])), Create(Second(), []))
  {
    assert Created(EMPTY, First(), []).0 == Memory(map["a" := First()], ["a"], map[], map[], map[], {}, {"a"});
  }

  lemma ActivateTwo()
    ensures Next(Next(Two(First(), Second(), map[], {}, {"a", "b"}), 0, Activate("a")), 0, Activate("b"))
            == Two(First(), Second(), map[], {"a", "b"}, {})
  {
    assert Activated(Two(First(), Second(), map[], {}, {"a", "b"}), "a").0 == Two(First(), Second(), map[], {"a"}, {"b"});
  }

  lemma ClaimFirst()
    ensures var a := Lease(First(), 0, 10, "la");
            Next(Two(First(), Second(), map[], {"a", "b"}, {}), 0, Claim(10, "la")) == Two(a, Second(), LocksOf(First(), 10), {"b"}, {})
  {
    hide InstallationLock, RepositoryLock;
    var m := Two(First(), Second(), map[], {"a", "b"}, {});
    assert Candidates(m, [], 0) == [] && m.ids[1..] == ["b"] && ["b"][1..] == [];
    assert Candidates(m, ["b"], 0) == [Second()];
    assert Candidates(m, ["a", "b"], 0) == [First(), Second()];
    assert Unexpired(map[], 0) == map[];
  }

  lemma ClaimSecond()
    ensures var a, b := Lease(First(), 0, 10, "la"), Lease(Second(), 10, 10, "lb");
            Next(Two(a, Second(), LocksOf(First(), 10), {"b"}, {}), 10, Claim(10, "lb")) == Two(a, b, LocksOf(Second(), 20), {}, {})
  {
    hide InstallationLock, RepositoryLock;
    var m := Two(Lease(First(), 0, 10, "la"), Second(), LocksOf(First(), 10), {"b"}, {});
    assert Candidates(m, [], 10) == [] && m.ids[1..] == ["b"] && ["b"][1..] == [];
    assert Candidates(m, ["b"], 10) == [Second()];
    assert Candidates(m, ["a", "b"], 10) == [Second()];
    assert Unexpired(LocksOf(First(), 10), 10) == map[];
    assert m.jobs["b" := Lease(Second(), 10, 10, "lb")] == map["a" := m.jobs["a"], "b" := Lease(Second(), 10, 10, "lb")];
  }

  lemma RenewFirst()
    ensures var a, b := Lease(First(), 0, 10, "la"), Lease(Second(), 10, 10, "lb");
            var m := Two(a, b, LocksOf(Second(), 20), {}, {});
            Renewed(m, "a", "la", 20).1 && !Exclusive(Next(m, 10, Renew("a", "la", 20)), 10)
  {
    var m := Two(Lease(First(), 0, 10, "la"), Lease(Second(), 10, 10, "lb"), LocksOf(Second(), 20), {}, {});
    var n := Next(m, 10, Renew("a", "la", 20));
    hide RepositoryLock, Extended, LocksOf;
    assert Live(n, "a", 10) && Live(n, "b", 10);
    assert ScopeOf(n.jobs["a"], Installation(1)) && ScopeOf(n.jobs["b"], Installation(1));
  }

  lemma StepBefore(m: Memory, now: int, step: Timed, run: seq<Timed>, n: Memory, later: int)
    requires now <= step.now && Enabled(m, step.a) && Reaches(Next(m, step.now, step.a), step.now, run, n, later)
    ensures Reaches(m, now, [step] + run, n, later)
  {
    hide Enabled, Next;
    assert ([step] + run)[1..] == run;
  }

  /** A worker that renews after its lease ran out and its locks passed on: two live leases of one installation. */
  lemma LateRenewalBreaksExclusion()
    ensures exists run, m :: Reaches(EMPTY, 0, run, m, 10) && !Exclusive(m, 10)
  {
    hide Next, Exclusive, Two, LocksOf, Lease, First, Second;
    CreateTwo();
    ActivateTwo();
    ClaimFirst();
    ClaimSecond();
    RenewFirst();
    var m1 := Next(EMPTY, 0, Create(First(), []));
    var m2 := Two(First(), Second(), map[], {}, {"a", "b"});
    var m3 := Next(m2, 0, Activate("a"));
    var m4 := Two(First(), Second(), map[], {"a", "b"}, {});
    var m5 := Two(Lease(First(), 0, 10, "la"), Second(), LocksOf(First(), 10), {"b"}, {});
    var m6 := Two(Lease(First(), 0, 10, "la"), Lease(Second(), 10, 10, "lb"), LocksOf(Second(), 20), {}, {});
    var m7 := Next(m6, 10, Renew("a", "la", 20));
    assert Reaches(m7, 10, [], m7, 10);
    hide Reaches;
    StepBefore(m6, 10, At(10, Renew("a", "la", 20)), [], m7, 10);
    var run6 := [At(10, Renew("a", "la", 20))] + [];
    StepBefore(m5, 0, At(10, Claim(10, "lb")), run6, m7, 10);
    var run5 := [At(10, Claim(10, "lb"))] + run6;
    StepBefore(m4, 0, At(0, Claim(10, "la")), run5, m7, 10);
    var run4 := [At(0, Claim(10, "la"))] + run5;
    StepBefore(m3, 0, At(0, Activate("b")), run4, m7, 10);
    var run3 := [At(0, Activate("b"))] + run4;
    StepBefore(m2, 0, At(0, Activate("a")), run3, m7, 10);
    var run2 := [At(0, Activate("a"))] + run3;
    StepBefore(m1, 0, At(0, Create(Second(), [])), run2, m7, 10);
    var run1 := [At(0, Create(Second(), []))] + run2;
    StepBefore(EMPTY, 0, At(0, Create(First(), [])), run1, m7, 10);
  }
}
