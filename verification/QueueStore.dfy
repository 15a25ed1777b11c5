// The durable review queue as values: what is stored, and what each atomic script makes of it.
module QueueStore {
  import opened Wrappers

  type Id = string
  type LeaseId = string
  type Score = int

  datatype Status = Queued | Running | Retrying | Failed | Completed

  datatype Job = Job(
    id: Id, installationId: int, owner: string, repo: string,
    status: Status, attempts: nat, maxAttempts: int,
    createdAt: int, updatedAt: int, availableAt: int,
    startedAt: Option<int>, completedAt: Option<int>,
    leaseId: Option<LeaseId>, leaseExpiresAt: Option<int>, lastError: Option<string>)

  /** A staged outcome: the job as it is to become, and the review's result when it completed. */
  datatype Transition = Transition(job: Job, result: Option<string>)

  datatype LockKey = Installation(installationId: int) | Repository(name: string)

  datatype Lock = Lock(owner: Id, expiresAt: int)

  /** Keys, sorted sets and the server clock. A lock past its expiry counts as absent. */
  datatype Store = Store(
    jobs: map<Id, Job>,
    scheduled: map<Id, Score>, active: map<Id, Score>, activation: map<Id, Score>,
    all: map<Id, Score>, terminal: map<Id, Score>, transitionIndex: map<Id, Score>,
    transitions: map<Id, Transition>,
    locks: map<LockKey, Lock>,
    aliases: map<string, Id>,
    clock: int)

  const CLAIM_LIMIT := 250
  const LOCK_CONTENTION_DELAY_MS := 5_000

  function LowerChar(c: char): char {
    if 'A' <= c <= 'Z' then (c as int + 32) as char else c
  }

  function Lower(s: string): string {
    seq(|s|, i requires 0 <= i < |s| => LowerChar(s[i]))
  }

  function InstallationLock(j: Job): LockKey {
    Installation(j.installationId)
  }

  function RepositoryLock(j: Job): LockKey {
    Repository(Lower(j.owner) + "/" + Lower(j.repo))
  }

  predicate Held(locks: map<LockKey, Lock>, clock: int, key: LockKey) {
    key in locks && clock < locks[key].expiresAt
  }

  /** DEL key if GET key == id */
  function Release(locks: map<LockKey, Lock>, clock: int, key: LockKey, id: Id): map<LockKey, Lock> {
    if Held(locks, clock, key) && locks[key].owner == id then locks - {key} else locks
  }

  // ----- replies of ZRANGEBYSCORE

  predicate LexLess(s: string, t: string) {
    t != [] && (s == [] || s[0] < t[0] || (s[0] == t[0] && LexLess(s[1..], t[1..])))
  }

  predicate Before(z: map<Id, Score>, x: Id, y: Id)
    requires x in z && y in z
  {
    z[x] < z[y] || (z[x] == z[y] && LexLess(x, y))
  }

  predicate Distinct(ids: seq<Id>) {
    forall i, j | 0 <= i < j < |ids| :: ids[i] != ids[j]
  }

  /** The first `limit` members with score at most `max`, by score and then by name. */
  ghost predicate IsRange(z: map<Id, Score>, max: int, limit: nat, ids: seq<Id>) {
    && Distinct(ids) && |ids| <= limit
    && (forall id | id in ids :: id in z && z[id] <= max)
    && (forall i, j | 0 <= i < j < |ids| :: Before(z, ids[i], ids[j]))
    && (forall id | id in z && z[id] <= max && id !in ids ::
          |ids| == limit && forall other | other in ids :: Before(z, other, id))
  }

  // ----- createScript

  function AttachAliases(aliases: map<string, Id>, keys: seq<string>, id: Id): map<string, Id>
    decreases |keys|
  {
    if keys == [] then aliases
    else
      var key := keys[0];
      AttachAliases(if key !in aliases || aliases[key] == id then aliases[key := id] else aliases, keys[1..], id)
  }

  /** Looks the keys up in order, dropping those whose job is gone; the first live job found is returned. */
  function FindExisting(jobs: map<Id, Job>, aliases: map<string, Id>, keys: seq<string>): (map<string, Id>, Option<Job>)
    decreases |keys|
  {
    if keys == [] then (aliases, None)
    else
      var key := keys[0];
      if key !in aliases then FindExisting(jobs, aliases, keys[1..])
      else if aliases[key] in jobs then (aliases, Some(jobs[aliases[key]]))
      else FindExisting(jobs, aliases - {key}, keys[1..])
  }

  function Create(s: Store, job: Job, keys: seq<string>): (Store, Job) {
    var (aliases, existing) := FindExisting(s.jobs, s.aliases, keys);
    match existing
    case Some(found) => (s.(aliases := AttachAliases(aliases, keys, found.id)), found)
    case None =>
      (s.(aliases := AttachAliases(aliases, keys, job.id), jobs := s.jobs[job.id := job],
          all := s.all[job.id := job.createdAt], activation := s.activation[job.id := job.createdAt]), job)
  }

  // ----- activateScript, failActivationScript

  function Activate(s: Store, id: Id): (Store, bool) {
    if id !in s.jobs || !s.jobs[id].status.Queued? then (s, false)
    else (s.(scheduled := s.scheduled[id := s.jobs[id].availableAt], activation := s.activation - {id}), true)
  }

  function FailActivation(s: Store, id: Id, failedAt: int, error: string): (Store, bool) {
    if id !in s.jobs || id !in s.activation || !s.jobs[id].status.Queued? then (s, false)
    else
      var job := s.jobs[id].(status := Failed, updatedAt := failedAt, completedAt := Some(failedAt), lastError := Some(error));
      (s.(jobs := s.jobs[id := job], activation := s.activation - {id}, scheduled := s.scheduled - {id},
          terminal := s.terminal[id := failedAt]), true)
  }

  // ----- claimScript

  function Defer(s: Store, id: Id, now: int): Store
    requires id in s.jobs
  {
    var at := now + LOCK_CONTENTION_DELAY_MS;
    s.(jobs := s.jobs[id := s.jobs[id].(availableAt := at, updatedAt := now)], scheduled := s.scheduled[id := at])
  }

  function Lease(j: Job, now: int, leaseMs: int, leaseId: LeaseId): Job {
    j.(status := Running, attempts := j.attempts + 1, updatedAt := now, startedAt := Some(now),
       leaseId := Some(leaseId), leaseExpiresAt := Some(now + leaseMs))
  }

  /** Takes both locks, which expire leaseMs from the server's clock, and the lease, which expires leaseMs from `now`. */
  function Take(s: Store, id: Id, now: int, leaseMs: int, leaseId: LeaseId): Store
    requires id in s.jobs
  {
    var job := s.jobs[id];
    var lock := Lock(id, s.clock + leaseMs);
    s.(locks := s.locks[InstallationLock(job) := lock][RepositoryLock(job) := lock],
       jobs := s.jobs[id := Lease(job, now, leaseMs, leaseId)], scheduled := s.scheduled - {id}, active := s.active[id := now + leaseMs])
  }

  /** One candidate: claimed if its two locks are both free, otherwise put off. */
  function ClaimOne(s: Store, now: int, leaseMs: int, leaseId: LeaseId, id: Id): (Store, Option<Job>) {
    if id !in s.jobs then (s.(scheduled := s.scheduled - {id}), None)
    else
      var job := s.jobs[id];
      if Held(s.locks, s.clock, InstallationLock(job)) then (Defer(s, id, now), None)
      else if Held(s.locks, s.clock, RepositoryLock(job)) then
        (Defer(s.(locks := s.locks - {InstallationLock(job)}), id, now), None)
      else (Take(s, id, now, leaseMs, leaseId), Some(Lease(job, now, leaseMs, leaseId)))
  }

  /** The candidates in order, until one is claimed. */
  function Claim(s: Store, now: int, leaseMs: int, leaseId: LeaseId, candidates: seq<Id>): (Store, Option<Job>)
    decreases |candidates|
  {
    if candidates == [] then (s, None)
    else
      var (next, claimed) := ClaimOne(s, now, leaseMs, leaseId, candidates[0]);
      if claimed.Some? then (next, claimed) else Claim(next, now, leaseMs, leaseId, candidates[1..])
  }

  // ----- stageTransitionScript, acknowledgeTransitionScript

  function Stage(s: Store, t: Transition): (Store, bool) {
    var id := t.job.id;
    if id !in s.jobs || id in s.transitions then (s, false)
    else if !s.jobs[id].status.Running? || s.jobs[id].leaseId != t.job.leaseId then (s, false)
    else (s.(transitions := s.transitions[id := t], transitionIndex := s.transitionIndex[id := t.job.updatedAt]), true)
  }

  function Settled(t: Transition): Job {
    t.job.(leaseId := None, leaseExpiresAt := None)
  }

  predicate Reschedules(status: Status) {
    status.Retrying? || status.Queued?
  }

  /** Only the id comes from the caller: what is applied is the transition that is pending now. */
  function Acknowledge(s: Store, id: Id): (Store, bool) {
    if id !in s.transitions || id !in s.jobs then (s, false)
    else
      var t := s.transitions[id];
      var current := s.jobs[id];
      if current.leaseId != t.job.leaseId then (s, false)
      else
        var locks := Release(Release(s.locks, s.clock, InstallationLock(current), id), s.clock, RepositoryLock(current), id);
        var unscheduled := s.scheduled - {id};
        var scheduled := if Reschedules(t.job.status) then unscheduled[id := t.job.availableAt] else unscheduled;
        var terminal :=
          if Reschedules(t.job.status) || t.job.completedAt.None? then s.terminal else s.terminal[id := t.job.completedAt.value];
        (s.(jobs := s.jobs[id := Settled(t)], scheduled := scheduled, terminal := terminal,
            active := s.active - {id}, transitionIndex := s.transitionIndex - {id}, transitions := s.transitions - {id},
            locks := locks), true)
  }

  // ----- recoverScript

  const LEASE_EXPIRED := "Worker lease expired"

  function Recovery(j: Job, now: int): Transition {
    var expired := j.(updatedAt := now, lastError := Some(LEASE_EXPIRED), leaseExpiresAt := None);
    Transition(
      if j.attempts >= j.maxAttempts then expired.(status := Failed, completedAt := Some(now))
      else expired.(status := Retrying, availableAt := now),
      None)
  }

  predicate Expired(j: Job, now: int) {
    j.status.Running? && j.leaseExpiresAt.Some? && j.leaseExpiresAt.value <= now
  }

  /** One candidate: nothing while a transition is pending; otherwise its recovery is staged and it leaves the index. */
  function RecoverOne(s: Store, now: int, id: Id): Store {
    if id in s.transitions then s
    else
      var staged :=
        if id in s.jobs && Expired(s.jobs[id], now) then
          s.(transitions := s.transitions[id := Recovery(s.jobs[id], now)], transitionIndex := s.transitionIndex[id := now])
        else s;
      staged.(active := staged.active - {id})
  }

  function Recover(s: Store, now: int, expired: seq<Id>): Store
    decreases |expired|
  {
    if expired == [] then s else Recover(RecoverOne(s, now, expired[0]), now, expired[1..])
  }

  // ----- renewScript, pruneTerminalScript

  function Renew(s: Store, id: Id, leaseId: LeaseId, expiresAt: int): (Store, bool) {
    if id !in s.jobs then (s, false)
    else
      var job := s.jobs[id];
      var installation, repository := InstallationLock(job), RepositoryLock(job);
      if !job.status.Running? || job.leaseId != Some(leaseId) then (s, false)
      else if !(Held(s.locks, s.clock, installation) && s.locks[installation].owner == id) then (s, false)
      else if !(Held(s.locks, s.clock, repository) && s.locks[repository].owner == id) then (s, false)
      else
        var lock := Lock(id, expiresAt);
        (s.(jobs := s.jobs[id := job.(leaseExpiresAt := Some(expiresAt))], active := s.active[id := expiresAt],
            locks := s.locks[installation := lock][repository := lock]), true)
  }

  function PruneOne(s: Store, id: Id): Store {
    s.(jobs := s.jobs - {id}, all := s.all - {id}, terminal := s.terminal - {id})
  }

  function Prune(s: Store, ids: seq<Id>): Store
    decreases |ids|
  {
    if ids == [] then s else Prune(PruneOne(s, ids[0]), ids[1..])
  }
}
