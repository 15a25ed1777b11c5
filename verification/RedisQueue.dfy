// src/lib/redis-review-queue-store.ts: the scripts, command by command, against the values of QueueStore.
module RedisQueue {
  import opened Wrappers
  import opened QueueStore
  import Q = QueueStore

  class RedisReviewQueueStore {
    var jobs: map<Id, Job>
    var scheduled: map<Id, Score>
    var active: map<Id, Score>
    var activation: map<Id, Score>
    var all: map<Id, Score>
    var terminal: map<Id, Score>
    var transitionIndex: map<Id, Score>
    var transitions: map<Id, Transition>
    var locks: map<LockKey, Lock>
    var aliases: map<string, Id>
    var clock: int

    ghost function State(): Store
      reads this
    {
      Store(jobs, scheduled, active, activation, all, terminal, transitionIndex, transitions, locks, aliases, clock)
    }

    constructor (now: int)
      ensures State() == Store(map[], map[], map[], map[], map[], map[], map[], map[], map[], map[], now)
    {
      jobs, scheduled, active, activation, all := map[], map[], map[], map[], map[];
      terminal, transitionIndex, transitions, locks, aliases := map[], map[], map[], map[], map[];
      clock := now;
    }

    // SET key value NX PX: refused while an unexpired lock exists.
    method SetLockIfAbsent(key: LockKey, id: Id, ttlMs: int) returns (acquired: bool)
      modifies this`locks
      ensures acquired == !Held(old(locks), clock, key)
      ensures locks == if acquired then old(locks)[key := Lock(id, clock + ttlMs)] else old(locks)
    {
      acquired := !Held(locks, clock, key);
      if acquired {
        locks := locks[key := Lock(id, clock + ttlMs)];
      }
    }

    // if GET key == id then DEL key
    method ReleaseLock(key: LockKey, id: Id)
      modifies this`locks
      ensures locks == Release(old(locks), clock, key, id)
      ensures forall other | other in old(locks) && old(locks)[other].owner != id :: other in locks && locks[other] == old(locks)[other]
    {
      if Held(locks, clock, key) && locks[key].owner == id {
        locks := locks - {key};
      }
    }

    method AttachAliases(keys: seq<string>, id: Id)
      modifies this`aliases
      ensures aliases == Q.AttachAliases(old(aliases), keys, id)
    {
      ghost var expected := Q.AttachAliases(aliases, keys, id);
      for i := 0 to |keys|
        invariant Q.AttachAliases(aliases, keys[i..], id) == expected
      {
        if keys[i] !in aliases || aliases[keys[i]] == id {
          aliases := aliases[keys[i] := id];
        }
        assert keys[i..][1..] == keys[i + 1..];
      }
    }

    method Create(job: Job, keys: seq<string>) returns (stored: Job)
      modifies this
      ensures (State(), stored) == Q.Create(old(State()), job, keys)
    {
      for i := 0 to |keys|
        invariant State() == old(State()).(aliases := aliases)
        invariant FindExisting(jobs, aliases, keys[i..]) == FindExisting(jobs, old(aliases), keys)
        invariant forall k | 0 <= k < i :: keys[k] !in aliases
      {
        var key := keys[i];
        assert keys[i..][1..] == keys[i + 1..];
        if key in aliases {
          var existingId := aliases[key];
          if existingId in jobs {
            stored := jobs[existingId];
            AttachAliases(keys, stored.id);
            return;
          }
          aliases := aliases - {key};
        }
      }
      if |keys| > 0 {
        // SET NX is always accepted: no key is left by now.
        assert aliases[keys[0] := job.id][keys[0] := job.id] == aliases[keys[0] := job.id];
        aliases := aliases[keys[0] := job.id];
        AttachAliases(keys, job.id);
      }
      jobs := jobs[job.id := job];
      all := all[job.id := job.createdAt];
      activation := activation[job.id := job.createdAt];
      stored := job;
    }

    method Activate(id: Id) returns (activated: bool)
      modifies this
      ensures (State(), activated) == Q.Activate(old(State()), id)
    {
      if id !in jobs { return false; }
      var job := jobs[id];
      if !job.status.Queued? { return false; }
      scheduled := scheduled[id := job.availableAt];
      activation := activation - {id};
      return true;
    }

    method FailActivation(id: Id, failedAt: int, error: string) returns (failed: bool)
      modifies this
      ensures (State(), failed) == Q.FailActivation(old(State()), id, failedAt, error)
    {
      if id !in jobs || id !in activation { return false; }
      var job := jobs[id];
      if !job.status.Queued? { return false; }
      job := job.(status := Failed, updatedAt := failedAt, completedAt := Some(failedAt), lastError := Some(error));
      jobs := jobs[id := job];
      activation := activation - {id};
      scheduled := scheduled - {id};
      terminal := terminal[id := failedAt];
      return true;
    }

    method DeferLockedJob(id: Id, now: int)
      requires id in jobs
      modifies this
      ensures State() == Defer(old(State()), id, now)
    {
      var job := jobs[id];
      job := job.(availableAt := now + LOCK_CONTENTION_DELAY_MS, updatedAt := now);
      jobs := jobs[id := job];
      scheduled := scheduled[id := job.availableAt];
    }

    // Both locks or neither.
    method AcquireLocks(job: Job, id: Id, leaseMs: int) returns (acquired: bool)
      modifies this`locks
      ensures acquired == !(Held(old(locks), clock, InstallationLock(job)) || Held(old(locks), clock, RepositoryLock(job)))
      ensures acquired ==>
                locks == old(locks)[InstallationLock(job) := Lock(id, clock + leaseMs)][RepositoryLock(job) := Lock(id, clock + leaseMs)]
      ensures !acquired && 0 < leaseMs ==>
                locks == if Held(old(locks), clock, InstallationLock(job)) then old(locks) else old(locks) - {InstallationLock(job)}
    {
      var installationLock, repositoryLock := InstallationLock(job), RepositoryLock(job);
      acquired := SetLockIfAbsent(installationLock, id, leaseMs);
      if acquired {
        acquired := SetLockIfAbsent(repositoryLock, id, leaseMs);
        if !acquired {
          ReleaseLock(installationLock, id);
          assert 0 < leaseMs ==> locks == old(locks) - {installationLock};
        }
      }
    }

    // The body of the claim loop.
    method ClaimCandidate(now: int, leaseMs: int, leaseId: LeaseId, id: Id) returns (claimed: Option<Job>)
      requires 0 < leaseMs
      modifies this
      ensures (State(), claimed) == ClaimOne(old(State()), now, leaseMs, leaseId, id)
    {
      hide Lower, Held;
      if id !in jobs {
        scheduled := scheduled - {id};
        return None;
      }
      var job := jobs[id];
      var acquired := AcquireLocks(job, id, leaseMs);
      if !acquired {
        DeferLockedJob(id, now);
        return None;
      }
      job := job.(status := Running, attempts := job.attempts + 1, updatedAt := now, startedAt := Some(now),
                  leaseId := Some(leaseId), leaseExpiresAt := Some(now + leaseMs));
      assert job == Lease(old(jobs)[id], now, leaseMs, leaseId);
      hide Lease, InstallationLock, RepositoryLock;
      jobs := jobs[id := job];
      scheduled := scheduled - {id};
      active := active[id := now + leaseMs];
      return Some(job);
    }

    method Claim(now: int, leaseMs: int, leaseId: LeaseId, candidates: seq<Id>) returns (claimed: Option<Job>)
      requires 0 < leaseMs
      requires IsRange(scheduled, now, CLAIM_LIMIT, candidates)
      modifies this
      ensures (State(), claimed) == Q.Claim(old(State()), now, leaseMs, leaseId, candidates)
    {
      hide ClaimOne;
      ghost var expected := Q.Claim(State(), now, leaseMs, leaseId, candidates);
      for i := 0 to |candidates|
        invariant Q.Claim(State(), now, leaseMs, leaseId, candidates[i..]) == expected
      {
        assert candidates[i..][1..] == candidates[i + 1..];
        claimed := ClaimCandidate(now, leaseMs, leaseId, candidates[i]);
        if claimed.Some? {
          return;
        }
      }
      return None;
    }

    method StageTransition(transition: Transition) returns (staged: bool)
      modifies this
      ensures (State(), staged) == Stage(old(State()), transition)
      ensures !staged ==> State() == old(State())
      ensures staged ==> transition.job.id !in old(transitions) && State() == old(State()).(transitions := transitions, transitionIndex := transitionIndex)
    {
      var id := transition.job.id;
      if id !in jobs || id in transitions { return false; }
      var current := jobs[id];
      if !current.status.Running? || current.leaseId != transition.job.leaseId { return false; }
      transitions := transitions[id := transition];
      transitionIndex := transitionIndex[id := transition.job.updatedAt];
      return true;
    }

    // The index updates of an acknowledgement, before the locks are released.
    method Settle(id: Id, proposed: Job)
      requires Reschedules(proposed.status) || proposed.completedAt.Some?
      modifies this`jobs, this`scheduled, this`active, this`terminal, this`transitionIndex, this`transitions
      ensures jobs == old(jobs)[id := proposed]
      ensures scheduled == if Reschedules(proposed.status) then (old(scheduled) - {id})[id := proposed.availableAt] else old(scheduled) - {id}
      ensures terminal == if Reschedules(proposed.status) then old(terminal) else old(terminal)[id := proposed.completedAt.value]
      ensures active == old(active) - {id} && transitionIndex == old(transitionIndex) - {id}
      ensures transitions == old(transitions) - {id}
    {
      scheduled := scheduled - {id};
      active := active - {id};
      transitionIndex := transitionIndex - {id};
      if proposed.status.Retrying? || proposed.status.Queued? {
        jobs := jobs[id := proposed];
        scheduled := scheduled[id := proposed.availableAt];
      } else {
        jobs := jobs[id := proposed];
        terminal := terminal[id := proposed.completedAt.value];
      }
      transitions := transitions - {id};
    }

    method AcknowledgeTransition(id: Id) returns (acknowledged: bool)
      requires id in transitions && !Reschedules(transitions[id].job.status) ==> transitions[id].job.completedAt.Some?
      modifies this
      ensures (State(), acknowledged) == Acknowledge(old(State()), id)
      ensures !acknowledged ==> State() == old(State())
      ensures forall key | key in old(locks) && old(locks)[key].owner != id :: key in locks && locks[key] == old(locks)[key]
      ensures forall other | other != id :: other in jobs <==> other in old(jobs)
      ensures forall other | other != id && other in jobs :: jobs[other] == old(jobs)[other]
    {
      hide Lower, Held, Release;
      if id !in transitions || id !in jobs { return false; }
      var proposed, current := transitions[id].job, jobs[id];
      if current.leaseId != proposed.leaseId { return false; }
      proposed := proposed.(leaseId := None, leaseExpiresAt := None);
      Settle(id, proposed);
      ReleaseLock(InstallationLock(current), id);
      ReleaseLock(RepositoryLock(current), id);
      return true;
    }

    // The body of the recovery loop.
    method RecoverCandidate(now: int, id: Id)
      modifies this`transitions, this`transitionIndex, this`active
      ensures State() == RecoverOne(old(State()), now, id)
    {
      if id !in transitions {
        if id in jobs {
          var job := jobs[id];
          if job.status.Running? && job.leaseExpiresAt.Some? && job.leaseExpiresAt.value <= now {
            job := job.(updatedAt := now, lastError := Some(LEASE_EXPIRED), leaseExpiresAt := None);
            if job.attempts >= job.maxAttempts {
              job := job.(status := Failed, completedAt := Some(now));
            } else {
              job := job.(status := Retrying, availableAt := now);
            }
            transitions := transitions[id := Transition(job, None)];
            transitionIndex := transitionIndex[id := now];
          }
        }
        active := active - {id};
      }
    }

    method RecoverExpired(now: int, expired: seq<Id>)
      requires IsRange(active, now, |active|, expired)
      modifies this
      ensures State() == Recover(old(State()), now, expired)
    {
      hide RecoverOne;
      ghost var expected := Recover(State(), now, expired);
      for i := 0 to |expired|
        invariant Recover(State(), now, expired[i..]) == expected
      {
        assert expired[i..][1..] == expired[i + 1..];
        RecoverCandidate(now, expired[i]);
      }
    }

    method Renew(id: Id, leaseId: LeaseId, expiresAt: int) returns (renewed: bool)
      modifies this
      ensures (State(), renewed) == Q.Renew(old(State()), id, leaseId, expiresAt)
      ensures !renewed ==> State() == old(State())
      ensures forall key | key in old(locks) && old(locks)[key].owner != id :: key in locks && locks[key] == old(locks)[key]
      ensures forall key | key in locks :: key in old(locks) && locks[key].owner == old(locks)[key].owner
    {
      if id !in jobs { return false; }
      var job := jobs[id];
      if !job.status.Running? || job.leaseId != Some(leaseId) { return false; }
      var installation, repository := InstallationLock(job), RepositoryLock(job);
      if !(Held(locks, clock, installation) && locks[installation].owner == id)
         || !(Held(locks, clock, repository) && locks[repository].owner == id) {
        return false;
      }
      jobs := jobs[id := job.(leaseExpiresAt := Some(expiresAt))];
      active := active[id := expiresAt];
      locks := locks[installation := locks[installation].(expiresAt := expiresAt)];
      locks := locks[repository := locks[repository].(expiresAt := expiresAt)];
      return true;
    }

    method PruneTerminal(completedBefore: int, limit: nat, ids: seq<Id>) returns (count: nat)
      requires IsRange(terminal, completedBefore, limit, ids)
      modifies this
      ensures State() == Prune(old(State()), ids) && count == |ids| <= limit
    {
      ghost var expected := Prune(State(), ids);
      for i := 0 to |ids|
        invariant Prune(State(), ids[i..]) == expected
      {
        assert ids[i..][1..] == ids[i + 1..];
        jobs := jobs - {ids[i]};
        all := all - {ids[i]};
        terminal := terminal - {ids[i]};
      }
      return |ids|;
    }
  }
}
