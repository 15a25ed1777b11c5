// What each operation of the in-memory queue store does, job by job and lock by lock.
module MemoryEffects {
  import opened Wrappers
  import opened QueueStore
  import opened MemoryQueue
  import QueueEffects

  // ----- the order of insertion

  /** Every stored job is listed once, under its own id. */
  ghost predicate Listed(m: Memory) {
    && Distinct(m.ids) && (forall id :: id in m.ids <==> id in m.jobs)
    && forall id | id in m.jobs :: m.jobs[id].id == id
  }

  lemma PutJobListed(m: Memory, job: Job)
    requires Listed(m)
    ensures Listed(PutJob(m, job))
  {
    var n := PutJob(m, job);
    if job.id !in m.jobs {
      assert forall i | 0 <= i < |m.ids| :: n.ids[i] == m.ids[i] && m.ids[i] in m.ids;
    }
  }

  lemma {:induction false} WithoutIs(ids: seq<Id>, id: Id)
    requires Distinct(ids)
    ensures Distinct(MemoryQueue.Without(ids, id)) && forall x :: x in MemoryQueue.Without(ids, id) <==> x in ids && x != id
  {
    if ids != [] {
      assert ids == [ids[0]] + ids[1..];
      assert Distinct(ids[1..]) && ids[0] !in ids[1..];
      WithoutIs(ids[1..], id);
    }
  }

  lemma {:induction false} PrunedListed(m: Memory, ids: seq<Id>, before: int, limit: nat)
    requires Listed(m)
    ensures Listed(Pruned(m, ids, before, limit))
    decreases |ids|
  {
    if ids != [] && limit != 0 {
      if Prunable(m, ids[0], before) {
        WithoutIs(m.ids, ids[0]);
        var n := m.(jobs := m.jobs - {ids[0]}, ids := MemoryQueue.Without(m.ids, ids[0]), ready := m.ready - {ids[0]}, activations := m.activations - {ids[0]});
        assert Listed(n);
        PrunedListed(n, ids[1..], before, limit - 1);
      } else {
        PrunedListed(m, ids[1..], before, limit);
      }
    }
  }

  lemma {:induction false} RecoveredOnlyStages(m: Memory, ids: seq<Id>, now: int)
    ensures RecoveredAll(m, ids, now) == m.(transitions := RecoveredAll(m, ids, now).transitions)
    decreases |ids|
  {
    hide Recovered;
    if ids != [] {
      RecoveredOnlyStages(if Abandoned(m, ids[0], now) then m.(transitions := m.transitions[ids[0] := Recovered(m.jobs[ids[0]], now)]) else m, ids[1..], now);
    }
  }

  lemma FirstFreeIn(locks: map<LockKey, Lock>, js: seq<Job>)
    ensures FirstFree(locks, js).Some? ==> FirstFree(locks, js).value in js
  {
  }

  lemma {:induction false} CandidatesIn(m: Memory, ids: seq<Id>, now: int)
    requires forall id | id in m.jobs :: m.jobs[id].id == id
    ensures forall j :: j in Candidates(m, ids, now) <==> j.id in ids && Claimable(m, j.id, now) && j == m.jobs[j.id]
  {
    if ids != [] {
      CandidatesIn(m, ids[1..], now);
      assert ids == [ids[0]] + ids[1..];
      if Claimable(m, ids[0], now) {
        InsertIn(m.jobs[ids[0]], Candidates(m, ids[1..], now));
      }
    }
  }

  lemma {:induction false} InsertIn(j: Job, js: seq<Job>)
    ensures forall k :: k in InsertJob(j, js) <==> k == j || k in js
  {
    if js != [] && Later(j, js[0]) {
      InsertIn(j, js[1..]);
      assert js == [js[0]] + js[1..];
    }
  }

  lemma NextListed(m: Memory, now: int, a: Action)
    requires Listed(m)
    ensures Listed(Next(m, now, a))
  {
    hide Distinct, Lease, Recovered, InstallationLock, RepositoryLock, Candidates, Pruned, RecoveredAll, FirstFree;
    match a
    case Create(job, aliases) => PutJobListed(m, job); hide FindExisting, Attach, SetAll;
    case FailActivation(id, error) =>
    case Claim(leaseMs, leaseId) =>
      FirstFreeIn(Unexpired(m.locks, now), Candidates(m, m.ids, now));
      CandidatesIn(m, m.ids, now);
      if FirstFree(Unexpired(m.locks, now), Candidates(m, m.ids, now)).Some? {
        PutJobListed(m, Lease(FirstFree(Unexpired(m.locks, now), Candidates(m, m.ids, now)).value, now, leaseMs, leaseId));
      }
    case Recover => RecoveredOnlyStages(m, m.ids, now);
    case Prune(before, limit) => PrunedListed(m, m.ids, before, limit);
    case _ =>
  }

  lemma {:induction false} ReachedIsListed(m: Memory, now: int, run: seq<Timed>, n: Memory, later: int)
    requires Listed(m) && Reaches(m, now, run, n, later)
    ensures Listed(n)
    decreases |run|
  {
    hide Listed, Next, Enabled;
    if run != [] {
      NextListed(m, run[0].now, run[0].a);
      ReachedIsListed(Next(m, run[0].now, run[0].a), run[0].now, run[1..], n, later);
    }
  }

  // ----- recovery

  /** A running job whose lease is over, and for which nothing is pending; a lease that ends at 0 counts as none. */
  predicate Due(m: Memory, id: Id, now: int) {
    && id in m.jobs && id !in m.transitions && m.jobs[id].status == Running
    && m.jobs[id].leaseExpiresAt.Some? && m.jobs[id].leaseExpiresAt.value <= now && m.jobs[id].leaseExpiresAt != Some(0)
  }

  lemma {:induction false} RecoveredAt(m: Memory, ids: seq<Id>, now: int, id: Id)
    requires Distinct(ids)
    ensures var n := RecoveredAll(m, ids, now);
            && (id in n.transitions <==> id in m.transitions || (id in ids && Due(m, id, now)))
            && (id in m.transitions ==> n.transitions[id] == m.transitions[id])
            && (id in ids && Due(m, id, now) ==> n.transitions[id] == Recovered(m.jobs[id], now))
    decreases |ids|
  {
    hide Recovered;
    if ids != [] {
      var next := if Abandoned(m, ids[0], now) then m.(transitions := m.transitions[ids[0] := Recovered(m.jobs[ids[0]], now)]) else m;
      assert Distinct(ids[1..]) && ids[0] !in ids[1..];
      assert id in ids <==> id == ids[0] || id in ids[1..];
      RecoveredAt(next, ids[1..], now, id);
    }
  }

  /**
   * Every expired lease without pending transition gets one: a retry at once while attempts are left, and otherwise a
   * failure. Nothing else changes.
   */
  lemma RecoveryStages(m: Memory, now: int, id: Id)
    requires Listed(m)
    ensures var n := Next(m, now, Recover);
            && n == m.(transitions := n.transitions)
            && (id in n.transitions <==> id in m.transitions || Due(m, id, now))
            && (id in m.transitions ==> n.transitions[id] == m.transitions[id])
            && (Due(m, id, now) ==>
                  var j := m.jobs[id].(availableAt := now, updatedAt := now, lastError := Some("Worker lease expired"), leaseExpiresAt := None);
                  n.transitions[id] == Transition(if m.jobs[id].attempts < m.jobs[id].maxAttempts then j.(status := Retrying, completedAt := None)
                                                  else j.(status := Failed, completedAt := Some(now)), None))
  {
    RecoveredOnlyStages(m, m.ids, now);
    RecoveredAt(m, m.ids, now, id);
    hide RecoveredAll, Distinct;
  }

  // ----- claiming

  /** A job that may be claimed now, as far as its status and time go. */
  predicate Waiting(m: Memory, id: Id, now: int) {
    && id in m.jobs && m.jobs[id].availableAt <= now
    && (m.jobs[id].status == Retrying || (m.jobs[id].status == Queued && id in m.ready))
  }

  /** Nobody holds one of the two scopes of a job. */
  ghost predicate ScopesFree(m: Memory, j: Job, now: int) {
    && (Installation(j.installationId) in m.locks ==> m.locks[Installation(j.installationId)].expiresAt <= now)
    && (RepositoryLock(j) in m.locks ==> m.locks[RepositoryLock(j)].expiresAt <= now)
  }

  ghost predicate ListedBefore(ids: seq<Id>, x: Id, y: Id) {
    exists a, b | 0 <= a < b < |ids| :: ids[a] == x && ids[b] == y
  }

  /** Available first; of those available at one time the oldest, and of those of one age the first that was stored. */
  ghost predicate Ahead(ids: seq<Id>, j: Job, k: Job) {
    || j.availableAt < k.availableAt
    || (j.availableAt == k.availableAt && j.createdAt < k.createdAt)
    || (j.availableAt == k.availableAt && j.createdAt == k.createdAt && ListedBefore(ids, j.id, k.id))
  }

  ghost predicate InOrder(ids: seq<Id>, js: seq<Job>) {
    forall a, b | 0 <= a < b < |js| :: Ahead(ids, js[a], js[b])
  }

  lemma {:induction false} InsertInOrder(ids: seq<Id>, j: Job, js: seq<Job>)
    requires InOrder(ids, js) && forall k | k in js :: ListedBefore(ids, j.id, k.id)
    ensures InOrder(ids, InsertJob(j, js))
  {
    hide ListedBefore;
    if js != [] {
      if Later(j, js[0]) {
        InsertInOrder(ids, j, js[1..]);
        InsertIn(j, js[1..]);
        var rest := InsertJob(j, js[1..]);
        forall b | 0 < b < |[js[0]] + rest|
          ensures Ahead(ids, js[0], ([js[0]] + rest)[b])
        {
          assert rest[b - 1] in rest;
        }
      } else {
        forall b | 0 <= b < |js|
          ensures Ahead(ids, j, js[b])
        {
          assert js[b] in js && (b == 0 || Ahead(ids, js[0], js[b]));
        }
      }
    }
  }

  lemma LongerList(ids: seq<Id>, js: seq<Job>)
    requires ids != [] && InOrder(ids[1..], js)
    ensures InOrder(ids, js)
  {
    forall x, y | ListedBefore(ids[1..], x, y)
      ensures ListedBefore(ids, x, y)
    {
      var a, b :| 0 <= a < b < |ids[1..]| && ids[1..][a] == x && ids[1..][b] == y;
      assert ids[a + 1] == x && ids[b + 1] == y;
    }
    hide ListedBefore;
  }

  lemma {:induction false} CandidatesInOrder(m: Memory, ids: seq<Id>, now: int)
    requires forall id | id in m.jobs :: m.jobs[id].id == id
    ensures InOrder(ids, Candidates(m, ids, now))
  {
    hide InOrder, InsertJob;
    if ids != [] {
      var js := Candidates(m, ids[1..], now);
      CandidatesInOrder(m, ids[1..], now);
      CandidatesIn(m, ids[1..], now);
      LongerList(ids, js);
      if Claimable(m, ids[0], now) {
        forall k | k in js
          ensures ListedBefore(ids, ids[0], k.id)
        {
          var b :| 0 <= b < |ids[1..]| && ids[1..][b] == k.id;
          assert ids[0] == ids[0] && ids[b + 1] == k.id;
        }
        InsertInOrder(ids, m.jobs[ids[0]], js);
      }
    } else {
      assert InOrder([], []) by { NothingInOrder(); }
    }
  }

  lemma NothingInOrder()
    ensures InOrder([], [])
  {
  }

  lemma {:induction false} FirstFreeIs(ids: seq<Id>, locks: map<LockKey, Lock>, js: seq<Job>)
    requires InOrder(ids, js)
    ensures match FirstFree(locks, js)
            case None => forall k | k in js :: !Free(locks, k)
            case Some(j) => j in js && Free(locks, j) && forall k | k in js && Free(locks, k) :: k == j || Ahead(ids, j, k)
  {
    hide Free, Ahead;
    if js != [] {
      assert js == [js[0]] + js[1..];
      forall k | k in js
        ensures k == js[0] || Ahead(ids, js[0], k)
      {
        var i :| 0 <= i < |js| && js[i] == k;
      }
      FirstFreeIs(ids, locks, js[1..]);
    }
  }

  /**
   * A claim answers a waiting job with free scopes whenever there is one, and is ahead of all others. It holds both scopes as long as its lease lasts; no other job changes, nor any other lock in force.
   */
  lemma ClaimTakesEarliest(m: Memory, now: int, leaseMs: int, leaseId: LeaseId)
    requires Listed(m)
    ensures var (n, claimed) := Claimed(m, now, leaseMs, leaseId);
            && (claimed.None? ==> n == m.(locks := n.locks) && forall id | Waiting(m, id, now) :: !ScopesFree(m, m.jobs[id], now))
            && (claimed.Some? ==>
                  var id := claimed.value.id;
                  && Waiting(m, id, now) && ScopesFree(m, m.jobs[id], now)
                  && (forall x | Waiting(m, x, now) && ScopesFree(m, m.jobs[x], now) :: x == id || Ahead(m.ids, m.jobs[id], m.jobs[x]))
                  && claimed.value == m.jobs[id].(status := Running, attempts := m.jobs[id].attempts + 1, updatedAt := now, startedAt := Some(now),
                                                  leaseId := Some(leaseId), leaseExpiresAt := Some(now + leaseMs))
                  && n.jobs == m.jobs[id := claimed.value] && n.ids == m.ids && n.ready == m.ready - {id} && n.transitions == m.transitions)
            && forall key ::
                 && (claimed.Some? && (key == Installation(claimed.value.installationId) || key == RepositoryLock(claimed.value)) ==>
                       key in n.locks && n.locks[key] == Lock(claimed.value.id, now + leaseMs))
                 && (!(claimed.Some? && (key == Installation(claimed.value.installationId) || key == RepositoryLock(claimed.value))) ==>
                       && (key in n.locks <==> key in m.locks && now < m.locks[key].expiresAt)
                       && (key in n.locks ==> n.locks[key] == m.locks[key]))
  {
    var js, locks := Candidates(m, m.ids, now), Unexpired(m.locks, now);
    CandidatesIn(m, m.ids, now);
    CandidatesInOrder(m, m.ids, now);
    FirstFreeIs(m.ids, locks, js);
    forall id | Waiting(m, id, now)
      ensures m.jobs[id] in js && (Free(locks, m.jobs[id]) <==> ScopesFree(m, m.jobs[id], now))
    {
    }
    hide InOrder, FirstFree, Candidates, Distinct, Lower, Ahead;
  }

  // ----- the other operations

  /** An outcome is staged once, by the running holder of the lease. */
  lemma StageWaits(m: Memory, t: Transition)
    ensures var (n, staged) := Staged(m, t);
            && (staged <==> t.job.id in m.jobs && m.jobs[t.job.id].status == Running && m.jobs[t.job.id].leaseId == t.job.leaseId
                            && t.job.id !in m.transitions)
            && n == if staged then m.(transitions := m.transitions[t.job.id := t]) else m
  {
  }

  /** An acknowledgement stores the caller's record without lease, forgets the pending outcome and lets go of all the job's locks. */
  lemma AcknowledgeReleases(m: Memory, job: Job)
    ensures var (n, acknowledged) := Acknowledged(m, job);
            && (acknowledged <==> job.id in m.transitions && job.id in m.jobs && m.jobs[job.id].leaseId == m.transitions[job.id].job.leaseId)
            && (!acknowledged ==> n == m)
            && (acknowledged ==>
                  && n.jobs == m.jobs[job.id := job.(leaseId := None, leaseExpiresAt := None)]
                  && n.transitions.Keys == m.transitions.Keys - {job.id}
                  && forall key :: (key in n.locks <==> key in m.locks && m.locks[key].owner != job.id) && (key in n.locks ==> n.locks[key] == m.locks[key]))
  {
  }

  /** A renewal extends the lease it names and the locks its job owns, and nothing else. */
  lemma RenewExtends(m: Memory, id: Id, leaseId: LeaseId, expiresAt: int)
    ensures var (n, renewed) := Renewed(m, id, leaseId, expiresAt);
            && (renewed <==> id in m.jobs && m.jobs[id].status == Running && m.jobs[id].leaseId == Some(leaseId))
            && (!renewed ==> n == m)
            && (renewed ==>
                  && n.jobs == m.jobs[id := m.jobs[id].(leaseExpiresAt := Some(expiresAt))]
                  && forall key :: (key in n.locks <==> key in m.locks)
                       && (key in n.locks ==> n.locks[key] == if m.locks[key].owner == id then Lock(id, expiresAt) else m.locks[key]))
  {
  }

  /** A job that ended no later than asked. */
  predicate Old(m: Memory, id: Id, before: int) {
    && id in m.jobs && (m.jobs[id].status == Completed || m.jobs[id].status == Failed)
    && m.jobs[id].completedAt.Some? && m.jobs[id].completedAt.value <= before
  }

  function OldAmong(m: Memory, ids: seq<Id>, before: int): nat {
    if ids == [] then 0 else (if Old(m, ids[0], before) then 1 else 0) + OldAmong(m, ids[1..], before)
  }

  /** Whether pruning a list forgets an id: it is old, and fewer than limit old ones are listed before it. */
  ghost predicate Forgotten(m: Memory, ids: seq<Id>, before: int, limit: nat, id: Id) {
    Old(m, id, before) && exists i | 0 <= i < |ids| :: ids[i] == id && OldAmong(m, ids[..i], before) < limit
  }

  lemma {:induction false} OldAmongSame(m: Memory, n: Memory, ids: seq<Id>, before: int)
    requires forall id | id in ids :: Old(m, id, before) <==> Old(n, id, before)
    ensures OldAmong(m, ids, before) == OldAmong(n, ids, before)
  {
    hide Old;
    if ids != [] {
      OldAmongSame(m, n, ids[1..], before);
    }
  }

  lemma {:induction false} PrunedAt(m: Memory, ids: seq<Id>, before: int, limit: nat, id: Id)
    requires Distinct(ids)
    ensures var n := Pruned(m, ids, before, limit);
            && (id in n.jobs <==> id in m.jobs && !Forgotten(m, ids, before, limit, id)) && (id in n.jobs ==> n.jobs[id] == m.jobs[id])
            && n.locks == m.locks && n.keys == m.keys && n.transitions == m.transitions
    decreases |ids|
  {
    if ids != [] && limit != 0 {
      var x, rest := ids[0], ids[1..];
      assert Distinct(rest) && x !in rest;
      if Old(m, x, before) {
        var next := m.(jobs := m.jobs - {x}, ids := MemoryQueue.Without(m.ids, x), ready := m.ready - {x}, activations := m.activations - {x});
        PrunedAt(next, rest, before, limit - 1, id);
        FirstForgotten(m, next, ids, before, limit, id);
      } else {
        PrunedAt(m, rest, before, limit, id);
        LaterForgotten(m, ids, before, limit, id);
      }
      hide Forgotten;
    }
  }

  lemma FirstForgotten(m: Memory, next: Memory, ids: seq<Id>, before: int, limit: nat, id: Id)
    requires ids != [] && 0 < limit && Distinct(ids) && Old(m, ids[0], before) && next.jobs == m.jobs - {ids[0]}
    ensures Forgotten(m, ids, before, limit, id) <==> id == ids[0] || Forgotten(next, ids[1..], before, limit - 1, id)
  {
    var rest := ids[1..];
    forall i | 0 < i < |ids|
      ensures ids[..i][1..] == rest[..i - 1] && ids[i] == rest[i - 1]
      ensures OldAmong(m, ids[..i], before) == 1 + OldAmong(next, rest[..i - 1], before)
    {
      assert ids[..i][0] == ids[0];
      OldAmongSame(m, next, rest[..i - 1], before);
    }
    assert ids[..0] == [];
    if id == ids[0] {
      assert ids[0] == id && OldAmong(m, ids[..0], before) < limit;
    }
    if Forgotten(next, rest, before, limit - 1, id) {
      var k :| 0 <= k < |rest| && rest[k] == id && OldAmong(next, rest[..k], before) < limit - 1;
      assert ids[k + 1] == id && OldAmong(m, ids[..k + 1], before) < limit;
    }
    if id != ids[0] && Forgotten(m, ids, before, limit, id) {
      var i :| 0 <= i < |ids| && ids[i] == id && OldAmong(m, ids[..i], before) < limit;
      assert rest[i - 1] == id && OldAmong(next, rest[..i - 1], before) < limit - 1;
    }
  }

  lemma LaterForgotten(m: Memory, ids: seq<Id>, before: int, limit: nat, id: Id)
    requires ids != [] && !Old(m, ids[0], before)
    ensures Forgotten(m, ids, before, limit, id) <==> Forgotten(m, ids[1..], before, limit, id)
  {
    var rest := ids[1..];
    forall i | 0 < i < |ids|
      ensures ids[..i][1..] == rest[..i - 1] && ids[i] == rest[i - 1]
      ensures OldAmong(m, ids[..i], before) == OldAmong(m, rest[..i - 1], before)
    {
      assert ids[..i][0] == ids[0];
    }
    if Forgotten(m, rest, before, limit, id) {
      var k :| 0 <= k < |rest| && rest[k] == id && OldAmong(m, rest[..k], before) < limit;
      assert ids[k + 1] == id && OldAmong(m, ids[..k + 1], before) < limit;
    }
    if Forgotten(m, ids, before, limit, id) {
      var i :| 0 <= i < |ids| && ids[i] == id && OldAmong(m, ids[..i], before) < limit;
      assert rest[i - 1] == id && OldAmong(m, rest[..i - 1], before) < limit;
    }
  }

  /** Pruning forgets the first jobs stored that ended no later than asked, as many as asked, and nothing else. */
  lemma PruneForgets(m: Memory, now: int, before: int, limit: nat, id: Id)
    requires Listed(m)
    ensures var n := Next(m, now, Prune(before, limit));
            && (id in n.jobs <==> id in m.jobs && !Forgotten(m, m.ids, before, limit, id)) && (id in n.jobs ==> n.jobs[id] == m.jobs[id])
            && n.locks == m.locks && n.keys == m.keys && n.transitions == m.transitions
  {
    PrunedAt(m, m.ids, before, limit, id);
    hide Pruned, Forgotten, Distinct;
  }

  // ----- aliases

  lemma {:induction false} AttachedAt(keys: map<string, Id>, aliases: seq<string>, id: Id, key: string)
    ensures var bound := Attach(keys, aliases, id);
            (key in bound <==> key in keys || key in aliases) && (key in bound ==> bound[key] == if key in keys then keys[key] else id)
    decreases |aliases|
  {
    if aliases != [] {
      assert aliases == [aliases[0]] + aliases[1..];
      AttachedAt(if aliases[0] in keys then keys else keys[aliases[0] := id], aliases[1..], id, key);
    }
  }

  lemma {:induction false} SetAt(keys: map<string, Id>, aliases: seq<string>, id: Id, key: string)
    ensures var bound := SetAll(keys, aliases, id);
            (key in bound <==> key in keys || key in aliases) && (key in bound ==> bound[key] == if key in aliases then id else keys[key])
    decreases |aliases|
  {
    if aliases != [] {
      assert aliases == [aliases[0]] + aliases[1..];
      SetAt(keys[aliases[0] := id], aliases[1..], id, key);
    }
  }

  /** A creation without a key that names a stored job makes a new one, which is to be activated, and all its keys name that. */
  lemma CreatesNew(m: Memory, job: Job, aliases: seq<string>, key: string)
    requires QueueEffects.NoneLive(m.jobs, m.keys, aliases)
    ensures var (n, stored) := Created(m, job, aliases);
            && stored == job && n.jobs == m.jobs[job.id := job] && n.activations == m.activations + {job.id} && n.ready == m.ready
            && (key in n.keys <==> key in m.keys || key in aliases)
            && (key in n.keys ==> n.keys[key] == if key in aliases then job.id else m.keys[key])
  {
    QueueEffects.FindNone(m.jobs, m.keys, aliases);
    SetAt(FindExisting(m.jobs, m.keys, aliases).0, aliases, job.id, key);
    hide FindExisting, SetAll;
  }

  /** Otherwise it answers the job of the first such key, and changes nothing but what keys name. */
  lemma CreateAnswers(m: Memory, job: Job, aliases: seq<string>, key: string, i: nat)
    requires Listed(m) && QueueEffects.FirstLive(m.jobs, m.keys, aliases, i)
    ensures var (n, stored) := Created(m, job, aliases);
            && stored == m.jobs[m.keys[aliases[i]]] && stored.id == m.keys[aliases[i]] && n == m.(keys := n.keys)
            && (key in n.keys <==> key in m.keys || key in aliases)
            && (key in n.keys ==> n.keys[key] == if key in m.keys && key !in aliases[..i] then m.keys[key] else stored.id)
  {
    QueueEffects.FindLive(m.jobs, m.keys, aliases, i);
    AttachedAt(FindExisting(m.jobs, m.keys, aliases).0, aliases, m.keys[aliases[i]], key);
    assert key in aliases[..i] ==> key in aliases;
    hide FindExisting, Attach;
  }

  /** A queued job can be claimed from its activation on, and no longer waits for one. */
  lemma ActivateReadies(m: Memory, id: Id)
    ensures var (n, activated) := Activated(m, id);
            && (activated <==> id in m.jobs && m.jobs[id].status == Queued)
            && n == if activated then m.(ready := m.ready + {id}, activations := m.activations - {id}) else m
  {
  }

  /** A queued job whose activation is pending fails, and can be claimed no longer. */
  lemma FailActivationEnds(m: Memory, id: Id, failedAt: int, error: string)
    ensures var (n, failed) := ActivationFailed(m, id, failedAt, error);
            && (failed <==> id in m.jobs && m.jobs[id].status == Queued && id in m.activations)
            && (!failed ==> n == m)
            && (failed ==>
                  && n.jobs == m.jobs[id := m.jobs[id].(status := Failed, updatedAt := failedAt, completedAt := Some(failedAt), lastError := Some(error))]
                  && id !in n.activations && id !in n.ready)
  {
  }
}
