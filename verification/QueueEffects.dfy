// What each script of the queue does, key by key and index by index.
module QueueEffects {
  import opened Wrappers
  import opened QueueStore
  import opened QueueInvariant

  // ----- recovery

  /** A running job whose lease is over, and for which nothing is pending. */
  predicate Due(s: Store, id: Id, now: int) {
    && id in s.jobs && id !in s.transitions && s.jobs[id].status.Running?
    && s.jobs[id].leaseExpiresAt.Some? && s.jobs[id].leaseExpiresAt.value <= now
  }

  lemma {:induction false} DistinctWithin(ids: seq<Id>, all: set<Id>)
    requires Distinct(ids) && forall id | id in ids :: id in all
    ensures |ids| <= |all|
    decreases |ids|
  {
    if ids != [] {
      assert forall id | id in ids[1..] :: id != ids[0];
      DistinctWithin(ids[1..], all - {ids[0]});
    }
  }

  /** A reply that is not cut short holds everything that is due. */
  lemma WholeRange(z: map<Id, Score>, max: int, ids: seq<Id>, id: Id)
    requires IsRange(z, max, |z|, ids)
    ensures id in ids <==> id in z && z[id] <= max
  {
    assert |z.Keys| == |z|;
    if id in z && z[id] <= max && id !in ids {
      DistinctWithin(ids, z.Keys - {id});
    }
  }

  /** What the recovery looks at and changes for one id. */
  datatype Slots = Slots(pending: Option<Transition>, index: Option<Score>, active: Option<Score>)

  function SlotsOf(s: Store, id: Id): Slots {
    Slots(if id in s.transitions then Some(s.transitions[id]) else None,
          if id in s.transitionIndex then Some(s.transitionIndex[id]) else None,
          if id in s.active then Some(s.active[id]) else None)
  }

  ghost predicate OnlySlots(s: Store, s': Store) {
    s' == s.(transitions := s'.transitions, transitionIndex := s'.transitionIndex, active := s'.active)
  }

  function RecoveredSlots(jobs: map<Id, Job>, v: Slots, id: Id, now: int): Slots {
    if v.pending.Some? then v
    else if id in jobs && Expired(jobs[id], now) then Slots(Some(Recovery(jobs[id], now)), Some(now), None)
    else v.(active := None)
  }

  lemma RecoverOneIs(s: Store, now: int, x: Id)
    ensures RecoverOne(s, now, x)
            == if x in s.transitions then s
               else if x in s.jobs && Expired(s.jobs[x], now) then
                 s.(transitions := s.transitions[x := Recovery(s.jobs[x], now)], transitionIndex := s.transitionIndex[x := now], active := s.active - {x})
               else s.(active := s.active - {x})
  {
    hide Recovery, Expired;
    if x !in s.transitions && x in s.jobs && Expired(s.jobs[x], now) {
      var staged := s.(transitions := s.transitions[x := Recovery(s.jobs[x], now)], transitionIndex := s.transitionIndex[x := now]);
      assert staged.active == s.active && RecoverOne(s, now, x) == staged.(active := staged.active - {x});
    }
  }

  lemma StagedSlots(s: Store, x: Id, t: Transition, now: int, id: Id)
    ensures SlotsOf(s.(transitions := s.transitions[x := t], transitionIndex := s.transitionIndex[x := now], active := s.active - {x}), id)
            == if x == id then Slots(Some(t), Some(now), None) else SlotsOf(s, id)
  {
  }

  lemma IdleSlots(s: Store, x: Id, id: Id)
    ensures SlotsOf(s.(active := s.active - {x}), id) == if x == id then SlotsOf(s, id).(active := None) else SlotsOf(s, id)
  {
  }

  lemma RecoverOneSlots(s: Store, now: int, x: Id, id: Id)
    ensures OnlySlots(s, RecoverOne(s, now, x))
    ensures SlotsOf(RecoverOne(s, now, x), id) == if x == id then RecoveredSlots(s.jobs, SlotsOf(s, id), id, now) else SlotsOf(s, id)
  {
    assert SlotsOf(s, x).pending.Some? <==> x in s.transitions;
    hide RecoverOne, Recovery, Expired, SlotsOf;
    RecoverOneIs(s, now, x);
    if x in s.transitions {
    } else if x in s.jobs && Expired(s.jobs[x], now) {
      StagedSlots(s, x, Recovery(s.jobs[x], now), now, id);
    } else {
      IdleSlots(s, x, id);
    }
  }

  lemma {:induction false} RecoverSlots(s: Store, now: int, expired: seq<Id>, id: Id)
    requires Distinct(expired)
    ensures OnlySlots(s, QueueStore.Recover(s, now, expired))
    ensures SlotsOf(QueueStore.Recover(s, now, expired), id)
            == if id in expired then RecoveredSlots(s.jobs, SlotsOf(s, id), id, now) else SlotsOf(s, id)
    decreases |expired|
  {
    if expired != [] {
      var x, rest := expired[0], expired[1..];
      assert id in expired <==> id == x || id in rest;
      assert Distinct(rest) && x !in rest;
      RecoverOneSlots(s, now, x, id);
      hide RecoverOne, RecoveredSlots, SlotsOf, Distinct;
      RecoverSlots(RecoverOne(s, now, x), now, rest, id);
    }
  }

  /**
   * Every expired lease without pending transition gets one: a retry at once while attempts are left, and otherwise a
   * failure; and its job leaves the active index. Nothing else is staged, and no record changes.
   */
  lemma RecoveryStages(s: Store, now: int, expired: seq<Id>, id: Id)
    requires Inv(s) && IsRange(s.active, now, |s.active|, expired)
    ensures var s' := QueueStore.Recover(s, now, expired);
            && s'.jobs == s.jobs && s'.locks == s.locks && s'.scheduled == s.scheduled && s'.terminal == s.terminal
            && if Due(s, id, now) then
                 var j := s.jobs[id].(updatedAt := now, lastError := Some("Worker lease expired"), leaseExpiresAt := None);
                 && id !in s'.active && id in s'.transitionIndex && s'.transitionIndex[id] == now
                 && id in s'.transitions
                 && s'.transitions[id] == Transition(if s.jobs[id].attempts < s.jobs[id].maxAttempts then j.(status := Retrying, availableAt := now)
                                                     else j.(status := Failed, completedAt := Some(now)), None)
               else
                 && (id in s'.transitions <==> id in s.transitions) && (id in s.transitions ==> s'.transitions[id] == s.transitions[id])
                 && (id in s'.transitionIndex <==> id in s.transitionIndex)
  {
    WholeRange(s.active, now, expired, id);
    RecoverSlots(s, now, expired, id);
    assert JobInv(s, id);
    hide Inv, QueueStore.Recover, Distinct, IsRange;
  }

  // ----- locks

  /** The two locks of a job, and that neither is held by anybody. */
  ghost predicate BothFree(s: Store, j: Job) {
    Free(s, Installation(j.installationId)) && Free(s, RepositoryLock(j))
  }

  predicate Free(s: Store, key: LockKey) {
    key in s.locks ==> s.locks[key].expiresAt <= s.clock
  }

  predicate SameLetter(c: char, d: char) {
    c == d || ('A' <= c <= 'Z' && d as int == c as int + 32) || ('A' <= d <= 'Z' && c as int == d as int + 32)
  }

  ghost predicate SameLetters(a: string, b: string) {
    |a| == |b| && forall i | 0 <= i < |a| :: SameLetter(a[i], b[i])
  }

  lemma LowerDecides(a: string, b: string)
    ensures Lower(a) == Lower(b) <==> SameLetters(a, b)
  {
    if SameLetters(a, b) {
      SameLower(a, b);
    }
    if Lower(a) == Lower(b) {
      assert |a| == |Lower(a)| == |Lower(b)| == |b|;
      forall i | 0 <= i < |a|
        ensures SameLetter(a[i], b[i])
      {
        assert LowerChar(a[i]) == Lower(a)[i] == Lower(b)[i] == LowerChar(b[i]);
      }
    }
  }

  lemma SameLower(a: string, b: string)
    requires SameLetters(a, b)
    ensures Lower(a) == Lower(b)
  {
    assert forall i | 0 <= i < |a| :: SameLetter(a[i], b[i]) && Lower(a)[i] == LowerChar(a[i]) == LowerChar(b[i]) == Lower(b)[i];
  }

  ghost predicate NoSlash(name: string) {
    forall i | 0 <= i < |name| :: name[i] != '/'
  }

  /** Two jobs share a repository lock exactly when owner and name agree but for the case of ASCII letters. */
  lemma RepositoriesShareLock(j: Job, k: Job)
    requires NoSlash(j.owner) && NoSlash(k.owner)
    ensures RepositoryLock(j) == RepositoryLock(k) <==> SameLetters(j.owner, k.owner) && SameLetters(j.repo, k.repo)
  {
    LowerDecides(j.owner, k.owner);
    LowerDecides(j.repo, k.repo);
    assert NoSlash(Lower(j.owner)) && NoSlash(Lower(k.owner));
    hide SameLetters, Lower;
    SlashDecides(Lower(j.owner), Lower(j.repo), Lower(k.owner), Lower(k.repo));
  }

  lemma SlashDecides(a: string, b: string, c: string, d: string)
    requires NoSlash(a) && NoSlash(c)
    ensures a + "/" + b == c + "/" + d <==> a == c && b == d
  {
    if a + "/" + b == c + "/" + d {
      SlashPlace(a, b, c, d);
      SlashPlace(c, d, a, b);
      var s := a + "/" + b;
      assert s[..|a|] == a && s[|a| + 1..] == b;
      assert (c + "/" + d)[..|c|] == c && (c + "/" + d)[|c| + 1..] == d;
    }
  }

  lemma SlashPlace(a: string, b: string, c: string, d: string)
    requires NoSlash(a) && a + "/" + b == c + "/" + d
    ensures |a| <= |c|
  {
    var s := a + "/" + b;
    assert forall i | 0 <= i < |a| :: s[i] == a[i] != '/';
    assert s == c + "/" + d && s[|c|] == '/';
  }

  // ----- claiming

  /** A claimed job's record. */
  ghost predicate LeasedTo(j: Job, k: Job, now: int, leaseMs: int, leaseId: LeaseId) {
    k == j.(status := Running, attempts := j.attempts + 1, updatedAt := now, startedAt := Some(now),
            leaseId := Some(leaseId), leaseExpiresAt := Some(now + leaseMs))
  }

  /** What a claim of a job leaves: record, indexes and both locks; the locks last from the server's clock on. */
  ghost predicate Takes(s: Store, s': Store, id: Id, now: int, leaseMs: int, leaseId: LeaseId) {
    && id in s.jobs && id in s'.jobs && LeasedTo(s.jobs[id], s'.jobs[id], now, leaseMs, leaseId)
    && id !in s'.scheduled && id in s'.active && s'.active[id] == now + leaseMs
    && forall key | key == Installation(s.jobs[id].installationId) || key == RepositoryLock(s.jobs[id]) ::
         key in s'.locks && s'.locks[key] == Lock(id, s.clock + leaseMs)
  }

  /** A candidate that is put off for five seconds. */
  ghost predicate PutOff(s: Store, s': Store, id: Id, now: int) {
    && id in s.jobs && id in s'.jobs && s'.jobs[id] == s.jobs[id].(availableAt := now + 5000, updatedAt := now)
    && id in s'.scheduled && s'.scheduled[id] == now + 5000
  }

  ghost predicate Untouched(s: Store, s': Store, id: Id) {
    && (id in s.jobs <==> id in s'.jobs) && (id in s.jobs ==> s'.jobs[id] == s.jobs[id])
    && (id in s.scheduled <==> id in s'.scheduled) && (id in s.scheduled ==> s'.scheduled[id] == s.scheduled[id])
    && (id in s.active <==> id in s'.active) && (id in s.active ==> s'.active[id] == s.active[id])
  }

  lemma ClaimOneEffect(s: Store, now: int, leaseMs: int, leaseId: LeaseId, x: Id)
    requires x in s.jobs
    ensures var (s', claimed) := ClaimOne(s, now, leaseMs, leaseId, x);
            && s'.clock == s.clock && s'.transitions == s.transitions && s'.terminal == s.terminal
            && (claimed.Some? <==> BothFree(s, s.jobs[x]))
            && (forall id | id != x :: Untouched(s, s', id))
            && (claimed.Some? ==> Takes(s, s', x, now, leaseMs, leaseId) && claimed.value == s'.jobs[x])
            && (claimed.None? ==> PutOff(s, s', x, now) && forall j :: BothFree(s', j) <==> BothFree(s, j))
  {
    hide Lower;
    var job := s.jobs[x];
    if Held(s.locks, s.clock, InstallationLock(job)) {
    } else if Held(s.locks, s.clock, RepositoryLock(job)) {
    } else {
      assert InstallationLock(job) != RepositoryLock(job);
    }
  }

  /** A claim that took the i-th candidate. */
  ghost predicate TookAt(s: Store, s': Store, now: int, leaseMs: int, leaseId: LeaseId, candidates: seq<Id>, claimed: Job, i: nat)
    requires forall id | id in candidates :: id in s.jobs
  {
    && i < |candidates| && BothFree(s, s.jobs[candidates[i]]) && Takes(s, s', candidates[i], now, leaseMs, leaseId)
    && claimed == s'.jobs[candidates[i]]
    && (forall k | 0 <= k < i :: !BothFree(s, s.jobs[candidates[k]]) && PutOff(s, s', candidates[k], now))
    && (forall k | i < k < |candidates| :: Untouched(s, s', candidates[k]))
  }

  /** A claim that took none. */
  ghost predicate TookNone(s: Store, s': Store, now: int, candidates: seq<Id>)
    requires forall id | id in candidates :: id in s.jobs
  {
    forall k | 0 <= k < |candidates| :: !BothFree(s, s.jobs[candidates[k]]) && PutOff(s, s', candidates[k], now)
  }

  /** The first candidate was put off, the others are as they were. */
  ghost predicate FirstPutOff(s: Store, next: Store, now: int, candidates: seq<Id>)
  {
    && candidates != [] && Distinct(candidates) && (forall id | id in candidates :: id in s.jobs && id in next.jobs)
    && next.clock == s.clock && !BothFree(s, s.jobs[candidates[0]]) && PutOff(s, next, candidates[0], now)
    && (forall id | id != candidates[0] :: Untouched(s, next, id)) && forall j :: BothFree(next, j) <==> BothFree(s, j)
  }

  lemma FirstIsPutOff(s: Store, now: int, leaseMs: int, leaseId: LeaseId, candidates: seq<Id>)
    requires candidates != [] && Distinct(candidates) && forall id | id in candidates :: id in s.jobs
    requires ClaimOne(s, now, leaseMs, leaseId, candidates[0]).1.None?
    ensures FirstPutOff(s, ClaimOne(s, now, leaseMs, leaseId, candidates[0]).0, now, candidates)
    ensures Distinct(candidates[1..])
  {
    hide ClaimOne, BothFree;
    var next := ClaimOne(s, now, leaseMs, leaseId, candidates[0]).0;
    ClaimOneEffect(s, now, leaseMs, leaseId, candidates[0]);
    forall id | id in candidates
      ensures id in next.jobs
    {
      assert id != candidates[0] ==> Untouched(s, next, id);
    }
    assert forall i | 0 <= i < |candidates[1..]| :: candidates[1..][i] == candidates[i + 1];
  }

  lemma OneLater(s: Store, next: Store, s': Store, now: int, leaseMs: int, leaseId: LeaseId, candidates: seq<Id>, claimed: Job, i: nat)
    requires FirstPutOff(s, next, now, candidates) && TookAt(next, s', now, leaseMs, leaseId, candidates[1..], claimed, i)
    requires Untouched(next, s', candidates[0])
    ensures TookAt(s, s', now, leaseMs, leaseId, candidates, claimed, i + 1)
  {
    hide BothFree;
    forall k | 0 < k < |candidates|
      ensures candidates[1..][k - 1] == candidates[k] && candidates[k] != candidates[0] && Untouched(s, next, candidates[k])
    {
    }
  }

  lemma NoneLater(s: Store, next: Store, s': Store, now: int, candidates: seq<Id>)
    requires FirstPutOff(s, next, now, candidates) && TookNone(next, s', now, candidates[1..]) && Untouched(next, s', candidates[0])
    ensures TookNone(s, s', now, candidates)
  {
    hide BothFree;
    forall k | 0 < k < |candidates|
      ensures candidates[1..][k - 1] == candidates[k] && candidates[k] != candidates[0] && Untouched(s, next, candidates[k])
    {
    }
  }

  ghost predicate ClaimOutcome(s: Store, s': Store, now: int, leaseMs: int, leaseId: LeaseId, candidates: seq<Id>, claimed: Option<Job>)
    requires forall id | id in candidates :: id in s.jobs
  {
    && (forall id | id !in candidates :: Untouched(s, s', id))
    && match claimed
       case None => TookNone(s, s', now, candidates)
       case Some(job) => exists i: nat :: TookAt(s, s', now, leaseMs, leaseId, candidates, job, i)
  }

  lemma OutcomeLater(s: Store, next: Store, s': Store, now: int, leaseMs: int, leaseId: LeaseId, candidates: seq<Id>, claimed: Option<Job>)
    requires FirstPutOff(s, next, now, candidates) && ClaimOutcome(next, s', now, leaseMs, leaseId, candidates[1..], claimed)
    ensures ClaimOutcome(s, s', now, leaseMs, leaseId, candidates, claimed)
  {
    hide BothFree, Takes, PutOff, TookAt, TookNone;
    var rest := candidates[1..];
    assert candidates[0] !in rest;
    forall id | id !in candidates
      ensures Untouched(s, s', id)
    {
      assert id !in rest && id != candidates[0];
      assert Untouched(s, next, id) && Untouched(next, s', id);
    }
    if claimed.Some? {
      var i: nat :| TookAt(next, s', now, leaseMs, leaseId, rest, claimed.value, i);
      OneLater(s, next, s', now, leaseMs, leaseId, candidates, claimed.value, i);
    } else {
      NoneLater(s, next, s', now, candidates);
    }
  }

  /**
   * A claim answers the first candidate whose two locks are free, whenever there is one; it puts off every candidate
   * before it, and touches no other job.
   */
  lemma {:induction false} ClaimTakesFirstFree(s: Store, now: int, leaseMs: int, leaseId: LeaseId, candidates: seq<Id>)
    requires Distinct(candidates) && forall id | id in candidates :: id in s.jobs
    ensures var (s', claimed) := QueueStore.Claim(s, now, leaseMs, leaseId, candidates);
            ClaimOutcome(s, s', now, leaseMs, leaseId, candidates, claimed)
    decreases |candidates|
  {
    hide ClaimOne, BothFree, Takes, PutOff;
    if candidates != [] {
      var x, rest := candidates[0], candidates[1..];
      var (next, claimed) := ClaimOne(s, now, leaseMs, leaseId, x);
      ClaimOneEffect(s, now, leaseMs, leaseId, x);
      if claimed.Some? {
        assert TookAt(s, next, now, leaseMs, leaseId, candidates, claimed.value, 0);
      } else {
        FirstIsPutOff(s, now, leaseMs, leaseId, candidates);
        assert forall id | id in rest :: id in next.jobs;
        ClaimTakesFirstFree(next, now, leaseMs, leaseId, rest);
        var (s', taken) := QueueStore.Claim(next, now, leaseMs, leaseId, rest);
        OutcomeLater(s, next, s', now, leaseMs, leaseId, candidates, taken);
      }
    }
  }

  /** The same of what the sorted set replies, in every store the scripts can reach. */
  lemma ClaimAnswers(s: Store, now: int, leaseMs: int, leaseId: LeaseId, candidates: seq<Id>)
    requires Inv(s) && IsRange(s.scheduled, now, 250, candidates)
    ensures forall id | id in candidates :: id in s.jobs
    ensures var (s', claimed) := QueueStore.Claim(s, now, leaseMs, leaseId, candidates);
            ClaimOutcome(s, s', now, leaseMs, leaseId, candidates, claimed)
  {
    forall id | id in candidates
      ensures id in s.jobs
    {
      assert JobInv(s, id);
    }
    hide Inv, QueueStore.Claim, ClaimOutcome;
    ClaimTakesFirstFree(s, now, leaseMs, leaseId, candidates);
  }

  // ----- the other scripts

  ghost predicate HeldBy(s: Store, key: LockKey, id: Id) {
    key in s.locks && s.clock < s.locks[key].expiresAt && s.locks[key].owner == id
  }

  /**
   * Acknowledging a pending transition makes the job what it says, without lease: waiting at the time it names if it is
   * to be tried again, and otherwise in the terminal index under the time of its end. Both locks are let go.
   */
  lemma AcknowledgeSettles(s: Store, id: Id)
    requires Inv(s) && id in s.transitions
    ensures var (s', acknowledged) := QueueStore.Acknowledge(s, id);
            var t := s.transitions[id].job;
            && acknowledged && id in s'.jobs && s'.jobs[id] == t.(leaseId := None, leaseExpiresAt := None)
            && id !in s'.active && id !in s'.transitions && id !in s'.transitionIndex
            && (t.status.Retrying? ==> id in s'.scheduled && s'.scheduled[id] == t.availableAt && id !in s'.terminal)
            && (t.status.Failed? || t.status.Completed? ==>
                  id !in s'.scheduled && id in s'.terminal && Some(s'.terminal[id]) == t.completedAt)
            && (t.status.Retrying? || t.status.Failed? || t.status.Completed?)
            && !HeldBy(s', Installation(t.installationId), id) && !HeldBy(s', RepositoryLock(t), id)
            && (forall key | key in s.locks && s.locks[key].owner != id :: key in s'.locks && s'.locks[key] == s.locks[key])
  {
    hide Lower;
    assert JobInv(s, id);
  }

  /** Only of what is pending, and of the run that is stored. */
  lemma AcknowledgeRefuses(s: Store, id: Id)
    ensures !QueueStore.Acknowledge(s, id).1 ==> QueueStore.Acknowledge(s, id).0 == s
    ensures Inv(s) ==> (QueueStore.Acknowledge(s, id).1 <==> id in s.transitions)
  {
    hide Lower, Release;
    if Inv(s) {
      assert JobInv(s, id);
    }
  }

  /** A renewal extends the lease and both locks of the running job whose lease it names, if that job holds both. */
  lemma RenewExtends(s: Store, id: Id, leaseId: LeaseId, expiresAt: int)
    ensures var (s', renewed) := QueueStore.Renew(s, id, leaseId, expiresAt);
            && (renewed <==> id in s.jobs && s.jobs[id].status.Running? && s.jobs[id].leaseId == Some(leaseId)
                             && HeldBy(s, Installation(s.jobs[id].installationId), id) && HeldBy(s, RepositoryLock(s.jobs[id]), id))
            && (!renewed ==> s' == s)
            && (renewed ==>
                  && id in s'.jobs && s'.jobs[id] == s.jobs[id].(leaseExpiresAt := Some(expiresAt))
                  && id in s'.active && s'.active[id] == expiresAt
                  && forall key | key in s.locks ::
                       && key in s'.locks && s'.locks[key].owner == s.locks[key].owner
                       && (s'.locks[key].expiresAt == if key == Installation(s.jobs[id].installationId) || key == RepositoryLock(s.jobs[id])
                                                      then expiresAt else s.locks[key].expiresAt))
  {
    hide Lower;
  }

  /** An outcome is staged once, by the running holder of the lease. */
  lemma StageWaits(s: Store, t: Transition)
    ensures var (s', staged) := QueueStore.Stage(s, t);
            var id := t.job.id;
            && (staged <==> id in s.jobs && s.jobs[id].status.Running? && s.jobs[id].leaseId == t.job.leaseId && id !in s.transitions)
            && (!staged ==> s' == s)
            && (staged ==> id in s'.transitions && s'.transitions[id] == t && id in s'.transitionIndex && s'.transitionIndex[id] == t.job.updatedAt)
  {
  }

  /** A queued job is scheduled for when it is available. */
  lemma ActivateSchedules(s: Store, id: Id)
    ensures var (s', activated) := QueueStore.Activate(s, id);
            && (activated <==> id in s.jobs && s.jobs[id].status == Queued)
            && (!activated ==> s' == s)
            && (activated ==> s'.jobs == s.jobs && id in s'.scheduled && s'.scheduled[id] == s.jobs[id].availableAt && id !in s'.activation)
  {
  }

  /** A queued job whose activation is pending fails, and is waited for no longer. */
  lemma FailActivationEnds(s: Store, id: Id, failedAt: int, error: string)
    ensures var (s', failed) := QueueStore.FailActivation(s, id, failedAt, error);
            && (failed <==> id in s.jobs && s.jobs[id].status == Queued && id in s.activation)
            && (!failed ==> s' == s)
            && (failed ==>
                  && id in s'.jobs && s'.jobs[id].status == Failed && s'.jobs[id].completedAt == Some(failedAt)
                  && s'.jobs[id].updatedAt == failedAt && s'.jobs[id].lastError == Some(error)
                  && id !in s'.activation && id !in s'.scheduled && id in s'.terminal && s'.terminal[id] == failedAt)
  {
  }

  /** Pruning forgets exactly the jobs that are replied, and nothing that ended later than asked. */
  lemma {:induction false} PruneForgets(s: Store, ids: seq<Id>, id: Id)
    ensures var s' := QueueStore.Prune(s, ids);
            && s' == s.(jobs := s'.jobs, all := s'.all, terminal := s'.terminal)
            && (id in s'.jobs <==> id in s.jobs && id !in ids) && (id in s'.jobs ==> s'.jobs[id] == s.jobs[id])
            && (id in s'.all <==> id in s.all && id !in ids) && (id in s'.terminal <==> id in s.terminal && id !in ids)
    decreases |ids|
  {
    if ids != [] {
      assert id in ids <==> id == ids[0] || id in ids[1..];
      PruneForgets(PruneOne(s, ids[0]), ids[1..], id);
    }
  }

  // ----- aliases

  predicate LiveKey(jobs: map<Id, Job>, aliases: map<string, Id>, key: string) {
    key in aliases && aliases[key] in jobs
  }

  /** The first key that names a job which is still stored. */
  ghost predicate FirstLive(jobs: map<Id, Job>, aliases: map<string, Id>, keys: seq<string>, i: nat) {
    i < |keys| && LiveKey(jobs, aliases, keys[i]) && forall k | 0 <= k < i :: !LiveKey(jobs, aliases, keys[k])
  }

  ghost predicate NoneLive(jobs: map<Id, Job>, aliases: map<string, Id>, keys: seq<string>) {
    forall k | 0 <= k < |keys| :: !LiveKey(jobs, aliases, keys[k])
  }

  lemma {:induction false} FindLive(jobs: map<Id, Job>, aliases: map<string, Id>, keys: seq<string>, i: nat)
    requires FirstLive(jobs, aliases, keys, i)
    ensures var (left, existing) := FindExisting(jobs, aliases, keys);
            && existing == Some(jobs[aliases[keys[i]]])
            && forall key :: (key in left <==> key in aliases && key !in keys[..i]) && (key in left ==> left[key] == aliases[key])
    decreases |keys|
  {
    if 0 < i {
      assert !LiveKey(jobs, aliases, keys[0]);
      var rest := if keys[0] in aliases then aliases - {keys[0]} else aliases;
      assert keys[..i] == [keys[0]] + keys[1..][..i - 1];
      FindLive(jobs, rest, keys[1..], i - 1);
    } else {
      assert keys[..0] == [];
    }
  }

  lemma {:induction false} FindNone(jobs: map<Id, Job>, aliases: map<string, Id>, keys: seq<string>)
    requires NoneLive(jobs, aliases, keys)
    ensures var (left, existing) := FindExisting(jobs, aliases, keys);
            && existing.None?
            && forall key :: (key in left <==> key in aliases && key !in keys) && (key in left ==> left[key] == aliases[key])
    decreases |keys|
  {
    if keys != [] {
      assert !LiveKey(jobs, aliases, keys[0]);
      var rest := if keys[0] in aliases then aliases - {keys[0]} else aliases;
      assert keys == [keys[0]] + keys[1..];
      FindNone(jobs, rest, keys[1..]);
    }
  }

  lemma {:induction false} AttachedAt(aliases: map<string, Id>, keys: seq<string>, id: Id, key: string)
    ensures var bound := AttachAliases(aliases, keys, id);
            && (key in bound <==> key in aliases || key in keys)
            && (key in bound ==> bound[key] == if key in aliases then aliases[key] else id)
    decreases |keys|
  {
    if keys != [] {
      assert keys == [keys[0]] + keys[1..];
      AttachedAt(if keys[0] !in aliases || aliases[keys[0]] == id then aliases[keys[0] := id] else aliases, keys[1..], id, key);
    }
  }

  /** A creation without a key that names a stored job makes a new one, and all its keys name that. */
  lemma CreatesNew(s: Store, job: Job, keys: seq<string>, key: string)
    requires NoneLive(s.jobs, s.aliases, keys)
    ensures var (s', stored) := QueueStore.Create(s, job, keys);
            && stored == job && s'.jobs == s.jobs[job.id := job]
            && job.id in s'.activation && s'.activation[job.id] == job.createdAt && job.id in s'.all && s'.all[job.id] == job.createdAt
            && (key in s'.aliases <==> key in s.aliases || key in keys)
            && (key in s'.aliases ==> s'.aliases[key] == if key in keys then job.id else s.aliases[key])
  {
    FindNone(s.jobs, s.aliases, keys);
    AttachedAt(FindExisting(s.jobs, s.aliases, keys).0, keys, job.id, key);
    hide FindExisting, AttachAliases;
  }

  /**
   * Otherwise it answers the job of the first such key, and changes nothing but aliases: a key that named nothing, or came
   * before that first key, names the job from now on; all others name what they named.
   */
  lemma CreateAnswers(s: Store, job: Job, keys: seq<string>, key: string, i: nat)
    requires Inv(s) && FirstLive(s.jobs, s.aliases, keys, i)
    ensures var (s', stored) := QueueStore.Create(s, job, keys);
            && stored == s.jobs[s.aliases[keys[i]]] && stored.id == s.aliases[keys[i]] && s' == s.(aliases := s'.aliases)
            && (key in s'.aliases <==> key in s.aliases || key in keys)
            && (key in s'.aliases ==> s'.aliases[key] == if key in s.aliases && key !in keys[..i] then s.aliases[key] else stored.id)
  {
    FindLive(s.jobs, s.aliases, keys, i);
    assert JobInv(s, s.aliases[keys[i]]);
    AttachedAt(FindExisting(s.jobs, s.aliases, keys).0, keys, s.aliases[keys[i]], key);
    assert key in keys[..i] ==> key in keys;
    hide FindExisting, AttachAliases, Inv;
  }

  lemma {:induction false} FirstOf(s: Store, keys: seq<string>) returns (i: nat)
    requires !NoneLive(s.jobs, s.aliases, keys)
    ensures FirstLive(s.jobs, s.aliases, keys, i)
    decreases |keys|
  {
    if LiveKey(s.jobs, s.aliases, keys[0]) {
      i := 0;
    } else {
      var k :| 0 <= k < |keys| && LiveKey(s.jobs, s.aliases, keys[k]);
      assert keys[1..][k - 1] == keys[k];
      var j := FirstOf(s, keys[1..]);
      i := j + 1;
      assert forall m | 0 < m < |keys| :: keys[m] == keys[1..][m - 1];
    }
  }

  /** While its job is stored and the alias has not expired, a key goes on naming it. */
  lemma AliasStays(s: Store, a: Action, key: string)
    requires Inv(s) && LiveKey(s.jobs, s.aliases, key) && a != ExpireAlias(key)
    ensures key in Next(s, a).aliases && Next(s, a).aliases[key] == s.aliases[key]
  {
    match a
    case Create(job, keys) =>
      if NoneLive(s.jobs, s.aliases, keys) {
        CreatesNew(s, job, keys, key);
        assert key !in keys;
      } else {
        var i := FirstOf(s, keys);
        CreateAnswers(s, job, keys, key, i);
        assert forall k | 0 <= k < i :: keys[k] != key;
      }
      hide QueueStore.Create;
    case Claim(now, leaseMs, leaseId, candidates) => ClaimKeepsAliases(s, now, leaseMs, leaseId, candidates);
    case Recover(now, expired) => RecoverKeepsAliases(s, now, expired);
    case Prune(_, _, ids) => PruneForgets(s, ids, "");
    case _ =>
  }

  lemma {:induction false} ClaimKeepsAliases(s: Store, now: int, leaseMs: int, leaseId: LeaseId, candidates: seq<Id>)
    ensures QueueStore.Claim(s, now, leaseMs, leaseId, candidates).0.aliases == s.aliases
    decreases |candidates|
  {
    if candidates != [] {
      ClaimOneKeepsAliases(s, now, leaseMs, leaseId, candidates[0]);
      hide ClaimOne;
      ClaimKeepsAliases(ClaimOne(s, now, leaseMs, leaseId, candidates[0]).0, now, leaseMs, leaseId, candidates[1..]);
    }
  }

  lemma ClaimOneKeepsAliases(s: Store, now: int, leaseMs: int, leaseId: LeaseId, x: Id)
    ensures ClaimOne(s, now, leaseMs, leaseId, x).0.aliases == s.aliases
  {
    hide Held, InstallationLock, RepositoryLock, Lease, Defer, Take;
    if x in s.jobs {
      DeferKeepsAliases(s, x, now);
      DeferKeepsAliases(s.(locks := s.locks - {InstallationLock(s.jobs[x])}), x, now);
      TakeKeepsAliases(s, x, now, leaseMs, leaseId);
    }
  }

  lemma DeferKeepsAliases(s: Store, x: Id, now: int)
    requires x in s.jobs
    ensures Defer(s, x, now).aliases == s.aliases
  {
  }

  lemma TakeKeepsAliases(s: Store, x: Id, now: int, leaseMs: int, leaseId: LeaseId)
    requires x in s.jobs
    ensures Take(s, x, now, leaseMs, leaseId).aliases == s.aliases
  {
    hide InstallationLock, RepositoryLock, Lease;
  }

  lemma {:induction false} RecoverKeepsAliases(s: Store, now: int, expired: seq<Id>)
    ensures QueueStore.Recover(s, now, expired).aliases == s.aliases
    decreases |expired|
  {
    hide Recovery, Expired;
    if expired != [] {
      RecoverKeepsAliases(RecoverOne(s, now, expired[0]), now, expired[1..]);
    }
  }

  /** So whoever creates with a key that names a stored job gets that job, whatever else happened since. */
  lemma OneJobPerKey(s: Store, job: Job, key: string)
    requires Inv(s) && LiveKey(s.jobs, s.aliases, key)
    ensures QueueStore.Create(s, job, [key]).1 == s.jobs[s.aliases[key]]
  {
    assert FirstLive(s.jobs, s.aliases, [key], 0);
    CreateAnswers(s, job, [key], key, 0);
    hide QueueStore.Create;
  }

  /**
   * Two creations that share a key answer one job exactly when the key did not name another one already: it was free, or
   * came before the first key that named a stored job, or named the job that was answered.
   */
  lemma SharedKeyExactly(s: Store, job: Job, keys: seq<string>, key: string, other: Job)
    requires Inv(s) && NewJob(s, job) && key in keys
    requires other != QueueStore.Create(s, job, keys).1
    ensures var (s', stored) := QueueStore.Create(s, job, keys);
            QueueStore.Create(s', other, [key]).1 == stored
            <==> forall i: nat | FirstLive(s.jobs, s.aliases, keys, i) ::
                   key !in s.aliases || key in keys[..i] || s.aliases[key] == s.aliases[keys[i]]
  {
    var (s', stored) := QueueStore.Create(s, job, keys);
    CreateKeeps(s, job, keys);
    if NoneLive(s.jobs, s.aliases, keys) {
      CreatesNew(s, job, keys, key);
    } else {
      var i := FirstOf(s, keys);
      CreateAnswers(s, job, keys, key, i);
      assert forall k: nat | FirstLive(s.jobs, s.aliases, keys, k) :: k == i;
    }
    if LiveKey(s'.jobs, s'.aliases, key) {
      OneJobPerKey(s', other, key);
      assert JobInv(s', s'.aliases[key]);
    } else {
      assert NoneLive(s'.jobs, s'.aliases, [key]);
      CreatesNew(s', other, [key], key);
    }
    hide QueueStore.Create, Inv;
  }

  function Job0(id: Id): Job {
    Job(id, 1, "o", "r", Queued, 0, 3, 0, 0, 0, None, None, None, None, None)
  }

  /** Three creations after which two keys of the third still name different jobs. */
  lemma SharedKeyTwoJobs()
    ensures var empty := Store(map[], map[], map[], map[], map[], map[], map[], map[], map[], map[], 0);
            var s := QueueStore.Create(QueueStore.Create(empty, Job0("x"), ["a"]).0, Job0("y"), ["k"]).0;
            var (s', third) := QueueStore.Create(s, Job0("z"), ["a", "k"]);
            third == Job0("x") && QueueStore.Create(s', Job0("w"), ["k"]).1 == Job0("y")
  {
    var empty := Store(map[], map[], map[], map[], map[], map[], map[], map[], map[], map[], 0);
    var s1 := QueueStore.Create(empty, Job0("x"), ["a"]).0;
    var s2 := QueueStore.Create(s1, Job0("y"), ["k"]).0;
    assert ["a"][1..] == [] && ["k"][1..] == [] && ["a", "k"][1..] == ["k"];
    assert s1.aliases == map["a" := "x"] && s1.jobs == map["x" := Job0("x")];
    assert s2.aliases == map["a" := "x", "k" := "y"] && s2.jobs == map["x" := Job0("x"), "y" := Job0("y")];
    var s3 := QueueStore.Create(s2, Job0("z"), ["a", "k"]).0;
    assert s3.aliases == s2.aliases && s3.jobs == s2.jobs;
  }
}
