// How one job's life moves on, whatever action happens anywhere in the store.
module QueueEvolution {
  import opened Wrappers
  import opened QueueStore
  import opened QueueInvariant

  /** A job without the fields that change while it waits or runs; a finished job in full. */
  function Core(j: Job): Job {
    if Terminal(j.status) then j
    else j.(availableAt := 0, updatedAt := 0, startedAt := None, completedAt := None, leaseExpiresAt := None, lastError := None)
  }

  datatype View = Absent | Present(core: Job, pending: Option<Transition>)

  function ViewOf(s: Store, id: Id): View {
    if id !in s.jobs then Absent
    else Present(Core(s.jobs[id]), if id in s.transitions then Some(s.transitions[id]) else None)
  }

  predicate Waits(status: Status) {
    status.Queued? || status.Retrying?
  }

  ghost predicate Created(v: View, v': View, a: Action, id: Id) {
    a.Create? && a.job.id == id && v.Absent? && v' == Present(Core(a.job), None)
  }

  ghost predicate Forgotten(v: View, v': View, a: Action) {
    (a.Prune? || a.ExpireRecord?) && v.Present? && Terminal(v.core.status) && v'.Absent?
  }

  ghost predicate NeverRan(v: View, v': View, a: Action, id: Id) {
    && a.FailActivation? && a.id == id && v.Present? && v.core.status.Queued?
    && v'.Present? && v'.core.id == id && v'.core.status.Failed? && v'.core.attempts == 0 && v'.core.leaseId.None? && v'.pending.None?
  }

  ghost predicate Claimed(v: View, v': View, a: Action) {
    && a.Claim? && v.Present? && Waits(v.core.status)
    && v' == Present(v.core.(status := Running, attempts := v.core.attempts + 1, leaseId := Some(a.leaseId)), None)
  }

  ghost predicate Pended(v: View, v': View, a: Action) {
    && v.Present? && v.core.status.Running? && v.pending.None?
    && v'.Present? && v'.core == v.core && v'.pending.Some? && Outcome(v.core, v'.pending.value)
    && (a.Recover? || a == Stage(v'.pending.value))
  }

  ghost predicate Settles(v: View, v': View, a: Action, id: Id) {
    && a == Acknowledge(id) && v.Present? && v.core.status.Running? && v.pending.Some?
    && v' == Present(Core(Settled(v.pending.value)), None)
  }

  /** The only ways in which what is known of one job can change in one action. */
  ghost predicate Moves(v: View, v': View, a: Action, id: Id) {
    || v' == v || Created(v, v', a, id) || Forgotten(v, v', a) || NeverRan(v, v', a, id)
    || Claimed(v, v', a) || Pended(v, v', a) || Settles(v, v', a, id)
  }

  lemma SameRecordSameView(s: Store, s': Store, id: Id)
    requires id in s.jobs <==> id in s'.jobs
    requires id in s.jobs ==> s.jobs[id] == s'.jobs[id]
    requires s'.transitions == s.transitions
    ensures ViewOf(s', id) == ViewOf(s, id)
  {
  }

  lemma DeferOther(s: Store, x: Id, now: int, id: Id)
    requires x in s.jobs && x != id
    ensures ViewOf(Defer(s, x, now), id) == ViewOf(s, id)
  {
    SameRecordSameView(s, Defer(s, x, now), id);
  }

  lemma TakeOther(s: Store, x: Id, now: int, leaseMs: int, leaseId: LeaseId, id: Id)
    requires x in s.jobs && x != id
    ensures ViewOf(Take(s, x, now, leaseMs, leaseId), id) == ViewOf(s, id)
  {
    hide ViewOf, Lease, InstallationLock, RepositoryLock;
    SameRecordSameView(s, Take(s, x, now, leaseMs, leaseId), id);
  }

  lemma ClaimOneOthers(s: Store, a: Action, x: Id, id: Id)
    requires a.Claim? && x != id
    ensures ViewOf(ClaimOne(s, a.now, a.leaseMs, a.leaseId, x).0, id) == ViewOf(s, id)
  {
    hide ViewOf, Defer, Take, InstallationLock, RepositoryLock, Held, Lease;
    if x in s.jobs {
      var dropped := s.(locks := s.locks - {InstallationLock(s.jobs[x])});
      DeferOther(s, x, a.now, id);
      DeferOther(dropped, x, a.now, id);
      SameRecordSameView(s, dropped, id);
      TakeOther(s, x, a.now, a.leaseMs, a.leaseId, id);
    } else {
      SameRecordSameView(s, s.(scheduled := s.scheduled - {x}), id);
    }
  }

  lemma DeferSelf(s: Store, x: Id, now: int)
    requires x in s.jobs && !Terminal(s.jobs[x].status)
    ensures ViewOf(Defer(s, x, now), x) == ViewOf(s, x)
  {
  }

  lemma TakeSelf(s: Store, a: Action, x: Id)
    requires a.Claim? && x in s.jobs && Waits(s.jobs[x].status) && x !in s.transitions
    ensures Claimed(ViewOf(s, x), ViewOf(Take(s, x, a.now, a.leaseMs, a.leaseId), x), a)
  {
  }

  lemma ClaimOneSelf(s: Store, a: Action, x: Id)
    requires Inv(s) && a.Claim? && x in s.scheduled
    ensures var (s', claimed) := ClaimOne(s, a.now, a.leaseMs, a.leaseId, x);
            && (claimed.None? ==> ViewOf(s', x) == ViewOf(s, x))
            && (claimed.Some? ==> Claimed(ViewOf(s, x), ViewOf(s', x), a))
  {
    assert JobInv(s, x);
    hide ViewOf, Claimed, Take, Defer, InstallationLock, RepositoryLock, Held, Lease;
    var job := s.jobs[x];
    if Held(s.locks, s.clock, InstallationLock(job)) {
      DeferSelf(s, x, a.now);
    } else if Held(s.locks, s.clock, RepositoryLock(job)) {
      var dropped := s.(locks := s.locks - {InstallationLock(job)});
      DeferSelf(dropped, x, a.now);
      SameRecordSameView(s, dropped, x);
    } else {
      TakeSelf(s, a, x);
    }
  }

  /** The claimed record is the stored one, and carries the lease that was asked for. */
  ghost predicate ClaimResult(s: Store, leaseId: LeaseId, claimed: Option<Job>) {
    claimed.Some? ==>
      && claimed.value.id in s.jobs && claimed.value == s.jobs[claimed.value.id]
      && claimed.value.status.Running? && claimed.value.leaseId == Some(leaseId)
  }

  lemma {:induction false} ClaimMoves(s: Store, a: Action, candidates: seq<Id>, id: Id)
    requires Inv(s) && a.Claim? && a.now <= s.clock && Waiting(s, candidates)
    ensures var (s', claimed) := QueueStore.Claim(s, a.now, a.leaseMs, a.leaseId, candidates);
            && Moves(ViewOf(s, id), ViewOf(s', id), a, id) && ClaimResult(s', a.leaseId, claimed)
            && (ViewOf(s', id) != ViewOf(s, id) ==> claimed.Some? && claimed.value.id == id)
    decreases |candidates|
  {
    if candidates != [] {
      hide Inv, ViewOf;
      var x := candidates[0];
      ClaimOneKeeps(s, a.now, a.leaseMs, a.leaseId, x);
      ClaimOneSelf(s, a, x);
      if x != id {
        ClaimOneOthers(s, a, x, id);
      }
      ClaimOneResult(s, a.now, a.leaseMs, a.leaseId, x);
      hide ClaimOne, Moves, ClaimResult;
      NothingMoves(ViewOf(s, id), a, id);
      var (next, claimed) := ClaimOne(s, a.now, a.leaseMs, a.leaseId, x);
      if claimed.None? {
        ClaimMoves(next, a, candidates[1..], id);
      } else {
        ClaimedMoves(ViewOf(s, id), ViewOf(next, id), a, id);
      }
    }
  }

  lemma ClaimOneResult(s: Store, now: int, leaseMs: int, leaseId: LeaseId, x: Id)
    requires Inv(s) && x in s.scheduled
    ensures var (s', claimed) := ClaimOne(s, now, leaseMs, leaseId, x);
            ClaimResult(s', leaseId, claimed) && (claimed.Some? ==> claimed.value.id == x)
  {
    hide InstallationLock, RepositoryLock, Held;
    assert JobInv(s, x);
  }

  lemma ClaimedMoves(v: View, v': View, a: Action, id: Id)
    requires v == v' || Claimed(v, v', a)
    ensures Moves(v, v', a, id)
  {
  }

  lemma NothingMoves(v: View, a: Action, id: Id)
    ensures Moves(v, v, a, id)
  {
  }

  lemma RecoverOneMoves(s: Store, a: Action, x: Id, id: Id)
    requires Inv(s) && a.Recover?
    ensures Moves(ViewOf(s, id), ViewOf(RecoverOne(s, a.now, x), id), a, id)
  {
    if x != id {
      hide *;
      RecoverOneOthers(s, a.now, x, id);
      NothingMoves(ViewOf(s, id), a, id);
    } else {
      assert JobInv(s, x);
      hide Inv, LockInv;
    }
  }

  lemma RecoverOneOthers(s: Store, now: int, x: Id, id: Id)
    requires x != id
    ensures ViewOf(RecoverOne(s, now, x), id) == ViewOf(s, id)
  {
    hide Core, Recovery, Expired;
  }

  lemma {:induction false} RecoverMoves(s: Store, a: Action, expired: seq<Id>, id: Id)
    requires Inv(s) && a.Recover? && Distinct(expired) && forall x | x in expired :: x in s.active ==> s.active[x] <= a.now
    ensures Moves(ViewOf(s, id), ViewOf(QueueStore.Recover(s, a.now, expired), id), a, id)
    ensures id !in expired ==> ViewOf(QueueStore.Recover(s, a.now, expired), id) == ViewOf(s, id)
    decreases |expired|
  {
    if expired != [] {
      hide Inv, RecoverOne, Moves, ViewOf;
      var next := RecoverOne(s, a.now, expired[0]);
      RecoverOneKeeps(s, a.now, expired[0]);
      RecoverOneActive(s, a.now, expired[0]);
      RecoverMoves(next, a, expired[1..], id);
      if expired[0] == id {
        RecoverOneMoves(s, a, id, id);
      } else {
        RecoverOneOthers(s, a.now, expired[0], id);
      }
    } else {
      NothingMoves(ViewOf(s, id), a, id);
    }
  }

  lemma RecoverOneActive(s: Store, now: int, x: Id)
    ensures forall y | y in RecoverOne(s, now, x).active :: y in s.active && RecoverOne(s, now, x).active[y] == s.active[y]
  {
  }

  lemma {:induction false} PruneMoves(s: Store, a: Action, ids: seq<Id>, id: Id)
    requires Inv(s) && a.Prune? && Distinct(ids) && forall x | x in ids :: x in s.terminal
    ensures Moves(ViewOf(s, id), ViewOf(QueueStore.Prune(s, ids), id), a, id)
    ensures id !in ids ==> ViewOf(QueueStore.Prune(s, ids), id) == ViewOf(s, id)
    decreases |ids|
  {
    if ids != [] {
      assert JobInv(s, ids[0]);
      PruneOneKeeps(s, ids[0]);
      PruneMoves(PruneOne(s, ids[0]), a, ids[1..], id);
    }
  }

  lemma RangeIsWaiting(s: Store, now: int, limit: nat, ids: seq<Id>)
    requires IsRange(s.scheduled, now, limit, ids)
    ensures Waiting(s, ids)
  {
  }

  /** Every enabled action moves every job in one of these ways. */
  lemma NextMoves(s: Store, a: Action, id: Id)
    requires Inv(s) && Enabled(s, a)
    ensures Moves(ViewOf(s, id), ViewOf(Next(s, a), id), a, id)
  {
    hide Inv, Moves, ViewOf;
    match a
    case Claim(now, leaseMs, leaseId, candidates) =>
      RangeIsWaiting(s, now, CLAIM_LIMIT, candidates);
      ClaimMoves(s, a, candidates, id);
    case Recover(now, expired) => RecoverMoves(s, a, expired, id);
    case Prune(_, _, ids) => PruneMoves(s, a, ids, id);
    case Create(_, _) => CreateMoves(s, a, id);
    case Acknowledge(x) => AcknowledgeMoves(s, a, id);
    case Renew(_, _, _) => RenewMoves(s, a, id);
    case Stage(_) => StageMoves(s, a, id);
    case FailActivation(_, _, _) => FailActivationMoves(s, a, id);
    case _ => OthersMove(s, a, id);
  }

  /** A claim takes one job at most. */
  lemma ClaimsOnce(s: Store, a: Action, x: Id, y: Id)
    requires Inv(s) && Enabled(s, a) && a.Claim?
    requires ViewOf(Next(s, a), x) != ViewOf(s, x) && ViewOf(Next(s, a), y) != ViewOf(s, y)
    ensures x == y
  {
    hide Inv, ViewOf, Moves;
    RangeIsWaiting(s, a.now, CLAIM_LIMIT, a.candidates);
    ClaimMoves(s, a, a.candidates, x);
    ClaimMoves(s, a, a.candidates, y);
  }

  lemma StageMoves(s: Store, a: Action, id: Id)
    requires Inv(s) && a.Stage? && Enabled(s, a)
    ensures Moves(ViewOf(s, id), ViewOf(Next(s, a), id), a, id)
  {
    assert JobInv(s, id);
  }

  lemma FailActivationMoves(s: Store, a: Action, id: Id)
    requires Inv(s) && a.FailActivation?
    ensures Moves(ViewOf(s, id), ViewOf(Next(s, a), id), a, id)
  {
    assert JobInv(s, id);
  }

  lemma OthersMove(s: Store, a: Action, id: Id)
    requires a.Activate? || a.ExpireRecord? || a.ExpireAlias? || a.Tick?
    ensures Moves(ViewOf(s, id), ViewOf(Next(s, a), id), a, id)
  {
  }

  lemma CreateOther(s: Store, job: Job, keys: seq<string>, id: Id)
    requires FindExisting(s.jobs, s.aliases, keys).1.Some? || id != job.id
    ensures ViewOf(QueueStore.Create(s, job, keys).0, id) == ViewOf(s, id)
  {
    hide ViewOf, FindExisting, AttachAliases;
    var (aliases, existing) := FindExisting(s.jobs, s.aliases, keys);
    match existing
    case Some(found) =>
      SameRecordSameView(s, s.(aliases := AttachAliases(aliases, keys, found.id)), id);
    case None =>
      var attached := s.(aliases := AttachAliases(aliases, keys, job.id));
      SameRecordSameView(s, attached, id);
      AddOther(attached, job, id);
  }

  lemma AddOther(s: Store, job: Job, id: Id)
    requires id != job.id
    ensures ViewOf(s.(jobs := s.jobs[job.id := job], all := s.all[job.id := job.createdAt], activation := s.activation[job.id := job.createdAt]), id)
            == ViewOf(s, id)
  {
  }

  lemma CreateMoves(s: Store, a: Action, id: Id)
    requires Inv(s) && a.Create? && NewJob(s, a.job)
    ensures Moves(ViewOf(s, id), ViewOf(Next(s, a), id), a, id)
  {
    hide Inv, NewJob, ViewOf, FindExisting, AttachAliases, Core, QueueStore.Create;
    if FindExisting(s.jobs, s.aliases, a.keys).1.Some? || id != a.job.id {
      CreateOther(s, a.job, a.keys, id);
    } else {
      AddedView(s, a);
    }
  }

  lemma AddedView(s: Store, a: Action)
    requires Inv(s) && a.Create? && NewJob(s, a.job) && FindExisting(s.jobs, s.aliases, a.keys).1.None?
    ensures Created(ViewOf(s, a.job.id), ViewOf(Next(s, a), a.job.id), a, a.job.id)
  {
    hide FindExisting, AttachAliases, Core;
    assert JobInv(s, a.job.id);
  }

  lemma AcknowledgeMoves(s: Store, a: Action, id: Id)
    requires Inv(s) && a.Acknowledge?
    ensures Moves(ViewOf(s, id), ViewOf(Next(s, a), id), a, id)
  {
    hide Release, InstallationLock, RepositoryLock;
    assert JobInv(s, id) && JobInv(s, a.id);
  }

  lemma RenewMoves(s: Store, a: Action, id: Id)
    requires Inv(s) && a.Renew?
    ensures Moves(ViewOf(s, id), ViewOf(Next(s, a), id), a, id)
  {
    hide Held, InstallationLock, RepositoryLock;
  }

  // ----- what follows for runs of actions

  /** A finished job never changes; its record can only be forgotten. */
  lemma FinishedStays(s: Store, a: Action, id: Id)
    requires Inv(s) && Enabled(s, a) && id in s.jobs && Terminal(s.jobs[id].status)
    ensures id in Next(s, a).jobs ==> Next(s, a).jobs[id] == s.jobs[id]
    ensures id !in Next(s, a).jobs ==> a.Prune? || a.ExpireRecord?
  {
    assert JobInv(s, id);
    NextMoves(s, a, id);
    NextKeeps(s, a);
    assert JobInv(Next(s, a), id);
    hide Next;
  }

  /** A pending transition stays as it is until its job is acknowledged. */
  lemma PendingStays(s: Store, a: Action, id: Id)
    requires Inv(s) && Enabled(s, a) && id in s.transitions && a != Acknowledge(id)
    ensures id in Next(s, a).transitions && Next(s, a).transitions[id] == s.transitions[id]
  {
    assert JobInv(s, id);
    NextMoves(s, a, id);
  }
}
