// The invariant of Outbox holds along every run, and what it says about the ledger.
module OutboxProof {
  import opened Wrappers
  import opened QueueStore
  import opened QueueInvariant
  import opened QueueEvolution
  import opened Outbox

  /** The pending transition of an id, seen through its view. */
  function PendingOf(v: View): Option<Transition> {
    if v.Present? then v.pending else None
  }

  /** The change of view stages a transition for attempt n. */
  ghost predicate Stages(v: View, v': View, n: nat) {
    PendingOf(v).None? && PendingOf(v').Some? && PendingOf(v').value.job.attempts == n
  }

  lemma NewOutcomesAt(s: Store, s': Store, r: Run)
    requires Inv(s) && Inv(s')
    ensures r in NewOutcomes(s, s') <==> Stages(ViewOf(s, r.id), ViewOf(s', r.id), r.attempt)
    ensures r in NewOutcomes(s, s') ==> PendingOf(ViewOf(s', r.id)).Some? && NewOutcomes(s, s')[r] == PendingOf(ViewOf(s', r.id)).value
  {
    hide StatusOk;
    assert JobInv(s, r.id) && JobInv(s', r.id);
    if Stages(ViewOf(s, r.id), ViewOf(s', r.id), r.attempt) {
      assert r.id in s'.transitions && r.id !in s.transitions;
    }
  }

  /** The history of one id grows by exactly what its change of view stages. */
  ghost predicate Grows(v: View, v': View, id: Id, outcomes: map<Run, Transition>, outcomes': map<Run, Transition>) {
    forall n: nat ::
      && (Run(id, n) in outcomes' <==> Run(id, n) in outcomes || Stages(v, v', n))
      && (Run(id, n) in outcomes' ==>
            outcomes'[Run(id, n)] == if Stages(v, v', n) then PendingOf(v').value else outcomes[Run(id, n)])
  }

  /** An action that can happen and hands out nothing twice. */
  ghost predicate Fresh(sys: System, a: Action) {
    && Enabled(sys.store, a)
    && (a.Create? ==> a.job.id !in sys.usedIds)
    && (a.Claim? ==> a.leaseId !in sys.usedLeases)
  }

  lemma ActFacts(sys: System, a: Action, id: Id)
    requires HistoryInv(sys) && Fresh(sys, a)
    ensures var v, v' := ViewOf(sys.store, id), ViewOf(Act(sys, a).store, id);
            Inv(Act(sys, a).store) && Moves(v, v', a, id) && Grows(v, v', id, sys.outcomes, Act(sys, a).outcomes)
  {
    hide Inv, Moves, ViewOf, Next, NewOutcomes, Stages, PendingOf;
    NextKeeps(sys.store, a);
    NextMoves(sys.store, a, id);
    forall n: nat
      ensures Run(id, n) in NewOutcomes(sys.store, Next(sys.store, a))
              <==> Stages(ViewOf(sys.store, id), ViewOf(Next(sys.store, a), id), n)
      ensures Run(id, n) in NewOutcomes(sys.store, Next(sys.store, a)) ==>
                && PendingOf(ViewOf(Next(sys.store, a), id)).Some?
                && NewOutcomes(sys.store, Next(sys.store, a))[Run(id, n)] == PendingOf(ViewOf(Next(sys.store, a), id)).value
    {
      NewOutcomesAt(sys.store, Next(sys.store, a), Run(id, n));
    }
  }

  lemma MovesFit(v: View, v': View, a: Action, id: Id, usedIds: set<Id>, usedLeases: set<LeaseId>,
                 outcomes: map<Run, Transition>, outcomes': map<Run, Transition>)
    requires Fits(v, id, usedIds, usedLeases, outcomes) && Moves(v, v', a, id) && Grows(v, v', id, outcomes, outcomes')
    requires a.Create? ==> a.job.id !in usedIds && a.job.status.Queued? && a.job.attempts == 0
    ensures Fits(v', id, if a.Create? then usedIds + {a.job.id} else usedIds, if a.Claim? then usedLeases + {a.leaseId} else usedLeases, outcomes')
  {
    if v == v' {
    } else if Created(v, v', a, id) {
    } else if Forgotten(v, v', a) {
    } else if NeverRan(v, v', a, id) {
    } else if Claimed(v, v', a) {
    } else if Pended(v, v', a) {
      assert Stages(v, v', v.core.attempts);
    } else {
      assert Settles(v, v', a, id);
    }
  }

  lemma ActKeepsRun(sys: System, a: Action, id: Id)
    requires HistoryInv(sys) && Fresh(sys, a)
    ensures RunInv(Act(sys, a), id)
  {
    ActFacts(sys, a, id);
    assert RunInv(sys, id);
    hide ViewOf, Next, NewOutcomes, Inv, Fits, Grows, Moves;
    MovesFit(ViewOf(sys.store, id), ViewOf(Act(sys, a).store, id), a, id, sys.usedIds, sys.usedLeases, sys.outcomes, Act(sys, a).outcomes);
  }

  /** Before and after an action: what is known of one id. */
  ghost predicate Changed(sys: System, sys': System, a: Action, id: Id) {
    var v, v' := ViewOf(sys.store, id), ViewOf(sys'.store, id);
    && Moves(v, v', a, id) && Grows(v, v', id, sys.outcomes, sys'.outcomes)
    && Fits(v, id, sys.usedIds, sys.usedLeases, sys.outcomes)
    && sys.usedIds <= sys'.usedIds && sys.usedLeases <= sys'.usedLeases
    && (a.Claim? ==> a.leaseId !in sys.usedLeases && a.leaseId in sys'.usedLeases)
    && (a.Create? ==> a.job.status.Queued?)
  }

  lemma ActChanges(sys: System, a: Action, id: Id)
    requires HistoryInv(sys) && Fresh(sys, a)
    ensures Changed(sys, Act(sys, a), a, id)
  {
    ActFacts(sys, a, id);
    assert RunInv(sys, id);
    hide ViewOf, Next, NewOutcomes, Inv, Fits, Grows, Moves;
  }

  /** A run that is new in the history was running without an outcome, and its outcome is one it allows. */
  lemma StagedRun(sys: System, sys': System, a: Action, r: Run)
    requires Changed(sys, sys', a, r.id) && r in sys'.outcomes && r !in sys.outcomes
    ensures var v := ViewOf(sys.store, r.id);
            && v.Present? && v.core.id == r.id && v.core.status.Running? && v.core.attempts == r.attempt && v.pending.None?
            && v.core.leaseId.Some? && v.core.leaseId.value in sys.usedLeases && r.id in sys.usedIds
            && Outcome(v.core, sys'.outcomes[r]) && RunOf(sys'.outcomes[r]) == r
    ensures ViewOf(sys'.store, r.id) == Present(ViewOf(sys.store, r.id).core, Some(sys'.outcomes[r]))
  {
    hide ViewOf;
  }

  /** History is never rewritten. */
  lemma HistoryStays(sys: System, sys': System, a: Action, r: Run)
    requires Changed(sys, sys', a, r.id) && r in sys.outcomes
    ensures r in sys'.outcomes && sys'.outcomes[r] == sys.outcomes[r]
  {
    hide ViewOf;
    assert Run(r.id, r.attempt) == r;
  }

  lemma ActKeepsOutcome(sys: System, sys': System, a: Action, r: Run)
    requires Changed(sys, sys', a, r.id) && OutcomeInv(sys, r)
    ensures OutcomeInv(sys', r)
  {
    if r in sys.outcomes {
      HistoryStays(sys, sys', a, r);
    } else if r in sys'.outcomes {
      StagedRun(sys, sys', a, r);
    }
  }

  lemma ActKeepsLastRun(sys: System, sys': System, a: Action, r: Run, r': Run)
    requires Changed(sys, sys', a, r.id) && Changed(sys, sys', a, r'.id) && LastRun(sys, r, r')
    ensures LastRun(sys', r, r')
  {
    if r in sys.outcomes {
      HistoryStays(sys, sys', a, r);
    } else if r in sys'.outcomes {
      StagedRun(sys, sys', a, r);
    }
    if r' in sys.outcomes {
      HistoryStays(sys, sys', a, r');
    } else if r' in sys'.outcomes {
      StagedRun(sys, sys', a, r');
    }
    assert Run(r.id, r.attempt) == r && Run(r'.id, r'.attempt) == r';
    hide ViewOf, Moves, Grows;
  }

  /** Who holds a lease after an action either held it before, in the same run, or has just been given it. */
  lemma HolderBefore(sys: System, sys': System, a: Action, id: Id, l: LeaseId)
    requires Changed(sys, sys', a, id) && HoldsLease(sys'.store, id, l)
    ensures HoldsLease(sys.store, id, l) || (a.Claim? && l == a.leaseId && ViewOf(sys'.store, id) != ViewOf(sys.store, id))
    ensures HoldsLease(sys.store, id, l) ==> sys.store.jobs[id].attempts == sys'.store.jobs[id].attempts
    ensures HoldsLease(sys.store, id, l) ==> SameRun(sys.store.jobs[id], sys'.store.jobs[id]) && l in sys.usedLeases
  {
    var v, v' := ViewOf(sys.store, id), ViewOf(sys'.store, id);
    assert v'.Present? && v'.core.status.Running? && v'.core.leaseId == Some(l);
    assert v == v' || Claimed(v, v', a) || Pended(v, v', a);
  }

  lemma ActKeepsOneRun(sys: System, sys': System, a: Action, r: Run, r': Run)
    requires Changed(sys, sys', a, r.id) && Changed(sys, sys', a, r'.id)
    requires OneRunPerLease(sys, r, r') && OutcomeInv(sys, r) && OutcomeInv(sys, r')
    requires forall id, l {:trigger LeaseInv(sys, id, l)} :: LeaseInv(sys, id, l)
    ensures OneRunPerLease(sys', r, r')
  {
    hide Moves, Grows, Fits;
    if r in sys'.outcomes && r' in sys'.outcomes && sys'.outcomes[r].job.leaseId == sys'.outcomes[r'].job.leaseId {
      if r in sys.outcomes {
        HistoryStays(sys, sys', a, r);
      } else {
        StagedRun(sys, sys', a, r);
        assert LeaseInv(sys, r.id, sys'.outcomes[r].job.leaseId.value);
      }
      if r' in sys.outcomes {
        HistoryStays(sys, sys', a, r');
      } else {
        StagedRun(sys, sys', a, r');
        assert LeaseInv(sys, r'.id, sys'.outcomes[r'].job.leaseId.value);
      }
    }
  }

  lemma ActKeepsLease(sys: System, a: Action, id: Id, l: LeaseId)
    requires HistoryInv(sys) && Fresh(sys, a)
    ensures LeaseInv(Act(sys, a), id, l)
  {
    var sys' := Act(sys, a);
    hide Inv, ViewOf, Next, Moves, Grows, Fits, NewOutcomes, RunInv;
    if HoldsLease(sys'.store, id, l) {
      ActChanges(sys, a, id);
      HolderBefore(sys, sys', a, id, l);
      assert LeaseInv(sys, id, l);
      forall x | HoldsLease(sys'.store, x, l)
        ensures x == id
      {
        ActChanges(sys, a, x);
        HolderBefore(sys, sys', a, x, l);
        if a.Claim? && l == a.leaseId && x != id {
          ClaimedOnce(sys, a, x, id, l);
        }
      }
      forall r | r in sys'.outcomes && sys'.outcomes[r].job.leaseId == Some(l)
        ensures r == Run(id, sys'.store.jobs[id].attempts)
      {
        ActChanges(sys, a, r.id);
        assert OutcomeInv(sys, r);
        if r in sys.outcomes {
          HistoryStays(sys, sys', a, r);
        } else {
          StagedRun(sys, sys', a, r);
          StagedHolder(sys, r, l);
          assert LeaseInv(sys, r.id, l);
        }
      }
    }
  }

  lemma StagedHolder(sys: System, r: Run, l: LeaseId)
    requires ViewOf(sys.store, r.id).Present? && ViewOf(sys.store, r.id).core.status.Running?
    requires ViewOf(sys.store, r.id).core.leaseId == Some(l) && ViewOf(sys.store, r.id).core.attempts == r.attempt
    ensures HoldsLease(sys.store, r.id, l) && sys.store.jobs[r.id].attempts == r.attempt
  {
  }

  lemma ClaimedOnce(sys: System, a: Action, x: Id, y: Id, l: LeaseId)
    requires HistoryInv(sys) && Fresh(sys, a) && a.Claim? && l == a.leaseId
    requires HoldsLease(Act(sys, a).store, x, l) && HoldsLease(Act(sys, a).store, y, l)
    ensures x == y
  {
    hide Inv, Next, Moves, Grows, Fits, NewOutcomes, ViewOf;
    ActChanges(sys, a, x);
    ActChanges(sys, a, y);
    HolderBefore(sys, Act(sys, a), a, x, l);
    HolderBefore(sys, Act(sys, a), a, y, l);
    ClaimsOnce(sys.store, a, x, y);
  }

  /** Every action that hands out nothing twice keeps the history invariant. */
  lemma ActKeepsHistory(sys: System, a: Action)
    requires HistoryInv(sys) && Fresh(sys, a)
    ensures HistoryInv(Act(sys, a))
  {
    var sys' := Act(sys, a);
    NextKeeps(sys.store, a);
    hide Act, Inv, Next, Changed, RunInv, OutcomeInv, LastRun, OneRunPerLease, LeaseInv, Fresh;
    forall id ensures RunInv(sys', id) { ActKeepsRun(sys, a, id); }
    forall r ensures OutcomeInv(sys', r) { ActChanges(sys, a, r.id); ActKeepsOutcome(sys, sys', a, r); }
    forall r, r'
      ensures LastRun(sys', r, r') && OneRunPerLease(sys', r, r')
    {
      ActChanges(sys, a, r.id);
      ActChanges(sys, a, r'.id);
      ActKeepsLastRun(sys, sys', a, r, r');
      ActKeepsOneRun(sys, sys', a, r, r');
    }
    forall id, l ensures LeaseInv(sys', id, l) { ActKeepsLease(sys, a, id, l); }
  }

  // ----- workers and the ledger

  lemma KnownStays(sys: System, a: Action, t: Transition)
    requires HistoryInv(sys) && Fresh(sys, a) && Known(sys, t)
    ensures Known(Act(sys, a), t)
  {
    hide HistoryInv, Act, Changed;
    ActChanges(sys, a, t.job.id);
    HistoryStays(sys, Act(sys, a), a, RunOf(t));
  }

  lemma ActKeepsWorker(sys: System, a: Action, w: WorkerId)
    requires HistoryInv(sys) && Fresh(sys, a) && WorkerInv(sys, w)
    ensures WorkerInv(Act(sys, a), w)
  {
    hide HistoryInv, Next, Changed, NewOutcomes, Known;
    match At(sys, w)
    case Settling(t, _) => KnownStays(sys, a, t);
    case Holding(j) =>
      var l := j.leaseId.value;
      forall id | HoldsLease(Act(sys, a).store, id, l)
        ensures SameRun(Act(sys, a).store.jobs[id], j)
      {
        ActChanges(sys, a, id);
        HolderBefore(sys, Act(sys, a), a, id, l);
        assert !(a.Claim? && l == a.leaseId);
      }
    case _ =>
  }

  lemma ActKeepsLedger(sys: System, a: Action)
    requires SystemInv(sys) && Fresh(sys, a)
    ensures SystemInv(Act(sys, a))
  {
    hide HistoryInv, Fresh, Known, WorkerInv;
    ActKeepsHistory(sys, a);
    forall key ensures EventInv(Act(sys, a), key) {
      assert EventInv(sys, key);
      if key in sys.recorded { KnownStays(sys, a, sys.recorded[key]); }
    }
    forall w ensures WorkerInv(Act(sys, a), w) {
      assert WorkerInv(sys, w);
      ActKeepsWorker(sys, a, w);
    }
  }

  /** Moving one worker on keeps the invariant if what it now holds does. */
  lemma PutKeeps(sys: System, w: WorkerId, worker: Worker)
    requires SystemInv(sys) && WorkerInv(Put(sys, w, worker), w)
    ensures SystemInv(Put(sys, w, worker))
  {
    hide Inv, Fits, Known;
    var sys' := Put(sys, w, worker);
    forall id ensures RunInv(sys', id) { assert RunInv(sys, id); }
    forall r ensures OutcomeInv(sys', r) { assert OutcomeInv(sys, r); }
    forall r, r' ensures LastRun(sys', r, r') && OneRunPerLease(sys', r, r') { assert LastRun(sys, r, r') && OneRunPerLease(sys, r, r'); }
    forall id, l ensures LeaseInv(sys', id, l) { assert LeaseInv(sys, id, l); }
    forall key ensures EventInv(sys', key) { assert EventInv(sys, key); KnownAnywhere(sys, sys'); }
    forall x ensures WorkerInv(sys', x) { assert WorkerInv(sys, x); KnownAnywhere(sys, sys'); }
  }

  lemma KnownAnywhere(sys: System, sys': System)
    requires sys.outcomes == sys'.outcomes
    ensures forall t :: Known(sys, t) <==> Known(sys', t)
  {
  }

  /** What a worker stages from the job it claimed is an outcome of the run that is stored under its lease. */
  lemma StagedIsOutcome(sys: System, w: WorkerId, t: Transition)
    requires SystemInv(sys) && At(sys, w).Holding? && Finishes(At(sys, w).job, t)
    ensures Enabled(sys.store, Stage(t))
  {
    assert WorkerInv(sys, w);
    hide Inv;
    if QueueStore.Stage(sys.store, t).1 {
      assert HoldsLease(sys.store, t.job.id, t.job.leaseId.value);
    }
  }

  /** Whatever is pending is known to the history. */
  lemma PendingIsKnown(sys: System, id: Id)
    requires HistoryInv(sys) && id in sys.store.transitions
    ensures Known(sys, sys.store.transitions[id]) && sys.store.transitions[id].job.id == id
  {
    assert RunInv(sys, id) && JobInv(sys.store, id);
  }

  lemma JustStagedIsKnown(sys: System, t: Transition)
    requires HistoryInv(sys) && QueueStore.Stage(sys.store, t).1 && Enabled(sys.store, Stage(t))
    ensures Known(Act(sys, Stage(t)), t)
  {
    var sys' := Act(sys, Stage(t));
    ActKeepsHistory(sys, Stage(t));
    PendingIsKnown(sys', t.job.id);
  }

  lemma ClaimedHolds(sys: System, a: Action, claimed: Job)
    requires HistoryInv(sys) && Fresh(sys, a) && a.Claim?
    requires QueueStore.Claim(sys.store, a.now, a.leaseMs, a.leaseId, a.candidates).1 == Some(claimed)
    ensures claimed.leaseId == Some(a.leaseId)
    ensures forall id | HoldsLease(Act(sys, a).store, id, a.leaseId) :: SameRun(Act(sys, a).store.jobs[id], claimed)
  {
    RangeIsWaiting(sys.store, a.now, CLAIM_LIMIT, a.candidates);
    ClaimMoves(sys.store, a, a.candidates, claimed.id);
    hide Inv, Moves, Changed, NewOutcomes, HistoryInv;
    forall id | HoldsLease(Act(sys, a).store, id, a.leaseId)
      ensures SameRun(Act(sys, a).store.jobs[id], claimed)
    {
      ClaimedOnce(sys, a, id, claimed.id, a.leaseId);
    }
  }

  lemma NotedKeeps(sys: System, w: WorkerId, revoked: bool)
    requires SystemInv(sys) && At(sys, w).Settling?
    ensures SystemInv(Noted(sys, w, At(sys, w).t, revoked))
  {
    assert WorkerInv(sys, w);
    hide HistoryInv, Known;
    var t := At(sys, w).t;
    var sys' := if revoked then sys.(refused := sys.refused + {KeyOf(t)})
                else if KeyOf(t) !in sys.recorded then sys.(recorded := sys.recorded[KeyOf(t) := t]) else sys;
    HistoryIgnoresLedger(sys, sys');
    KnownAnywhere(sys, sys');
    forall key ensures EventInv(sys', key) { assert EventInv(sys, key); }
    forall x ensures WorkerInv(sys', x) { assert WorkerInv(sys, x); }
    if revoked || KeyOf(t) !in sys.recorded || sys.recorded[KeyOf(t)] == t {
      KnownAnywhere(sys, Put(sys', w, Settling(t, true)));
      PutKeeps(sys', w, Settling(t, true));
    } else {
      PutKeeps(sys', w, Idle);
    }
  }

  lemma HistoryIgnoresLedger(sys: System, sys': System)
    requires HistoryInv(sys)
    requires sys' == sys.(recorded := sys'.recorded, refused := sys'.refused)
    ensures HistoryInv(sys')
  {
    hide Inv, Fits;
    forall id ensures RunInv(sys', id) { assert RunInv(sys, id); }
    forall r ensures OutcomeInv(sys', r) { assert OutcomeInv(sys, r); }
    forall r, r' ensures LastRun(sys', r, r') && OneRunPerLease(sys', r, r') { assert LastRun(sys, r, r') && OneRunPerLease(sys, r, r'); }
    forall id, l ensures LeaseInv(sys', id, l) { assert LeaseInv(sys, id, l); }
  }
}
