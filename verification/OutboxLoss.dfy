// When the event of a staged outcome can still be recorded, and when it is lost for good.
module OutboxLoss {
  import opened Wrappers
  import opened QueueStore
  import opened QueueInvariant
  import opened QueueEvolution
  import opened Outbox
  import opened OutboxProof
  import opened OutboxTheorems

  /** A job that is finished or forgotten, and an outcome of one of its runs whose event is not recorded. */
  ghost predicate Ended(sys: System, t: Transition) {
    && SystemInv(sys) && Known(sys, t) && KeyOf(t) !in sys.recorded
    && (t.job.id in sys.store.jobs ==> Terminal(sys.store.jobs[t.job.id].status))
  }

  /** Some worker has read the outcome and is yet to record its event. */
  ghost predicate StillHeld(sys: System, t: Transition) {
    exists w :: At(sys, w) == Settling(t, false)
  }

  ghost predicate Lost(sys: System, t: Transition) {
    Ended(sys, t) && !StillHeld(sys, t)
  }

  lemma EndedFacts(sys: System, t: Transition)
    requires Ended(sys, t)
    ensures t.job.id in sys.usedIds && t.job.id !in sys.store.transitions
    ensures !QueueStore.Stage(sys.store, t).1
  {
    hide RunInv, LeaseInv, LockInv, LedgerInv;
    assert OutcomeInv(sys, RunOf(t)) && JobInv(sys.store, t.job.id);
  }

  /** An outcome yet to be recorded is in hand from before, has just been read, or has just been staged. */
  lemma TakenUp(sys: System, step: Step, w: WorkerId, t: Transition)
    requires At(Perform(sys, step), w) == Settling(t, false)
    ensures || At(sys, w) == Settling(t, false)
            || (step.ReadTransition? && step.id in sys.store.transitions && sys.store.transitions[step.id] == t)
            || (step.StageOutcome? && step.t == t && QueueStore.Stage(sys.store, t).1)
  {
    hide Next, NewOutcomes, QueueStore.Create, QueueStore.Claim, QueueStore.Stage, KeyOf;
  }

  lemma NobodyTakesItUp(sys: System, step: Step, t: Transition)
    requires Lost(sys, t) && Allowed(sys, step)
    ensures !StillHeld(Perform(sys, step), t)
  {
    EndedFacts(sys, t);
    if step.ReadTransition? {
      assert HistoryInv(sys);
      hide HistoryInv, LedgerInv;
      PendingIsKnown(sys, step.id);
    }
    hide Perform;
    if StillHeld(Perform(sys, step), t) {
      var w :| At(Perform(sys, step), w) == Settling(t, false);
      TakenUp(sys, step, w, t);
    }
  }

  lemma RecordedBy(sys: System, step: Step, key: EventKey)
    requires key !in sys.recorded && key in Perform(sys, step).recorded
    ensures step.Note? && At(sys, step.w).Settling? && KeyOf(At(sys, step.w).t) == key
  {
    hide Next, NewOutcomes, QueueStore.Create, QueueStore.Claim, QueueStore.Stage, KeyOf;
  }

  lemma NobodyRecordsIt(sys: System, step: Step, t: Transition)
    requires Lost(sys, t) && Allowed(sys, step)
    ensures KeyOf(t) !in Perform(sys, step).recorded
  {
    if KeyOf(t) in Perform(sys, step).recorded {
      RecordedBy(sys, step, KeyOf(t));
      hide Perform, KeyOf;
      assert WorkerInv(sys, step.w);
      hide HistoryInv;
      KeysAreDistinct(sys, t, At(sys, step.w).t);
    }
  }

  lemma StepKeepsLost(sys: System, step: Step, t: Transition)
    requires Lost(sys, t) && Allowed(sys, step)
    ensures Lost(Perform(sys, step), t)
  {
    EndedFacts(sys, t);
    PerformKeeps(sys, step);
    HistoryOnlyGrows(sys, step, RunOf(t));
    NeverResurrected(sys, step, t.job.id);
    NobodyTakesItUp(sys, step, t);
    NobodyRecordsIt(sys, step, t);
    hide SystemInv, Perform, StillHeld, KeyOf, Allowed;
  }

  /** What is lost stays lost in every continuation. */
  lemma {:induction false} LostStays(from: System, steps: seq<Step>, to: System, t: Transition)
    requires Lost(from, t) && Reaches(from, steps, to)
    ensures Lost(to, t)
    decreases |steps|
  {
    hide Lost, Allowed, Perform;
    if steps != [] {
      StepKeepsLost(from, steps[0], t);
      LostStays(Perform(from, steps[0]), steps[1..], to, t);
    }
  }

  /** Some continuation records the event. */
  ghost predicate MayBeRecorded(sys: System, t: Transition) {
    exists steps, to :: Reaches(sys, steps, to) && KeyOf(t) in to.recorded
  }

  /** Once a job has ended, an unrecorded event of it can still be recorded exactly when some worker has yet to record it. */
  lemma RecordedYetExactly(sys: System, t: Transition)
    requires Ended(sys, t)
    ensures MayBeRecorded(sys, t) <==> StillHeld(sys, t)
  {
    if StillHeld(sys, t) {
      var w :| At(sys, w) == Settling(t, false);
      NoteRecords(sys, w, t);
    } else {
      hide Ended, Reaches;
      forall steps, to | Reaches(sys, steps, to)
        ensures KeyOf(t) !in to.recorded
      {
        LostStays(sys, steps, to, t);
        NotRecorded(to, t);
      }
    }
  }

  lemma NotRecorded(sys: System, t: Transition)
    requires Lost(sys, t)
    ensures KeyOf(t) !in sys.recorded
  {
  }

  lemma NoteRecords(sys: System, w: WorkerId, t: Transition)
    requires At(sys, w) == Settling(t, false) && KeyOf(t) !in sys.recorded
    ensures MayBeRecorded(sys, t)
  {
    var step := Note(w, false);
    var to := Perform(sys, step);
    assert Allowed(sys, step) && KeyOf(t) in to.recorded;
    hide Allowed, Perform, KeyOf;
    assert [step][1..] == [] && Reaches(to, [], to);
    assert Reaches(sys, [step], to);
  }
}
