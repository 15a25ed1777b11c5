// The projection as it runs: one pass over the events in order, updating maps.
module FindingProjection {
  import opened Wrappers
  import opened FindingTrack

  // ----- order of events and of results

  /** Earlier, or at the same time with a smaller sequence; without a sequence on both sides, neither comes first. */
  predicate Precedes(a: Event, b: Event) {
    a.occurredAt < b.occurredAt
    || (a.occurredAt == b.occurredAt && a.sequence.Some? && b.sequence.Some? && a.sequence.value < b.sequence.value)
  }

  function InsertEvent(e: Event, es: seq<Event>): seq<Event> {
    if es == [] || !Precedes(es[0], e) then [e] + es else [es[0]] + InsertEvent(e, es[1..])
  }

  /** Stable: events of which neither comes first stay as they are. */
  function SortEvents(es: seq<Event>): seq<Event> {
    if es == [] then [] else InsertEvent(es[0], SortEvents(es[1..]))
  }

  function InsertFinding(f: Finding, fs: seq<Finding>): seq<Finding> {
    if fs == [] || fs[0].lastSeenAt <= f.lastSeenAt then [f] + fs else [fs[0]] + InsertFinding(f, fs[1..])
  }

  /** Last seen first. */
  function SortFindings(fs: seq<Finding>): seq<Finding> {
    if fs == [] then [] else InsertFinding(fs[0], SortFindings(fs[1..]))
  }

  /** Ids in the order in which their findings were created. */
  function AddIds(order: seq<Id>, ss: seq<Snapshot>): seq<Id>
    decreases |ss|
  {
    if ss == [] then order else AddIds(if ss[0].id in order then order else order + [ss[0].id], ss[1..])
  }

  function NextOrder(order: seq<Id>, e: Event): seq<Id> {
    if e.fact.Completed? && e.fact.authoritative then AddIds(order, e.fact.findings) else order
  }

  function OrderAfter(es: seq<Event>): seq<Id> {
    if es == [] then [] else NextOrder(OrderAfter(es[..|es| - 1]), es[|es| - 1])
  }

  function Found(order: seq<Id>, es: seq<Event>, live: string): seq<Finding> {
    if order == [] then []
    else (if Final(es, order[0], live).finding.Some? then [Final(es, order[0], live).finding.value] else []) + Found(order[1..], es, live)
  }

  /** The projection of a list of events. */
  function Projected(events: seq<Event>, live: string): seq<Finding> {
    var es := SortEvents(events);
    SortFindings(Found(OrderAfter(es), es, live))
  }

  /** The findings of an old head that are new, one snapshot after the other. */
  function StaleAll(t: Track, id: Id, ss: seq<Snapshot>, e: Event): Track
    decreases |ss|
  {
    if ss == [] then t else StaleAll(if ss[0].id == id && t.finding.None? then CreateStale(t, ss[0], e) else t, id, ss[1..], e)
  }

  lemma {:induction false} StaleAllIs(t: Track, id: Id, ss: seq<Snapshot>, e: Event)
    ensures StaleAll(t, id, ss, e) ==
            if t.finding.None? && Reported(id, ss) then CreateStale(t, FirstReport(id, ss), e) else t
    decreases |ss|
  {
    if ss != [] {
      assert ss == [ss[0]] + ss[1..];
      StaleAllIs(if ss[0].id == id && t.finding.None? then CreateStale(t, ss[0], e) else t, id, ss[1..], e);
    }
  }

  class Projection {
    var findings: map<Id, Finding>
    var order: seq<Id>
    var pendingFeedback: map<Id, seq<Event>>
    var pendingStates: map<Id, seq<Event>>
    var activeDismissalSignals: map<Id, set<string>>
    var underlyingStates: map<Id, FindingState>
    var heads: Heads

    constructor ()
      ensures Valid() && order == [] && heads == Heads("", "") && forall id :: At(id) == UNSEEN
    {
      findings, order, pendingFeedback, pendingStates := map[], [], map[], map[];
      activeDismissalSignals, underlyingStates, heads := map[], map[], Heads("", "");
    }

    /** What is kept of one id. */
    ghost function At(id: Id): Track
      reads this`findings, this`underlyingStates, this`activeDismissalSignals, this`pendingFeedback, this`pendingStates
    {
      Track(
        if id in findings then Some(findings[id]) else None,
        if id in underlyingStates then Some(underlyingStates[id]) else None,
        if id in activeDismissalSignals then activeDismissalSignals[id] else {},
        if id in pendingFeedback then pendingFeedback[id] else [],
        if id in pendingStates then pendingStates[id] else [])
    }

    ghost predicate Valid()
      reads this`findings, this`underlyingStates, this`activeDismissalSignals, this`pendingFeedback, this`pendingStates, this`order
    {
      && (forall i, j | 0 <= i < j < |order| :: order[i] != order[j])
      && (forall id :: id in order <==> id in findings)
      && (forall id {:trigger At(id)} :: TrackInv(At(id)))
    }

    method ApplyUnderlyingState(id: Id, state: FindingState, e: Event, d: Details)
      requires id in findings
      modifies this`findings, this`underlyingStates
      ensures At(id) == ApplyUnderlying(old(At(id)), state, e, d)
      ensures forall x | x != id :: At(x) == old(At(x))
      ensures findings.Keys == old(findings.Keys) && underlyingStates.Keys == old(underlyingStates.Keys) + {id}
    {
      underlyingStates := underlyingStates[id := state];
      if id !in activeDismissalSignals || activeDismissalSignals[id] == {} {
        findings := findings[id := Transition(findings[id], state, e.occurredAt, e.headSha, d)];
      }
    }

    method ApplyOneFeedback(id: Id, e: Event)
      requires id in findings && e.fact.Feedback?
      modifies this`findings, this`underlyingStates, this`activeDismissalSignals
      ensures At(id) == ApplyFeedback(old(At(id)), e)
      ensures forall x | x != id :: At(x) == old(At(x))
      ensures findings.Keys == old(findings.Keys)
    {
      hide Transition;
      if e.fact.signal.Some? {
        var signals := if id in activeDismissalSignals then activeDismissalSignals[id] else {};
        var signal := e.fact.signal.value;
        signals := if signal.active then signals + {signal.id} else signals - {signal.id};
        activeDismissalSignals := activeDismissalSignals[id := signals];
        var state := if signals != {} then Dismissed else if id in underlyingStates then underlyingStates[id] else Open;
        var d := if signals != {} then Details(e.fact.reason, e.fact.actor) else Details(Some(SIGNAL_REMOVED), e.fact.actor);
        findings := findings[id := Transition(findings[id], state, e.occurredAt, e.headSha, d)];
        return;
      }
      var state := StateForKind(e.fact.kind);
      if state.Some? {
        ApplyUnderlyingState(id, state.value, e, Details(e.fact.reason, e.fact.actor));
      }
      if Truthy(e.fact.reason) {
        findings := findings[id := findings[id].(feedbackReason := e.fact.reason)];
      }
    }

    method ApplyStateEvent(id: Id, e: Event)
      requires id in findings && e.fact.StateChanged?
      modifies this`findings, this`underlyingStates
      ensures At(id) == ApplyState(old(At(id)), e)
      ensures forall x | x != id :: At(x) == old(At(x))
      ensures findings.Keys == old(findings.Keys)
    {
      if e.fact.fromSignal {
        var dismissed := id in activeDismissalSignals && activeDismissalSignals[id] != {};
        var state := if dismissed then Dismissed else if id in underlyingStates then underlyingStates[id] else Open;
        findings := findings[id := Transition(findings[id], state, e.occurredAt, e.headSha, Details(e.fact.reason, None))];
      } else {
        ApplyUnderlyingState(id, e.fact.state, e, Details(e.fact.reason, None));
      }
    }

    method HeadChanged(e: Event)
      requires Valid() && e.fact.HeadChanged?
      modifies this`findings, this`underlyingStates, this`heads
      ensures Valid() && heads == old(heads).(authoritative := e.headSha)
      ensures forall id :: At(id) == Step(old(At(id)), id, e, heads)
    {
      hide TrackInv, Staled, Step, Buffers, At;
      var next := heads.(authoritative := e.headSha);
      forall id
        ensures Buffers(At(id))
        ensures Step(At(id), id, e, next) == if id in order then Staled(At(id), e) else At(id)
        ensures TrackInv(Step(At(id), id, e, next))
      {
        HeadMoves(id, e, next);
      }
      heads := next;
      StaleEach(e);
    }

    lemma HeadMoves(id: Id, e: Event, h: Heads)
      requires Valid() && e.fact.HeadChanged?
      ensures Buffers(At(id))
      ensures Step(At(id), id, e, h) == if id in order then Staled(At(id), e) else At(id)
      ensures TrackInv(Step(At(id), id, e, h))
    {
      HeadStep(At(id), id, e, h);
      StepKeepsInv(At(id), id, e, h);
      hide Step, Staled;
    }

    method StaleEach(e: Event)
      requires Ordered()
      modifies this`findings, this`underlyingStates
      ensures findings.Keys == old(findings.Keys)
      ensures forall id :: At(id) == if id in order then Staled(old(At(id)), e) else old(At(id))
    {
      hide Staled, At;
      var i := 0;
      while i < |order|
        invariant 0 <= i <= |order| && findings.Keys == old(findings.Keys)
        invariant forall id :: At(id) == if id in order[..i] then Staled(old(At(id)), e) else old(At(id))
      {
        var id := order[i];
        assert id !in order[..i] && order[..i + 1] == order[..i] + [id];
        StaleOne(id, e);
        i := i + 1;
      }
      assert order[..i] == order;
    }

    lemma HeadStep(t: Track, id: Id, e: Event, h: Heads)
      requires Buffers(t) && e.fact.HeadChanged?
      ensures Step(t, id, e, h) == Staled(t, e) && (t.finding.None? ==> Staled(t, e) == t)
    {
    }

    twostate lemma UnknownAt(id: Id)
      ensures id !in old(findings) ==> old(At(id)).finding.None?
    {
    }

    /** A head change for one finding. */
    ghost function Staled(t: Track, e: Event): Track {
      if t.finding.Some? && t.underlying == Some(Open) then ApplyUnderlying(t, Stale, e, Details(Some(HEAD_MOVED), None)) else t
    }

    method StaleOne(id: Id, e: Event)
      requires id in findings
      modifies this`findings, this`underlyingStates
      ensures At(id) == Staled(old(At(id)), e)
      ensures forall x | x != id :: At(x) == old(At(x))
      ensures findings.Keys == old(findings.Keys)
    {
      if id in underlyingStates && underlyingStates[id] == Open {
        ApplyUnderlyingState(id, Stale, e, Details(Some(HEAD_MOVED), None));
      }
    }

    ghost predicate Ordered()
      reads this`findings, this`order
    {
      && (forall i, j | 0 <= i < j < |order| :: order[i] != order[j])
      && (forall id :: id in order <==> id in findings)
    }

    method MarkOne(s: Snapshot, e: Event)
      requires Ordered()
      modifies this`findings, this`underlyingStates, this`order
      ensures Ordered() && order == if s.id in old(order) then old(order) else old(order) + [s.id]
      ensures At(s.id) == if old(At(s.id)).finding.None? then CreateStale(old(At(s.id)), s, e) else old(At(s.id))
      ensures forall x | x != s.id :: At(x) == old(At(x))
    {
      if s.id !in findings {
        findings := findings[s.id := Finding(s, Stale, e.occurredAt, e.occurredAt, e.headSha, Some(SUPERSEDED_HEAD),
                                             [Change(Stale, e.occurredAt, e.headSha, Some(SUPERSEDED_HEAD), None)])];
        order := order + [s.id];
        underlyingStates := underlyingStates[s.id := Stale];
      }
    }

    method MarkStale(e: Event)
      requires Valid() && e.fact.Completed? && e.fact.authoritative && OldHead(heads, e)
      modifies this`findings, this`underlyingStates, this`order
      ensures Valid() && order == AddIds(old(order), e.fact.findings)
      ensures forall id :: At(id) == Step(old(At(id)), id, e, heads)
    {
      assert forall id :: Buffers(At(id));
      hide TrackInv, Buffers, CreateStale, At, StaleAll, Step;
      MarkEach(e.fact.findings, e);
      forall id
        ensures At(id) == Step(old(At(id)), id, e, heads) && TrackInv(At(id))
      {
        StaleAllIs(old(At(id)), id, e.fact.findings, e);
        StepKeepsInv(old(At(id)), id, e, heads);
      }
    }

    method MarkEach(ss: seq<Snapshot>, e: Event)
      requires Ordered()
      modifies this`findings, this`underlyingStates, this`order
      ensures Ordered() && order == AddIds(old(order), ss)
      ensures forall id :: At(id) == StaleAll(old(At(id)), id, ss, e)
    {
      hide CreateStale, At;
      var i := 0;
      assert ss[0..] == ss;
      while i < |ss|
        invariant 0 <= i <= |ss| && Ordered() && AddIds(order, ss[i..]) == AddIds(old(order), ss)
        invariant forall id :: StaleAll(At(id), id, ss[i..], e) == StaleAll(old(At(id)), id, ss, e)
      {
        assert ss[i..][1..] == ss[i + 1..];
        MarkOne(ss[i], e);
        i := i + 1;
      }
    }

    /** A counted review sweeps the findings it does not report. */
    ghost function SweptOf(t: Track, id: Id, e: Event): Track
      requires e.fact.Completed?
    {
      if t.finding.Some? && !Reported(id, e.fact.findings) then Sweep(t, e) else t
    }

    method SweepOne(id: Id, e: Event)
      requires id in findings && id in underlyingStates && e.fact.Completed?
      modifies this`findings, this`underlyingStates
      ensures At(id) == SweptOf(old(At(id)), id, e)
      ensures forall x | x != id :: At(x) == old(At(x))
      ensures findings.Keys == old(findings.Keys) && underlyingStates.Keys == old(underlyingStates.Keys)
    {
      hide Replaced;
      var underlying := underlyingStates[id];
      if Reported(id, e.fact.findings) || underlying == Dismissed || underlying == Superseded {
        return;
      }
      ApplyUnderlyingState(id, if Replaced(findings[id], e.fact.findings) then Superseded else Fixed, e, NO_DETAILS);
    }

    method SweepAll(e: Event)
      requires Ordered() && findings.Keys == underlyingStates.Keys && e.fact.Completed?
      modifies this`findings, this`underlyingStates
      ensures forall id :: At(id) == SweptOf(old(At(id)), id, e)
      ensures findings.Keys == old(findings.Keys)
    {
      hide SweptOf, At;
      var i := 0;
      while i < |order|
        invariant 0 <= i <= |order| && findings.Keys == old(findings.Keys) && underlyingStates.Keys == old(underlyingStates.Keys)
        invariant forall id :: At(id) == if id in order[..i] then SweptOf(old(At(id)), id, e) else old(At(id))
      {
        var id := order[i];
        assert id !in order[..i] && order[..i + 1] == order[..i] + [id];
        SweepOne(id, e);
        i := i + 1;
      }
      assert order[..i] == order;
      forall id | id !in order
        ensures SweptOf(old(At(id)), id, e) == old(At(id))
      {
        UnknownAt(id);
        UnknownIsNotSwept(old(At(id)), id, e);
      }
    }

    lemma UnknownIsNotSwept(t: Track, id: Id, e: Event)
      requires e.fact.Completed?
      ensures t.finding.None? ==> SweptOf(t, id, e) == t
    {
    }

    lemma Known()
      requires Valid()
      ensures findings.Keys == underlyingStates.Keys
    {
      assert forall id :: TrackInv(At(id)) ==> (id in findings <==> id in underlyingStates);
    }

    method ApplyPendingFeedback(id: Id)
      requires id in findings && Buffers(At(id))
      modifies this`findings, this`underlyingStates, this`activeDismissalSignals, this`pendingFeedback
      ensures At(id) == ApplyFeedbacks(old(At(id)), old(At(id)).feedback).(feedback := [])
      ensures forall x | x != id :: At(x) == old(At(x))
      ensures findings.Keys == old(findings.Keys)
    {
      hide ApplyFeedback;
      var feedback := if id in pendingFeedback then pendingFeedback[id] else [];
      var i := 0;
      assert feedback[0..] == feedback;
      while i < |feedback|
        invariant 0 <= i <= |feedback| && findings.Keys == old(findings.Keys)
        invariant ApplyFeedbacks(At(id), feedback[i..]) == ApplyFeedbacks(old(At(id)), feedback)
        invariant forall x | x != id :: At(x) == old(At(x))
      {
        assert feedback[i..][1..] == feedback[i + 1..];
        ApplyOneFeedback(id, feedback[i]);
        i := i + 1;
      }
      pendingFeedback := pendingFeedback - {id};
    }

    method ApplyPendingStates(id: Id)
      requires id in findings && Buffers(At(id))
      modifies this`findings, this`underlyingStates, this`pendingStates
      ensures At(id) == ApplyStates(old(At(id)), old(At(id)).states).(states := [])
      ensures forall x | x != id :: At(x) == old(At(x))
      ensures findings.Keys == old(findings.Keys)
    {
      hide ApplyState;
      var states := if id in pendingStates then pendingStates[id] else [];
      var i := 0;
      assert states[0..] == states;
      while i < |states|
        invariant 0 <= i <= |states| && findings.Keys == old(findings.Keys)
        invariant ApplyStates(At(id), states[i..]) == ApplyStates(old(At(id)), states)
        invariant forall x | x != id :: At(x) == old(At(x))
      {
        assert states[i..][1..] == states[i + 1..];
        ApplyStateEvent(id, states[i]);
        i := i + 1;
      }
      pendingStates := pendingStates - {id};
    }

    lemma PendingApplied(t: Track)
      requires t.finding.Some? && Buffers(t)
      ensures var u := ApplyFeedbacks(t, t.feedback);
              Buffers(u.(feedback := [])) && u.states == t.states
              && ApplyStates(u.(feedback := []), t.states) == ApplyStates(u, t.states).(feedback := [])
    {
      FeedbacksOnly(t, t.feedback);
      StatesOnly(ApplyFeedbacks(t, t.feedback), t.states);
    }

    lemma {:induction false} FeedbacksOnly(t: Track, es: seq<Event>)
      requires t.finding.Some? && forall e | e in es :: e.fact.Feedback?
      ensures ApplyFeedbacks(t, es).states == t.states && ApplyFeedbacks(t, es).feedback == t.feedback
      decreases |es|
    {
      if es != [] {
        FeedbacksOnly(ApplyFeedback(t, es[0]), es[1..]);
      }
    }

    lemma {:induction false} StatesOnly(t: Track, es: seq<Event>)
      requires t.finding.Some? && forall e | e in es :: e.fact.StateChanged?
      ensures ApplyStates(t.(feedback := []), es) == ApplyStates(t, es).(feedback := [])
      decreases |es|
    {
      if es != [] {
        StatesOnly(ApplyState(t, es[0]), es[1..]);
      }
    }

    method ObserveOne(s: Snapshot, e: Event)
      requires Ordered() && Buffers(At(s.id))
      modifies this`findings, this`underlyingStates, this`activeDismissalSignals, this`pendingFeedback, this`pendingStates, this`order
      ensures Ordered() && order == if s.id in old(order) then old(order) else old(order) + [s.id]
      ensures At(s.id) == Observe(old(At(s.id)), s, e)
      ensures forall x | x != s.id :: At(x) == old(At(x))
    {
      hide ApplyFeedbacks, ApplyStates, ApplyUnderlying, Merge, Buffers;
      if s.id !in findings {
        findings := findings[s.id := Finding(s, Open, e.occurredAt, e.occurredAt, e.headSha, None, [Change(Open, e.occurredAt, e.headSha, None, None)])];
        order := order + [s.id];
        underlyingStates := underlyingStates[s.id := Open];
        SameBuffers(old(At(s.id)), At(s.id));
        PendingApplied(At(s.id));
        ApplyPendingFeedback(s.id);
        ApplyPendingStates(s.id);
        return;
      }
      ObserveAgain(s, e);
    }

    // The second half of the loop body of a counted review.
    method ObserveAgain(s: Snapshot, e: Event)
      requires s.id in findings && Buffers(At(s.id))
      modifies this`findings, this`underlyingStates
      ensures At(s.id) == Observe(old(At(s.id)), s, e)
      ensures forall x | x != s.id :: At(x) == old(At(x))
      ensures findings.Keys == old(findings.Keys)
    {
      hide ApplyFeedbacks, ApplyStates, ApplyUnderlying, Merge, Buffers;
      var existing := findings[s.id];
      findings := findings[s.id := existing.(snapshot := Merge(existing.snapshot, s), lastSeenAt := e.occurredAt, lastHeadSha := e.headSha)];
      if s.id !in underlyingStates || (underlyingStates[s.id] != Open && underlyingStates[s.id] != Dismissed) {
        ApplyUnderlyingState(s.id, Open, e, Details(Some(SEEN_AGAIN), None));
      }
    }

    lemma SameBuffers(t: Track, u: Track)
      requires Buffers(t) && u.feedback == t.feedback && u.states == t.states
      ensures Buffers(u)
    {
    }

    method ObserveEach(e: Event)
      requires Ordered() && e.fact.Completed? && forall id :: Buffers(At(id))
      modifies this`findings, this`underlyingStates, this`activeDismissalSignals, this`pendingFeedback, this`pendingStates, this`order
      ensures Ordered() && order == AddIds(old(order), e.fact.findings)
      ensures forall id :: At(id) == ObserveAll(old(At(id)), id, e.fact.findings, e)
    {
      hide Observe, Buffers;
      var ss := e.fact.findings;
      var i := 0;
      assert ss[0..] == ss;
      while i < |ss|
        invariant 0 <= i <= |ss| && Ordered() && AddIds(order, ss[i..]) == AddIds(old(order), ss)
        invariant forall id :: Buffers(At(id))
        invariant forall id :: ObserveAll(At(id), id, ss[i..], e) == ObserveAll(old(At(id)), id, ss, e)
      {
        assert ss[i..][1..] == ss[i + 1..];
        ObserveOne(ss[i], e);
        i := i + 1;
      }
    }

    method ReviewCompleted(e: Event, live: string)
      requires Valid() && e.fact.Completed?
      modifies this
      ensures Valid() && heads == NextHeads(old(heads), e, live) && order == NextOrder(old(order), e)
      ensures forall id :: At(id) == Step(old(At(id)), id, e, heads)
    {
      hide TrackInv, AddIds, Sweep, ObserveAll, Reported, Buffers, Step, At;
      forall id
        ensures Buffers(old(At(id))) && (!e.fact.authoritative ==> Step(old(At(id)), id, e, heads) == old(At(id)))
      {
        CompletedStep(old(At(id)), id, e, heads);
      }
      if !e.fact.authoritative {
        return;
      }
      if live != "" && e.headSha == live {
        heads := heads.(authoritative := live);
      }
      if OldHead(heads, e) {
        MarkStale(e);
        return;
      }
      heads := heads.(latestCompleted := e.headSha);
      Known();
      SweepAll(e);
      forall id
        ensures Buffers(SweptOf(old(At(id)), id, e))
        ensures Step(old(At(id)), id, e, heads) == ObserveAll(SweptOf(old(At(id)), id, e), id, e.fact.findings, e)
        ensures TrackInv(Step(old(At(id)), id, e, heads))
      {
        CompletedStep(old(At(id)), id, e, heads);
        StepKeepsInv(old(At(id)), id, e, heads);
      }
      hide SweptOf;
      ObserveEach(e);
    }

    lemma CompletedStep(t: Track, id: Id, e: Event, h: Heads)
      requires TrackInv(t) && e.fact.Completed?
      ensures Buffers(t) && Buffers(SweptOf(t, id, e))
      ensures !e.fact.authoritative ==> Step(t, id, e, h) == t
      ensures e.fact.authoritative && !OldHead(h, e) ==> Step(t, id, e, h) == ObserveAll(SweptOf(t, id, e), id, e.fact.findings, e)
    {
    }

    method FeedbackRecorded(e: Event)
      requires Valid() && e.fact.Feedback?
      modifies this`findings, this`underlyingStates, this`activeDismissalSignals, this`pendingFeedback
      ensures Valid()
      ensures forall id :: At(id) == Step(old(At(id)), id, e, heads)
    {
      hide ApplyFeedback, TrackInv, Buffers;
      var id := e.fact.id;
      forall x ensures Buffers(old(At(x))) && TrackInv(Step(old(At(x)), x, e, heads)) { BuffersOf(old(At(x))); StepKeepsInv(old(At(x)), x, e, heads); }
      if id in findings {
        ApplyOneFeedback(id, e);
      } else {
        pendingFeedback := pendingFeedback[id := (if id in pendingFeedback then pendingFeedback[id] else []) + [e]];
        assert At(id) == Step(old(At(id)), id, e, heads);
        assert forall x | x != id :: At(x) == old(At(x));
      }
      assert forall x :: At(x) == Step(old(At(x)), x, e, heads);
    }

    method StateChangeRecorded(e: Event)
      requires Valid() && e.fact.StateChanged?
      modifies this`findings, this`underlyingStates, this`pendingStates
      ensures Valid()
      ensures forall id :: At(id) == Step(old(At(id)), id, e, heads)
    {
      hide ApplyState, TrackInv, Buffers;
      var id := e.fact.id;
      forall x ensures Buffers(old(At(x))) && TrackInv(Step(old(At(x)), x, e, heads)) { BuffersOf(old(At(x))); StepKeepsInv(old(At(x)), x, e, heads); }
      if id in findings {
        ApplyStateEvent(id, e);
      } else {
        pendingStates := pendingStates[id := (if id in pendingStates then pendingStates[id] else []) + [e]];
        assert At(id) == Step(old(At(id)), id, e, heads);
        assert forall x | x != id :: At(x) == old(At(x));
      }
      assert forall x :: At(x) == Step(old(At(x)), x, e, heads);
    }

    lemma BuffersOf(t: Track)
      requires TrackInv(t)
      ensures Buffers(t)
    {
    }

    method Take(e: Event, live: string)
      requires Valid()
      modifies this
      ensures Valid() && heads == NextHeads(old(heads), e, live) && order == NextOrder(old(order), e)
      ensures forall id :: At(id) == Step(old(At(id)), id, e, heads)
    {
      hide Valid, At, AddIds;
      match e.fact
      case HeadChanged => HeadChanged(e);
      case Completed(_, _) => ReviewCompleted(e, live);
      case Feedback(_, _, _, _, _) => FeedbackRecorded(e);
      case StateChanged(_, _, _, _) => StateChangeRecorded(e);
      case Other =>
    }

    method FinishOne(id: Id, live: string)
      requires id in findings
      modifies this`findings, this`underlyingStates
      ensures At(id) == Finish(old(At(id)), heads, live)
      ensures forall x | x != id :: At(x) == old(At(x))
      ensures findings.Keys == old(findings.Keys)
    {
      if live != "" && heads.latestCompleted != "" && live != heads.latestCompleted && findings[id].state == Open {
        ApplyUnderlyingState(id, Stale, Event(findings[id].lastSeenAt, None, live, Other), Details(Some(LIVE_HEAD), None));
      }
    }

    method FinishAll(live: string)
      requires Ordered()
      modifies this`findings, this`underlyingStates
      ensures forall id :: At(id) == Finish(old(At(id)), heads, live)
      ensures findings.Keys == old(findings.Keys)
    {
      hide At, Finish;
      var i := 0;
      while i < |order|
        invariant 0 <= i <= |order| && findings.Keys == old(findings.Keys)
        invariant forall id :: At(id) == if id in order[..i] then Finish(old(At(id)), heads, live) else old(At(id))
      {
        var id := order[i];
        assert id !in order[..i] && order[..i + 1] == order[..i] + [id];
        FinishOne(id, live);
        i := i + 1;
      }
      assert order[..i] == order;
      forall id | id !in order
        ensures Finish(old(At(id)), heads, live) == old(At(id))
      {
        UnknownAt(id);
        UnknownStays(old(At(id)), live);
      }
    }

    lemma UnknownStays(t: Track, live: string)
      ensures t.finding.None? ==> Finish(t, heads, live) == t
    {
    }

    method Collect(ghost es: seq<Event>, ghost live: string) returns (found: seq<Finding>)
      requires Ordered() && forall id :: At(id) == Final(es, id, live)
      ensures found == Found(order, es, live)
    {
      hide Final;
      found := [];
      var i := |order|;
      while 0 < i
        invariant 0 <= i <= |order|
        invariant found == Found(order[i..], es, live)
      {
        i := i - 1;
        assert order[i..][1..] == order[i + 1..] && order[i] in findings;
        assert At(order[i]) == Final(es, order[i], live);
        found := [findings[order[i]]] + found;
      }
      assert order[0..] == order;
    }
  }

  /** The findings of a pull request after its events, last seen first. */
  method ProjectFindingLifecycles(events: seq<Event>, live: string) returns (result: seq<Finding>)
    ensures result == Projected(events, live)
  {
    hide Step, TrackInv, NextHeads, NextOrder;
    var es := SortEvents(events);
    var p := new Projection();
    var i := 0;
    while i < |es|
      invariant 0 <= i <= |es| && p.Valid() && fresh(p)
      invariant p.heads == HeadsAfter(es[..i], live) && p.order == OrderAfter(es[..i])
      invariant forall id :: p.At(id) == TrackAfter(es[..i], id, live)
    {
      assert es[..i + 1][..i] == es[..i] && es[..i + 1][i] == es[i];
      p.Take(es[i], live);
      i := i + 1;
    }
    assert es[..i] == es;
    p.FinishAll(live);
    var found := p.Collect(es, live);
    result := SortFindings(found);
  }
}
