// What dismissal signals can and cannot change about a finding, and in which order events are read.
module FindingLayers {
  import opened Wrappers
  import opened FindingTrack

  // ----- the stream without its signals

  predicate IsSignal(e: Event) {
    match e.fact
    case Feedback(_, _, _, _, signal) => signal.Some?
    case StateChanged(_, _, _, fromSignal) => fromSignal
    case _ => false
  }

  function Unsignalled(es: seq<Event>): (r: seq<Event>)
    ensures forall e | e in r :: e in es
  {
    if es == [] then [] else (if IsSignal(es[0]) then [] else [es[0]]) + Unsignalled(es[1..])
  }

  lemma {:induction false} UnsignalledSnoc(es: seq<Event>, e: Event)
    ensures Unsignalled(es + [e]) == if IsSignal(e) then Unsignalled(es) else Unsignalled(es) + [e]
  {
    hide IsSignal;
    if es == [] {
      assert (es + [e])[1..] == [];
    } else {
      assert (es + [e])[1..] == es[1..] + [e];
      UnsignalledSnoc(es[1..], e);
    }
  }

  /** The same finding up to its visible state, its history and its signals; the second one has seen no signal. */
  ghost predicate Beneath(t: Track, u: Track) {
    && TrackInv(t) && TrackInv(u) && t.underlying == u.underlying && u.signals == {}
    && u.feedback == Unsignalled(t.feedback) && u.states == Unsignalled(t.states)
    && t.finding.Some? == u.finding.Some?
    && (t.finding.Some? ==>
          var f, g := t.finding.value, u.finding.value;
          f.snapshot == g.snapshot && f.firstSeenAt == g.firstSeenAt && f.lastSeenAt == g.lastSeenAt && f.lastHeadSha == g.lastHeadSha)
  }

  lemma BeneathUnderlying(t: Track, u: Track, state: FindingState, e: Event, d: Details)
    requires Beneath(t, u) && t.finding.Some?
    ensures Beneath(ApplyUnderlying(t, state, e, d), ApplyUnderlying(u, state, e, d))
  {
    UnderlyingKeepsInv(t, state, e, d);
    UnderlyingKeepsInv(u, state, e, d);
    hide TrackInv, Unsignalled;
  }

  lemma BeneathFeedback(t: Track, u: Track, e: Event)
    requires Beneath(t, u) && t.finding.Some? && e.fact.Feedback?
    ensures Beneath(ApplyFeedback(t, e), if IsSignal(e) then u else ApplyFeedback(u, e))
  {
    hide TrackInv, Unsignalled, Transition;
    FeedbackKeepsInv(t, e);
    FeedbackKeepsInv(u, e);
    if e.fact.signal.Some? {
      TransitionKeeps(t.finding.value, if ApplyFeedback(t, e).signals != {} then Dismissed else Underlying(t), e,
                      if ApplyFeedback(t, e).signals != {} then Details(e.fact.reason, e.fact.actor) else Details(Some(SIGNAL_REMOVED), e.fact.actor));
    } else if StateForKind(e.fact.kind).Some? {
      BeneathUnderlying(t, u, StateForKind(e.fact.kind).value, e, Details(e.fact.reason, e.fact.actor));
      hide ApplyUnderlying;
    }
  }

  lemma TransitionKeeps(f: Finding, state: FindingState, e: Event, d: Details)
    ensures var g := Transition(f, state, e.occurredAt, e.headSha, d);
            g.snapshot == f.snapshot && g.firstSeenAt == f.firstSeenAt && g.lastSeenAt == f.lastSeenAt && g.lastHeadSha == f.lastHeadSha
  {
  }

  lemma BeneathState(t: Track, u: Track, e: Event)
    requires Beneath(t, u) && t.finding.Some? && e.fact.StateChanged?
    ensures Beneath(ApplyState(t, e), if IsSignal(e) then u else ApplyState(u, e))
  {
    StateKeepsInv(t, e);
    StateKeepsInv(u, e);
    hide TrackInv, Unsignalled;
  }

  lemma {:induction false} BeneathFeedbacks(t: Track, u: Track, es: seq<Event>)
    requires Beneath(t, u) && t.finding.Some? && forall e | e in es :: e.fact.Feedback?
    ensures Beneath(ApplyFeedbacks(t, es), ApplyFeedbacks(u, Unsignalled(es)))
    decreases |es|
  {
    hide ApplyFeedback, IsSignal;
    if es != [] {
      BeneathFeedback(t, u, es[0]);
      var v := if IsSignal(es[0]) then u else ApplyFeedback(u, es[0]);
      assert IsSignal(es[0]) ==> Unsignalled(es) == Unsignalled(es[1..]);
      assert !IsSignal(es[0]) ==> Unsignalled(es)[0] == es[0] && Unsignalled(es)[1..] == Unsignalled(es[1..]);
      BeneathFeedbacks(ApplyFeedback(t, es[0]), v, es[1..]);
    }
  }

  lemma {:induction false} BeneathStates(t: Track, u: Track, es: seq<Event>)
    requires Beneath(t, u) && t.finding.Some? && forall e | e in es :: e.fact.StateChanged?
    ensures Beneath(ApplyStates(t, es), ApplyStates(u, Unsignalled(es)))
    decreases |es|
  {
    hide ApplyState, IsSignal;
    if es != [] {
      BeneathState(t, u, es[0]);
      var v := if IsSignal(es[0]) then u else ApplyState(u, es[0]);
      assert IsSignal(es[0]) ==> Unsignalled(es) == Unsignalled(es[1..]);
      assert !IsSignal(es[0]) ==> Unsignalled(es)[0] == es[0] && Unsignalled(es)[1..] == Unsignalled(es[1..]);
      BeneathStates(ApplyState(t, es[0]), v, es[1..]);
    }
  }

  lemma BeneathObserve(t: Track, u: Track, s: Snapshot, e: Event)
    requires Beneath(t, u)
    ensures Beneath(Observe(t, s, e), Observe(u, s, e))
  {
    if t.finding.None? {
      BeneathFirst(t, u, s, e);
    } else {
      BeneathAgain(t, u, s, e);
    }
  }

  lemma BeneathFirst(t: Track, u: Track, s: Snapshot, e: Event)
    requires Beneath(t, u) && t.finding.None?
    ensures Beneath(Observe(t, s, e), Observe(u, s, e))
  {
    ObserveKeepsInv(t, s, e);
    ObserveKeepsInv(u, s, e);
    var created := Finding(s, Open, e.occurredAt, e.occurredAt, e.headSha, None, [Change(Open, e.occurredAt, e.headSha, None, None)]);
    var t', u' := t.(finding := Some(created), underlying := Some(Open)), u.(finding := Some(created), underlying := Some(Open));
    BeneathFeedbacks(t', u', t.feedback);
    BeneathStates(ApplyFeedbacks(t', t.feedback), ApplyFeedbacks(u', u.feedback), t.states);
    assert Unsignalled([]) == [];
    hide TrackInv, Unsignalled, ApplyFeedbacks, ApplyStates;
  }

  lemma BeneathAgain(t: Track, u: Track, s: Snapshot, e: Event)
    requires Beneath(t, u) && t.finding.Some?
    ensures Beneath(Observe(t, s, e), Observe(u, s, e))
  {
    var f, g := t.finding.value, u.finding.value;
    var t' := t.(finding := Some(f.(snapshot := Merge(f.snapshot, s), lastSeenAt := e.occurredAt, lastHeadSha := e.headSha)));
    var u' := u.(finding := Some(g.(snapshot := Merge(g.snapshot, s), lastSeenAt := e.occurredAt, lastHeadSha := e.headSha)));
    assert Beneath(t', u');
    hide Unsignalled, ApplyUnderlying, Merge;
    BeneathUnderlying(t', u', Open, e, Details(Some(SEEN_AGAIN), None));
  }

  lemma {:induction false} BeneathObserveAll(t: Track, u: Track, id: Id, ss: seq<Snapshot>, e: Event)
    requires Beneath(t, u) && Buffers(t) && Buffers(u)
    ensures Beneath(ObserveAll(t, id, ss, e), ObserveAll(u, id, ss, e))
    decreases |ss|
  {
    hide Beneath, Observe;
    if ss != [] {
      if ss[0].id == id {
        BeneathObserve(t, u, ss[0], e);
        BeneathObserveAll(Observe(t, ss[0], e), Observe(u, ss[0], e), id, ss[1..], e);
      } else {
        BeneathObserveAll(t, u, id, ss[1..], e);
      }
    }
  }

  lemma BeneathCompleted(t: Track, u: Track, id: Id, e: Event, h: Heads)
    requires Beneath(t, u) && e.fact.Completed?
    ensures Beneath(Step(t, id, e, h), Step(u, id, e, h))
  {
    StepKeepsInv(t, id, e, h);
    StepKeepsInv(u, id, e, h);
    if e.fact.authoritative && !OldHead(h, e) {
      var ss := e.fact.findings;
      hide ApplyUnderlying, ObserveAll, Reported, Unsignalled, TrackInv;
      if t.finding.Some? && !Reported(id, ss) {
        BeneathUnderlying(t, u, if Replaced(t.finding.value, ss) then Superseded else Fixed, e, NO_DETAILS);
        BeneathObserveAll(Sweep(t, e), Sweep(u, e), id, ss, e);
      } else {
        BeneathObserveAll(t, u, id, ss, e);
      }
    }
  }

  lemma BeneathStep(t: Track, u: Track, id: Id, e: Event, h: Heads)
    requires Beneath(t, u)
    ensures Beneath(Step(t, id, e, h), if IsSignal(e) then u else Step(u, id, e, h))
  {
    match e.fact
    case HeadChanged =>
      if t.finding.Some? {
        BeneathUnderlying(t, u, Stale, e, Details(Some(HEAD_MOVED), None));
      }
    case Completed(_, _) => BeneathCompleted(t, u, id, e, h);
    case Feedback(_, _, _, _, _) =>
      if t.finding.Some? { BeneathFeedback(t, u, e); }
      UnsignalledSnoc(t.feedback, e);
    case StateChanged(_, _, _, _) =>
      if t.finding.Some? { BeneathState(t, u, e); }
      UnsignalledSnoc(t.states, e);
    case Other =>
  }

  lemma {:induction false} BeneathAfter(es: seq<Event>, id: Id, live: string)
    ensures Beneath(TrackAfter(es, id, live), TrackAfter(Unsignalled(es), id, live))
    ensures HeadsAfter(es, live) == HeadsAfter(Unsignalled(es), live)
  {
    if es == [] {
      assert Beneath(UNSEEN, UNSEEN);
    } else {
      var n := |es| - 1;
      var front, e := es[..n], es[n];
      var less := Unsignalled(front);
      assert front + [e] == es;
      hide Step, Beneath, Unsignalled, NextHeads, IsSignal;
      BeneathAfter(front, id, live);
      UnsignalledSnoc(front, e);
      SignalsMoveNoHead(HeadsAfter(front, live), e, live);
      BeneathStep(TrackAfter(front, id, live), TrackAfter(less, id, live), id, e, HeadsAfter(es, live));
      Last(less, e, id, live);
    }
  }

  lemma SignalsMoveNoHead(h: Heads, e: Event, live: string)
    ensures IsSignal(e) ==> NextHeads(h, e, live) == h
  {
  }

  /**
   * Dismissal signals only cover what is beneath: take them out of the stream and every finding has the same underlying
   * state; its visible state is that state, unless a signal is active. So removing the last signal shows whatever
   * happened meanwhile.
   */
  lemma SignalsOnlyCover(es: seq<Event>, id: Id, live: string)
    ensures var t, u := Final(es, id, live), Final(Unsignalled(es), id, live);
            && t.finding.Some? == u.finding.Some?
            && (t.finding.Some? ==> t.finding.value.state == if t.signals != {} then Dismissed else u.finding.value.state)
            && TrackAfter(es, id, live).underlying == TrackAfter(Unsignalled(es), id, live).underlying
            && u.signals == {}
  {
    BeneathAfter(es, id, live);
    AlwaysInv(es, id, live);
    AlwaysInv(Unsignalled(es), id, live);
    hide TrackAfter, HeadsAfter, Unsignalled;
  }

  // ----- which signals are active

  function Toggle(signals: set<string>, e: Event): set<string> {
    if e.fact.Feedback? && e.fact.signal.Some? then
      if e.fact.signal.value.active then signals + {e.fact.signal.value.id} else signals - {e.fact.signal.value.id}
    else signals
  }

  function Toggles(signals: set<string>, es: seq<Event>): set<string>
    decreases |es|
  {
    if es == [] then signals else Toggles(Toggle(signals, es[0]), es[1..])
  }

  /** The signals about a finding that are active after events. */
  function SignalsOf(es: seq<Event>, id: Id): set<string> {
    if es == [] then {}
    else
      var e, before := es[|es| - 1], SignalsOf(es[..|es| - 1], id);
      if e.fact.Feedback? && e.fact.id == id then Toggle(before, e) else before
  }

  lemma {:induction false} TogglesSnoc(signals: set<string>, es: seq<Event>, e: Event)
    ensures Toggles(signals, es + [e]) == Toggle(Toggles(signals, es), e)
    decreases |es|
  {
    hide Toggle;
    if es == [] {
      assert (es + [e])[1..] == [];
    } else {
      assert (es + [e])[1..] == es[1..] + [e];
      TogglesSnoc(Toggle(signals, es[0]), es[1..], e);
    }
  }

  lemma {:induction false} FeedbacksToggle(t: Track, es: seq<Event>)
    requires t.finding.Some? && forall e | e in es :: e.fact.Feedback?
    ensures ApplyFeedbacks(t, es).signals == Toggles(t.signals, es)
    ensures ApplyFeedbacks(t, es).feedback == t.feedback
    decreases |es|
  {
    if es != [] {
      FeedbacksToggle(ApplyFeedback(t, es[0]), es[1..]);
    }
  }

  lemma {:induction false} StatesKeepSignals(t: Track, es: seq<Event>)
    requires t.finding.Some? && forall e | e in es :: e.fact.StateChanged?
    ensures ApplyStates(t, es).signals == t.signals
    decreases |es|
  {
    if es != [] {
      StatesKeepSignals(ApplyState(t, es[0]), es[1..]);
    }
  }

  /** What is known of the active signals: all of them, unless feedback that leaves some active is stuck in the buffer of a known finding. */
  ghost predicate SignalsInv(t: Track, signals: set<string>) {
    if t.finding.None? then Toggles({}, t.feedback) == signals else Toggles({}, t.feedback) == {} ==> t.signals == signals
  }

  lemma ObserveSignals(t: Track, s: Snapshot, e: Event, signals: set<string>)
    requires TrackInv(t) && SignalsInv(t, signals)
    ensures SignalsInv(Observe(t, s, e), signals)
  {
    if t.finding.None? {
      var created := Finding(s, Open, e.occurredAt, e.occurredAt, e.headSha, None, [Change(Open, e.occurredAt, e.headSha, None, None)]);
      var u := t.(finding := Some(created), underlying := Some(Open));
      FeedbacksToggle(u, t.feedback);
      StatesKeepSignals(ApplyFeedbacks(u, t.feedback), t.states);
      hide Toggles;
    }
  }

  lemma {:induction false} ObserveAllSignals(t: Track, id: Id, ss: seq<Snapshot>, e: Event, signals: set<string>)
    requires TrackInv(t) && Buffers(t) && SignalsInv(t, signals)
    ensures SignalsInv(ObserveAll(t, id, ss, e), signals)
    decreases |ss|
  {
    hide TrackInv, SignalsInv, Observe;
    if ss != [] {
      if ss[0].id == id {
        ObserveSignals(t, ss[0], e, signals);
        ObserveKeepsInv(t, ss[0], e);
        ObserveAllSignals(Observe(t, ss[0], e), id, ss[1..], e, signals);
      } else {
        ObserveAllSignals(t, id, ss[1..], e, signals);
      }
    }
  }

  /** In every reachable track without such stuck feedback, the active signals are those the events leave active. */
  lemma {:induction false} SignalsAfter(es: seq<Event>, id: Id, live: string)
    ensures SignalsInv(TrackAfter(es, id, live), SignalsOf(es, id))
  {
    AlwaysInv(es, id, live);
    if es != [] {
      var n := |es| - 1;
      var front, e := es[..n], es[n];
      var t := TrackAfter(front, id, live);
      SignalsAfter(front, id, live);
      AlwaysInv(front, id, live);
      StepKeepsSignals(t, id, e, HeadsAfter(es, live), SignalsOf(front, id));
      hide Step, SignalsInv, Toggle, TrackInv;
    }
  }

  lemma StepKeepsSignals(t: Track, id: Id, e: Event, h: Heads, signals: set<string>)
    requires TrackInv(t) && SignalsInv(t, signals)
    ensures SignalsInv(Step(t, id, e, h), if e.fact.Feedback? && e.fact.id == id then Toggle(signals, e) else signals)
  {
    match e.fact
    case Completed(authoritative, findings) =>
      var swept := if t.finding.Some? && !Reported(id, findings) then Sweep(t, e) else t;
      if t.finding.Some? {
        UnderlyingKeepsInv(t, if Replaced(t.finding.value, findings) then Superseded else Fixed, e, NO_DETAILS);
      }
      ObserveAllSignals(swept, id, findings, e, signals);
      hide ObserveAll;
    case Feedback(_, _, _, _, _) => TogglesSnoc({}, t.feedback, e);
    case _ =>
  }

  /** A review of an old head that reports the finding first keeps its signals exactly when none is active yet. */
  lemma StaleCreationExactly(es: seq<Event>, e: Event, id: Id, live: string)
    requires e.fact.Completed? && OldHead(HeadsAfter(es + [e], live), e)
    requires TrackAfter(es, id, live).finding.None? && TrackAfter(es + [e], id, live).finding.Some?
    ensures TrackAfter(es + [e], id, live).signals == SignalsOf(es + [e], id) <==> SignalsOf(es, id) == {}
  {
    assert (es + [e])[..|es|] == es;
    AlwaysInv(es, id, live);
    hide TrackAfter, HeadsAfter, ObserveAll, Toggle;
    assert TrackAfter(es + [e], id, live) == Step(TrackAfter(es, id, live), id, e, HeadsAfter(es + [e], live)) by { Last(es, e, id, live); }
    assert SignalsOf(es + [e], id) == SignalsOf(es, id);
  }

  lemma Last(es: seq<Event>, e: Event, id: Id, live: string)
    ensures HeadsAfter(es + [e], live) == NextHeads(HeadsAfter(es, live), e, live)
    ensures TrackAfter(es + [e], id, live) == Step(TrackAfter(es, id, live), id, e, HeadsAfter(es + [e], live))
  {
    assert (es + [e])[..|es|] == es;
    hide Step, NextHeads;
  }
}
