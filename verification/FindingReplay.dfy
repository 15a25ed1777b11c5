// Events that arrive before their finding: what the buffers make of their order, and what an old head makes of them.
module FindingReplay {
  import opened Wrappers
  import opened FindingTrack
  import opened FindingLayers

  predicate Early(e: Event) {
    e.fact.Feedback? || e.fact.StateChanged?
  }

  function Feedbacks(es: seq<Event>): (r: seq<Event>)
    ensures forall e :: e in r <==> e in es && e.fact.Feedback?
  {
    if es == [] then [] else (if es[0].fact.Feedback? then [es[0]] else []) + Feedbacks(es[1..])
  }

  function States(es: seq<Event>): (r: seq<Event>)
    ensures forall e :: e in r <==> e in es && e.fact.StateChanged?
  {
    if es == [] then [] else (if es[0].fact.StateChanged? then [es[0]] else []) + States(es[1..])
  }

  /** The events about a finding that a buffer takes, as they came. */
  function About(es: seq<Event>, id: Id): (r: seq<Event>)
    ensures forall e :: e in r <==> e in es && Early(e) && e.fact.id == id
  {
    if es == [] then [] else (if Early(es[0]) && es[0].fact.id == id then [es[0]] else []) + About(es[1..], id)
  }

  // ----- events one by one, in the order in which they came

  function ApplyEarly(t: Track, e: Event): (u: Track)
    requires t.finding.Some? && Early(e)
    ensures u.finding.Some?
  {
    if e.fact.Feedback? then ApplyFeedback(t, e) else ApplyState(t, e)
  }

  function Replay(t: Track, es: seq<Event>): (u: Track)
    requires t.finding.Some? && forall e | e in es :: Early(e)
    ensures u.finding.Some?
    decreases |es|
  {
    if es == [] then t else Replay(ApplyEarly(t, es[0]), es[1..])
  }

  /** All feedback first, then all state changes. */
  function InBuffers(t: Track, es: seq<Event>): Track
    requires t.finding.Some?
  {
    ApplyStates(ApplyFeedbacks(t, Feedbacks(es)), States(es))
  }

  lemma {:induction false} ReplayBoth(t: Track, a: seq<Event>, b: seq<Event>)
    requires t.finding.Some? && (forall e | e in a :: Early(e)) && (forall e | e in b :: Early(e))
    ensures Replay(t, a + b) == Replay(Replay(t, a), b)
    decreases |a|
  {
    hide ApplyEarly, Early;
    if a == [] {
      assert a + b == b;
    } else {
      assert (a + b)[0] == a[0] && (a + b)[1..] == a[1..] + b;
      ReplayBoth(ApplyEarly(t, a[0]), a[1..], b);
    }
  }

  lemma {:induction false} ReplayFeedbacks(t: Track, es: seq<Event>)
    requires t.finding.Some? && forall e | e in es :: e.fact.Feedback?
    ensures Replay(t, es) == ApplyFeedbacks(t, es)
    decreases |es|
  {
    hide ApplyFeedback;
    if es != [] {
      ReplayFeedbacks(ApplyFeedback(t, es[0]), es[1..]);
    }
  }

  lemma {:induction false} ReplayStates(t: Track, es: seq<Event>)
    requires t.finding.Some? && forall e | e in es :: e.fact.StateChanged?
    ensures Replay(t, es) == ApplyStates(t, es)
    decreases |es|
  {
    hide ApplyState;
    if es != [] {
      ReplayStates(ApplyState(t, es[0]), es[1..]);
    }
  }

  lemma BuffersReplay(t: Track, es: seq<Event>)
    requires t.finding.Some?
    ensures InBuffers(t, es) == Replay(t, Feedbacks(es) + States(es))
  {
    hide ApplyFeedbacks, ApplyStates, Replay, Feedbacks, States;
    ReplayFeedbacks(t, Feedbacks(es));
    ReplayStates(ApplyFeedbacks(t, Feedbacks(es)), States(es));
    ReplayBoth(t, Feedbacks(es), States(es));
  }

  // ----- what is beneath, after a replay

  /** The underlying state an event sets, if any. */
  function Sets(e: Event): Option<FindingState> {
    match e.fact
    case Feedback(_, kind, _, _, signal) => if signal.None? then StateForKind(kind) else None
    case StateChanged(_, state, _, fromSignal) => if fromSignal then None else Some(state)
    case _ => None
  }

  function LastSet(es: seq<Event>): Option<FindingState> {
    if es == [] then None
    else if LastSet(es[1..]).Some? then LastSet(es[1..])
    else Sets(es[0])
  }

  /** The last event that sets a state decides what is beneath; toggles decide the signals. */
  lemma {:induction false} ReplayLayers(t: Track, es: seq<Event>)
    requires t.finding.Some? && forall e | e in es :: Early(e)
    ensures Replay(t, es).underlying == if LastSet(es).Some? then LastSet(es) else t.underlying
    ensures Replay(t, es).signals == Toggles(t.signals, es)
    decreases |es|
  {
    if es != [] {
      EarlyLayers(t, es[0]);
      hide ApplyEarly, Sets, Toggle;
      ReplayLayers(ApplyEarly(t, es[0]), es[1..]);
    }
  }

  lemma EarlyLayers(t: Track, e: Event)
    requires t.finding.Some? && Early(e)
    ensures ApplyEarly(t, e).underlying == if Sets(e).Some? then Sets(e) else t.underlying
    ensures ApplyEarly(t, e).signals == Toggle(t.signals, e)
  {
    hide Transition;
  }

  lemma {:induction false} LastSetBoth(a: seq<Event>, b: seq<Event>)
    ensures LastSet(a + b) == if LastSet(b).Some? then LastSet(b) else LastSet(a)
  {
    hide Sets;
    if a == [] {
      assert a + b == b;
    } else {
      assert (a + b)[0] == a[0] && (a + b)[1..] == a[1..] + b;
      LastSetBoth(a[1..], b);
    }
  }

  lemma {:induction false} LastSetIsSet(es: seq<Event>)
    ensures LastSet(es).Some? <==> exists e :: e in es && Sets(e).Some?
    ensures LastSet(es).Some? ==> exists e :: e in es && Sets(e) == LastSet(es)
  {
    hide Sets;
    if es != [] {
      LastSetIsSet(es[1..]);
      assert es == [es[0]] + es[1..];
    }
  }

  // ----- the order of arrival

  /** For each early event, whether it is a state change. */
  function Shape(es: seq<Event>): (shape: seq<bool>)
    ensures |shape| == |es| && forall i | 0 <= i < |es| :: shape[i] == es[i].fact.StateChanged?
  {
    seq(|es|, i requires 0 <= i < |es| => es[i].fact.StateChanged?)
  }

  ghost predicate StatesLast(shape: seq<bool>) {
    forall i, j | 0 <= i < j < |shape| && shape[i] :: shape[j]
  }

  lemma {:induction false} NoFeedbacks(es: seq<Event>)
    requires forall i | 0 <= i < |es| :: es[i].fact.StateChanged?
    ensures Feedbacks(es) == [] && States(es) == es
  {
    if es != [] {
      NoFeedbacks(es[1..]);
    }
  }

  lemma StatesLastTail(shape: seq<bool>)
    requires shape != [] && StatesLast(shape)
    ensures StatesLast(shape[1..])
    ensures shape[0] ==> forall i | 0 <= i < |shape| :: shape[i]
  {
    forall i, j | 0 <= i < j < |shape[1..]| && shape[1..][i]
      ensures shape[1..][j]
    {
      assert shape[i + 1] && shape[j + 1];
    }
  }

  lemma {:induction false} FeedbackThenStates(es: seq<Event>)
    requires (forall e | e in es :: Early(e)) && StatesLast(Shape(es))
    ensures Feedbacks(es) + States(es) == es
  {
    hide Feedbacks, States;
    if es == [] {
      NoFeedbacks(es);
    } else {
      StatesLastTail(Shape(es));
      if es[0].fact.StateChanged? {
        NoFeedbacks(es);
      } else {
        assert Early(es[0]);
        hide StatesLast;
        assert Shape(es)[1..] == Shape(es[1..]);
        FeedbackThenStates(es[1..]);
        FeedbackFirst(es);
      }
    }
  }

  lemma FeedbackFirst(es: seq<Event>)
    requires es != [] && es[0].fact.Feedback?
    ensures Feedbacks(es) + States(es) == [es[0]] + (Feedbacks(es[1..]) + States(es[1..]))
  {
    Assoc([es[0]], Feedbacks(es[1..]), States(es[1..]));
    assert Feedbacks(es) == [es[0]] + Feedbacks(es[1..]);
    assert States(es) == [] + States(es[1..]) == States(es[1..]);
  }

  lemma Assoc(a: seq<Event>, b: seq<Event>, c: seq<Event>)
    ensures a + b + c == a + (b + c)
  {
  }

  /** Early events of a shape that set nothing, but for a fix at i and a reopening at j. */
  function FixedAndReopened(shape: seq<bool>, id: Id, i: nat, j: nat): (es: seq<Event>)
    ensures |es| == |shape|
  {
    seq(|shape|, k requires 0 <= k < |shape| =>
      Event(k, None, "h", if shape[k] then StateChanged(id, Fixed, None, k != i)
                          else Feedback(id, if k == j then Reopen else React, None, None, None)))
  }

  lemma FixedAndReopenedAre(shape: seq<bool>, id: Id, i: nat, j: nat)
    requires i < j < |shape| && shape[i] && !shape[j]
    ensures var es := FixedAndReopened(shape, id, i, j);
            && Shape(es) == shape && (forall e | e in es :: Early(e) && e.fact.id == id)
            && forall k | 0 <= k < |es| :: Sets(es[k]) == if k == i then Some(Fixed) else if k == j then Some(Open) else None
  {
  }

  lemma FixedAndReopenedSets(shape: seq<bool>, id: Id, i: nat, j: nat)
    requires i < j < |shape| && shape[i] && !shape[j]
    ensures var es := FixedAndReopened(shape, id, i, j); LastSet(es) == Some(Open) && LastSet(Feedbacks(es) + States(es)) == Some(Fixed)
  {
    var es := FixedAndReopened(shape, id, i, j);
    FixedAndReopenedAre(shape, id, i, j);
    assert es[i].fact.StateChanged? && !es[j].fact.StateChanged? by {
      assert Shape(es)[i] && !Shape(es)[j];
    }
    hide *;
    LastFrom(es, j);
    LastOfStates(es, i);
  }

  lemma LastFrom(es: seq<Event>, j: nat)
    requires j < |es| && Sets(es[j]).Some? && forall k | j < k < |es| :: Sets(es[k]).None?
    ensures LastSet(es) == Sets(es[j])
  {
    hide *;
    OnlySet(es[j..], es[j]);
    assert es[..j] + es[j..] == es;
    LastSetBoth(es[..j], es[j..]);
  }

  lemma LastOfStates(es: seq<Event>, i: nat)
    requires i < |es| && Sets(es[i]).Some? && es[i].fact.StateChanged?
    requires forall k | 0 <= k < |es| && es[k].fact.StateChanged? && Sets(es[k]).Some? :: Sets(es[k]) == Sets(es[i])
    ensures LastSet(Feedbacks(es) + States(es)) == Sets(es[i])
  {
    hide *;
    OnlySet(States(es), es[i]);
    LastSetBoth(Feedbacks(es), States(es));
  }

  lemma OnlySet(es: seq<Event>, e: Event)
    requires e in es && Sets(e).Some? && forall e' | e' in es && Sets(e').Some? :: Sets(e') == Sets(e)
    ensures LastSet(es) == Sets(e)
  {
    hide Sets, LastSet;
    LastSetIsSet(es);
  }

  // ----- the buffers of a run

  lemma {:induction false} AboutSnoc(es: seq<Event>, e: Event, id: Id)
    ensures About(es + [e], id) == About(es, id) + if Early(e) && e.fact.id == id then [e] else []
  {
    if es == [] {
      assert (es + [e])[1..] == [];
    } else {
      assert (es + [e])[1..] == es[1..] + [e] && (es + [e])[0] == es[0];
      AboutSnoc(es[1..], e, id);
      var first := if Early(es[0]) && es[0].fact.id == id then [es[0]] else [];
      assert About(es + [e], id) == first + About(es[1..] + [e], id) && About(es, id) == first + About(es[1..], id);
      hide About;
      Assoc(first, About(es[1..], id), if Early(e) && e.fact.id == id then [e] else []);
    }
  }

  lemma {:induction false} FeedbacksSnoc(es: seq<Event>, e: Event)
    ensures Feedbacks(es + [e]) == Feedbacks(es) + if e.fact.Feedback? then [e] else []
  {
    if es == [] {
      assert (es + [e])[1..] == [];
    } else {
      assert (es + [e])[1..] == es[1..] + [e] && (es + [e])[0] == es[0];
      FeedbacksSnoc(es[1..], e);
      var first := if es[0].fact.Feedback? then [es[0]] else [];
      assert Feedbacks(es + [e]) == first + Feedbacks(es[1..] + [e]) && Feedbacks(es) == first + Feedbacks(es[1..]);
      hide Feedbacks;
      Assoc(first, Feedbacks(es[1..]), if e.fact.Feedback? then [e] else []);
    }
  }

  lemma {:induction false} StatesSnoc(es: seq<Event>, e: Event)
    ensures States(es + [e]) == States(es) + if e.fact.StateChanged? then [e] else []
  {
    if es == [] {
      assert (es + [e])[1..] == [];
    } else {
      assert (es + [e])[1..] == es[1..] + [e] && (es + [e])[0] == es[0];
      StatesSnoc(es[1..], e);
      var first := if es[0].fact.StateChanged? then [es[0]] else [];
      assert States(es + [e]) == first + States(es[1..] + [e]) && States(es) == first + States(es[1..]);
      hide States;
      Assoc(first, States(es[1..]), if e.fact.StateChanged? then [e] else []);
    }
  }

  /** A track that is nothing but the two buffers of early events. */
  ghost predicate Only(t: Track, early: seq<Event>) {
    t == Track(None, None, {}, Feedbacks(early), States(early))
  }

  /** Until its finding is known, a track is nothing but the two buffers of what came about it. */
  lemma {:induction false} OnlyBuffers(es: seq<Event>, id: Id, live: string)
    requires TrackAfter(es, id, live).finding.None?
    ensures Only(TrackAfter(es, id, live), About(es, id))
  {
    hide Step, About, HeadsAfter;
    if es == [] {
      NothingCame(id);
    } else {
      var n := |es| - 1;
      var front, e := es[..n], es[n];
      var t := TrackAfter(front, id, live);
      OnlyStep(t, About(front, id), id, e, HeadsAfter(es, live)) by {
        if t.finding.None? {
          OnlyBuffers(front, id, live);
        }
      }
      AboutSnoc(front, e, id);
      assert front + [e] == es;
    }
  }

  lemma NothingCame(id: Id)
    ensures Only(UNSEEN, About([], id))
  {
  }

  lemma OnlyStep(t: Track, early: seq<Event>, id: Id, e: Event, h: Heads)
    requires Buffers(t) && Step(t, id, e, h).finding.None? && (t.finding.None? ==> Only(t, early))
    ensures Only(Step(t, id, e, h), early + if Early(e) && e.fact.id == id then [e] else [])
  {
    BufferStep(t, id, e, h);
    hide Step;
    FeedbacksSnoc(early, e);
    StatesSnoc(early, e);
    assert early + [] == early;
  }

  lemma BufferStep(t: Track, id: Id, e: Event, h: Heads)
    requires Buffers(t) && Step(t, id, e, h).finding.None?
    ensures t.finding.None?
    ensures Step(t, id, e, h) == t.(feedback := t.feedback + if e.fact.Feedback? && e.fact.id == id then [e] else [],
                                    states := t.states + if e.fact.StateChanged? && e.fact.id == id then [e] else [])
  {
    hide ObserveAll, ApplyFeedback, ApplyState, ApplyUnderlying, Sweep, Reported;
    assert t.feedback + [] == t.feedback && t.states + [] == t.states;
    if e.fact.Completed? && e.fact.authoritative && !OldHead(h, e) {
      UnreportedStays(t, id, e.fact.findings, e);
    }
  }

  lemma {:induction false} UnreportedStays(t: Track, id: Id, ss: seq<Snapshot>, e: Event)
    requires Buffers(t) && t.finding.None? && ObserveAll(t, id, ss, e).finding.None?
    ensures ObserveAll(t, id, ss, e) == t
    decreases |ss|
  {
    if ss != [] {
      hide Observe;
      UnreportedStays(t, id, ss[1..], e);
    }
  }

  /** A finding as a counted review creates it, and as a review of an old head does. */
  function Created(s: Snapshot, e: Event): (t: Track)
    ensures t.finding.Some?
  {
    UNSEEN.(finding := Some(Finding(s, Open, e.occurredAt, e.occurredAt, e.headSha, None, [Change(Open, e.occurredAt, e.headSha, None, None)])),
            underlying := Some(Open))
  }

  lemma FirstReviewBuffers(es: seq<Event>, id: Id, live: string, s: Snapshot, e: Event)
    requires TrackAfter(es, id, live).finding.None?
    ensures Observe(TrackAfter(es, id, live), s, e) == InBuffers(Created(s, e), About(es, id))
  {
    hide *;
    OnlyBuffers(es, id, live);
    ObserveOnly(TrackAfter(es, id, live), About(es, id), s, e);
  }

  lemma ObserveOnly(t: Track, early: seq<Event>, s: Snapshot, e: Event)
    requires Buffers(t) && Only(t, early)
    ensures Observe(t, s, e) == InBuffers(Created(s, e), early)
  {
    hide Feedbacks, States, ApplyFeedbacks, ApplyStates;
    KeepBuffers(Created(s, e), Feedbacks(early), States(early), Feedbacks(early), States(early));
  }

  /** Applying events neither reads nor changes the buffers. */
  lemma KeepBuffers(t: Track, fs: seq<Event>, ss: seq<Event>, feedback: seq<Event>, states: seq<Event>)
    requires t.finding.Some? && t.feedback == t.states == []
    requires (forall e | e in fs :: e.fact.Feedback?) && forall e | e in ss :: e.fact.StateChanged?
    ensures ApplyStates(ApplyFeedbacks(t.(feedback := feedback, states := states), fs), ss).(feedback := [], states := [])
            == ApplyStates(ApplyFeedbacks(t, fs), ss)
  {
    KeepFeedbacks(t, fs, feedback, states);
    KeepStates(ApplyFeedbacks(t, fs), ss, feedback, states);
    hide ApplyFeedbacks, ApplyStates;
  }

  lemma {:induction false} KeepFeedbacks(t: Track, fs: seq<Event>, feedback: seq<Event>, states: seq<Event>)
    requires t.finding.Some? && t.feedback == t.states == [] && forall e | e in fs :: e.fact.Feedback?
    ensures ApplyFeedbacks(t.(feedback := feedback, states := states), fs) == ApplyFeedbacks(t, fs).(feedback := feedback, states := states)
    ensures ApplyFeedbacks(t, fs).feedback == ApplyFeedbacks(t, fs).states == []
    decreases |fs|
  {
    if fs != [] {
      KeepFeedbacks(ApplyFeedback(t, fs[0]), fs[1..], feedback, states);
    }
  }

  lemma {:induction false} KeepStates(t: Track, ss: seq<Event>, feedback: seq<Event>, states: seq<Event>)
    requires t.finding.Some? && t.feedback == t.states == [] && forall e | e in ss :: e.fact.StateChanged?
    ensures ApplyStates(t.(feedback := feedback, states := states), ss) == ApplyStates(t, ss).(feedback := feedback, states := states)
    ensures ApplyStates(t, ss).feedback == ApplyStates(t, ss).states == []
    decreases |ss|
  {
    if ss != [] {
      KeepStates(ApplyState(t, ss[0]), ss[1..], feedback, states);
    }
  }

  /** The first counted review makes of what came early what replaying it in order would. */
  ghost predicate FirstReviewReplays(es: seq<Event>, id: Id, live: string, s: Snapshot, e: Event) {
    TrackAfter(es, id, live).finding.None? ==>
      Observe(TrackAfter(es, id, live), s, e) == Replay(Created(s, e), About(es, id))
  }

  lemma {:induction false} EarlyOnly(es: seq<Event>, id: Id, live: string)
    requires forall e | e in es :: Early(e) && e.fact.id == id
    ensures About(es, id) == es && TrackAfter(es, id, live).finding.None?
  {
    hide About, Step, HeadsAfter, Early;
    if es == [] {
      NothingCame(id);
    } else {
      var n := |es| - 1;
      var front, e := es[..n], es[n];
      assert front + [e] == es;
      EarlyOnly(front, id, live);
      AboutSnoc(front, e, id);
      EarlyWaits(TrackAfter(front, id, live), id, e, HeadsAfter(es, live));
    }
  }

  lemma EarlyWaits(t: Track, id: Id, e: Event, h: Heads)
    requires Buffers(t) && t.finding.None? && Early(e)
    ensures Step(t, id, e, h).finding.None?
  {
  }

  /**
   * Of an order of arrival: whatever early feedback and early state changes say, the first counted review applies them
   * as if in order, exactly when no state change came before a feedback.
   */
  lemma FirstReviewReplaysExactly(shape: seq<bool>, id: Id, live: string, s: Snapshot, e: Event)
    ensures (forall es | Shape(About(es, id)) == shape :: FirstReviewReplays(es, id, live, s, e)) <==> StatesLast(shape)
  {
    hide TrackAfter, Observe, Replay, Created, InBuffers, Shape, About;
    if StatesLast(shape) {
      forall es | Shape(About(es, id)) == shape
        ensures FirstReviewReplays(es, id, live, s, e)
      {
        if TrackAfter(es, id, live).finding.None? {
          OrderedReplays(es, id, live, s, e);
        }
      }
    } else {
      var i, j :| 0 <= i < j < |shape| && shape[i] && !shape[j];
      FixedAndReopenedAre(shape, id, i, j);
      FixedAndReopenedSets(shape, id, i, j);
      var es := FixedAndReopened(shape, id, i, j);
      EarlyOnly(es, id, live);
      FirstReviewBuffers(es, id, live, s, e);
      BuffersReplay(Created(s, e), es);
      ReplayLayers(Created(s, e), es);
      ReplayLayers(Created(s, e), Feedbacks(es) + States(es));
      assert !FirstReviewReplays(es, id, live, s, e);
    }
  }

  lemma OrderedReplays(es: seq<Event>, id: Id, live: string, s: Snapshot, e: Event)
    requires TrackAfter(es, id, live).finding.None? && StatesLast(Shape(About(es, id)))
    ensures Observe(TrackAfter(es, id, live), s, e) == Replay(Created(s, e), About(es, id))
  {
    hide *;
    FirstReviewBuffers(es, id, live, s, e);
    BuffersReplay(Created(s, e), About(es, id));
    FeedbackThenStates(About(es, id));
  }

  // ----- an old head

  function CreatedStale(s: Snapshot, e: Event): (t: Track)
    ensures t.finding.Some?
  {
    CreateStale(UNSEEN, s, e)
  }

  /** Same state beneath, same signals over it. */
  ghost predicate SameLayers(t: Track, u: Track) {
    t.underlying == u.underlying && t.signals == u.signals
  }

  /**
   * A review of an old head that reports a finding first leaves both layers as a replay of what came early would,
   * exactly when that leaves no signal active and its last event that sets a state, if any, sets it stale.
   */
  lemma StaleReviewReplaysExactly(es: seq<Event>, id: Id, live: string, s: Snapshot, e: Event)
    requires TrackAfter(es, id, live).finding.None?
    ensures SameLayers(CreateStale(TrackAfter(es, id, live), s, e), Replay(CreatedStale(s, e), About(es, id)))
            <==> Toggles({}, About(es, id)) == {} && (LastSet(About(es, id)).None? || LastSet(About(es, id)) == Some(Stale))
  {
    OnlyBuffers(es, id, live);
    hide TrackAfter, About, Replay, LastSet, Toggles;
    ReplayLayers(CreatedStale(s, e), About(es, id));
  }

  /** Of an order of arrival: nothing is lost to an old head, whatever the early events say, exactly when none came. */
  lemma StaleReviewLosesExactly(shape: seq<bool>, id: Id, live: string, s: Snapshot, e: Event)
    ensures (forall es | Shape(About(es, id)) == shape && TrackAfter(es, id, live).finding.None? ::
               SameLayers(CreateStale(TrackAfter(es, id, live), s, e), Replay(CreatedStale(s, e), About(es, id))))
            <==> shape == []
  {
    hide TrackAfter, Replay, CreateStale, CreatedStale, LastSet, SameLayers;
    if shape == [] {
      forall es | Shape(About(es, id)) == shape && TrackAfter(es, id, live).finding.None?
        ensures SameLayers(CreateStale(TrackAfter(es, id, live), s, e), Replay(CreatedStale(s, e), About(es, id)))
      {
        StaleReviewReplaysExactly(es, id, live, s, e);
        assert About(es, id) == [];
        LastSetIsSet([]);
      }
    } else {
      var es := seq(|shape|, k requires 0 <= k < |shape| =>
        Event(k, None, "h", if shape[k] then StateChanged(id, Fixed, None, false) else Feedback(id, Resolve, None, None, None)));
      assert forall k | 0 <= k < |es| :: Early(es[k]) && es[k].fact.id == id && Sets(es[k]) == Some(Fixed);
      assert Shape(es) == shape && es[0] in es;
      EarlyOnly(es, id, live);
      StaleReviewReplaysExactly(es, id, live, s, e);
      LastSetIsSet(es);
    }
  }
}
