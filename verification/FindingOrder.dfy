// When the order in which events arrive does not matter, and where it does.
module FindingOrder {
  import opened Wrappers
  import opened FindingTrack
  import opened FindingLayers
  import opened FindingProjection

  ghost predicate Ranked(e: Event, f: Event) {
    e == f || Precedes(e, f) || Precedes(f, e)
  }

  /** Of any two different events one comes first: no two happen at one time unless both carry a sequence, and these differ. */
  ghost predicate Comparable(es: seq<Event>) {
    forall e, f | e in es && f in es :: Ranked(e, f)
  }

  ghost predicate InOrder(es: seq<Event>) {
    forall i, j | 0 <= i < j < |es| :: !Precedes(es[j], es[i])
  }

  lemma {:induction false} InsertEventHolds(e: Event, es: seq<Event>)
    ensures multiset(InsertEvent(e, es)) == multiset(es) + multiset{e}
    ensures forall x :: x in InsertEvent(e, es) <==> x == e || x in es
  {
    hide Precedes;
    if es != [] && Precedes(es[0], e) {
      InsertEventHolds(e, es[1..]);
      assert es == [es[0]] + es[1..];
    }
  }

  lemma NotBefore(x: Event, y: Event, e: Event)
    requires !Precedes(x, e) && !Precedes(y, x) && Ranked(x, e) && Ranked(x, y)
    ensures !Precedes(y, e)
  {
  }

  lemma {:induction false} InsertedInOrder(e: Event, es: seq<Event>)
    requires InOrder(es) && Comparable([e] + es)
    ensures InOrder(InsertEvent(e, es))
  {
    hide Precedes, Ranked, InOrder, Comparable;
    if es == [] || !Precedes(es[0], e) {
      BeforeAll(e, es);
    } else {
      Tail(es);
      OneLess(e, es);
      InsertedInOrder(e, es[1..]);
      InsertEventHolds(e, es[1..]);
      assert es == [es[0]] + es[1..];
      BehindFirst(es[0], es[1..], InsertEvent(e, es[1..]), e);
    }
  }

  lemma OneLess(e: Event, es: seq<Event>)
    requires Comparable([e] + es) && es != []
    ensures Comparable([e] + es[1..])
  {
    hide Ranked;
    assert forall x | x in [e] + es[1..] :: x in [e] + es;
  }

  lemma BeforeAll(e: Event, es: seq<Event>)
    requires InOrder(es) && Comparable([e] + es) && (es == [] || !Precedes(es[0], e))
    ensures InOrder([e] + es)
  {
    hide Precedes, Ranked;
    forall j | 0 <= j < |es|
      ensures !Precedes(es[j], e)
    {
      assert es[0] in [e] + es && es[j] in [e] + es && e in [e] + es;
      if 0 < j {
        NotBefore(es[0], es[j], e);
      }
    }
  }

  lemma BehindFirst(first: Event, old_: seq<Event>, rest: seq<Event>, e: Event)
    requires InOrder([first] + old_) && InOrder(rest) && Precedes(first, e) && forall x | x in rest :: x == e || x in old_
    ensures InOrder([first] + rest)
  {
    var s := [first] + rest;
    forall j | 0 < j < |s| ensures !Precedes(s[j], first) {
      assert s[j] == rest[j - 1] && rest[j - 1] in rest;
      if rest[j - 1] in old_ {
        var k :| 0 <= k < |old_| && old_[k] == rest[j - 1];
        assert ([first] + old_)[k + 1] == old_[k] && ([first] + old_)[0] == first;
      }
    }
    forall i, j | 0 < i < j < |s| ensures !Precedes(s[j], s[i]) {
      assert s[j] == rest[j - 1] && s[i] == rest[i - 1];
    }
  }

  lemma {:induction false} SortedInOrder(es: seq<Event>)
    requires Comparable(es)
    ensures InOrder(SortEvents(es)) && multiset(SortEvents(es)) == multiset(es)
    ensures forall x :: x in SortEvents(es) <==> x in es
  {
    hide Ranked, InsertEvent, InOrder;
    if es != [] {
      var sorted := SortEvents(es[1..]);
      assert es == [es[0]] + es[1..];
      SortedInOrder(es[1..]);
      InsertEventHolds(es[0], sorted);
      assert forall x | x in [es[0]] + sorted :: x in es;
      InsertedInOrder(es[0], sorted);
    } else {
      assert InOrder([]) by { Empty(); }
    }
  }

  lemma Empty()
    ensures InOrder([])
  {
  }

  lemma FirstIsLeast(s: seq<Event>, x: Event)
    requires InOrder(s) && x in s
    ensures x == s[0] || !Precedes(x, s[0])
  {
    var k :| 0 <= k < |s| && s[k] == x;
  }

  lemma SameMembers(s: seq<Event>, t: seq<Event>)
    requires multiset(s) == multiset(t)
    ensures |s| == |t| && forall x :: x in s <==> x in t
  {
    assert |multiset(s)| == |s| && |multiset(t)| == |t|;
    assert forall x :: x in s <==> x in multiset(s);
    assert forall x :: x in t <==> x in multiset(t);
  }

  /** There is only one order. */
  lemma {:induction false} OneOrder(s: seq<Event>, t: seq<Event>)
    requires InOrder(s) && InOrder(t) && multiset(s) == multiset(t) && Comparable(s)
    ensures s == t
  {
    hide *;
    SameMembers(s, t);
    if s != [] {
      SameFirst(s, t);
      Tail(s);
      Tail(t);
      OneOrder(s[1..], t[1..]);
      assert s == [s[0]] + s[1..] && t == [t[0]] + t[1..];
    }
  }

  lemma SameFirst(s: seq<Event>, t: seq<Event>)
    requires InOrder(s) && InOrder(t) && Comparable(s) && s != [] && t != [] && forall x :: x in s <==> x in t
    ensures s[0] == t[0]
  {
    hide Precedes, InOrder;
    FirstIsLeast(s, t[0]);
    FirstIsLeast(t, s[0]);
    assert Ranked(s[0], t[0]);
  }

  lemma Tail(s: seq<Event>)
    requires InOrder(s) && s != []
    ensures InOrder(s[1..]) && multiset(s[1..]) == multiset(s) - multiset{s[0]}
    ensures Comparable(s) ==> Comparable(s[1..])
  {
    hide Precedes, Ranked;
    assert s == [s[0]] + s[1..];
  }

  /** The sort sees nothing of the order of arrival. */
  ghost predicate OrderFree(a: seq<Event>) {
    forall b | multiset(b) == multiset(a) :: SortEvents(b) == SortEvents(a)
  }

  /** Two events of which neither comes first stay in the order in which they are inserted. */
  lemma {:induction false} InsertionsDiffer(e: Event, f: Event, es: seq<Event>)
    requires !Ranked(e, f)
    ensures InsertEvent(e, InsertEvent(f, es)) != InsertEvent(f, InsertEvent(e, es))
  {
    hide Precedes, InsertEvent;
    if es != [] && Precedes(es[0], e) && Precedes(es[0], f) {
      InsertionsDiffer(e, f, es[1..]);
      InsertPast(e, f, es);
      InsertPast(f, e, es);
      var one, other := InsertEvent(e, InsertEvent(f, es[1..])), InsertEvent(f, InsertEvent(e, es[1..]));
      assert ([es[0]] + one)[1..] == one && ([es[0]] + other)[1..] == other;
    } else {
      InsertFirst(e, f, es);
      InsertFirst(f, e, es);
      assert e != f;
    }
  }

  lemma InsertPast(e: Event, f: Event, es: seq<Event>)
    requires es != [] && Precedes(es[0], e) && Precedes(es[0], f)
    ensures InsertEvent(e, InsertEvent(f, es)) == [es[0]] + InsertEvent(e, InsertEvent(f, es[1..]))
  {
    hide Precedes;
    var more := InsertEvent(f, es[1..]);
    assert InsertEvent(f, es) == [es[0]] + more && ([es[0]] + more)[1..] == more;
  }

  lemma InsertFirst(e: Event, f: Event, es: seq<Event>)
    requires !Precedes(f, e) && (es == [] || !Precedes(es[0], e) || !Precedes(es[0], f))
    ensures InsertEvent(e, InsertEvent(f, es)) != [] && InsertEvent(e, InsertEvent(f, es))[0] == e
  {
    hide Precedes;
  }

  lemma Without(es: seq<Event>, e: Event) returns (rest: seq<Event>)
    requires e in es
    ensures multiset([e] + rest) == multiset(es)
    ensures forall x | x in es && x != e :: x in rest
  {
    var i :| 0 <= i < |es| && es[i] == e;
    rest := es[..i] + es[i + 1..];
    assert es == es[..i] + [e] + es[i + 1..];
  }

  /** The sort is a function of the events alone exactly when the comparison orders every two different ones. */
  lemma OrderFreeExactly(a: seq<Event>)
    ensures OrderFree(a) <==> Comparable(a)
  {
    hide SortEvents, Ranked;
    if Comparable(a) {
      forall b | multiset(b) == multiset(a)
        ensures SortEvents(b) == SortEvents(a)
      {
        SortsAlike(a, b);
      }
    } else {
      var e, f :| e in a && f in a && !Ranked(e, f);
      Unranked(a, e, f);
    }
  }

  lemma Unranked(a: seq<Event>, e: Event, f: Event)
    requires e in a && f in a && !Ranked(e, f)
    ensures !OrderFree(a)
  {
    assert e != f;
    var more := Without(a, e);
    var rest := Without(more, f);
    hide *;
    SortTwo(e, f, rest);
    SortTwo(f, e, rest);
    InsertionsDiffer(e, f, SortEvents(rest));
    TwoOut(a, more, rest, e, f);
    NotFree(a, [e, f] + rest, [f, e] + rest);
  }

  lemma TwoOut(a: seq<Event>, more: seq<Event>, rest: seq<Event>, e: Event, f: Event)
    requires multiset([e] + more) == multiset(a) && multiset([f] + rest) == multiset(more)
    ensures multiset([e, f] + rest) == multiset(a) == multiset([f, e] + rest)
  {
    assert [e, f] + rest == [e] + ([f] + rest);
    assert multiset([e, f] + rest) == multiset{e} + multiset([f] + rest);
  }

  lemma NotFree(a: seq<Event>, b: seq<Event>, c: seq<Event>)
    requires multiset(a) == multiset(b) == multiset(c) && SortEvents(b) != SortEvents(c)
    ensures !OrderFree(a)
  {
    hide SortEvents;
    assert SortEvents(b) != SortEvents(a) || SortEvents(c) != SortEvents(a);
  }

  lemma SortTwo(e: Event, f: Event, rest: seq<Event>)
    ensures SortEvents([e, f] + rest) == InsertEvent(e, InsertEvent(f, SortEvents(rest)))
  {
    hide InsertEvent;
    assert ([e, f] + rest)[1..] == [f] + rest && ([f] + rest)[1..] == rest;
  }

  lemma SortsAlike(a: seq<Event>, b: seq<Event>)
    requires multiset(a) == multiset(b) && Comparable(a)
    ensures SortEvents(a) == SortEvents(b)
  {
    hide Ranked, InOrder, SortEvents;
    SameMembers(a, b);
    SortedInOrder(a);
    SortedInOrder(b);
    OneOrder(SortEvents(a), SortEvents(b));
  }

  /** Any arrival order of comparable events projects to the same findings, with the same states and histories. */
  lemma OrderDoesNotMatter(a: seq<Event>, b: seq<Event>, live: string)
    requires multiset(a) == multiset(b) && Comparable(a)
    ensures Projected(a, live) == Projected(b, live)
  {
    hide *;
    SortsAlike(a, b);
    SameProjected(a, b, live);
  }

  lemma SameProjected(a: seq<Event>, b: seq<Event>, live: string)
    requires SortEvents(a) == SortEvents(b)
    ensures Projected(a, live) == Projected(b, live)
  {
    hide SortEvents, Found, SortFindings;
  }

  // ----- histories

  /** Nothing already in a finding's history is changed, nor when the finding was first seen. */
  ghost predicate Extends(t: Track, u: Track) {
    t.finding.Some? ==>
      && u.finding.Some? && u.finding.value.firstSeenAt == t.finding.value.firstSeenAt
      && |t.finding.value.history| <= |u.finding.value.history|
      && u.finding.value.history[..|t.finding.value.history|] == t.finding.value.history
  }

  lemma MoveExtends(t: Track, state: FindingState, e: Event, d: Details)
    requires t.finding.Some?
    ensures Extends(t, ApplyUnderlying(t, state, e, d)) && Extends(t, Move(t, state, e, d))
  {
    var h := t.finding.value.history;
    assert h[..|h|] == h && (h + [Change(state, e.occurredAt, e.headSha, d.reason, d.actor)])[..|h|] == h;
  }

  lemma FeedbackExtends(t: Track, e: Event)
    requires t.finding.Some? && e.fact.Feedback?
    ensures Extends(t, ApplyFeedback(t, e))
  {
    hide Transition;
    var d := Details(e.fact.reason, e.fact.actor);
    if e.fact.signal.Some? {
      MoveExtends(t, Dismissed, e, d);
      MoveExtends(t, Underlying(t), e, Details(Some(SIGNAL_REMOVED), e.fact.actor));
    } else if StateForKind(e.fact.kind).Some? {
      MoveExtends(t, StateForKind(e.fact.kind).value, e, d);
    } else {
      assert t.finding.value.history[..|t.finding.value.history|] == t.finding.value.history;
    }
  }

  lemma StateExtends(t: Track, e: Event)
    requires t.finding.Some? && e.fact.StateChanged?
    ensures Extends(t, ApplyState(t, e))
  {
    hide Transition;
    var d := Details(e.fact.reason, None);
    MoveExtends(t, if t.signals != {} then Dismissed else Underlying(t), e, d);
    MoveExtends(t, e.fact.state, e, d);
  }

  lemma ExtendsTwice(t: Track, u: Track, v: Track)
    requires Extends(t, u) && Extends(u, v)
    ensures Extends(t, v) && Extends(t, t)
  {
    if t.finding.Some? {
      var n := |t.finding.value.history|;
      assert v.finding.value.history[..|u.finding.value.history|][..n] == v.finding.value.history[..n];
    }
  }

  lemma {:induction false} ObserveAllExtends(t: Track, id: Id, ss: seq<Snapshot>, e: Event)
    requires Buffers(t)
    ensures Extends(t, ObserveAll(t, id, ss, e))
    decreases |ss|
  {
    ExtendsSelf(t);
    if ss != [] {
      if ss[0].id == id && t.finding.Some? {
        var f := t.finding.value;
        var seen := t.(finding := Some(f.(snapshot := Merge(f.snapshot, ss[0]), lastSeenAt := e.occurredAt, lastHeadSha := e.headSha)));
        MoveExtends(seen, Open, e, Details(Some(SEEN_AGAIN), None));
        assert Extends(t, Observe(t, ss[0], e)) by { hide ApplyUnderlying, Move; }
        hide Observe;
        ObserveAllExtends(Observe(t, ss[0], e), id, ss[1..], e);
        ExtendsTwice(t, Observe(t, ss[0], e), ObserveAll(Observe(t, ss[0], e), id, ss[1..], e));
      } else if ss[0].id != id {
        ObserveAllExtends(t, id, ss[1..], e);
      }
    }
    hide Observe;
  }

  lemma ExtendsSelf(t: Track)
    ensures Extends(t, t)
  {
    if t.finding.Some? {
      assert t.finding.value.history[..|t.finding.value.history|] == t.finding.value.history;
    }
  }

  lemma StepExtends(t: Track, id: Id, e: Event, h: Heads)
    requires Buffers(t)
    ensures Extends(t, Step(t, id, e, h))
  {
    hide Extends, ApplyUnderlying, ApplyFeedback, ApplyState, ObserveAll, Replaced, Reported;
    ExtendsSelf(t);
    match e.fact
    case HeadChanged =>
      if t.finding.Some? { MoveExtends(t, Stale, e, Details(Some(HEAD_MOVED), None)); }
    case Completed(authoritative, findings) =>
      var swept := if t.finding.Some? && !Reported(id, findings) then Sweep(t, e) else t;
      if t.finding.Some? {
        MoveExtends(t, if Replaced(t.finding.value, findings) then Superseded else Fixed, e, NO_DETAILS);
      }
      CompletedExtends(t, swept, id, e, h);
    case Feedback(_, _, _, _, _) =>
      if t.finding.Some? { FeedbackExtends(t, e); } else { UnknownExtends(t, Step(t, id, e, h)); }
    case StateChanged(_, _, _, _) =>
      if t.finding.Some? { StateExtends(t, e); } else { UnknownExtends(t, Step(t, id, e, h)); }
    case Other =>
  }

  lemma CompletedExtends(t: Track, swept: Track, id: Id, e: Event, h: Heads)
    requires Buffers(t) && e.fact.Completed? && Extends(t, swept) && Extends(t, t)
    requires swept == if t.finding.Some? && !Reported(id, e.fact.findings) then Sweep(t, e) else t
    ensures Extends(t, Step(t, id, e, h))
  {
    hide ObserveAll, Reported, Sweep, ApplyUnderlying;
    if t.finding.None? {
      UnknownExtends(t, Step(t, id, e, h));
    } else if e.fact.authoritative && !OldHead(h, e) {
      SweptBuffered(t, id, e);
      ObserveAllExtends(swept, id, e.fact.findings, e);
      ExtendsTwice(t, swept, ObserveAll(swept, id, e.fact.findings, e));
    }
  }

  lemma SweptBuffered(t: Track, id: Id, e: Event)
    requires Buffers(t) && e.fact.Completed? && t.finding.Some?
    ensures Buffers(Sweep(t, e))
  {
  }

  lemma UnknownExtends(t: Track, u: Track)
    requires t.finding.None?
    ensures Extends(t, u)
  {
  }

  /** More events only extend histories. */
  lemma {:induction false} HistoriesOnlyGrow(es: seq<Event>, more: seq<Event>, id: Id, live: string)
    ensures Extends(TrackAfter(es, id, live), TrackAfter(es + more, id, live))
    decreases |more|
  {
    hide Step, Extends;
    if more == [] {
      assert es + more == es;
      ExtendsSelf(TrackAfter(es, id, live));
    } else {
      var n := |more| - 1;
      var all := es + more;
      assert all[..|all| - 1] == es + more[..n];
      HistoriesOnlyGrow(es, more[..n], id, live);
      StepExtends(TrackAfter(es + more[..n], id, live), id, all[|all| - 1], HeadsAfter(all, live));
      ExtendsTwice(TrackAfter(es, id, live), TrackAfter(es + more[..n], id, live), TrackAfter(all, id, live));
    }
  }

  // ----- where the code depends on order all the same

  const FOUND := Snapshot("f", None, None, "title")
  const REVIEW := Completed(true, [FOUND])

  /** Three events one after the other. */
  lemma Three(x: Event, y: Event, z: Event)
    ensures var h1 := NextHeads(Heads("", ""), x, "");
            var h2 := NextHeads(h1, y, "");
            var h3 := NextHeads(h2, z, "");
            HeadsAfter([x, y, z], "") == h3
            && TrackAfter([x, y, z], "f", "") == Step(Step(Step(UNSEEN, "f", x, h1), "f", y, h2), "f", z, h3)
    ensures !Precedes(y, x) && !Precedes(z, y) ==> SortEvents([x, y, z]) == [x, y, z]
  {
    hide Step, NextHeads, Precedes;
    Last([], x, "f", "");
    Last([x], y, "f", "");
    Last([x, y], z, "f", "");
    assert [] + [x] == [x] && [x] + [y] == [x, y] && [x, y] + [z] == [x, y, z];
    assert [z][1..] == [] && [y, z][1..] == [z] && [x, y, z][1..] == [y, z];
    assert SortEvents([]) == [] && SortEvents([z]) == [z];
    assert !Precedes(z, y) ==> SortEvents([y, z]) == [y, z];
  }

  lemma Created(e: Event, h: Heads)
    requires e.fact == REVIEW && !OldHead(h, e)
    ensures Step(UNSEEN, "f", e, h)
            == Track(Some(Finding(FOUND, Open, e.occurredAt, e.occurredAt, e.headSha, None, [Change(Open, e.occurredAt, e.headSha, None, None)])),
                     Some(Open), {}, [], [])
  {
    ObserveFound(UNSEEN, e);
    hide ObserveAll;
  }

  lemma ObserveFound(t: Track, e: Event)
    requires Buffers(t)
    ensures ObserveAll(t, "f", [FOUND], e) == Observe(t, FOUND, e)
  {
    hide Observe;
    assert [FOUND][1..] == [] && [FOUND][0] == FOUND;
    var u := Observe(t, FOUND, e);
    assert ObserveAll(u, "f", [FOUND][1..], e) == u;
  }

  /** The step of the first review that reports a finding. */
  lemma Reviewed(t: Track, e: Event, h: Heads)
    requires Buffers(t) && t.finding.None? && e.fact == REVIEW && !OldHead(h, e)
    ensures Step(t, "f", e, h) == Observe(t, FOUND, e)
  {
    ObserveFound(t, e);
    hide ObserveAll, Observe;
  }

  /** Feedback without reason, actor or signal on a finding without signals. */
  lemma Answered(t: Track, e: Event, h: Heads, state: FindingState)
    requires Buffers(t) && t.finding.Some? && t.signals == {} && e.fact.Feedback? && e.fact.id == "f" && e.fact.signal.None?
    requires StateForKind(e.fact.kind) == Some(state) && t.underlying.Some? && t.finding.value.state == t.underlying.value
    ensures var u := Step(t, "f", e, h);
            u.finding.Some? && u.finding.value.state == state && u.underlying == Some(state) && u.signals == {}
  {
  }

  const REVIEWED := Event(0, None, "h", REVIEW)
  const RESOLVED := Event(1, None, "h", Feedback("f", Resolve, None, None, None))
  const REOPENED := Event(1, None, "h", Feedback("f", Reopen, None, None, None))

  lemma AnswersAfterReview(x: Event, y: Event, state: FindingState)
    requires x == RESOLVED || x == REOPENED
    requires y == RESOLVED || y == REOPENED
    requires StateForKind(y.fact.kind) == Some(state)
    ensures SortEvents([REVIEWED, x, y]) == [REVIEWED, x, y]
    ensures Final([REVIEWED, x, y], "f", "").finding.Some? && Final([REVIEWED, x, y], "f", "").finding.value.state == state
  {
    var h := NextHeads(Heads("", ""), REVIEWED, "");
    var t := Step(UNSEEN, "f", REVIEWED, h);
    Three(REVIEWED, x, y);
    Created(REVIEWED, h);
    assert NextHeads(h, x, "") == h == NextHeads(h, y, "");
    assert Buffers(t) && t.finding.Some? && t.signals == {} && t.underlying == Some(Open) && t.finding.value.state == Open;
    hide SortEvents, TrackAfter, HeadsAfter, Step, NextHeads, Buffers;
    Answered(t, x, h, StateForKind(x.fact.kind).value);
    Answered(Step(t, "f", x, h), y, h, state);
  }

  /** Of two events at one time without sequences, the one that arrives later wins. */
  lemma TiesKeepArrivalOrder()
    ensures var a, b := [REVIEWED, RESOLVED, REOPENED], [REVIEWED, REOPENED, RESOLVED];
            && multiset(a) == multiset(b)
            && Final(SortEvents(a), "f", "").finding.Some? && Final(SortEvents(a), "f", "").finding.value.state == Open
            && Final(SortEvents(b), "f", "").finding.Some? && Final(SortEvents(b), "f", "").finding.value.state == Fixed
  {
    AnswersAfterReview(RESOLVED, REOPENED, Open);
    AnswersAfterReview(REOPENED, RESOLVED, Fixed);
    hide Final, SortEvents, REVIEWED, RESOLVED, REOPENED;
  }

  lemma OneBuffered(t: Track, f: Event, s: Event, e: Event)
    requires Buffers(t) && t.finding.None? && f.fact.Feedback? && s.fact.StateChanged? && t.feedback == [f] && t.states == [s]
    ensures var created := Finding(FOUND, Open, e.occurredAt, e.occurredAt, e.headSha, None, [Change(Open, e.occurredAt, e.headSha, None, None)]);
            Observe(t, FOUND, e)
            == ApplyState(ApplyFeedback(t.(finding := Some(created), underlying := Some(Open)), f), s).(feedback := [], states := [])
  {
    hide ApplyFeedback, ApplyState;
    assert [f][1..] == [] && [s][1..] == [];
    var created := Finding(FOUND, Open, e.occurredAt, e.occurredAt, e.headSha, None, [Change(Open, e.occurredAt, e.headSha, None, None)]);
    var u := ApplyFeedback(t.(finding := Some(created), underlying := Some(Open)), f);
    assert ApplyFeedbacks(u, [f][1..]) == u;
    assert ApplyStates(ApplyState(u, s), [s][1..]) == ApplyState(u, s);
  }

  /** Feedback that arrives before its finding is applied before buffered state changes, even if it is later. */
  lemma EarlyFeedbackLosesItsPlace()
    ensures exists es: seq<Event> :: |es| == 3 && SortEvents(es) == es && es[0].fact.StateChanged? && es[1].fact.Feedback?
              && es[1].fact.kind == Reopen && es[0].fact.state == Fixed
              && Final(es, "f", "").finding.Some? && Final(es, "f", "").finding.value.state == Fixed
  {
    var h := NextHeads(Heads("", ""), EARLY_REVIEW, "");
    var t := Step(Step(UNSEEN, "f", EARLY_FIX, Heads("", "")), "f", EARLY_REOPENING, Heads("", ""));
    assert t == UNSEEN.(feedback := [EARLY_REOPENING], states := [EARLY_FIX]) && !OldHead(h, EARLY_REVIEW);
    ReopenedThenFixed(t, h);
    Three(EARLY_FIX, EARLY_REOPENING, EARLY_REVIEW);
    hide SortEvents, TrackAfter, HeadsAfter, Observe, Step;
    var es := [EARLY_FIX, EARLY_REOPENING, EARLY_REVIEW];
    assert Final(es, "f", "").finding.value.state == Fixed;
  }

  const EARLY_FIX := Event(0, Some(1), "h", StateChanged("f", Fixed, None, false))
  const EARLY_REOPENING := Event(1, Some(2), "h", Feedback("f", Reopen, None, None, None))
  const EARLY_REVIEW := Event(2, Some(3), "h", REVIEW)

  lemma ReopenedThenFixed(t: Track, h: Heads)
    requires t == UNSEEN.(feedback := [EARLY_REOPENING], states := [EARLY_FIX]) && !OldHead(h, EARLY_REVIEW)
    ensures Step(t, "f", EARLY_REVIEW, h).finding.Some? && Step(t, "f", EARLY_REVIEW, h).finding.value.state == Fixed
  {
    Reviewed(t, EARLY_REVIEW, h);
    OneBuffered(t, EARLY_REOPENING, EARLY_FIX, EARLY_REVIEW);
    hide Step, Observe;
  }

  /** A dismissal that arrives before a review of an old head is never applied: the finding is stale, not dismissed. */
  lemma EarlyDismissalIsLost()
    ensures exists es: seq<Event> :: SortEvents(es) == es && SignalsOf(es, "f") != {}
              && Final(es, "f", "").finding.Some? && Final(es, "f", "").finding.value.state == Stale
  {
    var moved := Event(0, Some(1), "new", HeadChanged);
    var dismissed := Event(1, Some(2), "old", Feedback("f", React, None, None, Some(Signal("s", true))));
    var c := Event(2, Some(3), "old", REVIEW);
    var es := [moved, dismissed, c];
    Three(moved, dismissed, c);
    assert es[..2] == [moved, dismissed] && es[..2][..1] == [moved] && [moved][..0] == [];
    assert SignalsOf([moved], "f") == {};
    assert SignalsOf(es[..2], "f") == {"s"};
    assert SignalsOf(es, "f") == {"s"};
    hide SortEvents, TrackAfter, HeadsAfter, SignalsOf;
    assert Final(es, "f", "").finding.value.state == Stale;
  }
}
