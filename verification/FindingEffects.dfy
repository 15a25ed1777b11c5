// What each event does to a finding: which state it leaves beneath, what it shows, and what its history records.
module FindingEffects {
  import opened Wrappers
  import opened FindingTrack
  import opened FindingLayers

  // ----- which reviews count

  /** The head that is known to be the pull request's: the last one it moved to, or the live head once it was reviewed. */
  lemma KnownHead(es: seq<Event>, e: Event, live: string)
    ensures var h, h' := HeadsAfter(es, live), HeadsAfter(es + [e], live);
            var reviews := e.fact.Completed? && e.fact.authoritative;
            && h'.authoritative == (if e.fact.HeadChanged? || (reviews && live != "" && e.headSha == live) then e.headSha else h.authoritative)
            && h'.latestCompleted == if reviews && (h'.authoritative == "" || h'.authoritative == e.headSha) then e.headSha else h.latestCompleted
  {
    Last(es, e, "", live);
    hide HeadsAfter;
  }

  /** A review that counts is authoritative and, as far as is known, of the pull request's head. */
  ghost predicate Counts(es: seq<Event>, e: Event, live: string) {
    var head := HeadsAfter(es + [e], live).authoritative;
    e.fact.Completed? && e.fact.authoritative && (head == "" || head == e.headSha)
  }

  /** Neither a review that reports the finding, nor one that does not, but one of an old head. */
  ghost predicate IsOld(es: seq<Event>, e: Event, live: string) {
    var head := HeadsAfter(es + [e], live).authoritative;
    e.fact.Completed? && e.fact.authoritative && head != "" && head != e.headSha
  }

  ghost predicate Reports(e: Event, id: Id)
    requires e.fact.Completed?
  {
    exists s :: s in e.fact.findings && s.id == id
  }

  // ----- a track is about its finding

  ghost predicate About(t: Track, id: Id) {
    t.finding.Some? ==> t.finding.value.snapshot.id == id
  }

  lemma UnderlyingAbout(t: Track, id: Id, state: FindingState, e: Event, d: Details)
    requires t.finding.Some? && About(t, id)
    ensures About(ApplyUnderlying(t, state, e, d), id)
  {
  }

  lemma {:induction false} FeedbacksAbout(t: Track, id: Id, es: seq<Event>)
    requires t.finding.Some? && About(t, id) && forall e | e in es :: e.fact.Feedback?
    ensures About(ApplyFeedbacks(t, es), id)
    decreases |es|
  {
    if es != [] {
      FeedbacksAbout(ApplyFeedback(t, es[0]), id, es[1..]);
    }
  }

  lemma {:induction false} StatesAbout(t: Track, id: Id, es: seq<Event>)
    requires t.finding.Some? && About(t, id) && forall e | e in es :: e.fact.StateChanged?
    ensures About(ApplyStates(t, es), id)
    decreases |es|
  {
    if es != [] {
      StatesAbout(ApplyState(t, es[0]), id, es[1..]);
    }
  }

  lemma ObserveAbout(t: Track, s: Snapshot, e: Event)
    requires Buffers(t)
    ensures About(Observe(t, s, e), s.id)
  {
    match t.finding
    case None =>
      var created := Finding(s, Open, e.occurredAt, e.occurredAt, e.headSha, None, [Change(Open, e.occurredAt, e.headSha, None, None)]);
      var u := t.(finding := Some(created), underlying := Some(Open));
      FeedbacksAbout(u, s.id, t.feedback);
      StatesAbout(ApplyFeedbacks(u, t.feedback), s.id, t.states);
      hide ApplyFeedbacks, ApplyStates;
    case Some(f) =>
  }

  lemma {:induction false} ObserveAllAbout(t: Track, id: Id, ss: seq<Snapshot>, e: Event)
    requires Buffers(t) && About(t, id)
    ensures About(ObserveAll(t, id, ss, e), id)
    decreases |ss|
  {
    hide Observe, About;
    if ss != [] {
      if ss[0].id == id {
        ObserveAbout(t, ss[0], e);
      }
      ObserveAllAbout(if ss[0].id == id then Observe(t, ss[0], e) else t, id, ss[1..], e);
    }
  }

  lemma StepAbout(t: Track, id: Id, e: Event, h: Heads)
    requires Buffers(t) && About(t, id)
    ensures About(Step(t, id, e, h), id)
  {
    if e.fact.Completed? && e.fact.authoritative && !OldHead(h, e) {
      var swept := if t.finding.Some? && !Reported(id, e.fact.findings) then Sweep(t, e) else t;
      assert About(swept, id);
      ObserveAllAbout(swept, id, e.fact.findings, e);
      hide ObserveAll, Sweep, About;
    }
    hide ObserveAll;
  }

  lemma {:induction false} AlwaysAbout(es: seq<Event>, id: Id, live: string)
    ensures About(TrackAfter(es, id, live), id)
  {
    if es != [] {
      var n := |es| - 1;
      AlwaysAbout(es[..n], id, live);
      StepAbout(TrackAfter(es[..n], id, live), id, es[n], HeadsAfter(es, live));
      hide Step, About;
    }
  }

  // ----- one more event

  /** Beneath is the given state, and it shows unless a signal dismisses the finding. */
  ghost predicate LeftIn(t: Track, u: Track, state: FindingState) {
    && u.finding.Some? && u.underlying == Some(state) && u.signals == t.signals
    && u.finding.value.state == if t.signals == {} then state else Dismissed
  }

  /** The change that is recorded when an event moves a finding to another visible state, and only then. */
  ghost predicate Records(t: Track, u: Track, e: Event, reason: Option<string>)
    requires t.finding.Some?
  {
    && u.finding.Some?
    && u.finding.value.history == t.finding.value.history +
         if u.finding.value.state == t.finding.value.state then [] else [Change(u.finding.value.state, e.occurredAt, e.headSha, reason, None)]
  }

  lemma {:induction false} NobodyObserved(t: Track, id: Id, ss: seq<Snapshot>, e: Event)
    requires Buffers(t) && forall s | s in ss :: s.id != id
    ensures ObserveAll(t, id, ss, e) == t
    decreases |ss|
  {
    hide Observe;
    if ss != [] {
      NobodyObserved(t, id, ss[1..], e);
    }
  }

  lemma UnderlyingLeaves(t: Track, state: FindingState, e: Event, reason: Option<string>)
    requires TrackInv(t) && t.finding.Some? && (reason.None? || t.underlying != Some(state))
    ensures var u := ApplyUnderlying(t, state, e, Details(reason, None)); LeftIn(t, u, state) && Records(t, u, e, reason)
  {
    UnderlyingKeepsInv(t, state, e, Details(reason, None));
  }

  /**
   * A finding that a counted review no longer reports is superseded if another finding of the review names its key, and
   * otherwise fixed; unless it was dismissed or superseded already.
   */
  lemma VanishedDecides(es: seq<Event>, e: Event, id: Id, live: string)
    requires Counts(es, e, live) && TrackAfter(es, id, live).finding.Some? && !Reports(e, id)
    ensures var t, u := TrackAfter(es, id, live), TrackAfter(es + [e], id, live);
            var key := t.finding.value.snapshot.key;
            if t.underlying == Some(Dismissed) || t.underlying == Some(Superseded) then u == t
            else
              && LeftIn(t, u, if key.Some? && key.value != "" && exists s :: s in e.fact.findings && s.id != id && s.supersedes == key
                              then Superseded else Fixed)
              && Records(t, u, e, None)
  {
    var t := TrackAfter(es, id, live);
    AlwaysInv(es, id, live);
    AlwaysAbout(es, id, live);
    Last(es, e, id, live);
    NobodyObserved(Sweep(t, e), id, e.fact.findings, e);
    UnderlyingLeaves(t, if Replaced(t.finding.value, e.fact.findings) then Superseded else Fixed, e, None);
    hide TrackAfter, HeadsAfter, ObserveAll, ApplyUnderlying, LeftIn, Records, TrackInv;
  }

  /** A report of a known finding: when it was seen last, and in which state that leaves it. */
  ghost predicate SeenAgain(t: Track, u: Track, e: Event)
    requires t.finding.Some?
  {
    && u.finding.Some? && u.finding.value.lastSeenAt == e.occurredAt && u.finding.value.lastHeadSha == e.headSha
    && u.finding.value.firstSeenAt == t.finding.value.firstSeenAt
    && LeftIn(t, u, if t.underlying == Some(Dismissed) then Dismissed else Open)
    && Records(t, u, e, Some("Finding observed again on a later commit"))
  }

  lemma ObservedOnce(t: Track, s: Snapshot, e: Event)
    requires TrackInv(t) && t.finding.Some?
    ensures SeenAgain(t, Observe(t, s, e), e)
  {
    var f := t.finding.value;
    var u := t.(finding := Some(f.(snapshot := Merge(f.snapshot, s), lastSeenAt := e.occurredAt, lastHeadSha := e.headSha)));
    if t.underlying != Some(Open) {
      UnderlyingLeaves(u, Open, e, Some(SEEN_AGAIN));
    }
    hide Merge;
  }

  lemma SeenTwice(t: Track, u: Track, s: Snapshot, e: Event)
    requires TrackInv(t) && TrackInv(u) && t.finding.Some? && SeenAgain(t, u, e)
    ensures SeenAgain(t, Observe(u, s, e), e)
  {
    hide Merge, ApplyUnderlying;
  }

  lemma {:induction false} ObservedAgain(t: Track, u: Track, id: Id, ss: seq<Snapshot>, e: Event)
    requires TrackInv(t) && TrackInv(u) && Buffers(u) && t.finding.Some? && SeenAgain(t, u, e)
    ensures SeenAgain(t, ObserveAll(u, id, ss, e), e)
    decreases |ss|
  {
    hide Observe, SeenAgain, TrackInv;
    if ss != [] {
      if ss[0].id == id {
        SeenTwice(t, u, ss[0], e);
        ObserveKeepsInv(u, ss[0], e);
      }
      ObservedAgain(t, if ss[0].id == id then Observe(u, ss[0], e) else u, id, ss[1..], e);
    }
  }

  lemma {:induction false} ObservedKnown(t: Track, id: Id, ss: seq<Snapshot>, e: Event)
    requires TrackInv(t) && Buffers(t) && t.finding.Some? && exists s :: s in ss && s.id == id
    ensures SeenAgain(t, ObserveAll(t, id, ss, e), e)
    decreases |ss|
  {
    hide Observe, SeenAgain, TrackInv;
    if ss[0].id == id {
      ObservedOnce(t, ss[0], e);
      ObserveKeepsInv(t, ss[0], e);
      ObservedAgain(t, Observe(t, ss[0], e), id, ss[1..], e);
    } else {
      var s :| s in ss && s.id == id;
      assert s in ss[1..];
      ObservedKnown(t, id, ss[1..], e);
    }
  }

  /** A known finding that a counted review reports is open again, unless it was dismissed. */
  lemma ReportedDecides(es: seq<Event>, e: Event, id: Id, live: string)
    requires Counts(es, e, live) && TrackAfter(es, id, live).finding.Some? && Reports(e, id)
    ensures SeenAgain(TrackAfter(es, id, live), TrackAfter(es + [e], id, live), e)
  {
    var t := TrackAfter(es, id, live);
    AlwaysInv(es, id, live);
    Last(es, e, id, live);
    ObservedKnown(t, id, e.fact.findings, e);
    hide TrackAfter, HeadsAfter, ObserveAll, SeenAgain, Sweep, TrackInv;
  }

  /** A finding about which nothing came early is open from its first counted report on. */
  lemma FirstReportOpens(es: seq<Event>, e: Event, id: Id, live: string)
    requires Counts(es, e, live) && TrackAfter(es, id, live) == UNSEEN && Reports(e, id)
    ensures var u := TrackAfter(es + [e], id, live);
            && u.underlying == Some(Open) && u.signals == {} && u.finding.Some? && u.finding.value.state == Open
            && u.finding.value.firstSeenAt == u.finding.value.lastSeenAt == e.occurredAt && u.finding.value.lastHeadSha == e.headSha
            && u.finding.value.history == [Change(Open, e.occurredAt, e.headSha, None, None)]
  {
    Last(es, e, id, live);
    hide TrackAfter, HeadsAfter, ObserveAll, Sweep;
    FirstObserved(id, e.fact.findings, e);
  }

  lemma {:induction false} FirstObserved(id: Id, ss: seq<Snapshot>, e: Event)
    requires exists s :: s in ss && s.id == id
    ensures var u := ObserveAll(UNSEEN, id, ss, e);
            && u.underlying == Some(Open) && u.signals == {} && u.finding.Some? && u.finding.value.state == Open
            && u.finding.value.firstSeenAt == u.finding.value.lastSeenAt == e.occurredAt && u.finding.value.lastHeadSha == e.headSha
            && u.finding.value.history == [Change(Open, e.occurredAt, e.headSha, None, None)]
    decreases |ss|
  {
    if ss[0].id == id {
      var t := Observe(UNSEEN, ss[0], e);
      assert TrackInv(t);
      assert SeenAgain(t, t, e);
      ObservedAgain(t, t, id, ss[1..], e);
      hide ObserveAll;
    } else {
      var s :| s in ss && s.id == id;
      assert s in ss[1..];
      FirstObserved(id, ss[1..], e);
    }
  }

  /** The only report of a finding in a review. */
  ghost predicate OnlyReport(ss: seq<Snapshot>, i: nat) {
    i < |ss| && forall k | 0 <= k < |ss| && k != i :: ss[k].id != ss[i].id
  }

  lemma {:induction false} OnceObserved(t: Track, ss: seq<Snapshot>, i: nat, e: Event)
    requires Buffers(t) && OnlyReport(ss, i)
    ensures ObserveAll(t, ss[i].id, ss, e) == Observe(t, ss[i], e)
    decreases |ss|
  {
    hide Observe;
    if i == 0 {
      NobodyObserved(Observe(t, ss[0], e), ss[0].id, ss[1..], e);
    } else {
      assert OnlyReport(ss[1..], i - 1);
      OnceObserved(t, ss[1..], i - 1, e);
    }
  }

  /** A report overwrites what it states; a key or a superseded key that it leaves out stays. */
  lemma ReportOverwrites(es: seq<Event>, e: Event, live: string, i: nat)
    requires Counts(es, e, live) && OnlyReport(e.fact.findings, i)
    ensures var s := e.fact.findings[i];
            var t, u := TrackAfter(es, s.id, live), TrackAfter(es + [e], s.id, live);
            && (t == UNSEEN ==> u.finding.Some? && u.finding.value.snapshot == s)
            && (t.finding.Some? ==>
                  var old_ := t.finding.value.snapshot;
                  && u.finding.Some?
                  && u.finding.value.snapshot == Snapshot(s.id, if s.key.Some? then s.key else old_.key,
                                                          if s.supersedes.Some? then s.supersedes else old_.supersedes, s.title))
  {
    var s := e.fact.findings[i];
    var t := TrackAfter(es, s.id, live);
    Last(es, e, s.id, live);
    assert Reported(s.id, e.fact.findings);
    OnceObserved(t, e.fact.findings, i, e);
    hide TrackAfter, HeadsAfter, ObserveAll, Sweep, Transition;
  }

  /** When the pull request moves to another head, open findings become stale, and no others change. */
  lemma HeadMoveDecides(es: seq<Event>, e: Event, id: Id, live: string)
    requires e.fact.HeadChanged?
    ensures var t, u := TrackAfter(es, id, live), TrackAfter(es + [e], id, live);
            if t.finding.Some? && t.underlying == Some(Open)
            then LeftIn(t, u, Stale) && Records(t, u, e, Some("Pull request head changed before the finding was reviewed again"))
            else u == t
  {
    var t := TrackAfter(es, id, live);
    AlwaysInv(es, id, live);
    Last(es, e, id, live);
    if t.finding.Some? && t.underlying == Some(Open) {
      UnderlyingLeaves(t, Stale, e, Some(HEAD_MOVED));
    }
    hide TrackAfter, HeadsAfter, ApplyUnderlying, LeftIn, Records, TrackInv;
  }

  /** A review of an old head makes the findings it reports known as stale if they were not known, and changes no others. */
  lemma OldReviewDecides(es: seq<Event>, e: Event, id: Id, live: string)
    requires IsOld(es, e, live)
    ensures var t, u := TrackAfter(es, id, live), TrackAfter(es + [e], id, live);
            if t.finding.None? && Reports(e, id) then
              var because := Some("Finding belongs to a superseded pull request head");
              && u.underlying == Some(Stale) && u.signals == t.signals && u.feedback == t.feedback && u.states == t.states
              && u.finding.Some? && u.finding.value.state == Stale && u.finding.value.feedbackReason == because
              && u.finding.value.firstSeenAt == u.finding.value.lastSeenAt == e.occurredAt && u.finding.value.lastHeadSha == e.headSha
              && u.finding.value.history == [Change(Stale, e.occurredAt, e.headSha, because, None)]
              && u.finding.value.snapshot in e.fact.findings && u.finding.value.snapshot.id == id
            else u == t
  {
    Last(es, e, id, live);
    hide TrackAfter, HeadsAfter;
  }

  /** What does not count, and what is about another finding, changes nothing. */
  lemma OthersChangeNothing(es: seq<Event>, e: Event, id: Id, live: string)
    requires || (e.fact.Completed? && !e.fact.authoritative) || e.fact.Other?
             || ((e.fact.Feedback? || e.fact.StateChanged?) && e.fact.id != id)
    ensures TrackAfter(es + [e], id, live) == TrackAfter(es, id, live)
  {
    Last(es, e, id, live);
    hide TrackAfter, HeadsAfter;
  }

  /**
   * Feedback without signal on a known finding: a dismissal, a resolution and a reopening decide what is beneath, other
   * feedback does not; a reason that is given is kept.
   */
  lemma FeedbackDecides(es: seq<Event>, e: Event, id: Id, live: string)
    requires e.fact.Feedback? && e.fact.id == id && e.fact.signal.None? && TrackAfter(es, id, live).finding.Some?
    ensures var t, u := TrackAfter(es, id, live), TrackAfter(es + [e], id, live);
            && (e.fact.kind == Dismiss ==> LeftIn(t, u, Dismissed))
            && (e.fact.kind == Resolve ==> LeftIn(t, u, Fixed))
            && (e.fact.kind == Reopen ==> LeftIn(t, u, Open))
            && (e.fact.kind != Dismiss && e.fact.kind != Resolve && e.fact.kind != Reopen ==>
                  && u.underlying == t.underlying && u.signals == t.signals
                  && u.finding.value.state == t.finding.value.state && u.finding.value.history == t.finding.value.history)
            && (Truthy(e.fact.reason) ==> u.finding.value.feedbackReason == e.fact.reason)
            && (!Truthy(e.fact.reason) ==> u.finding.value.feedbackReason == t.finding.value.feedbackReason)
  {
    var t := TrackAfter(es, id, live);
    AlwaysInv(es, id, live);
    FeedbackKeepsInv(t, e);
    Last(es, e, id, live);
    hide TrackAfter, HeadsAfter, Buffers;
  }

  /** A signal is added or removed; the finding is dismissed while there is one, and shows what is beneath after the last. */
  lemma SignalDecides(es: seq<Event>, e: Event, id: Id, live: string)
    requires e.fact.Feedback? && e.fact.id == id && e.fact.signal.Some? && TrackAfter(es, id, live).finding.Some?
    ensures var t, u := TrackAfter(es, id, live), TrackAfter(es + [e], id, live);
            var signal := e.fact.signal.value;
            && u.signals == (if signal.active then t.signals + {signal.id} else t.signals - {signal.id})
            && u.underlying == t.underlying && t.underlying.Some? && u.finding.Some?
            && u.finding.value.state == if u.signals != {} then Dismissed else t.underlying.value
  {
    var t := TrackAfter(es, id, live);
    AlwaysInv(es, id, live);
    FeedbackKeepsInv(t, e);
    Last(es, e, id, live);
    hide TrackAfter, HeadsAfter, Buffers;
  }

  /** A state change decides what is beneath; one that came from a signal only shows what is there. */
  lemma StateChangeDecides(es: seq<Event>, e: Event, id: Id, live: string)
    requires e.fact.StateChanged? && e.fact.id == id && TrackAfter(es, id, live).finding.Some?
    ensures var t, u := TrackAfter(es, id, live), TrackAfter(es + [e], id, live);
            t.underlying.Some? && LeftIn(t, u, if e.fact.fromSignal then t.underlying.value else e.fact.state)
  {
    var t := TrackAfter(es, id, live);
    AlwaysInv(es, id, live);
    StateKeepsInv(t, e);
    Last(es, e, id, live);
    hide TrackAfter, HeadsAfter, Buffers;
  }

  /** Feedback and state changes about a finding that is not known wait. */
  lemma EarlyWaits(es: seq<Event>, e: Event, id: Id, live: string)
    requires (e.fact.Feedback? || e.fact.StateChanged?) && e.fact.id == id && TrackAfter(es, id, live).finding.None?
    ensures var t, u := TrackAfter(es, id, live), TrackAfter(es + [e], id, live);
            u == t.(feedback := if e.fact.Feedback? then t.feedback + [e] else t.feedback,
                    states := if e.fact.StateChanged? then t.states + [e] else t.states)
  {
    Last(es, e, id, live);
    hide TrackAfter, HeadsAfter;
  }

  /** At the end, findings that still show as open are stale if the live head is known and was not the last one reviewed. */
  lemma FinishDecides(es: seq<Event>, id: Id, live: string)
    ensures var t, u, reviewed := TrackAfter(es, id, live), Final(es, id, live), HeadsAfter(es, live).latestCompleted;
            if t.finding.Some? && t.finding.value.state == Open && live != "" && reviewed != "" && reviewed != live then
              && LeftIn(t, u, Stale)
              && u.finding.value.history == t.finding.value.history + [Change(Stale, t.finding.value.lastSeenAt, live,
                   Some("Derived from the live pull request head because no timestamped head-change event was recorded"), None)]
            else u == t
  {
    AlwaysInv(es, id, live);
    hide TrackAfter, HeadsAfter, Buffers;
  }
}
