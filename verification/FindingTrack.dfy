// One finding's life under a stream of review events: the state beneath, and the dismissals laid over it.
module FindingTrack {
  import opened Wrappers

  type Id = string

  datatype FindingState = Open | Stale | Superseded | Fixed | Dismissed

  /** A finding as one review reports it. Keys are trimmed and in lower case. */
  datatype Snapshot = Snapshot(id: Id, key: Option<string>, supersedes: Option<string>, title: string)

  datatype Kind = Accept | Dismiss | Resolve | Reopen | React | Reply

  datatype Signal = Signal(id: string, active: bool)

  datatype Fact =
    | HeadChanged
    | Completed(authoritative: bool, findings: seq<Snapshot>)
    | Feedback(id: Id, kind: Kind, reason: Option<string>, actor: Option<string>, signal: Option<Signal>)
    | StateChanged(id: Id, state: FindingState, reason: Option<string>, fromSignal: bool)
    | Other

  datatype Event = Event(occurredAt: int, sequence: Option<nat>, headSha: string, fact: Fact)

  datatype Change = Change(state: FindingState, occurredAt: int, headSha: string, reason: Option<string>, actor: Option<string>)

  datatype Finding = Finding(
    snapshot: Snapshot, state: FindingState, firstSeenAt: int, lastSeenAt: int, lastHeadSha: string,
    feedbackReason: Option<string>, history: seq<Change>)

  /** All that is kept of one finding id; its events wait in two buffers until the finding is known. */
  datatype Track = Track(
    finding: Option<Finding>, underlying: Option<FindingState>, signals: set<string>, feedback: seq<Event>, states: seq<Event>)

  const UNSEEN := Track(None, None, {}, [], [])

  /** The head of the last review that counted and the head known to be the pull request's; "" when there is none. */
  datatype Heads = Heads(latestCompleted: string, authoritative: string)

  const SIGNAL_REMOVED := "The last dismissing reaction was removed"
  const HEAD_MOVED := "Pull request head changed before the finding was reviewed again"
  const SUPERSEDED_HEAD := "Finding belongs to a superseded pull request head"
  const SEEN_AGAIN := "Finding observed again on a later commit"
  const LIVE_HEAD := "Derived from the live pull request head because no timestamped head-change event was recorded"

  predicate Truthy(text: Option<string>) {
    text.Some? && text.value != ""
  }

  function StateForKind(kind: Kind): Option<FindingState> {
    match kind
    case Dismiss => Some(Dismissed)
    case Resolve => Some(Fixed)
    case Reopen => Some(Open)
    case _ => None
  }

  /** Why and by whom. */
  datatype Details = Details(reason: Option<string>, actor: Option<string>)

  const NO_DETAILS := Details(None, None)

  function Transition(f: Finding, state: FindingState, occurredAt: int, headSha: string, d: Details): Finding {
    if f.state == state && !Truthy(d.reason) && !Truthy(d.actor) then f
    else if f.state == state && f.history != [] && f.history[|f.history| - 1].occurredAt == occurredAt
            && f.history[|f.history| - 1].reason == d.reason then f
    else
      f.(state := state, history := f.history + [Change(state, occurredAt, headSha, d.reason, d.actor)],
         feedbackReason := if Truthy(d.reason) then d.reason else f.feedbackReason)
  }

  function Move(t: Track, state: FindingState, e: Event, d: Details): (u: Track)
    requires t.finding.Some?
    ensures u.finding.Some?
  {
    t.(finding := Some(Transition(t.finding.value, state, e.occurredAt, e.headSha, d)))
  }

  function Underlying(t: Track): FindingState {
    if t.underlying.Some? then t.underlying.value else Open
  }

  function ApplyUnderlying(t: Track, state: FindingState, e: Event, d: Details): (u: Track)
    requires t.finding.Some?
    ensures u.finding.Some?
  {
    var w := t.(underlying := Some(state));
    if t.signals == {} then Move(w, state, e, d) else w
  }

  function ApplyFeedback(t: Track, e: Event): (u: Track)
    requires t.finding.Some? && e.fact.Feedback?
    ensures u.finding.Some?
  {
    var d := Details(e.fact.reason, e.fact.actor);
    match e.fact.signal
    case Some(signal) =>
      var signals := if signal.active then t.signals + {signal.id} else t.signals - {signal.id};
      var w := t.(signals := signals);
      if signals != {} then Move(w, Dismissed, e, d) else Move(w, Underlying(t), e, Details(Some(SIGNAL_REMOVED), e.fact.actor))
    case None =>
      var state := StateForKind(e.fact.kind);
      var w := if state.Some? then ApplyUnderlying(t, state.value, e, d) else t;
      if Truthy(e.fact.reason) then w.(finding := Some(w.finding.value.(feedbackReason := e.fact.reason))) else w
  }

  function ApplyState(t: Track, e: Event): (u: Track)
    requires t.finding.Some? && e.fact.StateChanged?
    ensures u.finding.Some?
  {
    var d := Details(e.fact.reason, None);
    if e.fact.fromSignal then Move(t, if t.signals != {} then Dismissed else Underlying(t), e, d)
    else ApplyUnderlying(t, e.fact.state, e, d)
  }

  function ApplyFeedbacks(t: Track, es: seq<Event>): (u: Track)
    requires t.finding.Some? && forall e | e in es :: e.fact.Feedback?
    ensures u.finding.Some?
    decreases |es|
  {
    if es == [] then t else ApplyFeedbacks(ApplyFeedback(t, es[0]), es[1..])
  }

  function ApplyStates(t: Track, es: seq<Event>): (u: Track)
    requires t.finding.Some? && forall e | e in es :: e.fact.StateChanged?
    ensures u.finding.Some?
    decreases |es|
  {
    if es == [] then t else ApplyStates(ApplyState(t, es[0]), es[1..])
  }

  predicate Buffers(t: Track) {
    (forall e | e in t.feedback :: e.fact.Feedback?) && (forall e | e in t.states :: e.fact.StateChanged?)
  }

  /** A finding is superseded by another finding of the review that names its key. */
  predicate Replaced(f: Finding, current: seq<Snapshot>) {
    Truthy(f.snapshot.key) && exists c :: c in current && c.id != f.snapshot.id && c.supersedes == f.snapshot.key
  }

  /** A later report overwrites what it states. */
  function Merge(old_: Snapshot, new_: Snapshot): Snapshot {
    new_.(key := if new_.key.Some? then new_.key else old_.key,
          supersedes := if new_.supersedes.Some? then new_.supersedes else old_.supersedes)
  }

  /** A finding that a counted review no longer reports. */
  function Sweep(t: Track, e: Event): (u: Track)
    requires t.finding.Some? && e.fact.Completed?
    ensures u.finding.Some?
  {
    if t.underlying == Some(Dismissed) || t.underlying == Some(Superseded) then t
    else ApplyUnderlying(t, if Replaced(t.finding.value, e.fact.findings) then Superseded else Fixed, e, NO_DETAILS)
  }

  /** One report of the finding in a counted review. The buffered feedback is applied first, then the buffered states. */
  function Observe(t: Track, s: Snapshot, e: Event): (u: Track)
    requires Buffers(t)
    ensures u.finding.Some? && Buffers(u)
  {
    match t.finding
    case None =>
      var created := Finding(s, Open, e.occurredAt, e.occurredAt, e.headSha, None, [Change(Open, e.occurredAt, e.headSha, None, None)]);
      var u := t.(finding := Some(created), underlying := Some(Open));
      ApplyStates(ApplyFeedbacks(u, t.feedback), t.states).(feedback := [], states := [])
    case Some(f) =>
      var u := t.(finding := Some(f.(snapshot := Merge(f.snapshot, s), lastSeenAt := e.occurredAt, lastHeadSha := e.headSha)));
      if t.underlying != Some(Open) && t.underlying != Some(Dismissed) then ApplyUnderlying(u, Open, e, Details(Some(SEEN_AGAIN), None)) else u
  }

  function ObserveAll(t: Track, id: Id, ss: seq<Snapshot>, e: Event): (u: Track)
    requires Buffers(t)
    ensures Buffers(u) && (t.finding.Some? ==> u.finding.Some?)
    decreases |ss|
  {
    if ss == [] then t else ObserveAll(if ss[0].id == id then Observe(t, ss[0], e) else t, id, ss[1..], e)
  }

  predicate Reported(id: Id, ss: seq<Snapshot>) {
    exists s :: s in ss && s.id == id
  }

  function FirstReport(id: Id, ss: seq<Snapshot>): (s: Snapshot)
    requires Reported(id, ss)
    ensures s in ss && s.id == id
  {
    if ss[0].id == id then ss[0] else FirstReport(id, ss[1..])
  }

  /** A review of a head that is no longer the pull request's. */
  predicate OldHead(h: Heads, e: Event) {
    h.authoritative != "" && e.headSha != h.authoritative
  }

  function NextHeads(h: Heads, e: Event, live: string): Heads {
    match e.fact
    case HeadChanged => h.(authoritative := e.headSha)
    case Completed(authoritative, _) =>
      if !authoritative then h
      else
        var g := if live != "" && e.headSha == live then h.(authoritative := live) else h;
        if OldHead(g, e) then g else g.(latestCompleted := e.headSha)
    case _ => h
  }

  function CreateStale(t: Track, s: Snapshot, e: Event): Track {
    t.(finding := Some(Finding(s, Stale, e.occurredAt, e.occurredAt, e.headSha, Some(SUPERSEDED_HEAD),
                               [Change(Stale, e.occurredAt, e.headSha, Some(SUPERSEDED_HEAD), None)])),
       underlying := Some(Stale))
  }

  /** What one event does to one finding; h are the heads after it. */
  function Step(t: Track, id: Id, e: Event, h: Heads): (u: Track)
    requires Buffers(t)
    ensures Buffers(u) && (t.finding.Some? ==> u.finding.Some?)
  {
    match e.fact
    case HeadChanged =>
      if t.finding.Some? && t.underlying == Some(Open) then ApplyUnderlying(t, Stale, e, Details(Some(HEAD_MOVED), None)) else t
    case Completed(authoritative, findings) =>
      if !authoritative then t
      else if OldHead(h, e) then
        if t.finding.None? && Reported(id, findings) then CreateStale(t, FirstReport(id, findings), e) else t
      else
        var swept := if t.finding.Some? && !Reported(id, findings) then Sweep(t, e) else t;
        ObserveAll(swept, id, findings, e)
    case Feedback(about, _, _, _, _) =>
      if about != id then t
      else if t.finding.None? then t.(feedback := t.feedback + [e])
      else ApplyFeedback(t, e)
    case StateChanged(about, _, _, _) =>
      if about != id then t
      else if t.finding.None? then t.(states := t.states + [e])
      else ApplyState(t, e)
    case Other => t
  }

  /** The heads and one finding's track after events. */
  function HeadsAfter(es: seq<Event>, live: string): Heads {
    if es == [] then Heads("", "") else NextHeads(HeadsAfter(es[..|es| - 1], live), es[|es| - 1], live)
  }

  function TrackAfter(es: seq<Event>, id: Id, live: string): (t: Track)
    ensures Buffers(t)
  {
    if es == [] then UNSEEN else Step(TrackAfter(es[..|es| - 1], id, live), id, es[|es| - 1], HeadsAfter(es, live))
  }

  /** Without a head-change event, the live head makes open findings stale. */
  function Finish(t: Track, h: Heads, live: string): Track {
    if live != "" && h.latestCompleted != "" && live != h.latestCompleted && t.finding.Some? && t.finding.value.state == Open
    then ApplyUnderlying(t, Stale, Event(t.finding.value.lastSeenAt, None, live, Other), Details(Some(LIVE_HEAD), None))
    else t
  }

  function Final(es: seq<Event>, id: Id, live: string): Track {
    Finish(TrackAfter(es, id, live), HeadsAfter(es, live), live)
  }

  // ----- the two layers

  function LastState(history: seq<Change>): Option<FindingState> {
    if history == [] then None else Some(history[|history| - 1].state)
  }

  /** A finding is dismissed while a signal dismisses it, and otherwise in its underlying state; its history ends there. */
  ghost predicate TrackInv(t: Track) {
    && Buffers(t)
    && match t.finding
       case None => t.underlying.None? && t.signals == {}
       case Some(f) =>
         && t.underlying.Some? && LastState(f.history) == Some(f.state)
         && f.state == if t.signals != {} then Dismissed else t.underlying.value
  }

  lemma FeedbackKeepsInv(t: Track, e: Event)
    requires TrackInv(t) && t.finding.Some? && e.fact.Feedback?
    ensures TrackInv(ApplyFeedback(t, e))
  {
  }

  lemma StateKeepsInv(t: Track, e: Event)
    requires TrackInv(t) && t.finding.Some? && e.fact.StateChanged?
    ensures TrackInv(ApplyState(t, e))
  {
  }

  lemma UnderlyingKeepsInv(t: Track, state: FindingState, e: Event, d: Details)
    requires TrackInv(t) && t.finding.Some?
    ensures TrackInv(ApplyUnderlying(t, state, e, d))
  {
  }

  lemma {:induction false} FeedbacksKeepInv(t: Track, es: seq<Event>)
    requires TrackInv(t) && t.finding.Some? && forall e | e in es :: e.fact.Feedback?
    ensures TrackInv(ApplyFeedbacks(t, es))
    decreases |es|
  {
    hide TrackInv, ApplyFeedback;
    if es != [] {
      FeedbackKeepsInv(t, es[0]);
      FeedbacksKeepInv(ApplyFeedback(t, es[0]), es[1..]);
    }
  }

  lemma {:induction false} StatesKeepInv(t: Track, es: seq<Event>)
    requires TrackInv(t) && t.finding.Some? && forall e | e in es :: e.fact.StateChanged?
    ensures TrackInv(ApplyStates(t, es))
    decreases |es|
  {
    hide TrackInv, ApplyState;
    if es != [] {
      StateKeepsInv(t, es[0]);
      StatesKeepInv(ApplyState(t, es[0]), es[1..]);
    }
  }

  lemma ObserveKeepsInv(t: Track, s: Snapshot, e: Event)
    requires TrackInv(t)
    ensures TrackInv(Observe(t, s, e))
  {
    match t.finding
    case None =>
      var created := Finding(s, Open, e.occurredAt, e.occurredAt, e.headSha, None, [Change(Open, e.occurredAt, e.headSha, None, None)]);
      var u := t.(finding := Some(created), underlying := Some(Open));
      FeedbacksKeepInv(u, t.feedback);
      StatesKeepInv(ApplyFeedbacks(u, t.feedback), t.states);
    case Some(f) =>
      var u := t.(finding := Some(f.(snapshot := Merge(f.snapshot, s), lastSeenAt := e.occurredAt, lastHeadSha := e.headSha)));
      UnderlyingKeepsInv(u, Open, e, Details(Some(SEEN_AGAIN), None));
  }

  lemma {:induction false} ObserveAllKeepsInv(t: Track, id: Id, ss: seq<Snapshot>, e: Event)
    requires TrackInv(t) && Buffers(t)
    ensures TrackInv(ObserveAll(t, id, ss, e))
    decreases |ss|
  {
    hide TrackInv, Observe;
    if ss != [] {
      if ss[0].id == id {
        ObserveKeepsInv(t, ss[0], e);
      }
      ObserveAllKeepsInv(if ss[0].id == id then Observe(t, ss[0], e) else t, id, ss[1..], e);
    }
  }

  lemma StepKeepsInv(t: Track, id: Id, e: Event, h: Heads)
    requires TrackInv(t)
    ensures TrackInv(Step(t, id, e, h))
  {
    hide ApplyUnderlying, ApplyFeedback, ApplyState, ObserveAll, Replaced, Reported;
    match e.fact
    case HeadChanged =>
      if t.finding.Some? { UnderlyingKeepsInv(t, Stale, e, Details(Some(HEAD_MOVED), None)); }
    case Completed(authoritative, findings) =>
      var swept := if t.finding.Some? && !Reported(id, findings) then Sweep(t, e) else t;
      if t.finding.Some? {
        UnderlyingKeepsInv(t, if Replaced(t.finding.value, findings) then Superseded else Fixed, e, NO_DETAILS);
      }
      ObserveAllKeepsInv(swept, id, findings, e);
    case Feedback(_, _, _, _, _) =>
      if t.finding.Some? { FeedbackKeepsInv(t, e); }
    case StateChanged(_, _, _, _) =>
      if t.finding.Some? { StateKeepsInv(t, e); }
    case Other =>
  }

  /** After any events, and after the last pass over the live head. */
  lemma {:induction false} AlwaysInv(es: seq<Event>, id: Id, live: string)
    ensures TrackInv(TrackAfter(es, id, live)) && TrackInv(Final(es, id, live))
  {
    hide Step;
    if es != [] {
      AlwaysInv(es[..|es| - 1], id, live);
      StepKeepsInv(TrackAfter(es[..|es| - 1], id, live), id, es[|es| - 1], HeadsAfter(es, live));
    }
    var t := TrackAfter(es, id, live);
    hide TrackAfter, HeadsAfter, ApplyUnderlying;
    if t.finding.Some? {
      UnderlyingKeepsInv(t, Stale, Event(t.finding.value.lastSeenAt, None, live, Other), Details(Some(LIVE_HEAD), None));
    }
  }
}
