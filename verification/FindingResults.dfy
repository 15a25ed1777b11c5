// What the projection returns: every finding that is known, once, last seen first.
module FindingResults {
  import opened Wrappers
  import opened FindingTrack
  import opened FindingLayers
  import opened FindingProjection
  import FindingEffects

  // ----- the order in which events are read

  function Sequence(e: Event): nat {
    if e.sequence.Some? then e.sequence.value else 0
  }

  /** No later, and if sequences count, at one time with no larger sequence. */
  predicate NotAfter(sequenced: bool, e: Event, f: Event) {
    e.occurredAt < f.occurredAt || (e.occurredAt == f.occurredAt && (sequenced ==> Sequence(e) <= Sequence(f)))
  }

  ghost predicate Chronological(sequenced: bool, es: seq<Event>) {
    forall i, j | 0 <= i < j < |es| :: NotAfter(sequenced, es[i], es[j])
  }

  lemma {:induction false} InsertedHolds(e: Event, es: seq<Event>)
    ensures multiset(InsertEvent(e, es)) == multiset(es) + multiset{e}
    ensures forall x :: x in InsertEvent(e, es) <==> x == e || x in es
  {
    hide Precedes;
    if es != [] && Precedes(es[0], e) {
      InsertedHolds(e, es[1..]);
      assert es == [es[0]] + es[1..];
    }
  }

  lemma InFront(sequenced: bool, first: Event, rest: seq<Event>)
    requires Chronological(sequenced, rest) && forall x | x in rest :: NotAfter(sequenced, first, x)
    ensures Chronological(sequenced, [first] + rest)
  {
    hide NotAfter;
    forall j | 0 <= j < |rest|
      ensures NotAfter(sequenced, first, rest[j])
    {
      assert rest[j] in rest;
    }
  }

  lemma Behind(sequenced: bool, es: seq<Event>)
    requires Chronological(sequenced, es) && es != []
    ensures Chronological(sequenced, es[1..]) && forall x | x in es :: x == es[0] || NotAfter(sequenced, es[0], x)
  {
    hide NotAfter;
  }

  lemma {:induction false} InsertedInPlace(sequenced: bool, e: Event, es: seq<Event>)
    requires Chronological(sequenced, es) && (sequenced ==> e.sequence.Some? && forall x | x in es :: x.sequence.Some?)
    ensures Chronological(sequenced, InsertEvent(e, es))
  {
    hide Chronological;
    if es == [] {
      InFront(sequenced, e, []) by { Nothing(sequenced); }
    } else {
      Behind(sequenced, es);
      if Precedes(es[0], e) {
        InsertedInPlace(sequenced, e, es[1..]);
        InsertedHolds(e, es[1..]);
        InFront(sequenced, es[0], InsertEvent(e, es[1..]));
      } else {
        InFront(sequenced, e, es);
      }
    }
  }

  lemma Nothing(sequenced: bool)
    ensures Chronological(sequenced, [])
  {
  }

  /** Events are read in the order of their times, at one time in that of their sequences if all have one; none is lost. */
  lemma {:induction false} ReadInOrder(es: seq<Event>, sequenced: bool)
    requires sequenced ==> forall e | e in es :: e.sequence.Some?
    ensures Chronological(sequenced, SortEvents(es)) && multiset(SortEvents(es)) == multiset(es)
    ensures forall e :: e in SortEvents(es) <==> e in es
  {
    hide Chronological, InsertEvent;
    if es != [] {
      ReadInOrder(es[1..], sequenced);
      InsertedInPlace(sequenced, es[0], SortEvents(es[1..]));
      InsertedHolds(es[0], SortEvents(es[1..]));
      assert es == [es[0]] + es[1..];
    } else {
      Nothing(sequenced);
    }
  }

  // ----- which findings there are

  ghost predicate Distinct(ids: seq<Id>) {
    forall i, j | 0 <= i < j < |ids| :: ids[i] != ids[j]
  }

  lemma {:induction false} AddedIds(order: seq<Id>, ss: seq<Snapshot>, id: Id)
    requires Distinct(order)
    ensures Distinct(AddIds(order, ss))
    ensures id in AddIds(order, ss) <==> id in order || exists s :: s in ss && s.id == id
    decreases |ss|
  {
    if ss != [] {
      assert ss == [ss[0]] + ss[1..];
      AddedIds(if ss[0].id in order then order else order + [ss[0].id], ss[1..], id);
    }
  }

  lemma {:induction false} ObserveAllKnows(t: Track, id: Id, ss: seq<Snapshot>, e: Event)
    requires Buffers(t)
    ensures ObserveAll(t, id, ss, e).finding.Some? <==> t.finding.Some? || exists s :: s in ss && s.id == id
    decreases |ss|
  {
    hide Observe;
    if ss != [] {
      assert ss == [ss[0]] + ss[1..];
      ObserveAllKnows(if ss[0].id == id then Observe(t, ss[0], e) else t, id, ss[1..], e);
    }
  }

  lemma StepKnows(t: Track, id: Id, e: Event, h: Heads)
    requires Buffers(t)
    ensures Step(t, id, e, h).finding.Some?
            <==> t.finding.Some? || (e.fact.Completed? && e.fact.authoritative && exists s :: s in e.fact.findings && s.id == id)
  {
    hide ObserveAll, ApplyFeedback, ApplyState, Transition;
    if e.fact.Completed? && e.fact.authoritative && !OldHead(h, e) {
      var swept := if t.finding.Some? && !Reported(id, e.fact.findings) then Sweep(t, e) else t;
      ObserveAllKnows(swept, id, e.fact.findings, e);
    }
  }

  /** A finding is known once an authoritative review reports it, and listed once. */
  lemma {:induction false} OrderIsKnown(es: seq<Event>, id: Id, live: string)
    ensures Distinct(OrderAfter(es))
    ensures id in OrderAfter(es) <==> TrackAfter(es, id, live).finding.Some?
  {
    if es != [] {
      var n := |es| - 1;
      var t, e := TrackAfter(es[..n], id, live), es[n];
      OrderIsKnown(es[..n], id, live);
      StepKnows(t, id, e, HeadsAfter(es, live));
      hide Step, Distinct;
      if e.fact.Completed? {
        AddedIds(OrderAfter(es[..n]), e.fact.findings, id);
      }
    }
  }

  // ----- the order of the results

  ghost predicate ListedBefore(ids: seq<Id>, x: Id, y: Id) {
    exists a, b | 0 <= a < b < |ids| :: ids[a] == x && ids[b] == y
  }

  /** Seen later, or at the same time and known longer. */
  ghost predicate Ahead(ids: seq<Id>, f: Finding, g: Finding) {
    f.lastSeenAt > g.lastSeenAt || (f.lastSeenAt == g.lastSeenAt && ListedBefore(ids, f.snapshot.id, g.snapshot.id))
  }

  ghost predicate InOrder(ids: seq<Id>, fs: seq<Finding>) {
    forall a, b | 0 <= a < b < |fs| :: Ahead(ids, fs[a], fs[b])
  }

  lemma {:induction false} InsertIn(f: Finding, fs: seq<Finding>)
    ensures forall g :: g in InsertFinding(f, fs) <==> g == f || g in fs
  {
    if fs != [] && fs[0].lastSeenAt > f.lastSeenAt {
      InsertIn(f, fs[1..]);
      assert fs == [fs[0]] + fs[1..];
    }
  }

  lemma {:induction false} InsertInOrder(ids: seq<Id>, f: Finding, fs: seq<Finding>)
    requires InOrder(ids, fs) && forall g | g in fs :: ListedBefore(ids, f.snapshot.id, g.snapshot.id)
    ensures InOrder(ids, InsertFinding(f, fs))
  {
    hide ListedBefore;
    if fs != [] {
      if fs[0].lastSeenAt > f.lastSeenAt {
        InsertInOrder(ids, f, fs[1..]);
        InsertIn(f, fs[1..]);
        var rest := InsertFinding(f, fs[1..]);
        forall b | 0 < b < |[fs[0]] + rest|
          ensures Ahead(ids, fs[0], ([fs[0]] + rest)[b])
        {
          assert rest[b - 1] in rest;
        }
      } else {
        forall b | 0 <= b < |fs|
          ensures Ahead(ids, f, fs[b])
        {
          assert fs[b] in fs && (b == 0 || Ahead(ids, fs[0], fs[b]));
        }
      }
    }
  }

  lemma LongerList(ids: seq<Id>, fs: seq<Finding>)
    requires ids != [] && InOrder(ids[1..], fs)
    ensures InOrder(ids, fs)
  {
    forall x, y | ListedBefore(ids[1..], x, y)
      ensures ListedBefore(ids, x, y)
    {
      var a, b :| 0 <= a < b < |ids[1..]| && ids[1..][a] == x && ids[1..][b] == y;
      assert ids[a + 1] == x && ids[b + 1] == y;
    }
    hide ListedBefore;
  }

  /** The finding of an id at the end, if it is known. */
  function Outcome(es: seq<Event>, id: Id, live: string): Option<Finding> {
    Final(es, id, live).finding
  }

  lemma OutcomeAbout(es: seq<Event>, id: Id, live: string)
    ensures Outcome(es, id, live).Some? ==> Outcome(es, id, live).value.snapshot.id == id
    ensures Outcome(es, id, live).Some? <==> TrackAfter(es, id, live).finding.Some?
  {
    FindingEffects.AlwaysAbout(es, id, live);
    hide TrackAfter, HeadsAfter;
  }

  /** A finding of one of the ids. */
  ghost predicate OneOf(ids: seq<Id>, es: seq<Event>, live: string, f: Finding) {
    exists id :: id in ids && Outcome(es, id, live) == Some(f)
  }

  lemma OneOfCons(ids: seq<Id>, es: seq<Event>, live: string, f: Finding)
    requires ids != []
    ensures OneOf(ids, es, live, f) <==> Outcome(es, ids[0], live) == Some(f) || OneOf(ids[1..], es, live, f)
  {
    hide Outcome;
    assert ids == [ids[0]] + ids[1..];
  }

  lemma FoundStep(order: seq<Id>, es: seq<Event>, live: string)
    requires order != []
    ensures var rest := Found(order[1..], es, live);
            Found(order, es, live) == match Outcome(es, order[0], live) case None => rest case Some(f) => [f] + rest
  {
    hide Final;
  }

  lemma SortStep(f: Finding, fs: seq<Finding>)
    ensures SortFindings([f] + fs) == InsertFinding(f, SortFindings(fs))
  {
    hide InsertFinding;
    assert ([f] + fs)[1..] == fs;
  }

  lemma {:induction false} FoundSorted(order: seq<Id>, es: seq<Event>, live: string)
    ensures InOrder(order, SortFindings(Found(order, es, live)))
    ensures forall f :: f in SortFindings(Found(order, es, live)) <==> OneOf(order, es, live, f)
  {
    hide Outcome, InOrder, InsertFinding, OneOf;
    if order != [] {
      hide Found, SortFindings;
      var rest := Found(order[1..], es, live);
      FoundStep(order, es, live);
      FoundSorted(order[1..], es, live);
      forall f
        ensures OneOf(order, es, live, f) <==> Outcome(es, order[0], live) == Some(f) || f in SortFindings(rest)
      {
        OneOfCons(order, es, live, f);
      }
      match Outcome(es, order[0], live) {
        case None => LongerList(order, SortFindings(rest));
        case Some(f) =>
          SortStep(f, rest);
          LongerList(order, SortFindings(rest));
          InsertIn(f, SortFindings(rest));
          FirstInserted(order, es, live, f, SortFindings(rest));
      }
    } else {
      NothingFound(es, live);
    }
  }

  lemma NothingFound(es: seq<Event>, live: string)
    ensures SortFindings(Found([], es, live)) == [] && InOrder([], []) && forall f :: !OneOf([], es, live, f)
  {
  }

  lemma FirstInserted(order: seq<Id>, es: seq<Event>, live: string, f: Finding, fs: seq<Finding>)
    requires order != [] && Outcome(es, order[0], live) == Some(f) && InOrder(order, fs)
    requires forall g | g in fs :: OneOf(order[1..], es, live, g)
    ensures InOrder(order, InsertFinding(f, fs))
  {
    hide InOrder, Outcome;
    OutcomeAbout(es, order[0], live);
    forall g | g in fs
      ensures ListedBefore(order, f.snapshot.id, g.snapshot.id)
    {
      var id :| id in order[1..] && Outcome(es, id, live) == Some(g);
      OutcomeAbout(es, id, live);
      var b :| 0 <= b < |order[1..]| && order[1..][b] == id;
      assert order[0] == f.snapshot.id && order[b + 1] == g.snapshot.id;
    }
    InsertInOrder(order, f, fs);
  }

  /**
   * The result has exactly the findings that an authoritative review reported, as the events in their order leave them;
   * each once, last seen first, and of those seen last at one time the one known longest.
   */
  lemma ResultsAre(events: seq<Event>, live: string)
    ensures var es, results := SortEvents(events), Projected(events, live);
            && (forall f :: f in results <==> IsOutcome(es, live, f))
            && InOrder(OrderAfter(es), results)
            && forall a, b | 0 <= a < b < |results| :: results[a].snapshot.id != results[b].snapshot.id
  {
    var es, results := SortEvents(events), Projected(events, live);
    FoundSorted(OrderAfter(es), es, live);
    forall f
      ensures OneOf(OrderAfter(es), es, live, f) <==> IsOutcome(es, live, f)
    {
      OneOfAll(es, live, f);
    }
    hide SortEvents, Outcome, OrderAfter, SortFindings, Found, OneOf, IsOutcome, Ahead;
    forall a, b | 0 <= a < b < |results|
      ensures results[a].snapshot.id != results[b].snapshot.id
    {
      assert results[a] in results && results[b] in results;
      NotTwice(es, live, results[a], results[b]);
    }
  }

  ghost predicate IsOutcome(es: seq<Event>, live: string, f: Finding) {
    exists id :: Outcome(es, id, live) == Some(f)
  }

  lemma OneOfAll(es: seq<Event>, live: string, f: Finding)
    ensures OneOf(OrderAfter(es), es, live, f) <==> IsOutcome(es, live, f)
  {
    hide Outcome, OrderAfter;
    if IsOutcome(es, live, f) {
      var id :| Outcome(es, id, live) == Some(f);
      OrderIsKnown(es, id, live);
      OutcomeAbout(es, id, live);
    }
  }

  /** Two results of one id would be the same finding, and no finding is ahead of itself. */
  lemma NotTwice(es: seq<Event>, live: string, f: Finding, g: Finding)
    requires Ahead(OrderAfter(es), f, g) && IsOutcome(es, live, f) && IsOutcome(es, live, g)
    ensures f.snapshot.id != g.snapshot.id
  {
    hide Outcome, OrderAfter;
    var x :| Outcome(es, x, live) == Some(f);
    var y :| Outcome(es, y, live) == Some(g);
    OutcomeAbout(es, x, live);
    OutcomeAbout(es, y, live);
    OrderIsKnown(es, x, live);
  }
}
