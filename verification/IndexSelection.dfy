// Which files an update selects, and what it stores of each.
module IndexSelection {
  import opened Wrappers
  import opened RepositoryIndex

  /** Whether a listed file comes into question. */
  ghost predicate Candidate(d: Descriptor, source: Source, b: Budgets) {
    source.isSource(d.path) && d.size <= b.maxFileBytes
  }

  function CandidatesBefore(ds: seq<Descriptor>, i: nat, source: Source, b: Budgets): (n: nat)
    requires i <= |ds|
  {
    if i == 0 then 0
    else CandidatesBefore(ds, i - 1, source, b) + if source.isSource(ds[i - 1].path) && ds[i - 1].size <= b.maxFileBytes then 1 else 0
  }

  /** Bytes of the files at places that are chosen, up to a place. */
  function BytesBefore(ds: seq<Descriptor>, chosen: seq<bool>, i: nat): nat
    requires i <= |ds| == |chosen|
  {
    if i == 0 then 0 else BytesBefore(ds, chosen, i - 1) + if chosen[i - 1] then ds[i - 1].size else 0
  }

  /** The files at the chosen places, in order. */
  function Pick(ds: seq<Descriptor>, chosen: seq<bool>): seq<Descriptor>
    requires |ds| == |chosen|
  {
    if ds == [] then [] else (if chosen[0] then [ds[0]] else []) + Pick(ds[1..], chosen[1..])
  }

  /**
   * A choice that takes, place by place, every candidate among the first maxFiles candidates that still fits what the chosen
   * ones before it leave of the byte budget.
   */
  ghost predicate Greedy(ds: seq<Descriptor>, chosen: seq<bool>, source: Source, b: Budgets) {
    && |chosen| == |ds|
    && forall i | 0 <= i < |ds| ::
         chosen[i] <==>
           && Candidate(ds[i], source, b) && CandidatesBefore(ds, i, source, b) < b.maxFiles
           && BytesBefore(ds, chosen, i) + ds[i].size <= b.maxSourceBytes
  }

  /** The same with what is left of both budgets. */
  function Choose(ds: seq<Descriptor>, source: Source, b: Budgets, files: nat, bytes: int): (chosen: seq<bool>)
    ensures |chosen| == |ds|
  {
    if ds == [] then []
    else if !(source.isSource(ds[0].path) && ds[0].size <= b.maxFileBytes) then [false] + Choose(ds[1..], source, b, files, bytes)
    else if files == 0 then [false] + Choose(ds[1..], source, b, 0, bytes)
    else if ds[0].size <= bytes then [true] + Choose(ds[1..], source, b, files - 1, bytes - ds[0].size)
    else [false] + Choose(ds[1..], source, b, files - 1, bytes)
  }

  lemma {:induction false} NoneChosen(ds: seq<Descriptor>, source: Source, b: Budgets, bytes: int)
    ensures Pick(ds, Choose(ds, source, b, 0, bytes)) == []
  {
    if ds != [] {
      NoneChosen(ds[1..], source, b, bytes);
    }
  }

  lemma {:induction false} PickIsFit(ds: seq<Descriptor>, source: Source, b: Budgets, files: nat, bytes: int)
    ensures var eligible := Eligible(ds, source, b);
            Fit(eligible[..Min(|eligible|, files)], bytes) == Pick(ds, Choose(ds, source, b, files, bytes))
  {
    if ds != [] {
      var rest := Eligible(ds[1..], source, b);
      var eligible := Eligible(ds, source, b);
      if !(source.isSource(ds[0].path) && ds[0].size <= b.maxFileBytes) {
        assert eligible == rest;
        PickIsFit(ds[1..], source, b, files, bytes);
      } else if files == 0 {
        NoneChosen(ds, source, b, bytes);
      } else {
        assert eligible == [ds[0]] + rest;
        var front := eligible[..Min(|eligible|, files)];
        assert front[0] == ds[0] && front[1..] == rest[..Min(|rest|, files - 1)];
        PickIsFit(ds[1..], source, b, files - 1, if ds[0].size <= bytes then bytes - ds[0].size else bytes);
      }
    }
  }

  lemma {:induction false} CandidatesShift(ds: seq<Descriptor>, i: nat, source: Source, b: Budgets)
    requires 0 < i <= |ds|
    ensures CandidatesBefore(ds, i, source, b) == CandidatesBefore(ds, 1, source, b) + CandidatesBefore(ds[1..], i - 1, source, b)
  {
    if 1 < i {
      CandidatesShift(ds, i - 1, source, b);
    }
  }

  lemma {:induction false} BytesShift(ds: seq<Descriptor>, chosen: seq<bool>, i: nat)
    requires 0 < i <= |ds| == |chosen|
    ensures BytesBefore(ds, chosen, i) == BytesBefore(ds, chosen, 1) + BytesBefore(ds[1..], chosen[1..], i - 1)
  {
    if 1 < i {
      BytesShift(ds, chosen, i - 1);
    }
  }

  lemma {:induction false} ChoiceIs(ds: seq<Descriptor>, source: Source, b: Budgets, files: nat, bytes: int, i: nat)
    requires i < |ds|
    ensures var chosen := Choose(ds, source, b, files, bytes);
            chosen[i] <==>
              && Candidate(ds[i], source, b) && CandidatesBefore(ds, i, source, b) < files
              && BytesBefore(ds, chosen, i) + ds[i].size <= bytes
  {
    var chosen := Choose(ds, source, b, files, bytes);
    if 0 < i {
      CandidatesShift(ds, i, source, b);
      BytesShift(ds, chosen, i);
      assert CandidatesBefore(ds, 1, source, b) == if Candidate(ds[0], source, b) then 1 else 0;
      assert BytesBefore(ds, chosen, 1) == if chosen[0] then ds[0].size else 0;
      if !Candidate(ds[0], source, b) {
        ChoiceIs(ds[1..], source, b, files, bytes, i - 1);
      } else if files == 0 {
        ChoiceIs(ds[1..], source, b, 0, bytes, i - 1);
      } else {
        ChoiceIs(ds[1..], source, b, files - 1, if ds[0].size <= bytes then bytes - ds[0].size else bytes, i - 1);
      }
    }
  }

  /** An update selects greedily: no file is skipped that comes into question and fits. */
  lemma SelectionIsGreedy(ds: seq<Descriptor>, source: Source, b: Budgets) returns (chosen: seq<bool>)
    ensures Greedy(ds, chosen, source, b) && Select(ds, source, b) == Pick(ds, chosen)
  {
    chosen := Choose(ds, source, b, b.maxFiles, b.maxSourceBytes);
    forall i | 0 <= i < |ds|
      ensures chosen[i] <==>
                && Candidate(ds[i], source, b) && CandidatesBefore(ds, i, source, b) < b.maxFiles
                && BytesBefore(ds, chosen, i) + ds[i].size <= b.maxSourceBytes
    {
      ChoiceIs(ds, source, b, b.maxFiles, b.maxSourceBytes, i);
    }
    PickIsFit(ds, source, b, b.maxFiles, b.maxSourceBytes);
  }

  /** The chunk budget is used up before a chunk is left out. */
  lemma {:induction false} BoundUses(files: seq<File>, room: nat)
    ensures ChunkCount(Bound(files, room)) == Min(ChunkCount(files), room)
  {
    if files != [] {
      var first := Cut(files[0], room);
      var rest := Bound(files[1..], room - |first.chunks|);
      assert Bound(files, room) == [first] + rest && ([first] + rest)[1..] == rest;
      BoundUses(files[1..], room - |first.chunks|);
    }
  }

  /** Of the chunks of the files taken, as many are stored as the budget allows. */
  lemma UpdateUsesBudget(ds: seq<Descriptor>, previous: seq<File>, source: Source, b: Budgets)
    ensures var files := TakeAll(Select(ds, source, b), previous, source, b);
            ChunkCount(Updated(ds, previous, source, b)) == if ChunkCount(files) < b.maxChunks then ChunkCount(files) else b.maxChunks
  {
    var files := TakeAll(Select(ds, source, b), previous, source, b);
    hide Select, TakeAll, Bound, NonEmpty, ChunkCount;
    BoundUses(files, b.maxChunks);
    NonEmptyCounts(Bound(files, b.maxChunks));
  }

  /** A file of the latest snapshot with the path and blob of a selected one; of several the last. */
  ghost predicate LastIndexed(previous: seq<File>, d: Descriptor, i: nat) {
    && i < |previous| && previous[i].path == d.path && previous[i].blob == d.blob
    && forall k | i < k < |previous| :: !(previous[k].path == d.path && previous[k].blob == d.blob)
  }

  lemma {:induction false} FindIs(previous: seq<File>, d: Descriptor)
    ensures match Find(previous, d.path, d.blob)
            case None => forall f | f in previous :: !(f.path == d.path && f.blob == d.blob)
            case Some(f) => exists i: nat :: LastIndexed(previous, d, i) && f == previous[i]
  {
    if previous != [] {
      var n := |previous| - 1;
      var last, front := previous[n], previous[..n];
      if last.path == d.path && last.blob == d.blob {
        assert LastIndexed(previous, d, n);
      } else {
        FindIs(front, d);
        assert previous == front + [last];
        if Find(front, d.path, d.blob).Some? {
          var i: nat :| LastIndexed(front, d, i) && Find(front, d.path, d.blob).value == front[i];
          assert LastIndexed(previous, d, i) by {
            assert forall k | i < k < n :: previous[k] == front[k];
          }
        }
      }
    }
  }

  /** A selected file is taken as the latest snapshot has it, and is read and cut only if that has no file of its path and blob. */
  lemma TakesIndexed(d: Descriptor, previous: seq<File>, source: Source, b: Budgets)
    ensures (forall i: nat :: !LastIndexed(previous, d, i)) ==>
              Take(d, previous, source, b) == File(d.path, d.blob, ChunksFrom(d.path, source.read(d.path, d.blob), 0, b))
    ensures forall i: nat | LastIndexed(previous, d, i) :: Take(d, previous, source, b) == previous[i]
  {
    hide ChunksFrom, Find;
    FindIs(previous, d);
    if Find(previous, d.path, d.blob).Some? {
      var k: nat :| LastIndexed(previous, d, k) && Find(previous, d.path, d.blob).value == previous[k];
      assert forall i: nat | LastIndexed(previous, d, i) :: i == k;
    } else {
      assert forall i: nat | i < |previous| :: previous[i] in previous;
    }
  }
}
