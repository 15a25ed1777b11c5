// The repository index: files cut into overlapping chunks, and an update that reuses what is already indexed.
module RepositoryIndex {
  import opened Wrappers

  type Line = string

  /** Lines startLine to endLine of a file, counted from 1. */
  datatype Chunk = Chunk(path: string, startLine: nat, endLine: nat, lines: seq<Line>)

  datatype Budgets = Budgets(chunkLines: nat, chunkOverlapLines: nat, maxChunks: nat, maxFiles: nat, maxFileBytes: nat, maxSourceBytes: nat)

  function StepOf(b: Budgets): (step: nat)
    ensures 0 < step
  {
    if b.chunkOverlapLines < b.chunkLines then b.chunkLines - b.chunkOverlapLines else 1
  }

  // ----- chunks

  function Min(x: nat, y: nat): nat {
    if x < y then x else y
  }

  function ChunkAt(path: string, lines: seq<Line>, start: nat, b: Budgets): Chunk
    requires start < |lines|
  {
    var end := Min(start + b.chunkLines, |lines|);
    Chunk(path, start + 1, end, lines[start..end])
  }

  /** The chunks from a line on; none when a chunk would be empty. */
  function ChunksFrom(path: string, lines: seq<Line>, start: nat, b: Budgets): seq<Chunk>
    decreases |lines| - start
  {
    if |lines| <= start || b.chunkLines == 0 then []
    else if |lines| <= start + b.chunkLines then [ChunkAt(path, lines, start, b)]
    else [ChunkAt(path, lines, start, b)] + ChunksFrom(path, lines, start + StepOf(b), b)
  }

  method ChunkSourceFile(path: string, lines: seq<Line>, b: Budgets) returns (chunks: seq<Chunk>)
    ensures chunks == ChunksFrom(path, lines, 0, b)
  {
    chunks := [];
    var step := StepOf(b);
    var start := 0;
    hide ChunksFrom;
    while start < |lines|
      invariant chunks + ChunksFrom(path, lines, start, b) == ChunksFrom(path, lines, 0, b)
      decreases |lines| - start
    {
      NextChunk(path, lines, start, b, chunks);
      var end := Min(start + b.chunkLines, |lines|);
      var chunkLines := lines[start..end];
      if |chunkLines| == 0 { break; }
      chunks := chunks + [Chunk(path, start + 1, start + |chunkLines|, chunkLines)];
      if start + b.chunkLines >= |lines| { return; }
      start := start + step;
    }
    NextChunk(path, lines, start, b, chunks);
  }

  lemma NextChunk(path: string, lines: seq<Line>, start: nat, b: Budgets, before: seq<Chunk>)
    ensures |lines| <= start || b.chunkLines == 0 ==> ChunksFrom(path, lines, start, b) == [] && before + ChunksFrom(path, lines, start, b) == before
    ensures start < |lines| && 0 < b.chunkLines ==>
              before + ChunksFrom(path, lines, start, b)
              == before + [ChunkAt(path, lines, start, b)] + if |lines| <= start + b.chunkLines then [] else ChunksFrom(path, lines, start + StepOf(b), b)
  {
  }

  /** What each chunk adds to the ones before it, in order. */
  function Assemble(chunks: seq<Chunk>, upTo: nat): seq<Line> {
    if chunks == [] then []
    else
      var c := chunks[0];
      (if upTo - (c.startLine - 1) <= |c.lines| && c.startLine - 1 <= upTo then c.lines[upTo - (c.startLine - 1)..] else c.lines)
      + Assemble(chunks[1..], c.endLine)
  }

  /** A chunk is exactly its lines of the file. */
  ghost predicate Excerpt(c: Chunk, lines: seq<Line>) {
    0 < c.startLine <= c.endLine <= |lines| && c.lines == lines[c.startLine - 1..c.endLine]
  }

  /** The next chunk starts a step later, before the end of the file, and repeats the stated overlap. */
  ghost predicate Follows(c: Chunk, d: Chunk, lines: seq<Line>, b: Budgets) {
    && d.startLine == c.startLine + StepOf(b) && c.endLine == c.startLine - 1 + b.chunkLines < |lines|
    && (b.chunkOverlapLines < b.chunkLines ==> c.endLine + 1 - d.startLine == b.chunkOverlapLines)
  }

  lemma {:induction false} ChunksOverlap(path: string, lines: seq<Line>, start: nat, b: Budgets)
    requires 0 < b.chunkLines && start < |lines|
    ensures var cs := ChunksFrom(path, lines, start, b);
            && cs != [] && cs[0].startLine == start + 1 && cs[|cs| - 1].endLine == |lines|
            && (forall i | 0 <= i < |cs| :: Excerpt(cs[i], lines))
            && (forall i | 0 <= i < |cs| - 1 :: Follows(cs[i], cs[i + 1], lines, b))
    decreases |lines| - start
  {
    var cs, c := ChunksFrom(path, lines, start, b), ChunkAt(path, lines, start, b);
    assert Excerpt(c, lines);
    if start + b.chunkLines < |lines| {
      var next := start + StepOf(b);
      var rest := ChunksFrom(path, lines, next, b);
      ChunksOverlap(path, lines, next, b);
      assert cs == [c] + rest && Follows(c, rest[0], lines, b);
      hide *;
      assert forall i | 0 <= i < |cs| - 1 :: 0 < i ==> cs[i] == rest[i - 1] && cs[i + 1] == rest[i];
    }
  }

  lemma AssembleNext(c: Chunk, rest: seq<Chunk>, upTo: nat)
    requires c.startLine - 1 <= upTo && upTo - (c.startLine - 1) <= |c.lines|
    ensures Assemble([c] + rest, upTo) == c.lines[upTo - (c.startLine - 1)..] + Assemble(rest, c.endLine)
  {
    assert ([c] + rest)[1..] == rest;
  }

  /** The chunks together are the file: no line is lost between them. */
  lemma {:induction false} ChunksAssemble(path: string, lines: seq<Line>, start: nat, upTo: nat, b: Budgets)
    requires 0 < b.chunkLines && start < |lines| && start <= upTo <= start + b.chunkLines && upTo <= |lines|
    ensures Assemble(ChunksFrom(path, lines, start, b), upTo) == lines[upTo..]
    decreases |lines| - start
  {
    hide Assemble;
    var end := Min(start + b.chunkLines, |lines|);
    var c := ChunkAt(path, lines, start, b);
    assert c.lines[upTo - start..] == lines[upTo..end];
    if start + b.chunkLines < |lines| {
      var rest := ChunksFrom(path, lines, start + StepOf(b), b);
      assert ChunksFrom(path, lines, start, b) == [c] + rest;
      AssembleNext(c, rest, upTo);
      ChunksAssemble(path, lines, start + StepOf(b), end, b);
      assert lines[upTo..end] + lines[end..] == lines[upTo..];
    } else {
      assert [c] == [c] + [];
      AssembleNext(c, [], upTo);
      AssembleNothing(c.endLine);
    }
  }

  lemma AssembleNothing(upTo: nat)
    ensures Assemble([], upTo) == []
  {
  }

  lemma ChunksCoverFile(path: string, lines: seq<Line>, b: Budgets)
    requires 0 < b.chunkLines
    ensures Assemble(ChunksFrom(path, lines, 0, b), 0) == lines
  {
    if lines != [] {
      ChunksAssemble(path, lines, 0, 0, b);
      assert lines[0..] == lines;
    }
  }

  // ----- updates

  datatype Descriptor = Descriptor(path: string, blob: string, size: nat)

  datatype File = File(path: string, blob: string, chunks: seq<Chunk>)

  /** What the repository holds: which paths are source, and the lines of a path's blob. */
  datatype Source = Source(isSource: string -> bool, read: (string, string) -> seq<Line>)

  /** Descriptors in path order that fit the byte budget, in turn. */
  function Fit(ds: seq<Descriptor>, bytes: int): seq<Descriptor> {
    if ds == [] then []
    else if ds[0].size <= bytes then [ds[0]] + Fit(ds[1..], bytes - ds[0].size)
    else Fit(ds[1..], bytes)
  }

  function Eligible(ds: seq<Descriptor>, source: Source, b: Budgets): seq<Descriptor> {
    if ds == [] then []
    else (if source.isSource(ds[0].path) && ds[0].size <= b.maxFileBytes then [ds[0]] else []) + Eligible(ds[1..], source, b)
  }

  function Select(ds: seq<Descriptor>, source: Source, b: Budgets): seq<Descriptor> {
    var eligible := Eligible(ds, source, b);
    Fit(eligible[..Min(|eligible|, b.maxFiles)], b.maxSourceBytes)
  }

  /** The indexed file of a path and blob; the last one, if there are several. */
  function Find(files: seq<File>, path: string, blob: string): (r: Option<File>)
    ensures r.Some? ==> r.value in files && r.value.path == path && r.value.blob == blob
  {
    if files == [] then None
    else
      var last := files[|files| - 1];
      if last.path == path && last.blob == blob then Some(last) else Find(files[..|files| - 1], path, blob)
  }

  function Fresh(d: Descriptor, source: Source, b: Budgets): File {
    File(d.path, d.blob, ChunksFrom(d.path, source.read(d.path, d.blob), 0, b))
  }

  function Take(d: Descriptor, previous: seq<File>, source: Source, b: Budgets): File {
    var existing := Find(previous, d.path, d.blob);
    if existing.Some? then existing.value else Fresh(d, source, b)
  }

  function TakeAll(ds: seq<Descriptor>, previous: seq<File>, source: Source, b: Budgets): (files: seq<File>)
    ensures |files| == |ds|
  {
    if ds == [] then [] else [Take(ds[0], previous, source, b)] + TakeAll(ds[1..], previous, source, b)
  }

  function Cut(f: File, room: nat): File {
    f.(chunks := f.chunks[..Min(|f.chunks|, room)])
  }

  /** Each file gets what the ones before it leave of the chunk budget. */
  function Bound(files: seq<File>, room: nat): (r: seq<File>)
    ensures |r| == |files|
  {
    if files == [] then [] else [Cut(files[0], room)] + Bound(files[1..], room - |Cut(files[0], room).chunks|)
  }

  function NonEmpty(files: seq<File>): (r: seq<File>)
    ensures forall f :: f in r <==> f in files && f.chunks != []
  {
    if files == [] then [] else (if files[0].chunks == [] then [] else [files[0]]) + NonEmpty(files[1..])
  }

  /** The files of the snapshot an update stores, given those of the latest one. */
  function Updated(ds: seq<Descriptor>, previous: seq<File>, source: Source, b: Budgets): seq<File> {
    NonEmpty(Bound(TakeAll(Select(ds, source, b), previous, source, b), b.maxChunks))
  }

  method Update(ds: seq<Descriptor>, previous: seq<File>, source: Source, b: Budgets) returns (stored: seq<File>)
    ensures stored == Updated(ds, previous, source, b)
  {
    hide Select, Bound, NonEmpty, Find, ChunksFrom;
    var selected := Select(ds, source, b);
    var files := [];
    assert selected[0..] == selected;
    for i := 0 to |selected|
      invariant files + TakeAll(selected[i..], previous, source, b) == TakeAll(selected, previous, source, b)
    {
      var d := selected[i];
      assert selected[i..][1..] == selected[i + 1..];
      var existing := Find(previous, d.path, d.blob);
      if existing.Some? {
        files := files + [existing.value];
      } else {
        var chunks := ChunkSourceFile(d.path, source.read(d.path, d.blob), b);
        files := files + [File(d.path, d.blob, chunks)];
      }
    }
    assert selected[|selected|..] == [] && TakeAll([], previous, source, b) == [];
    assert files + [] == files;
    stored := BoundChunks(files, b.maxChunks);
  }

  method BoundChunks(files: seq<File>, maxChunks: nat) returns (bounded: seq<File>)
    ensures bounded == NonEmpty(Bound(files, maxChunks))
  {
    hide Bound, NonEmpty;
    bounded := [];
    var chunkCount := 0;
    assert files[0..] == files;
    for i := 0 to |files|
      invariant chunkCount <= maxChunks
      invariant bounded + NonEmpty(Bound(files[i..], maxChunks - chunkCount)) == NonEmpty(Bound(files, maxChunks))
    {
      var file := Cut(files[i], maxChunks - chunkCount);
      NextBound(files, i, maxChunks - chunkCount, bounded);
      chunkCount := chunkCount + |file.chunks|;
      if file.chunks != [] {
        bounded := bounded + [file];
      }
    }
    NothingBound(maxChunks - chunkCount);
    assert files[|files|..] == [];
  }

  lemma NothingBound(room: nat)
    ensures NonEmpty(Bound([], room)) == []
  {
  }

  lemma BoundNext(f: File, rest: seq<File>, room: nat)
    ensures var r := Bound([f] + rest, room);
            r == [Cut(f, room)] + Bound(rest, room - |Cut(f, room).chunks|) && r[0] == Cut(f, room)
            && r[1..] == Bound(rest, room - |Cut(f, room).chunks|)
  {
    assert ([f] + rest)[1..] == rest;
  }

  lemma NonEmptyNext(f: File, rest: seq<File>)
    ensures NonEmpty([f] + rest) == (if f.chunks == [] then [] else [f]) + NonEmpty(rest)
  {
    assert ([f] + rest)[1..] == rest;
  }

  lemma NextBound(files: seq<File>, i: nat, room: nat, stored: seq<File>)
    requires i < |files|
    ensures var file := Cut(files[i], room);
            stored + NonEmpty(Bound(files[i..], room))
            == (if file.chunks == [] then stored else stored + [file]) + NonEmpty(Bound(files[i + 1..], room - |file.chunks|))
  {
    hide Bound, NonEmpty;
    var file := Cut(files[i], room);
    assert files[i..] == [files[i]] + files[i + 1..];
    BoundNext(files[i], files[i + 1..], room);
    NonEmptyNext(file, Bound(files[i + 1..], room - |file.chunks|));
  }

  // ----- what an update stores

  /** The chunks of a stored file are the first ones of the file. */
  ghost predicate Faithful(f: File, source: Source, b: Budgets) {
    var all := ChunksFrom(f.path, source.read(f.path, f.blob), 0, b);
    |f.chunks| <= |all| && f.chunks == all[..|f.chunks|]
  }

  ghost predicate Whole(f: File, source: Source, b: Budgets) {
    f.chunks == ChunksFrom(f.path, source.read(f.path, f.blob), 0, b)
  }

  lemma CutFaithful(f: File, room: nat, source: Source, b: Budgets)
    requires Faithful(f, source, b)
    ensures Faithful(Cut(f, room), source, b)
  {
    hide ChunksFrom;
    var n := |Cut(f, room).chunks|;
    assert f.chunks[..n] == ChunksFrom(f.path, source.read(f.path, f.blob), 0, b)[..|f.chunks|][..n];
  }

  lemma {:induction false} BoundFaithful(files: seq<File>, room: nat, source: Source, b: Budgets)
    requires forall f | f in files :: Faithful(f, source, b)
    ensures forall f | f in Bound(files, room) :: Faithful(f, source, b)
  {
    hide Faithful, Bound;
    if files == [] {
      assert Bound([], room) == [];
    } else {
      var f, rest := files[0], files[1..];
      assert files == [f] + rest;
      BoundNext(f, rest, room);
      CutFaithful(f, room, source, b);
      BoundFaithful(rest, room - |Cut(f, room).chunks|, source, b);
    }
  }

  /** Whatever the snapshot before, every stored file holds a prefix of its fresh chunks. */
  lemma UpdateIsFaithful(ds: seq<Descriptor>, previous: seq<File>, source: Source, b: Budgets)
    requires forall f | f in previous :: Faithful(f, source, b)
    ensures forall f | f in Updated(ds, previous, source, b) :: Faithful(f, source, b) && f.chunks != []
  {
    hide Faithful, Select;
    TakenFaithful(Select(ds, source, b), previous, source, b);
    BoundFaithful(TakeAll(Select(ds, source, b), previous, source, b), b.maxChunks, source, b);
  }

  lemma {:induction false} TakenFaithful(ds: seq<Descriptor>, previous: seq<File>, source: Source, b: Budgets)
    requires forall f | f in previous :: Faithful(f, source, b)
    ensures forall f | f in TakeAll(ds, previous, source, b) :: Faithful(f, source, b)
  {
    hide Faithful, Fresh;
    if ds != [] {
      TakenFaithful(ds[1..], previous, source, b);
      FreshIsFaithful(ds[0], source, b);
    }
  }

  lemma FreshIsFaithful(d: Descriptor, source: Source, b: Budgets)
    ensures Faithful(Fresh(d, source, b), source, b) && Whole(Fresh(d, source, b), source, b)
  {
    hide ChunksFrom;
  }

  function ChunkCount(files: seq<File>): nat {
    if files == [] then 0 else |files[0].chunks| + ChunkCount(files[1..])
  }

  function ByteCount(ds: seq<Descriptor>): nat {
    if ds == [] then 0 else ds[0].size + ByteCount(ds[1..])
  }

  lemma {:induction false} BoundWithin(files: seq<File>, room: nat)
    ensures ChunkCount(Bound(files, room)) <= room
  {
    hide Bound, Cut;
    if files == [] {
      BoundNothing(room);
    } else {
      var cut := Cut(files[0], room);
      assert |cut.chunks| <= room by { CutWithin(files[0], room); }
      assert files == [files[0]] + files[1..];
      BoundNext(files[0], files[1..], room);
      BoundWithin(files[1..], room - |cut.chunks|);
    }
  }

  lemma CutWithin(f: File, room: nat)
    ensures |Cut(f, room).chunks| <= room
  {
  }

  lemma {:induction false} NonEmptyCounts(files: seq<File>)
    ensures ChunkCount(NonEmpty(files)) == ChunkCount(files) && |NonEmpty(files)| <= |files|
  {
    if files != [] {
      NonEmptyCounts(files[1..]);
      if files[0].chunks != [] {
        assert NonEmpty(files)[1..] == NonEmpty(files[1..]);
      } else {
        assert NonEmpty(files) == NonEmpty(files[1..]);
      }
    }
  }

  lemma {:induction false} FitWithin(ds: seq<Descriptor>, bytes: nat)
    ensures ByteCount(Fit(ds, bytes)) <= bytes && |Fit(ds, bytes)| <= |ds| && forall d | d in Fit(ds, bytes) :: d in ds
  {
    if ds != [] {
      if ds[0].size <= bytes {
        FitWithin(ds[1..], bytes - ds[0].size);
        assert Fit(ds, bytes)[1..] == Fit(ds[1..], bytes - ds[0].size);
      } else {
        FitWithin(ds[1..], bytes);
      }
    }
  }

  lemma {:induction false} EligibleAre(ds: seq<Descriptor>, source: Source, b: Budgets)
    ensures forall d | d in Eligible(ds, source, b) :: d in ds && source.isSource(d.path) && d.size <= b.maxFileBytes
  {
    if ds != [] {
      EligibleAre(ds[1..], source, b);
    }
  }

  /** Whatever was stored before, a snapshot is within all budgets. */
  lemma UpdateIsWithinBudgets(ds: seq<Descriptor>, previous: seq<File>, source: Source, b: Budgets)
    ensures var selected, stored := Select(ds, source, b), Updated(ds, previous, source, b);
            && ChunkCount(stored) <= b.maxChunks && |stored| <= |selected| <= b.maxFiles && ByteCount(selected) <= b.maxSourceBytes
            && forall d | d in selected :: d in ds && source.isSource(d.path) && d.size <= b.maxFileBytes
  {
    var eligible := Eligible(ds, source, b);
    var selected := Select(ds, source, b);
    EligibleAre(ds, source, b);
    FitWithin(eligible[..Min(|eligible|, b.maxFiles)], b.maxSourceBytes);
    hide Bound, NonEmpty, Eligible, Fit, ByteCount, ChunkCount, TakeAll;
    var files := TakeAll(selected, previous, source, b);
    BoundWithin(files, b.maxChunks);
    NonEmptyCounts(Bound(files, b.maxChunks));
  }

  /** No reused file is shorter than what the budget leaves for it when everything is indexed afresh. */
  ghost predicate Enough(ds: seq<Descriptor>, previous: seq<File>, source: Source, b: Budgets, room: nat) {
    ds == []
    || (var k := Min(|Fresh(ds[0], source, b).chunks|, room);
        k <= |Take(ds[0], previous, source, b).chunks| && Enough(ds[1..], previous, source, b, room - k))
  }

  lemma TakePrefix(d: Descriptor, previous: seq<File>, source: Source, b: Budgets)
    requires forall f | f in previous :: Faithful(f, source, b)
    ensures var t, f := Take(d, previous, source, b), Fresh(d, source, b);
            t.path == f.path && t.blob == f.blob && |t.chunks| <= |f.chunks| && t.chunks == f.chunks[..|t.chunks|]
    ensures Take(d, [], source, b) == Fresh(d, source, b)
  {
    hide ChunksFrom;
    FreshIsFaithful(d, source, b);
    assert Find([], d.path, d.blob) == None;
  }

  lemma {:induction false} BoundAgreesExactly(ds: seq<Descriptor>, previous: seq<File>, source: Source, b: Budgets, room: nat)
    requires forall f | f in previous :: Faithful(f, source, b)
    ensures Bound(TakeAll(ds, previous, source, b), room) == Bound(TakeAll(ds, [], source, b), room)
            <==> Enough(ds, previous, source, b, room)
  {
    hide Faithful, Take, Fresh, Cut, Bound;
    if ds != [] {
      var d, ts, fs := ds[0], TakeAll(ds[1..], previous, source, b), TakeAll(ds[1..], [], source, b);
      var t, f := Take(d, previous, source, b), Fresh(d, source, b);
      TakePrefix(d, previous, source, b);
      CutAgreesExactly(t, f, room);
      BoundAgreesExactly(ds[1..], previous, source, b, room - Min(|f.chunks|, room));
      BoundNext(t, ts, room);
      BoundNext(f, fs, room);
      assert TakeAll(ds, previous, source, b) == [t] + ts && TakeAll(ds, [], source, b) == [f] + fs;
    } else {
      assert TakeAll(ds, previous, source, b) == TakeAll(ds, [], source, b) == [];
    }
  }

  lemma CutAgreesExactly(t: File, f: File, room: nat)
    requires t.path == f.path && t.blob == f.blob && |t.chunks| <= |f.chunks| && t.chunks == f.chunks[..|t.chunks|]
    ensures Cut(t, room) == Cut(f, room) <==> Min(|f.chunks|, room) <= |t.chunks|
    ensures |Cut(f, room).chunks| == Min(|f.chunks|, room)
  {
    var k := Min(|f.chunks|, room);
    if k <= |t.chunks| {
      assert t.chunks[..k] == f.chunks[..|t.chunks|][..k];
      assert Min(|t.chunks|, room) == k;
    }
  }

  /** Lists of files with different paths are told apart by their files that have chunks. */
  lemma {:induction false} NonEmptyDecides(s: seq<File>, t: seq<File>)
    requires |s| == |t| && (forall i | 0 <= i < |s| :: s[i].path == t[i].path && s[i].blob == t[i].blob)
    requires forall i, j | 0 <= i < j < |s| :: s[i].path != s[j].path
    ensures NonEmpty(s) == NonEmpty(t) <==> s == t
  {
    if NonEmpty(s) == NonEmpty(t) {
      forall i | 0 <= i < |s| ensures s[i] == t[i] {
        assert s[i] in NonEmpty(s) <==> s[i].chunks != [];
        assert t[i] in NonEmpty(t) <==> t[i].chunks != [];
        if s[i].chunks != [] {
          var j :| 0 <= j < |t| && t[j] == s[i];
        }
        if t[i].chunks != [] {
          var j :| 0 <= j < |s| && s[j] == t[i];
        }
      }
    }
  }

  /** A tree lists a path once. */
  ghost predicate DistinctPaths(ds: seq<Descriptor>) {
    forall i, j | 0 <= i < j < |ds| :: ds[i].path != ds[j].path
  }

  lemma DistinctFirst(d: Descriptor, rest: seq<Descriptor>)
    ensures DistinctPaths([d] + rest) <==> DistinctPaths(rest) && forall x | x in rest :: x.path != d.path
  {
    var ds := [d] + rest;
    assert forall i | 0 <= i < |rest| :: ds[i + 1] == rest[i];
    if DistinctPaths(rest) && forall x | x in rest :: x.path != d.path {
      forall i, j | 0 <= i < j < |ds| ensures ds[i].path != ds[j].path {
        assert ds[j] == rest[j - 1] && (0 < i ==> ds[i] == rest[i - 1]);
      }
    }
    if DistinctPaths(ds) {
      forall k | 0 <= k < |rest| ensures rest[k].path != d.path {
        assert ds[0] == d && ds[k + 1] == rest[k];
      }
      forall i, j | 0 <= i < j < |rest| ensures rest[i].path != rest[j].path {
        assert ds[i + 1].path != ds[j + 1].path;
      }
    }
  }

  lemma {:induction false} FitKeepsOrder(ds: seq<Descriptor>, bytes: int)
    requires DistinctPaths(ds)
    ensures DistinctPaths(Fit(ds, bytes)) && forall d | d in Fit(ds, bytes) :: d in ds
  {
    hide DistinctPaths;
    if ds != [] {
      assert ds == [ds[0]] + ds[1..];
      DistinctFirst(ds[0], ds[1..]);
      FitKeepsOrder(ds[1..], bytes - ds[0].size);
      FitKeepsOrder(ds[1..], bytes);
      DistinctFirst(ds[0], Fit(ds[1..], bytes - ds[0].size));
    }
  }

  lemma {:induction false} EligibleKeepsOrder(ds: seq<Descriptor>, source: Source, b: Budgets)
    requires DistinctPaths(ds)
    ensures DistinctPaths(Eligible(ds, source, b)) && forall d | d in Eligible(ds, source, b) :: d in ds
  {
    hide DistinctPaths;
    if ds != [] {
      assert ds == [ds[0]] + ds[1..];
      DistinctFirst(ds[0], ds[1..]);
      EligibleKeepsOrder(ds[1..], source, b);
      DistinctFirst(ds[0], Eligible(ds[1..], source, b));
      assert [] + Eligible(ds[1..], source, b) == Eligible(ds[1..], source, b);
    }
  }

  lemma SelectedDistinct(ds: seq<Descriptor>, source: Source, b: Budgets)
    requires DistinctPaths(ds)
    ensures DistinctPaths(Select(ds, source, b))
  {
    var eligible := Eligible(ds, source, b);
    EligibleKeepsOrder(ds, source, b);
    FitKeepsOrder(eligible[..Min(|eligible|, b.maxFiles)], b.maxSourceBytes);
  }

  /** The files, cut or not, are those of the descriptors. */
  ghost predicate Named(files: seq<File>, ds: seq<Descriptor>) {
    |files| == |ds| && forall i | 0 <= i < |ds| :: files[i].path == ds[i].path && files[i].blob == ds[i].blob
  }

  lemma {:induction false} BoundNamed(ds: seq<Descriptor>, previous: seq<File>, source: Source, b: Budgets, room: nat)
    ensures Named(Bound(TakeAll(ds, previous, source, b), room), ds)
  {
    hide ChunksFrom, Find;
    if ds != [] {
      var t := Take(ds[0], previous, source, b);
      BoundNamed(ds[1..], previous, source, b, room - |Cut(t, room).chunks|);
      assert TakeAll(ds, previous, source, b) == [t] + TakeAll(ds[1..], previous, source, b);
      BoundNext(t, TakeAll(ds[1..], previous, source, b), room);
      hide Bound, TakeAll;
    }
  }

  /** An update stores what indexing everything afresh would, exactly when no reused file is too short. */
  lemma UpdateAgreesExactly(ds: seq<Descriptor>, previous: seq<File>, source: Source, b: Budgets)
    requires forall f | f in previous :: Faithful(f, source, b)
    requires DistinctPaths(ds)
    ensures Updated(ds, previous, source, b) == Updated(ds, [], source, b)
            <==> Enough(Select(ds, source, b), previous, source, b, b.maxChunks)
  {
    hide Faithful, Select, Enough, Bound, TakeAll, NonEmpty;
    var selected := Select(ds, source, b);
    SelectedDistinct(ds, source, b);
    BoundAgreesExactly(selected, previous, source, b, b.maxChunks);
    BoundNamed(selected, previous, source, b, b.maxChunks);
    BoundNamed(selected, [], source, b, b.maxChunks);
    NonEmptyDecides(Bound(TakeAll(selected, previous, source, b), b.maxChunks), Bound(TakeAll(selected, [], source, b), b.maxChunks));
  }

  // ----- runs of updates

  function Total(ds: seq<Descriptor>, source: Source, b: Budgets): nat {
    if ds == [] then 0 else |Fresh(ds[0], source, b).chunks| + Total(ds[1..], source, b)
  }

  /** What is stored after updates to the file lists of successive commits. */
  function IndexAfter(commits: seq<seq<Descriptor>>, source: Source, b: Budgets): seq<File> {
    if commits == [] then []
    else Updated(commits[|commits| - 1], IndexAfter(commits[..|commits| - 1], source, b), source, b)
  }

  lemma {:induction false} WholeFits(ds: seq<Descriptor>, source: Source, b: Budgets, room: nat)
    requires Total(ds, source, b) <= room
    ensures forall f | f in Bound(TakeAll(ds, [], source, b), room) :: Whole(f, source, b)
  {
    hide Whole, Fresh, Bound, ChunksFrom;
    if ds == [] {
      assert TakeAll(ds, [], source, b) == [] && Bound([], room) == [] by { BoundNothing(room); }
    } else {
      var f, rest := Fresh(ds[0], source, b), TakeAll(ds[1..], [], source, b);
      FreshIsFaithful(ds[0], source, b);
      WholeFits(ds[1..], source, b, room - |f.chunks|);
      TakeFresh(ds[0], source, b);
      assert TakeAll(ds, [], source, b) == [f] + rest;
      BoundNext(f, rest, room);
      assert f.chunks[..|f.chunks|] == f.chunks;
      assert Cut(f, room) == f;
    }
  }

  lemma BoundNothing(room: nat)
    ensures Bound([], room) == []
  {
  }

  lemma TakeFresh(d: Descriptor, source: Source, b: Budgets)
    ensures Take(d, [], source, b) == Fresh(d, source, b)
  {
    hide ChunksFrom;
    assert Find([], d.path, d.blob) == None;
  }

  lemma {:induction false} WholeIsEnough(ds: seq<Descriptor>, previous: seq<File>, source: Source, b: Budgets, room: nat)
    requires forall f | f in previous :: Whole(f, source, b)
    ensures Enough(ds, previous, source, b, room)
  {
    if ds != [] {
      WholeIsEnough(ds[1..], previous, source, b, room - Min(|Fresh(ds[0], source, b).chunks|, room));
      hide ChunksFrom;
    }
  }

  /** Along any run in which no commit overflows the chunk budget, every snapshot is the full index of its commit. */
  lemma {:induction false} RunsAreFull(commits: seq<seq<Descriptor>>, source: Source, b: Budgets)
    requires forall ds | ds in commits :: Total(Select(ds, source, b), source, b) <= b.maxChunks
    requires forall ds | ds in commits :: DistinctPaths(ds)
    ensures commits != [] ==> IndexAfter(commits, source, b) == Updated(commits[|commits| - 1], [], source, b)
    ensures forall f | f in IndexAfter(commits, source, b) :: Whole(f, source, b)
  {
    if commits != [] {
      var n := |commits| - 1;
      var ds, previous := commits[n], IndexAfter(commits[..n], source, b);
      RunsAreFull(commits[..n], source, b);
      hide Select, Total, Bound, TakeAll, ChunksFrom;
      assert forall f | f in previous :: Faithful(f, source, b);
      hide Whole, Faithful;
      WholeIsEnough(Select(ds, source, b), previous, source, b, b.maxChunks);
      UpdateAgreesExactly(ds, previous, source, b);
      WholeFits(Select(ds, source, b), source, b, b.maxChunks);
    }
  }

  // ----- a file once cut short stays short

  const SMALL := Budgets(1, 0, 2, 10, 10, 10)
  const TWO_FILES := Source(path => true, (path, blob) => if path == "a" then ["1"] else ["1", "2"])
  const A := Descriptor("a", "x", 1)
  const B := Descriptor("b", "y", 1)

  lemma SmallChunks()
    ensures Fresh(A, TWO_FILES, SMALL).chunks == [Chunk("a", 1, 1, ["1"])]
    ensures Fresh(B, TWO_FILES, SMALL).chunks == [Chunk("b", 1, 1, ["1"]), Chunk("b", 2, 2, ["2"])]
  {
    var lines: seq<Line> := ["1", "2"];
    assert lines[0..1] == ["1"] && lines[1..2] == ["2"];
    assert ChunksFrom("b", lines, 1, SMALL) == [Chunk("b", 2, 2, ["2"])];
    assert ["1"][0..1] == ["1"];
  }

  lemma SmallSelect()
    ensures Select([A, B], TWO_FILES, SMALL) == [A, B] && Select([B], TWO_FILES, SMALL) == [B]
  {
    assert [A, B][1..] == [B] && [B][1..] == [];
    assert Eligible([B], TWO_FILES, SMALL) == [B] && Eligible([A, B], TWO_FILES, SMALL) == [A, B];
    assert [A, B][..2] == [A, B] && [B][..1] == [B];
    assert Fit([], 8) == [] && Fit([], 9) == [];
    assert Fit([B], 9) == [B] && Fit([B], 10) == [B];
  }

  /** The first commit cuts the second file short; when the first file is gone, there is room, but the file stays short. */
  lemma CutFileStaysCut()
    ensures IndexAfter([[A, B], [B]], TWO_FILES, SMALL) != Updated([B], [], TWO_FILES, SMALL)
  {
    SmallChunks();
    SmallSelect();
    hide ChunksFrom, Select, SMALL, TWO_FILES;
    assert SMALL.maxChunks == 2 by { SmallBudget(); }
    var first := Updated([A, B], [], TWO_FILES, SMALL);
    var short := File("b", "y", [Chunk("b", 1, 1, ["1"])]);
    FirstIndex(first, short);
    var commits := [[A, B], [B]];
    assert commits[..1] == [[A, B]] && commits[..1][..0] == [];
    assert IndexAfter(commits[..1], TWO_FILES, SMALL) == first;
    assert IndexAfter(commits, TWO_FILES, SMALL) == Updated([B], first, TWO_FILES, SMALL);
    UpdateIsFaithful([A, B], [], TWO_FILES, SMALL);
    UpdateAgreesExactly([B], first, TWO_FILES, SMALL);
    assert [B][1..] == [];
    assert Take(B, first, TWO_FILES, SMALL) == short;
  }

  lemma SmallBudget()
    ensures SMALL.maxChunks == 2
  {
  }

  lemma FirstIndex(first: seq<File>, short: File)
    requires first == Updated([A, B], [], TWO_FILES, SMALL) && short == File("b", "y", [Chunk("b", 1, 1, ["1"])])
    ensures first == [File("a", "x", [Chunk("a", 1, 1, ["1"])]), short]
  {
    SmallChunks();
    SmallSelect();
    SmallBudget();
    hide ChunksFrom, Select, SMALL, TWO_FILES;
    TakeFresh(A, TWO_FILES, SMALL);
    TakeFresh(B, TWO_FILES, SMALL);
    var a, b := Fresh(A, TWO_FILES, SMALL), Fresh(B, TWO_FILES, SMALL);
    assert [A, B][1..] == [B] && [B][1..] == [];
    assert TakeAll([B], [], TWO_FILES, SMALL) == [b] && TakeAll([A, B], [], TWO_FILES, SMALL) == [a, b];
    assert [a, b] == [a] + [b] && [b] == [b] + [];
    BoundNext(a, [b], 2);
    BoundNext(b, [], 1);
    BoundNothing(0);
    assert a.chunks[..1] == a.chunks && b.chunks[..1] == short.chunks;
    NonEmptyNext(a, [short]);
    NonEmptyNext(short, []);
    hide Bound, NonEmpty, TakeAll;
    NothingBound(0);
  }
}
