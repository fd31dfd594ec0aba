/**
 * The recursive depth-first scan (`visit_rec` / `visit`). The scan is
 * modelled as written: a read loop over batches, a cursor over each batch,
 * one accumulator threaded through the recursion, and an exception that
 * aborts the whole scan. It is proved equal to replaying a flat trace of
 * the tree (`Trace`) through the match decision (`Replay`), from which the
 * ordering, error and skipping properties follow.
 */
module Traversal {
  import opened Wrappers
  import opened Registry
  import opened Dirents
  import opened Matcher

  type Path = string

  /** `path / name`, with a single separator. */
  function Join(dir: Path, name: string): Path
  {
    dir + "/" + name
  }

  /** The path reached from `root` by descending through `rel`. */
  function JoinAll(root: Path, rel: seq<string>): Path
  {
    if |rel| == 0 then root else Join(JoinAll(root, rel[..|rel| - 1]), rel[|rel| - 1])
  }

  /** Names the scan skips. */
  predicate IsDot(name: string)
  {
    name == "." || name == ".."
  }

  /** `finder_exception`: carries only its message. */
  datatype FinderError = FinderException(what: string)

  function ReadFailure(reason: string): FinderError
  {
    FinderException("could not read dir: " + reason)
  }

  function StatFailure(reason: string): FinderError
  {
    FinderException("could not stat file: " + reason)
  }

  // ---------------------------------------------------------------------
  // The scan as written

  /** `visit_rec(found, path)` on the directory `d` found at `path`: the
      accumulator after the scan, or the exception that escaped it. */
  function VisitRec(reg: Registry, found: seq<Path>, path: Path, d: Dir): (res: Result<seq<Path>, FinderError>)
    requires WellFormed(d)
    ensures res.Ok? ==> found <= res.value
    decreases d, 2, 0, 0
  {
    ReadLoop(reg, found, path, d, 0)
  }

  /** The read loop from the `k`-th `getdents64` call on. */
  function ReadLoop(reg: Registry, found: seq<Path>, path: Path, d: Dir, k: nat): (res: Result<seq<Path>, FinderError>)
    requires WellFormed(d) && k <= |d.batches|
    ensures res.Ok? ==> found <= res.value
    decreases d, 1, |d.batches| - k, 0
  {
    if k == |d.batches| then
      match d.end
      case EndOfDir => Ok(found)
      case ReadError(reason) => Err(ReadFailure(reason))
    else
      match ScanBatch(reg, found, path, d, k, 0)
      case Err(e) => Err(e)
      case Ok(found') => ReadLoop(reg, found', path, d, k + 1)
  }

  /** The cursor loop over the `k`-th batch, from byte `off` on. */
  function ScanBatch(reg: Registry, found: seq<Path>, path: Path, d: Dir, k: nat, off: nat): (res: Result<seq<Path>, FinderError>)
    requires WellFormed(d) && k < |d.batches| && Packed(d.batches[k].cells, off)
    ensures res.Ok? ==> found <= res.value
    decreases d, 0, |d.batches| - k, |d.batches[k].cells| - off
  {
    var cells := d.batches[k].cells;
    if off == |cells| then Ok(found)
    else
      var e := cells[off].ent;
      var next := off + e.reclen;
      if IsDot(e.name) then ScanBatch(reg, found, path, d, k, next)
      else
        match e.ftype
        case Regular =>
          (match Decide(reg, e.ino, e.name, d.stat)
           case Accept => ScanBatch(reg, found + [Join(path, e.name)], path, d, k, next)
           case Reject => ScanBatch(reg, found, path, d, k, next)
           case StatFailed(reason) => Err(StatFailure(reason)))
        case Directory(sub) =>
          (match VisitRec(reg, found, Join(path, e.name), sub)
           case Err(x) => Err(x)
           case Ok(found') => ScanBatch(reg, found', path, d, k, next))
        case _ => ScanBatch(reg, found, path, d, k, next)
  }

  // ---------------------------------------------------------------------
  // The flat trace of a tree

  /** What the scan meets, in order: a regular file (with the directory it
      sits in, relative to the root, and that directory's metadata), or the
      end of a directory's read loop. */
  datatype Event =
    | FileEntry(rel: seq<string>, ent: Dirent, stat: StatResult)
    | EndOfListing(rel: seq<string>, end: ReadEnd)

  /** No component from `from` on is "." or "..". */
  predicate NoDotsFrom(rel: seq<string>, from: nat)
  {
    forall j :: from <= j < |rel| ==> !IsDot(rel[j])
  }

  /** What every event of the trace of the directory at `rel` satisfies:
      it lies at or below `rel` through non-dot names, and a file event is
      a regular file whose name is not a dot. */
  predicate EventBelow(ev: Event, rel: seq<string>)
  {
    && rel <= ev.rel
    && NoDotsFrom(ev.rel, |rel|)
    && (ev.FileEntry? ==> ev.ent.ftype.Regular? && !IsDot(ev.ent.name))
  }

  /** The depth-first trace of the directory `d` at `rel`. */
  function Trace(rel: seq<string>, d: Dir): (t: seq<Event>)
    requires WellFormed(d)
    ensures forall i :: 0 <= i < |t| ==> EventBelow(t[i], rel)
    decreases d, 2, 0, 0
  {
    TraceBatches(rel, d, 0)
  }

  function TraceBatches(rel: seq<string>, d: Dir, k: nat): (t: seq<Event>)
    requires WellFormed(d) && k <= |d.batches|
    ensures forall i :: 0 <= i < |t| ==> EventBelow(t[i], rel)
    ensures |t| > 0 && t[|t| - 1] == EndOfListing(rel, d.end)
    decreases d, 1, |d.batches| - k, 0
  {
    if k == |d.batches| then [EndOfListing(rel, d.end)]
    else TraceCells(rel, d, k, 0) + TraceBatches(rel, d, k + 1)
  }

  function TraceCells(rel: seq<string>, d: Dir, k: nat, off: nat): (t: seq<Event>)
    requires WellFormed(d) && k < |d.batches| && Packed(d.batches[k].cells, off)
    ensures forall i :: 0 <= i < |t| ==> EventBelow(t[i], rel)
    decreases d, 0, |d.batches| - k, |d.batches[k].cells| - off
  {
    var cells := d.batches[k].cells;
    if off == |cells| then []
    else
      var e := cells[off].ent;
      var next := off + e.reclen;
      if IsDot(e.name) then TraceCells(rel, d, k, next)
      else
        match e.ftype
        case Regular => [FileEntry(rel, e, d.stat)] + TraceCells(rel, d, k, next)
        case Directory(sub) => SubTrace(rel, e.name, sub) + TraceCells(rel, d, k, next)
        case _ => TraceCells(rel, d, k, next)
  }

  /** The trace of a subdirectory `name` of the directory at `rel`. */
  function SubTrace(rel: seq<string>, name: string, sub: Dir): (t: seq<Event>)
    requires WellFormed(sub) && !IsDot(name)
    ensures forall i :: 0 <= i < |t| ==> EventBelow(t[i], rel)
    decreases sub, 3, 0, 0
  {
    var t := Trace(rel + [name], sub);
    assert forall i :: 0 <= i < |t| ==> EventBelow(t[i], rel + [name]);
    forall i | 0 <= i < |t|
      ensures EventBelow(t[i], rel)
    {
      assert (rel + [name]) <= t[i].rel;
      assert t[i].rel[|rel|] == name;
    }
    t
  }

  // ---------------------------------------------------------------------
  // Replaying a trace

  /** The path an event for a file names. */
  function FilePath(root: Path, ev: Event): Path
    requires ev.FileEntry?
  {
    Join(JoinAll(root, ev.rel), ev.ent.name)
  }

  /** Whether an event stops the scan. */
  predicate Aborts(reg: Registry, ev: Event)
  {
    match ev
    case EndOfListing(_, end) => end.ReadError?
    case FileEntry(_, e, st) => Decide(reg, e.ino, e.name, st).StatFailed?
  }

  /** Whether a file event is kept. */
  predicate Keeps(reg: Registry, ev: Event)
  {
    ev.FileEntry? && Decide(reg, ev.ent.ino, ev.ent.name, ev.stat) == Accept
  }

  /** The exception an aborting event raises. */
  function ErrorOf(reg: Registry, ev: Event): FinderError
    requires Aborts(reg, ev)
  {
    match ev
    case EndOfListing(_, end) => ReadFailure(end.reason)
    case FileEntry(_, e, st) => StatFailure(st.reason)
  }

  /** The paths of the kept file events, in trace order. */
  function Accepted(reg: Registry, root: Path, t: seq<Event>): (ps: seq<Path>)
    ensures forall i :: 0 <= i < |t| && Keeps(reg, t[i]) ==> FilePath(root, t[i]) in ps
    ensures forall p :: p in ps ==> exists i :: 0 <= i < |t| && Keeps(reg, t[i]) && p == FilePath(root, t[i])
  {
    if |t| == 0 then []
    else
      var rest := Accepted(reg, root, t[1..]);
      assert forall i :: 1 <= i < |t| ==> t[i] == t[1..][i - 1];
      if Keeps(reg, t[0]) then [FilePath(root, t[0])] + rest else rest
  }

  /** Feeding a trace through the match decision with an accumulator. */
  function Replay(reg: Registry, root: Path, found: seq<Path>, t: seq<Event>): (res: Result<seq<Path>, FinderError>)
    ensures res.Ok? <==> forall i :: 0 <= i < |t| ==> !Aborts(reg, t[i])
    ensures res.Ok? ==> res.value == found + Accepted(reg, root, t)
    ensures res.Err? ==> exists i :: && 0 <= i < |t|
                                     && Aborts(reg, t[i])
                                     && res.error == ErrorOf(reg, t[i])
                                     && forall j :: 0 <= j < i ==> !Aborts(reg, t[j])
    decreases |t|
  {
    if |t| == 0 then Ok(found)
    else
      var res := match t[0]
        case EndOfListing(_, end) =>
          (match end
           case EndOfDir => Replay(reg, root, found, t[1..])
           case ReadError(reason) => Err(ReadFailure(reason)))
        case FileEntry(rel, e, st) =>
          (match Decide(reg, e.ino, e.name, st)
           case Accept => Replay(reg, root, found + [FilePath(root, t[0])], t[1..])
           case Reject => Replay(reg, root, found, t[1..])
           case StatFailed(reason) => Err(StatFailure(reason)));
      assert forall i :: 1 <= i < |t| ==> t[i] == t[1..][i - 1];
      res
  }

  // ---------------------------------------------------------------------
  // The scan replays the trace

  /** Replaying two traces one after the other: the second starts from the
      accumulator the first left, unless the first aborted. */
  lemma {:induction false} ReplayAppend(reg: Registry, root: Path, found: seq<Path>, t1: seq<Event>, t2: seq<Event>)
    ensures Replay(reg, root, found, t1 + t2) ==
              match Replay(reg, root, found, t1)
              case Ok(found') => Replay(reg, root, found', t2)
              case Err(e) => Err(e)
    decreases |t1|
  {
    if |t1| == 0 {
      assert t1 + t2 == t2;
    } else {
      assert (t1 + t2)[0] == t1[0];
      assert (t1 + t2)[1..] == t1[1..] + t2;
      match t1[0]
      case EndOfListing(_, _) =>
        ReplayAppend(reg, root, found, t1[1..], t2);
      case FileEntry(rel, e, st) =>
        ReplayAppend(reg, root, found, t1[1..], t2);
        ReplayAppend(reg, root, found + [Join(JoinAll(root, rel), e.name)], t1[1..], t2);
    }
  }

  lemma JoinAllSnoc(root: Path, rel: seq<string>, name: string)
    ensures JoinAll(root, rel + [name]) == Join(JoinAll(root, rel), name)
  {
    assert (rel + [name])[..|rel|] == rel;
  }

  /** `visit_rec` on a directory does what replaying its trace does. */
  lemma {:induction false} VisitRecReplays(reg: Registry, root: Path, rel: seq<string>, found: seq<Path>, d: Dir)
    requires WellFormed(d)
    ensures VisitRec(reg, found, JoinAll(root, rel), d) == Replay(reg, root, found, Trace(rel, d))
    decreases d, 2, 0, 0, 0
  {
    ReadLoopReplays(reg, root, rel, found, d, 0);
  }

  lemma {:induction false} ReadLoopReplays(reg: Registry, root: Path, rel: seq<string>, found: seq<Path>, d: Dir, k: nat)
    requires WellFormed(d) && k <= |d.batches|
    ensures ReadLoop(reg, found, JoinAll(root, rel), d, k) == Replay(reg, root, found, TraceBatches(rel, d, k))
    decreases d, 1, |d.batches| - k, 0, 0
  {
    var path := JoinAll(root, rel);
    if k == |d.batches| {
      ReadLoopEndReplays(reg, root, rel, found, d);
    } else {
      var here, later := TraceCells(rel, d, k, 0), TraceBatches(rel, d, k + 1);
      assert TraceBatches(rel, d, k) == here + later;
      ScanBatchReplays(reg, root, rel, found, d, k, 0);
      ReplayAppend(reg, root, found, here, later);
      var r := ScanBatch(reg, found, path, d, k, 0);
      if r.Ok? {
        assert ReadLoop(reg, found, path, d, k) == ReadLoop(reg, r.value, path, d, k + 1);
        ReadLoopReplays(reg, root, rel, r.value, d, k + 1);
      } else {
        assert ReadLoop(reg, found, path, d, k) == Err(r.error);
      }
    }
  }

  /** The read that ends the loop is the last event of the directory. */
  lemma ReadLoopEndReplays(reg: Registry, root: Path, rel: seq<string>, found: seq<Path>, d: Dir)
    requires WellFormed(d)
    ensures ReadLoop(reg, found, JoinAll(root, rel), d, |d.batches|) ==
              Replay(reg, root, found, TraceBatches(rel, d, |d.batches|))
  {
    var t := TraceBatches(rel, d, |d.batches|);
    assert t == [EndOfListing(rel, d.end)];
    assert t[1..] == [];
  }

  lemma {:induction false} ScanBatchReplays(reg: Registry, root: Path, rel: seq<string>, found: seq<Path>, d: Dir, k: nat, off: nat)
    requires WellFormed(d) && k < |d.batches| && Packed(d.batches[k].cells, off)
    ensures ScanBatch(reg, found, JoinAll(root, rel), d, k, off) == Replay(reg, root, found, TraceCells(rel, d, k, off))
    decreases d, 0, |d.batches| - k, |d.batches[k].cells| - off, 1
  {
    var cells := d.batches[k].cells;
    if off < |cells| {
      var e := cells[off].ent;
      var next := off + e.reclen;
      if !IsDot(e.name) && e.ftype.Regular? {
        ScanFileReplays(reg, root, rel, found, d, k, off);
      } else if !IsDot(e.name) && e.ftype.Directory? {
        ScanSubdirReplays(reg, root, rel, found, d, k, off);
      } else {
        assert ScanBatch(reg, found, JoinAll(root, rel), d, k, off) == ScanBatch(reg, found, JoinAll(root, rel), d, k, next);
        assert TraceCells(rel, d, k, off) == TraceCells(rel, d, k, next);
        ScanBatchReplays(reg, root, rel, found, d, k, next);
      }
    }
  }

  /** The cursor on a regular file that is not a dot entry. */
  lemma {:induction false} ScanFileReplays(reg: Registry, root: Path, rel: seq<string>, found: seq<Path>, d: Dir, k: nat, off: nat)
    requires WellFormed(d) && k < |d.batches| && Packed(d.batches[k].cells, off)
    requires off < |d.batches[k].cells|
    requires !IsDot(d.batches[k].cells[off].ent.name) && d.batches[k].cells[off].ent.ftype.Regular?
    ensures ScanBatch(reg, found, JoinAll(root, rel), d, k, off) == Replay(reg, root, found, TraceCells(rel, d, k, off))
    decreases d, 0, |d.batches| - k, |d.batches[k].cells| - off, 0
  {
    var path := JoinAll(root, rel);
    var e := d.batches[k].cells[off].ent;
    var next := off + e.reclen;
    var ev := FileEntry(rel, e, d.stat);
    var rest := TraceCells(rel, d, k, next);
    assert TraceCells(rel, d, k, off) == [ev] + rest;
    assert ([ev] + rest)[0] == ev && ([ev] + rest)[1..] == rest;
    match Decide(reg, e.ino, e.name, d.stat) {
      case Accept =>
        ScanBatchReplays(reg, root, rel, found + [Join(path, e.name)], d, k, next);
      case Reject =>
        ScanBatchReplays(reg, root, rel, found, d, k, next);
      case StatFailed(_) =>
    }
  }

  /** The cursor on a subdirectory that is not a dot entry. */
  lemma {:induction false} ScanSubdirReplays(reg: Registry, root: Path, rel: seq<string>, found: seq<Path>, d: Dir, k: nat, off: nat)
    requires WellFormed(d) && k < |d.batches| && Packed(d.batches[k].cells, off)
    requires off < |d.batches[k].cells|
    requires !IsDot(d.batches[k].cells[off].ent.name) && d.batches[k].cells[off].ent.ftype.Directory?
    ensures ScanBatch(reg, found, JoinAll(root, rel), d, k, off) == Replay(reg, root, found, TraceCells(rel, d, k, off))
    decreases d, 0, |d.batches| - k, |d.batches[k].cells| - off, 0
  {
    var path := JoinAll(root, rel);
    var e := d.batches[k].cells[off].ent;
    var next := off + e.reclen;
    var sub := e.ftype.contents;
    var rest := TraceCells(rel, d, k, next);
    assert TraceCells(rel, d, k, off) == SubTrace(rel, e.name, sub) + rest;
    JoinAllSnoc(root, rel, e.name);
    VisitRecReplays(reg, root, rel + [e.name], found, sub);
    ReplayAppend(reg, root, found, SubTrace(rel, e.name, sub), rest);
    match VisitRec(reg, found, Join(path, e.name), sub) {
      case Err(_) =>
      case Ok(found') =>
        ScanBatchReplays(reg, root, rel, found', d, k, next);
    }
  }

  // ---------------------------------------------------------------------
  // `visit` and what it promises

  /** `visit(path)`: the scan of the root directory from an empty
      accumulator. An exception escapes before the accumulator is returned,
      so an aborted scan yields no paths at all. */
  function Visit(reg: Registry, root: Path, d: Dir): (res: Result<seq<Path>, FinderError>)
    requires WellFormed(d)
    ensures var t := Trace([], d);
            res.Ok? <==> forall i :: 0 <= i < |t| ==> !Aborts(reg, t[i])
    ensures var t := Trace([], d);
            res.Ok? ==> res.value == Accepted(reg, root, t)
    ensures var t := Trace([], d);
            res.Err? ==> exists i :: && 0 <= i < |t|
                                     && Aborts(reg, t[i])
                                     && res.error == ErrorOf(reg, t[i])
                                     && forall j :: 0 <= j < i ==> !Aborts(reg, t[j])
  {
    VisitRecReplays(reg, root, [], [], d);
    VisitRec(reg, [], root, d)
  }

  /** The accumulator is only ever extended: scanning with earlier results
      in it appends exactly what a scan from empty finds, and fails the same
      way. */
  lemma AccumulatorOnlyExtends(reg: Registry, found: seq<Path>, path: Path, d: Dir)
    requires WellFormed(d)
    ensures VisitRec(reg, found, path, d).Ok? <==> VisitRec(reg, [], path, d).Ok?
    ensures VisitRec(reg, found, path, d).Ok? ==>
              VisitRec(reg, found, path, d).value == found + VisitRec(reg, [], path, d).value
    ensures VisitRec(reg, found, path, d).Err? ==>
              VisitRec(reg, found, path, d).error == VisitRec(reg, [], path, d).error
  {
    var t := Trace([], d);
    VisitRecReplays(reg, path, [], found, d);
    VisitRecReplays(reg, path, [], [], d);
    var r1 := Replay(reg, path, found, t);
    var r0 := Replay(reg, path, [], t);
    if r1.Err? {
      var i1 :| 0 <= i1 < |t| && Aborts(reg, t[i1]) && r1.error == ErrorOf(reg, t[i1])
                && forall j :: 0 <= j < i1 ==> !Aborts(reg, t[j]);
      var i0 :| 0 <= i0 < |t| && Aborts(reg, t[i0]) && r0.error == ErrorOf(reg, t[i0])
                && forall j :: 0 <= j < i0 ==> !Aborts(reg, t[j]);
      assert i1 == i0;
    }
  }

  /** `p` is the path of a kept file event whose chain of names, from the
      scanned directory down to the file, holds no "." or "..". */
  predicate ReachedAvoidingDots(reg: Registry, root: Path, t: seq<Event>, p: Path)
  {
    exists i :: && 0 <= i < |t|
                && Keeps(reg, t[i])
                && NoDotsFrom(t[i].rel + [t[i].ent.name], 0)
                && p == FilePath(root, t[i])
  }

  /** Every reported path is reached through names none of which is "." or
      "..": the scan neither reports nor descends into dot entries, at any
      depth. */
  lemma ResultsAvoidDots(reg: Registry, root: Path, d: Dir)
    requires WellFormed(d) && Visit(reg, root, d).Ok?
    ensures forall p :: p in Visit(reg, root, d).value ==> ReachedAvoidingDots(reg, root, Trace([], d), p)
  {
    var t := Trace([], d);
    forall p | p in Visit(reg, root, d).value
      ensures ReachedAvoidingDots(reg, root, t, p)
    {
      var i :| 0 <= i < |t| && Keeps(reg, t[i]) && p == FilePath(root, t[i]);
      assert EventBelow(t[i], []);
      assert NoDotsFrom(t[i].rel + [t[i].ent.name], 0);
    }
  }

  /** A name joined below any descendant of `root` lies under `root`. */
  lemma {:induction false} JoinBelowRoot(root: Path, rel: seq<string>, name: string)
    ensures root + "/" <= Join(JoinAll(root, rel), name)
    decreases |rel|
  {
    if |rel| > 0 {
      var up := rel[..|rel| - 1];
      JoinBelowRoot(root, up, rel[|rel| - 1]);
      assert JoinAll(root, rel) == Join(JoinAll(root, up), rel[|rel| - 1]);
      assert Join(JoinAll(root, rel), name) == JoinAll(root, rel) + ("/" + name);
    }
  }

  /** Every reported path lies under the scanned root. */
  lemma ResultsUnderRoot(reg: Registry, root: Path, d: Dir)
    requires WellFormed(d) && Visit(reg, root, d).Ok?
    ensures forall p :: p in Visit(reg, root, d).value ==> root + "/" <= p
  {
    var t := Trace([], d);
    forall p | p in Visit(reg, root, d).value
      ensures root + "/" <= p
    {
      var i :| 0 <= i < |t| && Keeps(reg, t[i]) && p == FilePath(root, t[i]);
      JoinBelowRoot(root, t[i].rel, t[i].ent.name);
    }
  }

  /** `p` is the path of a regular-file event of `t` the registry accepts. */
  predicate AcceptedRegularIn(reg: Registry, root: Path, t: seq<Event>, p: Path)
  {
    exists i :: && 0 <= i < |t|
                && t[i].FileEntry?
                && t[i].ent.ftype.Regular?
                && Decide(reg, t[i].ent.ino, t[i].ent.name, t[i].stat) == Accept
                && p == FilePath(root, t[i])
  }

  /** Every reported path names a regular file the registry accepts. */
  lemma ResultsAreAcceptedRegularFiles(reg: Registry, root: Path, d: Dir)
    requires WellFormed(d) && Visit(reg, root, d).Ok?
    ensures forall p :: p in Visit(reg, root, d).value ==> AcceptedRegularIn(reg, root, Trace([], d), p)
  {
    var t := Trace([], d);
    forall p | p in Visit(reg, root, d).value
      ensures AcceptedRegularIn(reg, root, t, p)
    {
      var i :| 0 <= i < |t| && Keeps(reg, t[i]) && p == FilePath(root, t[i]);
      assert EventBelow(t[i], []);
    }
  }

  /** No directory read failed anywhere in the trace. */
  predicate ReadsCleanly(t: seq<Event>)
  {
    forall i :: 0 <= i < |t| && t[i].EndOfListing? ==> t[i].end == EndOfDir
  }

  /** Without size or link-count filters no metadata query is made, so only
      a failed directory read can abort the scan. */
  lemma OnlyReadsFailWithoutMetaFilters(reg: Registry, root: Path, d: Dir)
    requires WellFormed(d) && !NeedsStat(reg)
    ensures Visit(reg, root, d).Ok? <==> ReadsCleanly(Trace([], d))
  {
    var t := Trace([], d);
    forall i | 0 <= i < |t|
      ensures Aborts(reg, t[i]) <==> t[i].EndOfListing? && t[i].end.ReadError?
    {
      if t[i].FileEntry? {
        NoStatWithoutMetaFilters(reg, t[i].ent.ino, t[i].ent.name, t[i].stat, t[i].stat);
      }
    }
  }

  /** A finder without filters reports every regular file it meets, in
      trace order, unless a directory read fails. */
  lemma FreshFindsEveryRegularFile(root: Path, d: Dir)
    requires WellFormed(d)
    ensures Visit(Fresh(), root, d).Ok? <==> ReadsCleanly(Trace([], d))
    ensures var t := Trace([], d);
            Visit(Fresh(), root, d).Ok? ==>
              forall i :: 0 <= i < |t| && t[i].FileEntry? ==> FilePath(root, t[i]) in Visit(Fresh(), root, d).value
  {
    var t := Trace([], d);
    OnlyReadsFailWithoutMetaFilters(Fresh(), root, d);
    forall i | 0 <= i < |t| && t[i].FileEntry?
      ensures Keeps(Fresh(), t[i])
    {
      FreshAcceptsEveryFile(t[i].ent.ino, t[i].ent.name, t[i].stat);
    }
  }

  // ---------------------------------------------------------------------
  // What the scan considers inside one directory

  /** The events that belong to the directory at `rel` itself. */
  function AtLevel(t: seq<Event>, rel: seq<string>): (own: seq<Event>)
    ensures forall i :: 0 <= i < |own| ==> own[i].rel == rel
  {
    if |t| == 0 then []
    else (if t[0].rel == rel then [t[0]] else []) + AtLevel(t[1..], rel)
  }

  /** The file events a listing gives rise to: one per regular record
      whose name is not a dot, in listing order. */
  function RegularEvents(rel: seq<string>, es: seq<Dirent>, stat: StatResult): seq<Event>
  {
    if |es| == 0 then []
    else
      (if es[0].ftype.Regular? && !IsDot(es[0].name) then [FileEntry(rel, es[0], stat)] else [])
      + RegularEvents(rel, es[1..], stat)
  }

  lemma {:induction false} AtLevelAppend(t1: seq<Event>, t2: seq<Event>, rel: seq<string>)
    ensures AtLevel(t1 + t2, rel) == AtLevel(t1, rel) + AtLevel(t2, rel)
    decreases |t1|
  {
    if |t1| > 0 {
      assert (t1 + t2)[0] == t1[0];
      assert (t1 + t2)[1..] == t1[1..] + t2;
      AtLevelAppend(t1[1..], t2, rel);
    } else {
      assert t1 + t2 == t2;
    }
  }

  lemma {:induction false} AtLevelNone(t: seq<Event>, rel: seq<string>)
    requires forall i :: 0 <= i < |t| ==> t[i].rel != rel
    ensures AtLevel(t, rel) == []
    decreases |t|
  {
    if |t| > 0 {
      assert forall i :: 1 <= i < |t| ==> t[1..][i - 1] == t[i];
      AtLevelNone(t[1..], rel);
    }
  }

  lemma {:induction false} RegularEventsAppend(rel: seq<string>, es1: seq<Dirent>, es2: seq<Dirent>, stat: StatResult)
    ensures RegularEvents(rel, es1 + es2, stat) == RegularEvents(rel, es1, stat) + RegularEvents(rel, es2, stat)
    decreases |es1|
  {
    if |es1| > 0 {
      assert (es1 + es2)[0] == es1[0];
      assert (es1 + es2)[1..] == es1[1..] + es2;
      RegularEventsAppend(rel, es1[1..], es2, stat);
    } else {
      assert es1 + es2 == es2;
    }
  }

  /** A subdirectory's trace has no event at its parent's level. */
  lemma SubTraceLeavesLevel(rel: seq<string>, name: string, sub: Dir)
    requires WellFormed(sub) && !IsDot(name)
    ensures AtLevel(SubTrace(rel, name, sub), rel) == []
  {
    var t := Trace(rel + [name], sub);
    forall i | 0 <= i < |t|
      ensures t[i].rel != rel
    {
      assert EventBelow(t[i], rel + [name]);
    }
    AtLevelNone(t, rel);
  }

  lemma {:induction false} CellsAtLevel(rel: seq<string>, d: Dir, k: nat, off: nat)
    requires WellFormed(d) && k < |d.batches| && Packed(d.batches[k].cells, off)
    ensures AtLevel(TraceCells(rel, d, k, off), rel) == RegularEvents(rel, Walk(d.batches[k].cells, off), d.stat)
    decreases |d.batches[k].cells| - off
  {
    var cells := d.batches[k].cells;
    if off < |cells| {
      var e := cells[off].ent;
      var next := off + e.reclen;
      var rest := TraceCells(rel, d, k, next);
      var es := Walk(cells, off);
      assert es[0] == e && es[1..] == Walk(cells, next);
      CellsAtLevel(rel, d, k, next);
      if !IsDot(e.name) && e.ftype.Regular? {
        var ev := FileEntry(rel, e, d.stat);
        assert TraceCells(rel, d, k, off) == [ev] + rest;
        AtLevelAppend([ev], rest, rel);
        assert AtLevel([ev], rel) == [ev];
      } else if !IsDot(e.name) && e.ftype.Directory? {
        assert TraceCells(rel, d, k, off) == SubTrace(rel, e.name, e.ftype.contents) + rest;
        AtLevelAppend(SubTrace(rel, e.name, e.ftype.contents), rest, rel);
        SubTraceLeavesLevel(rel, e.name, e.ftype.contents);
      } else {
        assert TraceCells(rel, d, k, off) == rest;
      }
    }
  }

  lemma {:induction false} BatchesAtLevel(rel: seq<string>, d: Dir, k: nat)
    requires WellFormed(d) && k <= |d.batches|
    ensures AtLevel(TraceBatches(rel, d, k), rel)
            == RegularEvents(rel, Listing(d, k), d.stat) + [EndOfListing(rel, d.end)]
    decreases |d.batches| - k
  {
    if k == |d.batches| {
      assert AtLevel([EndOfListing(rel, d.end)], rel) == [EndOfListing(rel, d.end)];
    } else {
      var cells := d.batches[k].cells;
      CellsAtLevel(rel, d, k, 0);
      BatchesAtLevel(rel, d, k + 1);
      AtLevelAppend(TraceCells(rel, d, k, 0), TraceBatches(rel, d, k + 1), rel);
      RegularEventsAppend(rel, Walk(cells, 0), Listing(d, k + 1), d.stat);
    }
  }

  /** Inside one directory the scan considers exactly the regular records
      of its listing that are not dot entries, in the order the cursor
      reads them batch after batch, each with the directory's own metadata,
      and then meets the end of the directory's read loop. */
  lemma DirectoryLevel(rel: seq<string>, d: Dir)
    requires WellFormed(d)
    ensures AtLevel(Trace(rel, d), rel) == RegularEvents(rel, Listing(d, 0), d.stat) + [EndOfListing(rel, d.end)]
  {
    BatchesAtLevel(rel, d, 0);
  }

  // ---------------------------------------------------------------------
  // Which subdirectories the scan enters

  /** The names of the subdirectories of the directory at `rel` whose read
      loop the trace reaches the end of, in trace order. */
  function Entered(t: seq<Event>, rel: seq<string>): seq<string>
  {
    if |t| == 0 then []
    else
      (if t[0].EndOfListing? && |t[0].rel| == |rel| + 1 then [t[0].rel[|rel|]] else [])
      + Entered(t[1..], rel)
  }

  /** The names of the directory records of a listing that are not dots. */
  function DirNames(es: seq<Dirent>): seq<string>
  {
    if |es| == 0 then []
    else (if es[0].ftype.Directory? && !IsDot(es[0].name) then [es[0].name] else []) + DirNames(es[1..])
  }

  lemma {:induction false} EnteredAppend(t1: seq<Event>, t2: seq<Event>, rel: seq<string>)
    ensures Entered(t1 + t2, rel) == Entered(t1, rel) + Entered(t2, rel)
    decreases |t1|
  {
    if |t1| > 0 {
      assert (t1 + t2)[0] == t1[0];
      assert (t1 + t2)[1..] == t1[1..] + t2;
      EnteredAppend(t1[1..], t2, rel);
    } else {
      assert t1 + t2 == t2;
    }
  }

  lemma {:induction false} DirNamesAppend(es1: seq<Dirent>, es2: seq<Dirent>)
    ensures DirNames(es1 + es2) == DirNames(es1) + DirNames(es2)
    decreases |es1|
  {
    if |es1| > 0 {
      assert (es1 + es2)[0] == es1[0];
      assert (es1 + es2)[1..] == es1[1..] + es2;
      DirNamesAppend(es1[1..], es2);
    } else {
      assert es1 + es2 == es2;
    }
  }

  /** File events enter no directory. */
  lemma {:induction false} RegularEventsEnterNothing(rel: seq<string>, es: seq<Dirent>, stat: StatResult, at: seq<string>)
    ensures Entered(RegularEvents(rel, es, stat), at) == []
    decreases |es|
  {
    if |es| > 0 {
      var head := if es[0].ftype.Regular? && !IsDot(es[0].name) then [FileEntry(rel, es[0], stat)] else [];
      EnteredAppend(head, RegularEvents(rel, es[1..], stat), at);
      RegularEventsEnterNothing(rel, es[1..], stat, at);
      if |head| > 0 {
        assert head[1..] == [];
      }
    }
  }

  /** Below the child `rel + [name]`, only that child's own events can be
      entries into children of `rel`. */
  lemma {:induction false} EnteredBelow(t: seq<Event>, rel: seq<string>, name: string)
    requires forall i :: 0 <= i < |t| ==> rel + [name] <= t[i].rel
    ensures Entered(t, rel) == Entered(AtLevel(t, rel + [name]), rel)
    decreases |t|
  {
    if |t| > 0 {
      assert forall i :: 1 <= i < |t| ==> t[1..][i - 1] == t[i];
      EnteredBelow(t[1..], rel, name);
      var head := if t[0].rel == rel + [name] then [t[0]] else [];
      EnteredAppend(head, AtLevel(t[1..], rel + [name]), rel);
      if |t[0].rel| == |rel| + 1 {
        assert t[0].rel == rel + [name];
      }
      if |head| > 0 {
        assert head[1..] == [];
      }
    }
  }

  /** The scan of a subdirectory `name` enters exactly that directory. */
  lemma SubTraceEntersOnce(rel: seq<string>, name: string, sub: Dir)
    requires WellFormed(sub) && !IsDot(name)
    ensures Entered(SubTrace(rel, name, sub), rel) == [name]
  {
    var t := Trace(rel + [name], sub);
    forall i | 0 <= i < |t|
      ensures rel + [name] <= t[i].rel
    {
      assert EventBelow(t[i], rel + [name]);
    }
    EnteredBelow(t, rel, name);
    DirectoryLevel(rel + [name], sub);
    var files := RegularEvents(rel + [name], Listing(sub, 0), sub.stat);
    var last := [EndOfListing(rel + [name], sub.end)];
    EnteredAppend(files, last, rel);
    RegularEventsEnterNothing(rel + [name], Listing(sub, 0), sub.stat, rel);
    assert last[1..] == [];
  }

  lemma {:induction false} CellsEntered(rel: seq<string>, d: Dir, k: nat, off: nat)
    requires WellFormed(d) && k < |d.batches| && Packed(d.batches[k].cells, off)
    ensures Entered(TraceCells(rel, d, k, off), rel) == DirNames(Walk(d.batches[k].cells, off))
    decreases |d.batches[k].cells| - off
  {
    var cells := d.batches[k].cells;
    if off < |cells| {
      var e := cells[off].ent;
      var next := off + e.reclen;
      var rest := TraceCells(rel, d, k, next);
      var es := Walk(cells, off);
      assert es[0] == e && es[1..] == Walk(cells, next);
      CellsEntered(rel, d, k, next);
      if !IsDot(e.name) && e.ftype.Regular? {
        var ev := FileEntry(rel, e, d.stat);
        assert TraceCells(rel, d, k, off) == [ev] + rest;
        EnteredAppend([ev], rest, rel);
        assert [ev][1..] == [];
      } else if !IsDot(e.name) && e.ftype.Directory? {
        assert TraceCells(rel, d, k, off) == SubTrace(rel, e.name, e.ftype.contents) + rest;
        EnteredAppend(SubTrace(rel, e.name, e.ftype.contents), rest, rel);
        SubTraceEntersOnce(rel, e.name, e.ftype.contents);
      } else {
        assert TraceCells(rel, d, k, off) == rest;
      }
    }
  }

  lemma {:induction false} BatchesEntered(rel: seq<string>, d: Dir, k: nat)
    requires WellFormed(d) && k <= |d.batches|
    ensures Entered(TraceBatches(rel, d, k), rel) == DirNames(Listing(d, k))
    decreases |d.batches| - k
  {
    if k == |d.batches| {
      assert [EndOfListing(rel, d.end)][1..] == [];
    } else {
      var cells := d.batches[k].cells;
      CellsEntered(rel, d, k, 0);
      BatchesEntered(rel, d, k + 1);
      EnteredAppend(TraceCells(rel, d, k, 0), TraceBatches(rel, d, k + 1), rel);
      DirNamesAppend(Walk(cells, 0), Listing(d, k + 1));
    }
  }

  /** The scan enters exactly the directory records of the listing that
      are not dot entries, each once, in the order the cursor reads them;
      records of any other type are not entered. */
  lemma EntersEverySubdirectory(rel: seq<string>, d: Dir)
    requires WellFormed(d)
    ensures Entered(Trace(rel, d), rel) == DirNames(Listing(d, 0))
  {
    BatchesEntered(rel, d, 0);
  }
}
