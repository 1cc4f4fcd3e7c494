/** The file store the organizer acts on, the file-system calls it makes (each
    failing or not as a failure oracle decides), and the three per-file batches
    (move into month folders, delete, list) as functions of the store before
    them. The mutating methods in module Organizer are proved equal to these. */
module Batch {
  import opened Paths

  /** The file store: each file's metadata by path, and the directories that exist. */
  datatype Disk = Disk(files: map<Path, Entry>, dirs: set<Dir>)

  /** Every stored `st_ctime` month can be printed as `YYYY-MM`. */
  predicate ValidDisk(d: Disk) {
    forall p :: p in d.files ==> ValidMonth(d.files[p].ctime)
  }

  /** Which calls fail, and with which message: creating a directory, moving a
      file (by its source path), deleting a file. */
  datatype Oracle = Oracle(mkdirFails: map<Dir, string>, moveFails: map<Path, string>, unlinkFails: map<Path, string>)

  /** The reported outcome of one file's move or delete. */
  datatype Outcome = Success | Failure(reason: string)

  /** One line of the per-file report. */
  datatype Line =
    | Moved(name: string, dest: Dir, outcome: Outcome)
    | Deleted(name: string, outcome: Outcome)
    | Listed(name: string, size: nat)

  datatype Result<T> = Ok(value: T) | Err(reason: string)

  /** The message of the error raised for a path that is not in the store. */
  const NoSuchFile: string := "No such file or directory"

  /** A batch in progress: the store, the report so far, and the error that
      escaped the loop, if one did (it ends the batch and the program). */
  datatype Progress = Progress(disk: Disk, lines: seq<Line>, abort: Option<string>)

  /** mkdir with exist_ok: an existing directory is no error; otherwise the
      oracle decides whether the directory can be created. */
  function Mkdir(d: Disk, dir: Dir, o: Oracle): (r: Result<Disk>)
    ensures r.Err? <==> dir !in d.dirs && dir in o.mkdirFails
    ensures r.Ok? ==> r.value.files == d.files && r.value.dirs == d.dirs + {dir}
  {
    if dir in d.dirs then Ok(d)
    else if dir in o.mkdirFails then Err(o.mkdirFails[dir])
    else Ok(d.(dirs := d.dirs + {dir}))
  }

  /** move(src, dst): when it succeeds, the entry leaves src and lands on dst,
      replacing whatever dst held. */
  function Move(d: Disk, src: Path, dst: Path, o: Oracle): (r: (Disk, Outcome))
    requires src in d.files
    ensures r.1.Success? <==> src !in o.moveFails
    ensures r.1.Failure? ==> r.0 == d
    ensures r.1.Success? ==>
      r.0.dirs == d.dirs && dst in r.0.files && r.0.files[dst] == d.files[src] && (src != dst ==> src !in r.0.files)
    ensures forall p :: p != src && p != dst ==>
      (p in r.0.files <==> p in d.files) && (p in d.files ==> r.0.files[p] == d.files[p])
  {
    if src in o.moveFails then (d, Failure(o.moveFails[src]))
    else (d.(files := (d.files - {src})[dst := d.files[src]]), Success)
  }

  /** unlink(p): fails for a path that is not in the store, or when the oracle says so. */
  function Unlink(d: Disk, p: Path, o: Oracle): (r: (Disk, Outcome))
    ensures r.1.Success? <==> p in d.files && p !in o.unlinkFails
    ensures r.0.dirs == d.dirs
    ensures r.0.files == if r.1.Success? then d.files - {p} else d.files
  {
    if p !in d.files then (d, Failure(NoSuchFile))
    else if p in o.unlinkFails then (d, Failure(o.unlinkFails[p]))
    else (d.(files := d.files - {p}), Success)
  }

  // ---------------------------------------------------------------- move

  /** One file of the move batch: read its `st_ctime` month (an error if the file
      is gone), create its month folder (an error if that fails), then try the
      move, whose failure is only reported. Nothing happens once the batch has aborted. */
  function MoveStep(b: Progress, root: Dir, p: Path, o: Oracle): (r: Progress)
    requires ValidDisk(b.disk)
    ensures ValidDisk(r.disk)
  {
    if b.abort.Some? then b
    else if p !in b.disk.files then b.(abort := Some(NoSuchFile))
    else
      var dir := MonthDir(root, b.disk.files[p].ctime);
      match Mkdir(b.disk, dir, o)
      case Err(e) => b.(abort := Some(e))
      case Ok(d1) =>
        var (d2, out) := Move(d1, p, Path(dir, p.name), o);
        Progress(d2, b.lines + [Moved(p.name, dir, out)], None)
  }

  /** The move loop over the files in order, from a given start. */
  function MoveLoop(start: Progress, root: Dir, list: seq<Path>, o: Oracle): (b: Progress)
    requires ValidDisk(start.disk)
    ensures ValidDisk(b.disk)
    ensures start.abort.Some? ==> b == start
    ensures start.disk.dirs <= b.disk.dirs
    ensures |start.lines| <= |b.lines| <= |start.lines| + |list| && b.lines[..|start.lines|] == start.lines
    decreases |list|
  {
    if list == [] then start
    else MoveStep(MoveLoop(start, root, list[..|list| - 1], o), root, list[|list| - 1], o)
  }

  /** The whole move action: create the destination root, then the loop. */
  function MoveAction(d: Disk, root: Dir, list: seq<Path>, o: Oracle): (b: Progress)
    requires ValidDisk(d)
    ensures ValidDisk(b.disk)
    ensures root !in d.dirs && root in o.mkdirFails ==> b == Progress(d, [], Some(o.mkdirFails[root]))
    ensures b.abort.None? ==> root in b.disk.dirs
    ensures |b.lines| <= |list|
  {
    match Mkdir(d, root, o)
    case Err(e) => Progress(d, [], Some(e))
    case Ok(d1) => MoveLoop(Progress(d1, [], None), root, list, o)
  }

  /** The month folder of p exists or can be created. */
  predicate MonthReady(d: Disk, root: Dir, p: Path, o: Oracle)
    requires ValidDisk(d) && p in d.files
  {
    var dir := MonthDir(root, d.files[p].ctime);
    dir in d.dirs || dir !in o.mkdirFails
  }

  /** What one step of the move batch does to the batch it is given. */
  lemma MoveStepEffect(b: Progress, root: Dir, p: Path, o: Oracle)
    requires ValidDisk(b.disk)
    ensures var r := MoveStep(b, root, p, o);
      && b.disk.dirs <= r.disk.dirs
      && (b.abort.Some? ==> r == b)
      && (r.abort.Some? ==> r.lines == b.lines && r.disk == b.disk)
      && (b.abort.None? && p in b.disk.files && MonthReady(b.disk, root, p, o) ==> r.abort.None?)
      && (b.abort.None? && (p !in b.disk.files || !MonthReady(b.disk, root, p, o)) ==>
            r.abort == Some(if p !in b.disk.files then NoSuchFile
                            else o.mkdirFails[MonthDir(root, b.disk.files[p].ctime)]))
      && (r.abort.None? ==>
            && b.abort.None? && p in b.disk.files
            && var dir := MonthDir(root, b.disk.files[p].ctime);
            && r.lines == b.lines + [Moved(p.name, dir, if p in o.moveFails then Failure(o.moveFails[p]) else Success)]
            && r.disk.dirs == b.disk.dirs + {dir}
            && r.disk.files == if p in o.moveFails then b.disk.files
                               else (b.disk.files - {p})[Path(dir, p.name) := b.disk.files[p]])
  {
  }

  /** Once the move batch has aborted, the remaining files change nothing. */
  lemma {:induction false} MoveAbortPersists(start: Progress, root: Dir, list: seq<Path>, o: Oracle, i: nat)
    requires ValidDisk(start.disk) && i <= |list|
    requires MoveLoop(start, root, list[..i], o).abort.Some?
    ensures MoveLoop(start, root, list, o) == MoveLoop(start, root, list[..i], o)
    decreases |list| - i
  {
    if i < |list| {
      var prev := list[..|list| - 1];
      assert prev[..i] == list[..i];
      MoveAbortPersists(start, root, prev, o, i);
    } else {
      assert list[..i] == list;
    }
  }

  /** The move report follows the list: line k is about the k-th file; without
      an abort there is one line per file, and an abort stops the batch at the
      file after the last reported one. The store's directories only grow. */
  predicate MoveShaped(start: Progress, list: seq<Path>, b: Progress) {
    && |b.lines| <= |list|
    && (b.abort.None? ==> |b.lines| == |list|)
    && (b.abort.Some? ==> |b.lines| < |list|)
    && (forall k :: 0 <= k < |b.lines| ==> b.lines[k].Moved? && b.lines[k].name == list[k].name)
    && start.disk.dirs <= b.disk.dirs
  }

  /** One more file keeps the report in step with the list. */
  lemma ShapeStep(start: Progress, root: Dir, list: seq<Path>, o: Oracle, b0: Progress)
    requires list != [] && ValidDisk(b0.disk)
    requires MoveShaped(start, list[..|list| - 1], b0)
    ensures MoveShaped(start, list, MoveStep(b0, root, list[|list| - 1], o))
  {
    MoveStepEffect(b0, root, list[|list| - 1], o);
    forall k | 0 <= k < |b0.lines|
      ensures list[k] == list[..|list| - 1][k]
    {
    }
  }

  /** The move loop's report follows the list, file by file. */
  lemma {:induction false} MoveLoopShape(start: Progress, root: Dir, list: seq<Path>, o: Oracle)
    requires ValidDisk(start.disk) && start.abort.None? && start.lines == []
    ensures MoveShaped(start, list, MoveLoop(start, root, list, o))
    decreases |list|
  {
    if list != [] {
      var prev := list[..|list| - 1];
      MoveLoopShape(start, root, prev, o);
      ShapeStep(start, root, list, o, MoveLoop(start, root, prev, o));
    }
  }

  /** A path that is not in the list and not below the destination root is left
      exactly as it was by the move action, whatever happens to the batch. */
  lemma {:induction false} MoveLoopFrame(start: Progress, root: Dir, list: seq<Path>, o: Oracle, p: Path)
    requires ValidDisk(start.disk)
    requires p !in list && !BelowRoot(p, root)
    ensures var b := MoveLoop(start, root, list, o);
      (p in b.disk.files <==> p in start.disk.files) &&
      (p in start.disk.files ==> b.disk.files[p] == start.disk.files[p])
    decreases |list|
  {
    if list != [] {
      var prev := list[..|list| - 1];
      assert forall q :: q in prev ==> q in list;
      MoveLoopFrame(start, root, prev, o, p);
      var b0 := MoveLoop(start, root, prev, o);
      var q := list[|list| - 1];
      if b0.abort.None? && q in b0.disk.files {
        var dir := MonthDir(root, b0.disk.files[q].ctime);
        assert Path(dir, q.name) != p;
      }
    }
  }

  /** The frame of the whole move action, root creation included. */
  lemma MoveActionFrame(d: Disk, root: Dir, list: seq<Path>, o: Oracle, p: Path)
    requires ValidDisk(d)
    requires p !in list && !BelowRoot(p, root)
    ensures var b := MoveAction(d, root, list, o);
      (p in b.disk.files <==> p in d.files) && (p in d.files ==> b.disk.files[p] == d.files[p])
  {
    if Mkdir(d, root, o).Ok? {
      MoveLoopFrame(Progress(Mkdir(d, root, o).value, [], None), root, list, o, p);
    }
  }

  /** The conditions under which no error escapes the move loop: the listed
      files are distinct, all in the store and none below the destination root,
      and neither the root nor any of their month folders fails to be created. */
  predicate CleanMove(d: Disk, root: Dir, list: seq<Path>, o: Oracle)
    requires ValidDisk(d)
  {
    && (forall i, j :: 0 <= i < j < |list| ==> list[i] != list[j])
    && root !in o.mkdirFails
    && (forall p :: p in list ==>
          p in d.files && !BelowRoot(p, root) && MonthDir(root, d.files[p].ctime) !in o.mkdirFails)
  }

  /** The line the move batch reports for file p of the original store. */
  function MoveLine(d: Disk, root: Dir, p: Path, o: Oracle): Line
    requires ValidDisk(d) && p in d.files
  {
    Moved(p.name, MonthDir(root, d.files[p].ctime),
      if p in o.moveFails then Failure(o.moveFails[p]) else Success)
  }

  /** The state of a clean move batch after its first n files: no abort, one
      line per file with the file's own month folder and the oracle's verdict,
      the files not yet reached untouched, and the root and every month folder
      reached in place. */
  predicate CleanAfter(d: Disk, root: Dir, list: seq<Path>, o: Oracle, n: nat, b: Progress)
    requires ValidDisk(d) && n <= |list| && forall p :: p in list ==> p in d.files
  {
    && b.abort.None? && |b.lines| == n
    && (forall k :: 0 <= k < n ==> b.lines[k] == MoveLine(d, root, list[k], o))
    && (forall k :: n <= k < |list| ==> list[k] in b.disk.files && b.disk.files[list[k]] == d.files[list[k]])
    && root in b.disk.dirs
    && (forall k :: 0 <= k < n ==> MonthDir(root, d.files[list[k]].ctime) in b.disk.dirs)
    && (forall dir :: dir in b.disk.dirs && dir in o.mkdirFails ==> dir in d.dirs)
  }

  /** One more file of a clean move batch keeps it clean. */
  lemma CleanStep(d: Disk, root: Dir, list: seq<Path>, o: Oracle, n: nat, b0: Progress)
    requires ValidDisk(d) && CleanMove(d, root, list, o) && 0 < n <= |list|
    requires ValidDisk(b0.disk) && CleanAfter(d, root, list, o, n - 1, b0)
    ensures CleanAfter(d, root, list, o, n, MoveStep(b0, root, list[n - 1], o))
  {
    var p := list[n - 1];
    assert p in list;
    var dir := MonthDir(root, d.files[p].ctime);
    MoveStepEffect(b0, root, p, o);
    var b := MoveStep(b0, root, p, o);
    assert b.lines == b0.lines + [MoveLine(d, root, p, o)];
    var dst := Path(dir, p.name);
    assert BelowRoot(dst, root);
    forall k | n <= k < |list|
      ensures list[k] != p && list[k] != dst
    {
      assert list[k] in list;
    }
  }

  /** Move batch over a prefix of a clean list: it stays clean file by file. */
  lemma {:induction false} MoveLoopClean(d: Disk, start: Progress, root: Dir, list: seq<Path>, o: Oracle, n: nat)
    requires ValidDisk(d) && CleanMove(d, root, list, o) && n <= |list|
    requires start == Progress(d.(dirs := d.dirs + {root}), [], None)
    ensures CleanAfter(d, root, list, o, n, MoveLoop(start, root, list[..n], o))
    decreases n
  {
    if n == 0 {
      assert list[..0] == [];
    } else {
      assert list[..n][..n - 1] == list[..n - 1];
      assert list[..n][n - 1] == list[n - 1];
      MoveLoopClean(d, start, root, list, o, n - 1);
      var b0 := MoveLoop(start, root, list[..n - 1], o);
      assert MoveLoop(start, root, list[..n], o) == MoveStep(b0, root, list[n - 1], o);
      CleanStep(d, root, list, o, n, b0);
    }
  }

  /** A clean move action reports every file, in order, with the folder
      root/YYYY-MM of its `st_ctime` month, and fails only where the move itself
      fails: one file's failure does not stop the others. */
  lemma MoveActionClean(d: Disk, root: Dir, list: seq<Path>, o: Oracle)
    requires ValidDisk(d) && CleanMove(d, root, list, o)
    ensures var b := MoveAction(d, root, list, o);
      && b.abort.None? && |b.lines| == |list|
      && (forall k :: 0 <= k < |list| ==> b.lines[k] == MoveLine(d, root, list[k], o))
  {
    var start := Progress(d.(dirs := d.dirs + {root}), [], None);
    MoveLoopClean(d, start, root, list, o, |list|);
    assert list[..|list|] == list;
  }

  /** The error at file p of a move whose earlier files went through cleanly:
      p is gone, or its month folder is missing and cannot be created. */
  function StuckReason(d: Disk, root: Dir, p: Path, o: Oracle): string
    requires ValidDisk(d)
    requires p !in d.files || MonthDir(root, d.files[p].ctime) in o.mkdirFails
  {
    if p !in d.files then NoSuchFile else o.mkdirFails[MonthDir(root, d.files[p].ctime)]
  }

  /** After a clean prefix, a file that is gone or whose folder cannot be
      created stops the batch with that error and adds no line. */
  lemma StuckStep(d: Disk, root: Dir, pre: seq<Path>, o: Oracle, p: Path, b0: Progress)
    requires ValidDisk(d) && ValidDisk(b0.disk) && CleanMove(d, root, pre, o)
    requires CleanAfter(d, root, pre, o, |pre|, b0)
    requires (p in b0.disk.files <==> p in d.files) && (p in d.files ==> b0.disk.files[p] == d.files[p])
    requires p !in d.files ||
      (MonthDir(root, d.files[p].ctime) !in d.dirs && MonthDir(root, d.files[p].ctime) in o.mkdirFails)
    ensures var r := MoveStep(b0, root, p, o);
      r.abort == Some(StuckReason(d, root, p, o)) && r.lines == b0.lines
  {
    if p in d.files {
      var dir := MonthDir(root, d.files[p].ctime);
      assert dir !in b0.disk.dirs;
      assert !MonthReady(b0.disk, root, p, o);
    }
    MoveStepEffect(b0, root, p, o);
  }

  /** After the first k files of a move whose prefix is clean, file k (not
      below the root, and not among them) is as it was in the store. */
  lemma CleanPrefixFrame(d: Disk, start: Progress, root: Dir, list: seq<Path>, o: Oracle, k: nat)
    requires ValidDisk(d) && k < |list|
    requires CleanMove(d, root, list[..k], o) && !BelowRoot(list[k], root)
    requires list[k] !in d.files || MonthDir(root, d.files[list[k]].ctime) in o.mkdirFails
    requires start == Progress(d.(dirs := d.dirs + {root}), [], None)
    ensures var b0 := MoveLoop(start, root, list[..k], o);
      && CleanAfter(d, root, list[..k], o, k, b0)
      && (list[k] in b0.disk.files <==> list[k] in d.files)
      && (list[k] in d.files ==> b0.disk.files[list[k]] == d.files[list[k]])
  {
    var p := list[k];
    var pre := list[..k];
    forall q | q in pre
      ensures q != p
    {
      assert q in d.files && MonthDir(root, d.files[q].ctime) !in o.mkdirFails;
    }
    MoveLoopClean(d, start, root, pre, o, k);
    assert pre[..k] == pre;
    MoveLoopFrame(start, root, pre, o, p);
  }

  /** Only the move itself is guarded: when the first k files go through
      cleanly and file k is gone from the store, or its month folder is missing
      and cannot be created, the error escapes at file k. The report then holds
      exactly the k lines of the files before it, and no later file is tried. */
  lemma MoveAbortsAt(d: Disk, root: Dir, list: seq<Path>, o: Oracle, k: nat)
    requires ValidDisk(d) && k < |list|
    requires CleanMove(d, root, list[..k], o) && !BelowRoot(list[k], root)
    requires list[k] !in d.files ||
      (MonthDir(root, d.files[list[k]].ctime) !in d.dirs && MonthDir(root, d.files[list[k]].ctime) in o.mkdirFails)
    ensures var b := MoveAction(d, root, list, o);
      && b.abort == Some(StuckReason(d, root, list[k], o))
      && |b.lines| == k
      && (forall j :: 0 <= j < k ==> b.lines[j] == MoveLine(d, root, list[j], o))
  {
    var start := Progress(d.(dirs := d.dirs + {root}), [], None);
    assert MoveAction(d, root, list, o) == MoveLoop(start, root, list, o) by {
      assert Mkdir(d, root, o) == Ok(start.disk);
    }
    CleanPrefixFrame(d, start, root, list, o, k);
    var b0 := MoveLoop(start, root, list[..k], o);
    StuckStep(d, root, list[..k], o, list[k], b0);
    assert list[..k + 1][..k] == list[..k] && list[..k + 1][k] == list[k];
    assert MoveLoop(start, root, list[..k + 1], o) == MoveStep(b0, root, list[k], o);
    MoveAbortPersists(start, root, list, o, k + 1);
    forall j | 0 <= j < k
      ensures list[j] == list[..k][j]
    {
    }
  }

  /** Where file k of a clean move is after the batch: at root/YYYY-MM/name
      and no longer at its old path when its move succeeded, still at its old
      path with its entry when its move failed. */
  predicate Arrived(d: Disk, root: Dir, list: seq<Path>, o: Oracle, k: nat, b: Progress)
    requires ValidDisk(d) && k < |list| && forall p :: p in list ==> p in d.files
  {
    var p := list[k];
    var dst := Path(MonthDir(root, d.files[p].ctime), p.name);
    if p in o.moveFails then p in b.disk.files && b.disk.files[p] == d.files[p]
    else p !in b.disk.files && dst in b.disk.files && b.disk.files[dst] == d.files[p]
  }

  /** Every one of the first n files is where Arrived says. */
  predicate AllArrived(d: Disk, root: Dir, list: seq<Path>, o: Oracle, n: nat, b: Progress)
    requires ValidDisk(d) && n <= |list| && forall p :: p in list ==> p in d.files
  {
    forall k :: 0 <= k < n ==> Arrived(d, root, list, o, k, b)
  }

  /** The destinations of a list are pairwise different. */
  predicate DistinctDestinations(d: Disk, root: Dir, list: seq<Path>)
    requires ValidDisk(d) && forall p :: p in list ==> p in d.files
  {
    forall i, j :: 0 <= i < j < |list| ==>
      MonthDir(root, d.files[list[i]].ctime) != MonthDir(root, d.files[list[j]].ctime) || list[i].name != list[j].name
  }

  /** One more file of a clean move with distinct destinations leaves the files
      already handled where they were and puts the new one where it belongs. */
  lemma ArriveStep(d: Disk, root: Dir, list: seq<Path>, o: Oracle, n: nat, b0: Progress)
    requires ValidDisk(d) && CleanMove(d, root, list, o) && 0 < n <= |list|
    requires DistinctDestinations(d, root, list)
    requires ValidDisk(b0.disk) && CleanAfter(d, root, list, o, n - 1, b0)
    requires AllArrived(d, root, list, o, n - 1, b0)
    ensures AllArrived(d, root, list, o, n, MoveStep(b0, root, list[n - 1], o))
  {
    var p := list[n - 1];
    assert p in list;
    var dir := MonthDir(root, d.files[p].ctime);
    MoveStepEffect(b0, root, p, o);
    var b := MoveStep(b0, root, p, o);
    var dst := Path(dir, p.name);
    assert BelowRoot(dst, root);
    assert p != dst by { assert p in list; }
    forall k | 0 <= k < n - 1
      ensures Arrived(d, root, list, o, k, b)
    {
      var q := list[k];
      var qdst := Path(MonthDir(root, d.files[q].ctime), q.name);
      assert q in list && q != p;
      assert BelowRoot(qdst, root);
      assert q != dst && qdst != p && qdst != dst;
      assert Arrived(d, root, list, o, k, b0);
    }
  }

  /** A clean move whose destinations are all different puts each moved file's
      entry at root/YYYY-MM/name and removes it from where it was; a file whose
      move fails stays where it was. */
  lemma {:induction false} MoveLoopArrives(d: Disk, start: Progress, root: Dir, list: seq<Path>, o: Oracle, n: nat)
    requires ValidDisk(d) && CleanMove(d, root, list, o) && n <= |list|
    requires start == Progress(d.(dirs := d.dirs + {root}), [], None)
    requires DistinctDestinations(d, root, list)
    ensures AllArrived(d, root, list, o, n, MoveLoop(start, root, list[..n], o))
    decreases n
  {
    if n > 0 {
      assert list[..n][..n - 1] == list[..n - 1];
      assert list[..n][n - 1] == list[n - 1];
      MoveLoopArrives(d, start, root, list, o, n - 1);
      MoveLoopClean(d, start, root, list, o, n - 1);
      var b0 := MoveLoop(start, root, list[..n - 1], o);
      assert MoveLoop(start, root, list[..n], o) == MoveStep(b0, root, list[n - 1], o);
      ArriveStep(d, root, list, o, n, b0);
    }
  }

  /** The month-folder step cannot be skipped: when the first file's folder
      cannot be created, the error escapes before anything is moved, even though
      only the move itself is guarded. */
  lemma MoveAbortsOnMkdir(d: Disk, root: Dir, list: seq<Path>, o: Oracle)
    requires ValidDisk(d) && list != [] && list[0] in d.files
    requires root in d.dirs
    requires var dir := MonthDir(root, d.files[list[0]].ctime);
      dir !in d.dirs && dir in o.mkdirFails
    ensures var b := MoveAction(d, root, list, o);
      b.abort == Some(o.mkdirFails[MonthDir(root, d.files[list[0]].ctime)]) &&
      b.lines == [] && b.disk == d
  {
    var start := Progress(d, [], None);
    assert Mkdir(d, root, o) == Ok(d);
    assert list[..1][..0] == [];
    MoveAbortPersists(start, root, list, o, 1);
  }

  // ---------------------------------------------------------------- delete

  /** One file of the delete batch: try the unlink and report its outcome. */
  function DeleteStep(b: Progress, p: Path, o: Oracle): (r: Progress)
    requires ValidDisk(b.disk)
    ensures ValidDisk(r.disk)
    ensures r.abort == b.abort && r.disk.dirs == b.disk.dirs
    ensures |r.lines| == |b.lines| + 1 && r.lines[..|b.lines|] == b.lines
    ensures var l := r.lines[|b.lines|];
      l.Deleted? && l.name == p.name && (l.outcome.Success? <==> p in b.disk.files && p !in o.unlinkFails)
    ensures r.disk.files.Keys <= b.disk.files.Keys
  {
    var (d1, out) := Unlink(b.disk, p, o);
    Progress(d1, b.lines + [Deleted(p.name, out)], b.abort)
  }

  /** The delete batch over the files in order. */
  function DeleteRun(d: Disk, list: seq<Path>, o: Oracle): (b: Progress)
    requires ValidDisk(d)
    ensures ValidDisk(b.disk)
    ensures b.abort.None? && |b.lines| == |list| && b.disk.dirs == d.dirs
    ensures b.disk.files.Keys <= d.files.Keys
    decreases |list|
  {
    if list == [] then Progress(d, [], None)
    else DeleteStep(DeleteRun(d, list[..|list| - 1], o), list[|list| - 1], o)
  }

  /** Every listed file gets exactly one delete attempt, in list order, and no
      error escapes: the report has one line per file. Only files of the list
      can disappear, and directories stay as they were. */
  lemma {:induction false} DeleteRunShape(d: Disk, list: seq<Path>, o: Oracle)
    requires ValidDisk(d)
    ensures var b := DeleteRun(d, list, o);
      && b.abort.None? && |b.lines| == |list|
      && (forall k :: 0 <= k < |list| ==> b.lines[k].Deleted? && b.lines[k].name == list[k].name)
      && b.disk.dirs == d.dirs
      && (forall p :: p !in list ==> (p in b.disk.files <==> p in d.files))
      && (forall p :: p in b.disk.files ==> p in d.files && b.disk.files[p] == d.files[p])
    decreases |list|
  {
    if list != [] {
      var prev := list[..|list| - 1];
      DeleteRunShape(d, prev, o);
      assert forall q :: q in prev ==> q in list;
      var b0 := DeleteRun(d, prev, o);
      forall k | 0 <= k < |prev|
        ensures list[k] == prev[k]
      {
      }
    }
  }

  /** The outcome the delete batch reports for a file listed once. */
  function DeleteOutcome(d: Disk, p: Path, o: Oracle): Outcome {
    if p !in d.files then Failure(NoSuchFile)
    else if p in o.unlinkFails then Failure(o.unlinkFails[p])
    else Success
  }

  /** With each file listed once, file k is reported deleted exactly when it is
      in the store and its unlink does not fail, and otherwise with the reason. */
  lemma {:induction false} DeleteRunOutcomes(d: Disk, list: seq<Path>, o: Oracle)
    requires ValidDisk(d)
    requires forall i, j :: 0 <= i < j < |list| ==> list[i] != list[j]
    ensures var b := DeleteRun(d, list, o);
      && |b.lines| == |list|
      && (forall k :: 0 <= k < |list| ==> b.lines[k] == Deleted(list[k].name, DeleteOutcome(d, list[k], o)))
      && (forall q :: q in list ==> q !in b.disk.files || q in o.unlinkFails)
      && (forall q :: q in list && q in d.files && q in o.unlinkFails ==> q in b.disk.files)
    decreases |list|
  {
    if list != [] {
      var prev := list[..|list| - 1];
      var p := list[|list| - 1];
      DeleteRunOutcomes(d, prev, o);
      DeleteRunShape(d, prev, o);
      assert p !in prev by {
        forall k | 0 <= k < |prev| ensures prev[k] != p { }
      }
      assert forall q :: q in list <==> q in prev || q == p;
      var b0 := DeleteRun(d, prev, o);
      assert p in b0.disk.files <==> p in d.files;
    }
  }

  /** With each file listed once, the store after the delete batch is the old
      one without exactly the listed files whose unlink did not fail. */
  lemma DeleteRunStore(d: Disk, list: seq<Path>, o: Oracle)
    requires ValidDisk(d)
    requires forall i, j :: 0 <= i < j < |list| ==> list[i] != list[j]
    ensures DeleteRun(d, list, o).disk.files ==
      map p | p in d.files && !(p in list && p !in o.unlinkFails) :: d.files[p]
  {
    DeleteRunShape(d, list, o);
    DeleteRunOutcomes(d, list, o);
  }

  /** When every listed file exists and no unlink fails, confirming removes them
      all and reports each as deleted. */
  lemma DeleteAllSucceed(d: Disk, list: seq<Path>, o: Oracle)
    requires ValidDisk(d)
    requires forall i, j :: 0 <= i < j < |list| ==> list[i] != list[j]
    requires forall p :: p in list ==> p in d.files && p !in o.unlinkFails
    ensures var b := DeleteRun(d, list, o);
      && |b.lines| == |list|
      && (forall k :: 0 <= k < |list| ==> b.lines[k] == Deleted(list[k].name, Success))
      && (forall p :: p in list ==> p !in b.disk.files)
      && b.disk.files.Keys == d.files.Keys - set p | p in list
  {
    DeleteRunStore(d, list, o);
    DeleteRunOutcomes(d, list, o);
    var b := DeleteRun(d, list, o);
    forall k | 0 <= k < |list|
      ensures b.lines[k] == Deleted(list[k].name, Success)
    {
      assert list[k] in list;
    }
  }

  // ---------------------------------------------------------------- list

  /** The list action over the files in order: one line with each file's name
      and size; a file that is no longer in the store raises an error that ends
      the listing. */
  function ListRun(d: Disk, list: seq<Path>): (b: Progress)
    ensures b.disk == d
    decreases |list|
  {
    if list == [] then Progress(d, [], None)
    else
      var b0 := ListRun(d, list[..|list| - 1]);
      var p := list[|list| - 1];
      if b0.abort.Some? then b0
      else if p !in d.files then b0.(abort := Some(NoSuchFile))
      else b0.(lines := b0.lines + [Listed(p.name, d.files[p].size)])
  }

  /** Once the listing has stopped at a missing file, later files add nothing. */
  lemma {:induction false} ListAbortPersists(d: Disk, list: seq<Path>, i: nat)
    requires i <= |list|
    requires ListRun(d, list[..i]).abort.Some?
    ensures ListRun(d, list) == ListRun(d, list[..i])
    decreases |list| - i
  {
    if i < |list| {
      var prev := list[..|list| - 1];
      assert prev[..i] == list[..i];
      ListAbortPersists(d, prev, i);
    } else {
      assert list[..i] == list;
    }
  }

  /** The listing shows the files in list order with their sizes, one line
      each, up to the first file missing from the store, where it stops. */
  lemma {:induction false} ListRunLines(d: Disk, list: seq<Path>)
    ensures var b := ListRun(d, list);
      && |b.lines| <= |list|
      && (b.abort.None? <==> forall p :: p in list ==> p in d.files)
      && (b.abort.None? ==> |b.lines| == |list|)
      && (b.abort.Some? ==> |b.lines| < |list| && list[|b.lines|] !in d.files)
      && (forall k :: 0 <= k < |b.lines| ==> list[k] in d.files && b.lines[k] == Listed(list[k].name, d.files[list[k]].size))
    decreases |list|
  {
    if list != [] {
      var prev := list[..|list| - 1];
      ListRunLines(d, prev);
      assert forall q :: q in list <==> q in prev || q == list[|list| - 1];
      var b0 := ListRun(d, prev);
      forall k | 0 <= k < |b0.lines|
        ensures list[k] == prev[k]
      {
      }
    }
  }
}
