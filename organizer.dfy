/** organize_screenshots: the summary, the action menu, the delete confirmation,
    and the move, delete and list loops, run against a mutable file store. */
module Organizer {
  import opened Paths
  import opened Batch
  import Stats

  /** The menu's actions. */
  datatype Action = MoveByDate | Delete | List | Cancel

  /** The menu choice: exactly "1", "2" or "3" selects an action, compared
      without trimming; every other line, "4" and the empty line included, cancels. */
  function ParseChoice(s: string): (a: Action)
    ensures a == MoveByDate <==> s == "1"
    ensures a == Delete <==> s == "2"
    ensures a == List <==> s == "3"
    ensures a == Cancel <==> s != "1" && s != "2" && s != "3"
  {
    if s == "1" then MoveByDate
    else if s == "2" then Delete
    else if s == "3" then List
    else Cancel
  }

  /** Inputs that look like a choice but are not one of the three exact strings cancel. */
  lemma NearMissesCancel()
    ensures ParseChoice(" 1") == Cancel && ParseChoice("1 ") == Cancel
    ensures ParseChoice("4") == Cancel && ParseChoice("") == Cancel
    ensures ParseChoice("01") == Cancel
  {
  }

  /** str.lower on ASCII letters; no other character lowers to 'y', 'e' or 's'. */
  function LowerChar(c: char): (r: char)
    ensures 'a' <= r <= 'z' ==> c == r || c as int == r as int - 32
  {
    if 'A' <= c <= 'Z' then (c as int + 32) as char else c
  }

  function Lower(s: string): (r: string)
    ensures |r| == |s|
    ensures forall i :: 0 <= i < |s| ==> r[i] == LowerChar(s[i])
  {
    if s == [] then [] else [LowerChar(s[0])] + Lower(s[1..])
  }

  /** The delete confirmation: the answer lowered, not trimmed, must be "yes". */
  predicate Confirmed(answer: string) {
    Lower(answer) == "yes"
  }

  /** The answers that confirm are exactly the eight capitalisations of "yes". */
  lemma ConfirmedIff(answer: string)
    ensures Confirmed(answer) <==>
      |answer| == 3 && answer[0] in "yY" && answer[1] in "eE" && answer[2] in "sS"
  {
    if Confirmed(answer) {
      var l := Lower(answer);
      assert l[0] == 'y' && l[1] == 'e' && l[2] == 's';
    }
    if |answer| == 3 && answer[0] in "yY" && answer[1] in "eE" && answer[2] in "sS" {
      assert Lower(answer) == [LowerChar(answer[0]), LowerChar(answer[1]), LowerChar(answer[2])];
    }
  }

  /** "YES" confirms; a padded "yes", "y" and "no" do not. */
  lemma ConfirmationExamples()
    ensures Confirmed("YES") && Confirmed("Yes") && Confirmed("yes")
    ensures !Confirmed(" yes") && !Confirmed("yes ") && !Confirmed("y") && !Confirmed("no")
  {
    ConfirmedIff(" yes");
    ConfirmedIff("yes ");
    ConfirmedIff("y");
    ConfirmedIff("no");
    ConfirmedIff("YES");
    ConfirmedIff("Yes");
    ConfirmedIff("yes");
  }

  /** How a session ends: nothing found, cancelled, done, or with an error that
      escaped to the top level. */
  datatype Status = NotFound | Cancelled | Completed | Aborted(reason: string)

  /** The printed summary: number of files, total size in bytes, suffixes. */
  datatype Summary = Summary(count: nat, total: nat, exts: set<string>)

  /** What a session shows: the summary (when it got that far), how it ended,
      and the per-file report lines. */
  datatype Session = Session(summary: Option<Summary>, status: Status, lines: seq<Line>)

  /** The process exit code: 1 when an error escaped, 0 otherwise (nothing
      found and cancelled included). */
  function ExitCode(s: Status): (code: int)
    ensures code == 0 || code == 1
    ensures code == 1 <==> s.Aborted?
  {
    if s.Aborted? then 1 else 0
  }

  /** The file store the organizer works on. */
  class FileStore {
    var files: map<Path, Entry>
    var dirs: set<Dir>

    ghost predicate Valid()
      reads this
    {
      ValidDisk(Disk(files, dirs))
    }

    function State(): Disk
      reads this
    {
      Disk(files, dirs)
    }

    constructor (files0: map<Path, Entry>, dirs0: set<Dir>)
      requires ValidDisk(Disk(files0, dirs0))
      ensures Valid() && State() == Disk(files0, dirs0)
    {
      files := files0;
      dirs := dirs0;
    }

    /** mkdir(exist_ok=True): an error message when the directory cannot be created. */
    method MakeDir(dir: Dir, o: Oracle) returns (err: Option<string>)
      requires Valid()
      modifies this
      ensures Valid()
      ensures match Mkdir(old(State()), dir, o)
        case Ok(d) => err.None? && State() == d
        case Err(e) => err == Some(e) && State() == old(State())
    {
      if dir in dirs {
        err := None;
      } else if dir in o.mkdirFails {
        err := Some(o.mkdirFails[dir]);
      } else {
        dirs := dirs + {dir};
        err := None;
      }
    }

    /** shutil.move of a file that is in the store. */
    method MoveFile(src: Path, dst: Path, o: Oracle) returns (out: Outcome)
      requires Valid() && src in files
      modifies this
      ensures Valid()
      ensures (State(), out) == Move(old(State()), src, dst, o)
    {
      if src in o.moveFails {
        out := Failure(o.moveFails[src]);
      } else {
        var e := files[src];
        files := (files - {src})[dst := e];
        out := Success;
      }
    }

    /** Path.unlink. */
    method UnlinkFile(p: Path, o: Oracle) returns (out: Outcome)
      requires Valid()
      modifies this
      ensures Valid()
      ensures (State(), out) == Unlink(old(State()), p, o)
    {
      if p !in files {
        out := Failure(NoSuchFile);
      } else if p in o.unlinkFails {
        out := Failure(o.unlinkFails[p]);
      } else {
        files := files - {p};
        out := Success;
      }
    }

    /** Action 1: create the root, then for each file in turn read its `st_ctime`
        month, create root/YYYY-MM and move the file there. Only the move is
        guarded: its failure is reported and the loop goes on, while a file gone
        from the store or a folder that cannot be created ends the batch. */
    method MoveAll(list: seq<Path>, root: Dir, o: Oracle) returns (lines: seq<Line>, abort: Option<string>)
      requires Valid()
      modifies this
      ensures Valid()
      ensures Progress(State(), lines, abort) == MoveAction(old(State()), root, list, o)
    {
      lines := [];
      abort := MakeDir(root, o);
      if abort.Some? {
        return;
      }
      ghost var start := Progress(State(), [], None);
      assert MoveAction(old(State()), root, list, o) == MoveLoop(start, root, list, o);
      for i := 0 to |list|
        invariant Valid() && abort.None?
        invariant Progress(State(), lines, None) == MoveLoop(start, root, list[..i], o)
      {
        assert list[..i + 1][..i] == list[..i];
        var p := list[i];
        assert list[..i + 1][i] == p;
        if p !in files {
          abort := Some(NoSuchFile);
          assert MoveLoop(start, root, list[..i + 1], o) == Progress(State(), lines, abort);
          MoveAbortPersists(start, root, list, o, i + 1);
          return;
        }
        var dir := MonthDir(root, files[p].ctime);
        abort := MakeDir(dir, o);
        if abort.Some? {
          assert MoveLoop(start, root, list[..i + 1], o) == Progress(State(), lines, abort);
          MoveAbortPersists(start, root, list, o, i + 1);
          return;
        }
        var out := MoveFile(p, Path(dir, p.name), o);
        lines := lines + [Moved(p.name, dir, out)];
      }
      assert list[..|list|] == list;
    }

    /** Action 2 once confirmed: one unlink attempt per file, in order; a failed
        unlink is reported and the loop goes on. */
    method DeleteAll(list: seq<Path>, o: Oracle) returns (lines: seq<Line>)
      requires Valid()
      modifies this
      ensures Valid()
      ensures Progress(State(), lines, None) == DeleteRun(old(State()), list, o)
    {
      lines := [];
      for i := 0 to |list|
        invariant Valid()
        invariant Progress(State(), lines, None) == DeleteRun(old(State()), list[..i], o)
      {
        assert list[..i + 1][..i] == list[..i];
        var out := UnlinkFile(list[i], o);
        lines := lines + [Deleted(list[i].name, out)];
      }
      assert list[..|list|] == list;
    }

    /** Action 3: each file's name and size, in order; reading the size of a
        file no longer in the store raises an error that ends the listing. */
    method ListAll(list: seq<Path>) returns (lines: seq<Line>, abort: Option<string>)
      ensures Progress(State(), lines, abort) == ListRun(State(), list)
    {
      lines := [];
      abort := None;
      for i := 0 to |list|
        invariant Progress(State(), lines, None) == ListRun(State(), list[..i])
      {
        assert list[..i + 1][..i] == list[..i];
        var p := list[i];
        if p !in files {
          abort := Some(NoSuchFile);
          ListAbortPersists(State(), list, i + 1);
          return;
        }
        lines := lines + [Listed(p.name, files[p].size)];
      }
      assert list[..|list|] == list;
    }

    /** organize_screenshots with the two lines the user types as parameters:
        the menu choice, and the confirmation, which is read only for a delete. */
    method Organize(list: seq<Path>, root: Dir, choice: string, confirm: string, o: Oracle)
      returns (s: Session)
      requires Valid()
      modifies this
      ensures Valid()
      // nothing found: no summary, no prompt, no change
      ensures list == [] ==> s == Session(None, NotFound, []) && State() == old(State())
      // the summary fails on a file gone from the store: the error escapes before the prompt
      ensures list != [] && Stats.SizeExt(old(files), list).Missing? ==>
        s == Session(None, Aborted(NoSuchFile), []) && State() == old(State())
      ensures list != [] && Stats.SizeExt(old(files), list).Ok? ==>
        var t := Stats.SizeExt(old(files), list).totals;
        s.summary == Some(Summary(|list|, t.total, t.exts)) &&
        match ParseChoice(choice)
        case Cancel =>
          s.status == Cancelled && s.lines == [] && State() == old(State())
        case List =>
          var b := ListRun(old(State()), list);
          State() == old(State()) && s.lines == b.lines &&
          s.status == (if b.abort.Some? then Aborted(b.abort.value) else Completed)
        case Delete =>
          if Confirmed(confirm) then
            var b := DeleteRun(old(State()), list, o);
            State() == b.disk && s.lines == b.lines && s.status == Completed
          else
            s.status == Cancelled && s.lines == [] && State() == old(State())
        case MoveByDate =>
          var b := MoveAction(old(State()), root, list, o);
          State() == b.disk && s.lines == b.lines &&
          s.status == (if b.abort.Some? then Aborted(b.abort.value) else Completed)
    {
      if list == [] {
        return Session(None, NotFound, []);
      }
      match Stats.SizeExt(files, list)
      case Missing(_) =>
        return Session(None, Aborted(NoSuchFile), []);
      case Ok(t) =>
        var summary := Some(Summary(|list|, t.total, t.exts));
        var action := ParseChoice(choice);
        if action == MoveByDate {
          var lines, abort := MoveAll(list, root, o);
          s := Session(summary, if abort.Some? then Aborted(abort.value) else Completed, lines);
        } else if action == Delete {
          if Confirmed(confirm) {
            var lines := DeleteAll(list, o);
            s := Session(summary, Completed, lines);
          } else {
            s := Session(summary, Cancelled, []);
          }
        } else if action == List {
          var lines, abort := ListAll(list);
          s := Session(summary, if abort.Some? then Aborted(abort.value) else Completed, lines);
        } else {
          s := Session(summary, Cancelled, []);
        }
    }
  }
}
