/** `BeadProcessor.processView`: a view's bead list is renamed to a backup,
    every record of it is offered to the processor's `processBead`, and the
    records it keeps are written to a new bead list, with progress reported
    as it goes. The file system is a map from paths to file contents;
    `processBead` is the parameter `keep`. */
module BeadFilter {
  import opened Common
  import opened Text
  import opened Toolkit

  // ---------------------------------------------------------------------------
  // The file system
  // ---------------------------------------------------------------------------

  /** `files` after moving the file at `from` to `to`. */
  function Moved(files: map<Path, string>, from: Path, to: Path): (m: map<Path, string>)
    requires from in files
    ensures to in m && m[to] == files[from]
    ensures from != to ==> from !in m
    ensures forall p :: p != from && p != to ==> (p in m <==> p in files) && (p in m ==> m[p] == files[p])
  {
    (files - {from})[to := files[from]]
  }

  /** Writing a file twice leaves only the second contents. */
  lemma Overwrite(files: map<Path, string>, p: Path, first: string, second: string)
    ensures files[p := first][p := second] == files[p := second]
  {
  }

  /** `files` after `from.renameTo(to)`; whether the platform lets a rename
      through is `works`, and a missing source or a rename onto itself fails. */
  function Renamed(files: map<Path, string>, from: Path, to: Path, works: bool): map<Path, string> {
    if works && from in files && from != to then Moved(files, from, to) else files
  }

  /** The files a process can see, each path with its contents. */
  class FileSystem {
    var files: map<Path, string>

    constructor (files: map<Path, string>)
      ensures this.files == files
    {
      this.files := files;
    }

    /** `File.exists()`. */
    predicate Exists(p: Path)
      reads this
    {
      p in files
    }

    /** `File.renameTo`: it reports whether the file moved. */
    method Rename(from: Path, to: Path, works: bool) returns (ok: bool)
      modifies this
      ensures ok <==> works && from in old(files) && from != to
      ensures files == Renamed(old(files), from, to, works)
    {
      ok := works && from in files && from != to;
      if ok {
        files := Moved(files, from, to);
      }
    }

    /** `File.createNewFile`: an empty file is created exactly when none was there. */
    method CreateNewFile(p: Path) returns (created: bool)
      modifies this
      ensures created <==> p !in old(files)
      ensures files == if created then old(files)[p := ""] else old(files)
    {
      created := p !in files;
      if created {
        files := files[p := ""];
      }
    }

    /** Closing a writer: the file holds what was written to it. */
    method Write(p: Path, text: string)
      modifies this
      ensures files == old(files)[p := text]
    {
      files := files[p := text];
    }
  }

  /** The backup of a view's bead list: `<view name>.beads.unfiltered.txt` beside it. */
  function BackupFile(view: Path): (p: Path)
    ensures Parent(p) == Parent(BeadsFile(view)) && Name(p) == Name(view) + ".beads.unfiltered.txt"
  {
    Child(RegistrationDirectory(view), Name(view) + ".beads.unfiltered.txt")
  }

  /** The backup and the bead list are two different files of one directory. */
  lemma BackupBesideBeads(view: Path)
    ensures BackupFile(view) != BeadsFile(view)
    ensures Parent(BackupFile(view)) == Parent(BeadsFile(view)) == RegistrationDirectory(view)
  {
    var k := |Name(view)| + 7;
    assert Name(BeadsFile(view))[k] == 't';
    assert Name(BackupFile(view))[k] == 'u';
  }

  // ---------------------------------------------------------------------------
  // What the processor is told
  // ---------------------------------------------------------------------------

  /** The calls the processor sees, and the log line of an early return. */
  datatype Event =
    | BeginView(view: Path)
    | CouldNotRead(view: Path)
    | ProcessBead(view: Path, bead: Bead)
    | Progress(view: Path, fraction: real)
    | EndView(view: Path)

  /** The progress reported after record `n` (from 0): `n / (n + 1)`. */
  function ProgressAfter(n: nat): (p: real)
    ensures 0.0 <= p < 1.0
  {
    DivBelowOne(n as real);
    n as real / (n as real + 1.0)
  }

  lemma DivBelowOne(x: real)
    requires x >= 0.0
    ensures 0.0 <= x / (x + 1.0) < 1.0
  {
    var q := x / (x + 1.0);
    assert q * (x + 1.0) == x;
  }

  /** Each record's progress is above the one before: the reports climb towards 1. */
  lemma ProgressIncreases(n: nat)
    ensures ProgressAfter(n) < ProgressAfter(n + 1)
  {
    var x := n as real;
    var p, q := x / (x + 1.0), (x + 1.0) / (x + 2.0);
    assert p * (x + 1.0) == x;
    assert q * (x + 2.0) == x + 1.0;
    var a, b := 1.0 / (x + 1.0), 1.0 / (x + 2.0);
    assert a * (x + 1.0) == 1.0;
    assert b * (x + 2.0) == 1.0;
    assert b > 0.0;
    assert b * (x + 1.0) == 1.0 - b;
    assert b * (x + 1.0) < a * (x + 1.0);
    assert b < a;
    assert p == 1.0 - a;
    assert q == 1.0 - b;
  }

  /** The beads offered to `processBead`, in order. */
  function Tested(events: seq<Event>): seq<Bead> {
    if events == [] then []
    else (if events[0].ProcessBead? then [events[0].bead] else []) + Tested(events[1..])
  }

  /** A record's step reports its bead to `processBead`, then its progress. */
  lemma TestedStep(view: Path, b: Bead, p: real, rest: seq<Event>)
    ensures Tested([ProcessBead(view, b), Progress(view, p)] + rest) == [b] + Tested(rest)
  {
    var s := [ProcessBead(view, b), Progress(view, p)] + rest;
    assert s[1..] == [Progress(view, p)] + rest;
    assert s[1..][1..] == rest;
  }

  // ---------------------------------------------------------------------------
  // Filtering the records
  // ---------------------------------------------------------------------------

  /** What a pass over the bead records did: the text it wrote, the calls it
      made and the unchecked exception that ended it, if any. */
  datatype Run = Run(written: string, events: seq<Event>, fault: Option<Fault>)

  /** `w` written and `e` done before the rest of a run. */
  function Prepend(w: string, e: seq<Event>, r: Run): Run {
    Run(w + r.written, e + r.events, r.fault)
  }

  lemma PrependTwice(a: string, e: seq<Event>, b: string, f: seq<Event>, r: Run)
    ensures Prepend(a, e, Prepend(b, f, r)) == Prepend(a + b, e + f, r)
  {
    assert a + (b + r.written) == (a + b) + r.written;
    assert e + (f + r.events) == (e + f) + r.events;
  }

  /** The loop of lines 41-56 as written, from record `i` on with `n` records
      done: a kept record makes it write the NEXT line, which is thereby
      consumed untested; no line separator is ever written; a kept last record
      writes `null`, which throws. */
  function LoopAsWritten(view: Path, lines: seq<string>, i: nat, n: nat, keep: (Path, Bead) -> bool): Run
    requires i <= |lines|
    decreases |lines| - i
  {
    if i == |lines| then Run("", [], None)
    else match BeadOf(lines[i])
      case Failure(e) => Run("", [], Some(e))
      case Success(b) =>
        var step := [ProcessBead(view, b)];
        if !keep(view, b) then
          Prepend("", step + [Progress(view, ProgressAfter(n))], LoopAsWritten(view, lines, i + 1, n + 1, keep))
        else if i + 1 == |lines| then Run("", step, Some(NullPointer))
        else Prepend(lines[i + 1], step + [Progress(view, ProgressAfter(n))], LoopAsWritten(view, lines, i + 2, n + 1, keep))
  }

  /** Lines 39-56 as written: the header is copied without a separator (a
      missing header is `write(null)`, which throws), then the loop. */
  function AsWritten(view: Path, lines: seq<string>, keep: (Path, Bead) -> bool): Run {
    if lines == [] then Run("", [], Some(NullPointer))
    else Prepend(lines[0], [], LoopAsWritten(view, lines, 1, 0, keep))
  }

  /** The filtering loop as written, reading `lines` one `readLine` at a time. */
  method FilterAsWritten(view: Path, lines: seq<string>, keep: (Path, Bead) -> bool) returns (r: Run)
    ensures r == AsWritten(view, lines, keep)
  {
    if lines == [] {
      return Run("", [], Some(NullPointer));
    }
    var written, events := lines[0], [];
    var i, n := 1, 0;
    while i < |lines|
      invariant 1 <= i <= |lines|
      invariant Prepend(written, events, LoopAsWritten(view, lines, i, n, keep)) == AsWritten(view, lines, keep)
      decreases |lines| - i
    {
      var b := BeadOf(lines[i]);
      if b.Failure? {
        return Run(written, events, Some(b.fault));
      }
      var tested := [ProcessBead(view, b.value)];
      var kept := keep(view, b.value);
      if kept && i + 1 == |lines| {
        assert written + "" == written;
        return Run(written, events + tested, Some(NullPointer));
      }
      // A kept record writes the line read after it, and that line is consumed.
      var piece := if kept then lines[i + 1] else "";
      var next := if kept then i + 2 else i + 1;
      var step := tested + [Progress(view, ProgressAfter(n))];
      PrependTwice(written, events, piece, step, LoopAsWritten(view, lines, next, n + 1, keep));
      written, events := written + piece, events + step;
      i, n := next, n + 1;
    }
    assert written + "" == written && events + [] == events;
    r := Run(written, events, None);
  }

  /** Three lines, the middle record kept: the code writes the header and the
      third line run together, and the third record is never offered to
      `processBead`. */
  lemma AsWrittenSkipsSuccessor(view: Path, header: string, kept: string, next: string, keep: (Path, Bead) -> bool)
    requires BeadOf(kept).Success? && keep(view, BeadOf(kept).value)
    ensures var r := AsWritten(view, [header, kept, next], keep);
      && r.fault == None
      && r.written == header + next
      && Tested(r.events) == [BeadOf(kept).value]
  {
    var lines := [header, kept, next];
    var b := BeadOf(kept).value;
    var e := [ProcessBead(view, b), Progress(view, ProgressAfter(0))];
    var done := LoopAsWritten(view, lines, 3, 1, keep);
    assert done == Run("", [], None);
    var loop := LoopAsWritten(view, lines, 1, 0, keep);
    assert loop == Prepend(next, e, done) by {
      assert lines[1] == kept && lines[2] == next && 2 < |lines|;
      assert [ProcessBead(view, b)] + [Progress(view, ProgressAfter(0))] == e;
    }
    assert loop == Run(next, e, None) by {
      assert next + "" == next && e + [] == e;
    }
    var r := AsWritten(view, lines, keep);
    assert r == Run(header + next, [] + e, None);
    assert Tested(e) == [b] by {
      TestedStep(view, b, ProgressAfter(0), []);
      assert e + [] == e;
    }
    assert [] + e == e;
  }

  /** Whether the record is kept: its bead is read and `keep` accepts it. */
  predicate Kept(view: Path, record: string, keep: (Path, Bead) -> bool) {
    BeadOf(record).Success? && keep(view, BeadOf(record).value)
  }

  /** `Kept` as a test on records alone. */
  function KeptIn(view: Path, keep: (Path, Bead) -> bool): string -> bool {
    record => Kept(view, record, keep)
  }

  /** The records that `kept` accepts, in order. */
  function Keeping(records: seq<string>, kept: string -> bool): (s: seq<string>)
    ensures forall k :: 0 <= k < |s| ==> s[k] in records
  {
    if records == [] then []
    else (if kept(records[0]) then [records[0]] else []) + Keeping(records[1..], kept)
  }

  lemma {:induction false} KeepingMembers(records: seq<string>, kept: string -> bool)
    ensures forall x :: x in Keeping(records, kept) <==> x in records && kept(x)
  {
    if records != [] {
      KeepingMembers(records[1..], kept);
      assert records == [records[0]] + records[1..];
    }
  }

  lemma {:induction false} KeepingAppend(r1: seq<string>, r2: seq<string>, kept: string -> bool)
    ensures Keeping(r1 + r2, kept) == Keeping(r1, kept) + Keeping(r2, kept)
  {
    if r1 == [] {
      assert r1 + r2 == r2;
    } else {
      var head := if kept(r1[0]) then [r1[0]] else [];
      assert Keeping(r1 + r2, kept) == head + Keeping(r1[1..] + r2, kept) by {
        assert (r1 + r2)[0] == r1[0] && (r1 + r2)[1..] == r1[1..] + r2;
      }
      KeepingAppend(r1[1..], r2, kept);
      assert head + (Keeping(r1[1..], kept) + Keeping(r2, kept))
        == (head + Keeping(r1[1..], kept)) + Keeping(r2, kept);
    }
  }

  /** The records whose beads are read and accepted by `keep`, in order. */
  function Selected(view: Path, records: seq<string>, keep: (Path, Bead) -> bool): (s: seq<string>)
    ensures forall k :: 0 <= k < |s| ==> s[k] in records
  {
    Keeping(records, KeptIn(view, keep))
  }

  /** Selecting from a record followed by others. */
  lemma SelectedCons(view: Path, records: seq<string>, keep: (Path, Bead) -> bool)
    requires records != []
    ensures Selected(view, records, keep)
      == (if Kept(view, records[0], keep) then [records[0]] else []) + Selected(view, records[1..], keep)
  {
  }

  /** A record is selected exactly when it is one of the records and it is kept. */
  lemma SelectedMembers(view: Path, records: seq<string>, keep: (Path, Bead) -> bool)
    ensures forall x :: x in Selected(view, records, keep) <==> x in records && Kept(view, x, keep)
  {
    KeepingMembers(records, KeptIn(view, keep));
  }

  /** Selection keeps the order of the records: selecting from two runs of
      records one after the other is selecting from each in turn. */
  lemma SelectedAppend(view: Path, r1: seq<string>, r2: seq<string>, keep: (Path, Bead) -> bool)
    ensures Selected(view, r1 + r2, keep) == Selected(view, r1, keep) + Selected(view, r2, keep)
  {
    KeepingAppend(r1, r2, KeptIn(view, keep));
  }

  /** The corrected loop: every record is offered to `processBead`, and a
      kept record is itself written, followed by a line separator. */
  function Loop(view: Path, lines: seq<string>, i: nat, n: nat, keep: (Path, Bead) -> bool): Run
    requires i <= |lines|
    decreases |lines| - i
  {
    if i == |lines| then Run("", [], None)
    else match BeadOf(lines[i])
      case Failure(e) => Run("", [], Some(e))
      case Success(b) =>
        Prepend(if keep(view, b) then lines[i] + "\n" else "",
          [ProcessBead(view, b), Progress(view, ProgressAfter(n))], Loop(view, lines, i + 1, n + 1, keep))
  }

  /** The corrected filtering: the header line and the kept records, each
      ended by a line separator; an empty file gives an empty list. */
  function Filtered(view: Path, lines: seq<string>, keep: (Path, Bead) -> bool): Run {
    if lines == [] then Run("", [], None)
    else Prepend(lines[0] + "\n", [], Loop(view, lines, 1, 0, keep))
  }

  /** The corrected loop keeps exactly the records `keep` accepts, offers
      every record in order, and fails exactly at the first malformed record. */
  lemma {:induction false} LoopSelects(view: Path, lines: seq<string>, i: nat, n: nat, keep: (Path, Bead) -> bool)
    requires i <= |lines|
    ensures var r := Loop(view, lines, i, n, keep); var bs := BeadsOf(lines[i..]);
      && (r.fault.None? <==> bs.Success?)
      && (bs.Failure? ==> r.fault == Some(bs.fault))
      && (bs.Success? ==> r.written == UnLines(Selected(view, lines[i..], keep)) && Tested(r.events) == bs.value)
    decreases |lines| - i
  {
    if i < |lines| {
      LoopSelects(view, lines, i + 1, n + 1, keep);
      var rest := lines[i..];
      assert rest[0] == lines[i] && rest[1..] == lines[i + 1..];
      var b := BeadOf(lines[i]);
      if b.Success? {
        var tail := Loop(view, lines, i + 1, n + 1, keep);
        TestedStep(view, b.value, ProgressAfter(n), tail.events);
        if keep(view, b.value) {
          assert Selected(view, rest, keep) == [lines[i]] + Selected(view, lines[i + 1..], keep);
        } else {
          assert Selected(view, rest, keep) == Selected(view, lines[i + 1..], keep);
        }
      }
    }
  }

  /** Corrected, the new bead list reads back as the header followed by exactly
      the records `processBead` kept, and every record was offered once, in
      order; a malformed record makes it throw what the `Scanner` throws. */
  lemma FilteredSelects(view: Path, lines: seq<string>, keep: (Path, Bead) -> bool)
    requires lines != []
    requires forall k :: 0 <= k < |lines| ==> '\n' !in lines[k] && '\r' !in lines[k]
    ensures var r := Filtered(view, lines, keep); var bs := BeadsOf(lines[1..]);
      && (r.fault.None? <==> bs.Success?)
      && (bs.Failure? ==> r.fault == Some(bs.fault))
      && (bs.Success? ==> Lines(r.written) == [lines[0]] + Selected(view, lines[1..], keep) && Tested(r.events) == bs.value)
  {
    LoopSelects(view, lines, 1, 0, keep);
    var s := [lines[0]] + Selected(view, lines[1..], keep);
    assert forall k :: 1 <= k < |s| ==> s[k] in lines[1..];
    assert UnLines(s) == lines[0] + "\n" + UnLines(s[1..]);
    assert s[1..] == Selected(view, lines[1..], keep);
    assert [] + Loop(view, lines, 1, 0, keep).events == Loop(view, lines, 1, 0, keep).events;
    LinesUnLines(s);
  }

  /** The corrected filtering loop, reading `lines` one `readLine` at a time. */
  method Filter(view: Path, lines: seq<string>, keep: (Path, Bead) -> bool) returns (r: Run)
    ensures r == Filtered(view, lines, keep)
  {
    if lines == [] {
      return Run("", [], None);
    }
    var written, events := lines[0] + "\n", [];
    var i, n := 1, 0;
    while i < |lines|
      invariant 1 <= i <= |lines|
      invariant Prepend(written, events, Loop(view, lines, i, n, keep)) == Filtered(view, lines, keep)
      decreases |lines| - i
    {
      var line := lines[i];
      var b := BeadOf(line);
      if b.Failure? {
        return Run(written, events, Some(b.fault));
      }
      var kept := if keep(view, b.value) then line + "\n" else "";
      var step := [ProcessBead(view, b.value), Progress(view, ProgressAfter(n))];
      PrependTwice(written, events, kept, step, Loop(view, lines, i + 1, n + 1, keep));
      written := written + kept;
      events := events + step;
      i, n := i + 1, n + 1;
    }
    assert written + "" == written && events + [] == events;
    r := Run(written, events, None);
  }

  // ---------------------------------------------------------------------------
  // processView
  // ---------------------------------------------------------------------------

  /** `processView` as written. The bead list is renamed away first, and then
      the path that is tested and created is that same bead list: when it is
      missing the method returns, and when it exists `createNewFile` fails, so
      it always logs and returns before reading, with no `endView`. */
  method ProcessViewAsWritten(fs: FileSystem, view: Path, renameWorks: bool) returns (events: seq<Event>)
    modifies fs
    ensures events == [BeginView(view), CouldNotRead(view)]
    ensures fs.files == Renamed(old(fs.files), BeadsFile(view), BackupFile(view), renameWorks)
  {
    events := [BeginView(view)];
    var beads := BeadsFile(view);
    var _ := fs.Rename(beads, BackupFile(view), renameWorks);
    var output := BeadsFile(view);
    var proceed := fs.Exists(beads);
    if proceed {
      proceed := fs.CreateNewFile(output);
    }
    if !proceed {
      events := events + [CouldNotRead(view)];
      return;
    }
    // Never reached: what lines 36-56 would do is `FilterAsWritten`.
    assert false;
  }

  /** The files after the corrected `processView` got past its checks: the
      new bead list holds what the filtering wrote, or nothing if it threw
      (the writer is not flushed at the end then; what a full buffer would
      already have passed on is not modelled). */
  function Output(files: map<Path, string>, view: Path, r: Run): map<Path, string> {
    files[BeadsFile(view) := if r.fault.None? then r.written else ""]
  }

  /** `processView` corrected: it tests that the backup exists and that a new
      bead list can be created, filters the backup into it, and calls
      `endView` unless a record throws. */
  method ProcessView(fs: FileSystem, view: Path, renameWorks: bool, keep: (Path, Bead) -> bool)
    returns (events: seq<Event>, o: Outcome)
    modifies fs
    ensures var renamed := Renamed(old(fs.files), BeadsFile(view), BackupFile(view), renameWorks);
      if BackupFile(view) !in renamed || BeadsFile(view) in renamed then
        && events == [BeginView(view), CouldNotRead(view)] && o == Pass
        && fs.files == renamed
      else
        var r := Filtered(view, Lines(renamed[BackupFile(view)]), keep);
        && fs.files == Output(renamed, view, r)
        && events == [BeginView(view)] + r.events + (if r.fault.None? then [EndView(view)] else [])
        && o == (if r.fault.None? then Pass else Fail(r.fault.value))
  {
    events := [BeginView(view)];
    var beads, backup := BeadsFile(view), BackupFile(view);
    BackupBesideBeads(view);
    var _ := fs.Rename(beads, backup, renameWorks);
    ghost var renamed := fs.files;
    var proceed := fs.Exists(backup);
    if proceed {
      proceed := fs.CreateNewFile(beads);
    }
    if !proceed {
      events := events + [CouldNotRead(view)];
      return events, Pass;
    }
    assert fs.files == renamed[beads := ""] && fs.files[backup] == renamed[backup];
    var r := Filter(view, Lines(fs.files[backup]), keep);
    if r.fault.Some? {
      return events + r.events, Fail(r.fault.value);
    }
    fs.Write(beads, r.written);
    assert fs.files == renamed[beads := r.written] by {
      Overwrite(renamed, beads, "", r.written);
    }
    events := events + r.events + [EndView(view)];
    o := Pass;
  }

  /** Corrected, a view whose bead list exists and has no backup yet, on a
      platform where the rename works, reaches the filtering: afterwards the
      backup holds the old list, and the new list reads back as its header and
      the records `processBead` kept. */
  lemma ProcessViewFilters(files: map<Path, string>, view: Path, keep: (Path, Bead) -> bool)
    requires BeadsFile(view) in files && BackupFile(view) !in files
    requires Lines(files[BeadsFile(view)]) != []
    requires BeadsOf(Lines(files[BeadsFile(view)])[1..]).Success?
    ensures var renamed := Renamed(files, BeadsFile(view), BackupFile(view), true);
      var lines := Lines(files[BeadsFile(view)]);
      var r := Filtered(view, lines, keep);
      && BackupFile(view) in renamed && BeadsFile(view) !in renamed
      && renamed[BackupFile(view)] == files[BeadsFile(view)]
      && r.fault.None?
      && Lines(Output(renamed, view, r)[BeadsFile(view)]) == [lines[0]] + Selected(view, lines[1..], keep)
  {
    BackupBesideBeads(view);
    var lines := Lines(files[BeadsFile(view)]);
    FilteredSelects(view, lines, keep);
  }
}
