/** `ViewProcessor`: runs one task per file of the data specifier and keeps a
    progress table whose mean is published. What a task does is abstract:
    the progress values it reports for its file (`reports`) and whether it
    throws (`crashes`) are parameters. The thread pool is modelled as running
    the tasks after all of them are submitted, one after another in
    submission order. */
module Dispatch {
  import opened Common
  import opened DataSpecifier

  // ---------------------------------------------------------------------------
  // The progress table
  // ---------------------------------------------------------------------------

  /** The enumeration order of the table after `put(f, _)`. A `Hashtable`
      enumerates its keys in some order of its own, unspecified but fixed
      while the keys stay the same; the model takes the order in which the
      keys were first put, so a new key joins at the end. */
  function Enrol(order: seq<Path>, f: Path): (r: seq<Path>)
    ensures f in r && forall g :: g in r <==> g in order || g == f
  {
    if f in order then order else order + [f]
  }

  /** Keys are enumerated once each, and exactly the keys of the table. */
  ghost predicate Enumerates(order: seq<Path>, table: map<Path, real>) {
    && (forall i, j :: 0 <= i < j < |order| ==> order[i] != order[j])
    && (forall f :: f in table <==> f in order)
  }

  /** The sum of the entries of `keys`. */
  function Total(keys: seq<Path>, table: map<Path, real>): real
    requires forall f :: f in keys ==> f in table
  {
    if keys == [] then 0.0 else Total(keys[..|keys| - 1], table) + table[keys[|keys| - 1]]
  }

  lemma TotalStep(keys: seq<Path>, table: map<Path, real>, i: nat)
    requires i < |keys| && forall f :: f in keys ==> f in table
    ensures Total(keys[..i + 1], table) == Total(keys[..i], table) + table[keys[i]]
  {
    assert keys[..i + 1][..i] == keys[..i];
  }

  lemma DivideSum(a: real, b: real, n: real)
    requires n > 0.0
    ensures (a + b) / n == a / n + b / n
  {
  }

  /** The mean of the entries of `keys`. */
  function Mean(keys: seq<Path>, table: map<Path, real>): real
    requires keys != [] && forall f :: f in keys ==> f in table
  {
    Total(keys, table) / (|keys| as real)
  }

  /** A progress fraction. */
  predicate Fraction(x: real) {
    0.0 <= x <= 1.0
  }

  lemma {:induction false} TotalBounds(keys: seq<Path>, table: map<Path, real>)
    requires forall f :: f in keys ==> f in table && Fraction(table[f])
    ensures 0.0 <= Total(keys, table) <= |keys| as real
  {
    if keys != [] {
      TotalBounds(keys[..|keys| - 1], table);
    }
  }

  /** When every entry is a fraction, so is the published mean. */
  lemma MeanBounds(keys: seq<Path>, table: map<Path, real>)
    requires keys != [] && forall f :: f in keys ==> f in table && Fraction(table[f])
    ensures Fraction(Mean(keys, table))
  {
    TotalBounds(keys, table);
  }

  lemma {:induction false} TotalOnes(keys: seq<Path>, table: map<Path, real>)
    requires forall f :: f in keys ==> f in table && table[f] == 1.0
    ensures Total(keys, table) == |keys| as real
  {
    if keys != [] {
      TotalOnes(keys[..|keys| - 1], table);
    }
  }

  /** When every entry has reached 1, the published mean is 1. */
  lemma MeanOnes(keys: seq<Path>, table: map<Path, real>)
    requires keys != [] && forall f :: f in keys ==> f in table && table[f] == 1.0
    ensures Mean(keys, table) == 1.0
  {
    TotalOnes(keys, table);
  }

  /** The table after every file of `files` has been given a 0.0 entry, in order. */
  function Seeded(table: map<Path, real>, files: seq<Path>): (r: map<Path, real>)
  {
    if files == [] then table else Seeded(table, files[..|files| - 1])[files[|files| - 1] := 0.0]
  }

  /** The enumeration order after the same puts. */
  function EnrolAll(order: seq<Path>, files: seq<Path>): seq<Path> {
    if files == [] then order else Enrol(EnrolAll(order, files[..|files| - 1]), files[|files| - 1])
  }

  /** Seeding one more file adds its 0.0 entry and enrols it. */
  lemma SeededStep(table: map<Path, real>, order: seq<Path>, files: seq<Path>, f: Path)
    ensures Seeded(table, files + [f]) == Seeded(table, files)[f := 0.0]
    ensures EnrolAll(order, files + [f]) == Enrol(EnrolAll(order, files), f)
  {
    assert (files + [f])[..|files|] == files;
  }

  /** Seeding adds a 0.0 entry for each file and leaves every other entry as it was. */
  lemma {:induction false} SeededEntries(table: map<Path, real>, files: seq<Path>)
    ensures forall f :: f in Seeded(table, files) <==> f in table || f in files
    ensures forall f :: f in files ==> Seeded(table, files)[f] == 0.0
    ensures forall f :: f in table && f !in files ==> Seeded(table, files)[f] == table[f]
  {
    if files != [] {
      var init := files[..|files| - 1];
      SeededEntries(table, init);
      assert forall f :: f in files <==> f in init || f == files[|files| - 1];
    }
  }

  /** What the task of `f` reports through `reportProgress`, in order. */
  function ReportsOf(reports: map<Path, seq<real>>, f: Path): seq<real> {
    if f in reports then reports[f] else []
  }

  /** The entry the task of `f` leaves: its last report, or the 0.0 the file
      was given when the task reports nothing. */
  function LastReport(reports: map<Path, seq<real>>, f: Path): real {
    var rs := ReportsOf(reports, f);
    if rs == [] then 0.0 else rs[|rs| - 1]
  }

  /** The table after the tasks of `files` have run, one after another. */
  function RanAll(table: map<Path, real>, files: seq<Path>, reports: map<Path, seq<real>>): map<Path, real> {
    if files == [] then table
    else
      var f := files[|files| - 1];
      var t := RanAll(table, files[..|files| - 1], reports);
      if ReportsOf(reports, f) == [] then t else t[f := LastReport(reports, f)]
  }

  /** Some task of `files` reports progress at least once. */
  predicate AnyReports(files: seq<Path>, reports: map<Path, seq<real>>) {
    files != [] && (AnyReports(files[..|files| - 1], reports) || ReportsOf(reports, files[|files| - 1]) != [])
  }

  /** After the tasks have run, a file whose task reported holds its last
      report and every other entry is as it was. */
  lemma {:induction false} RanAllEntries(table: map<Path, real>, files: seq<Path>, reports: map<Path, seq<real>>)
    ensures forall f :: f in RanAll(table, files, reports) <==> f in table || (f in files && ReportsOf(reports, f) != [])
    ensures forall f :: f in files && ReportsOf(reports, f) != [] ==> RanAll(table, files, reports)[f] == LastReport(reports, f)
    ensures forall f :: f in table && !(f in files && ReportsOf(reports, f) != []) ==>
      RanAll(table, files, reports)[f] == table[f]
  {
    if files != [] {
      var init := files[..|files| - 1];
      RanAllEntries(table, init, reports);
      assert forall f :: f in files <==> f in init || f == files[|files| - 1];
    }
  }

  /** The table `performProcessing` leaves: every file it processed holds the
      last progress its task reported, or 0.0 when the task reported none,
      and every other entry is as it was. */
  lemma FinalTable(table: map<Path, real>, files: seq<Path>, reports: map<Path, seq<real>>)
    ensures var t := RanAll(Seeded(table, files), files, reports);
      && (forall f :: f in t <==> f in table || f in files)
      && (forall f :: f in files ==> t[f] == LastReport(reports, f))
      && (forall f :: f in table && f !in files ==> t[f] == table[f])
  {
    SeededEntries(table, files);
    RanAllEntries(Seeded(table, files), files, reports);
  }

  /** When every task ends by reporting 1.0 and every older entry is 1.0, the
      published mean is 1.0. */
  lemma AllDoneShowsOne(table: map<Path, real>, files: seq<Path>, reports: map<Path, seq<real>>, order: seq<Path>)
    requires Enumerates(order, RanAll(Seeded(table, files), files, reports))
    requires files != []
    requires forall f :: f in files ==> LastReport(reports, f) == 1.0
    requires forall f :: f in table && f !in files ==> table[f] == 1.0
    ensures order != [] && Mean(order, RanAll(Seeded(table, files), files, reports)) == 1.0
  {
    var t := RanAll(Seeded(table, files), files, reports);
    FinalTable(table, files, reports);
    assert files[0] in t;
    MeanOnes(order, t);
  }

  /** When every report and every older entry is a fraction, so is the
      published mean of the final table. */
  lemma FinalFraction(table: map<Path, real>, files: seq<Path>, reports: map<Path, seq<real>>, order: seq<Path>)
    requires Enumerates(order, RanAll(Seeded(table, files), files, reports)) && order != []
    requires forall f :: f in table ==> Fraction(table[f])
    requires forall f, k :: f in reports && 0 <= k < |reports[f]| ==> Fraction(reports[f][k])
    ensures Fraction(Mean(order, RanAll(Seeded(table, files), files, reports)))
  {
    var t := RanAll(Seeded(table, files), files, reports);
    FinalTable(table, files, reports);
    forall f | f in order
      ensures f in t && Fraction(t[f])
    {
      if f in files {
        var rs := ReportsOf(reports, f);
        if rs != [] {
          assert Fraction(reports[f][|rs| - 1]);
        }
      }
    }
    MeanBounds(order, t);
  }

  /** The outcome of awaiting the futures of `views` in order: the first task
      that threw surfaces as an `ExecutionException`, and the futures after it
      are not awaited. */
  function Awaited(views: seq<Path>, crashes: set<Path>): Outcome {
    if views == [] then Pass
    else if views[0] in crashes then Fail(ExecutionFailed(views[0]))
    else Awaited(views[1..], crashes)
  }

  /** Awaiting succeeds exactly when no task threw, and otherwise reports the
      first task that did. */
  lemma {:induction false} AwaitedFirst(views: seq<Path>, crashes: set<Path>)
    ensures Awaited(views, crashes) == Pass <==> forall i :: 0 <= i < |views| ==> views[i] !in crashes
    ensures Awaited(views, crashes) != Pass ==>
      exists i :: 0 <= i < |views| && Awaited(views, crashes) == Fail(ExecutionFailed(views[i]))
        && views[i] in crashes && forall k :: 0 <= k < i ==> views[k] !in crashes
  {
    if views != [] && views[0] !in crashes {
      AwaitedFirst(views[1..], crashes);
      if Awaited(views, crashes) != Pass {
        var i :| 0 <= i < |views| - 1 && Awaited(views[1..], crashes) == Fail(ExecutionFailed(views[1..][i]))
          && views[1..][i] in crashes && forall k :: 0 <= k < i ==> views[1..][k] !in crashes;
        assert views[i + 1] == views[1..][i];
        assert forall k :: 1 <= k < i + 1 ==> views[k] == views[1..][k - 1];
      } else {
        assert forall i :: 1 <= i < |views| ==> views[i] == views[1..][i - 1];
      }
    }
  }

  // ---------------------------------------------------------------------------
  // The processor
  // ---------------------------------------------------------------------------

  /** A `ViewProcessor` with its `progressMap`: `progress` holds the entries and
      `order` the order in which `values()` enumerates them. */
  class ViewProcessor {
    var progress: map<Path, real>
    var order: seq<Path>
    /** The value last passed to `IJ.showProgress`. */
    var shown: real

    ghost predicate Valid()
      reads this
    {
      Enumerates(order, progress)
    }

    constructor ()
      ensures Valid() && progress == map[] && order == []
    {
      progress := map[];
      order := [];
      shown := 0.0;
    }

    /** `progressMap.put(f, p)`. */
    method Put(f: Path, p: real)
      requires Valid()
      modifies this
      ensures Valid()
      ensures progress == old(progress)[f := p]
      ensures order == Enrol(old(order), f) && shown == old(shown)
    {
      progress := progress[f := p];
      order := Enrol(order, f);
    }

    /** `reportProgress(f, p)`: records `p` for `f`, every other entry
        unchanged, and publishes the mean of all entries. */
    method ReportProgress(f: Path, p: real) returns (overall: real)
      requires Valid()
      modifies this
      ensures Valid()
      ensures progress == old(progress)[f := p] && order == Enrol(old(order), f)
      ensures order != [] && overall == Mean(order, progress) && shown == overall
    {
      Put(f, p);
      overall := Average(order, progress);
      shown := overall;
    }

    /** The task of `f`: `processView` reporting each value of `rs` for `f`
        in turn. The last report stays in the table, and the value shown is
        the mean after it. */
    method RunTask(f: Path, rs: seq<real>)
      requires Valid() && f in progress
      modifies this
      ensures Valid() && order == old(order)
      ensures progress == if rs == [] then old(progress) else old(progress)[f := rs[|rs| - 1]]
      ensures rs == [] ==> shown == old(shown)
      ensures rs != [] ==> order != [] && shown == Mean(order, progress)
    {
      var i := 0;
      while i < |rs|
        invariant 0 <= i <= |rs| && Valid() && order == old(order) && f in progress
        invariant progress == if i == 0 then old(progress) else old(progress)[f := rs[i - 1]]
        invariant i == 0 ==> shown == old(shown)
        invariant i > 0 ==> order != [] && shown == Mean(order, progress)
      {
        var _ := ReportProgress(f, rs[i]);
        i := i + 1;
      }
    }

    /** The pool running the tasks of `files`, one after another. */
    method RunTasks(files: seq<Path>, reports: map<Path, seq<real>>)
      requires Valid() && forall f :: f in files ==> f in progress
      modifies this
      ensures Valid() && order == old(order)
      ensures progress == RanAll(old(progress), files, reports)
      ensures AnyReports(files, reports) ==> order != [] && shown == Mean(order, progress)
      ensures !AnyReports(files, reports) ==> shown == old(shown)
    {
      var i := 0;
      while i < |files|
        invariant 0 <= i <= |files| && Valid() && order == old(order)
        invariant forall f :: f in files ==> f in progress
        invariant progress == RanAll(old(progress), files[..i], reports)
        invariant AnyReports(files[..i], reports) ==> order != [] && shown == Mean(order, progress)
        invariant !AnyReports(files[..i], reports) ==> shown == old(shown)
      {
        RunTask(files[i], ReportsOf(reports, files[i]));
        assert files[..i + 1][..i] == files[..i];
        i := i + 1;
      }
      assert files[..|files|] == files;
    }

    /** `performProcessing`: for each file of the specifier, in order, a 0.0
        entry and one task; the tasks run, each reporting its progress; then
        they are awaited in order. A locked specifier or one without
        timepoints makes the iteration throw before anything is recorded. */
    method PerformProcessing(spec: SpimDataSpecifier, reports: map<Path, seq<real>>, crashes: set<Path>)
      returns (o: Outcome)
      requires Valid() && spec.Valid()
      modifies this, spec
      ensures Valid() && spec.Valid()
      ensures old(spec.open) ==> o == Fail(Unsupported) && progress == old(progress) && shown == old(shown)
      ensures !old(spec.open) && spec.timepoints.sequence == [] ==>
        o == Fail(NoSuchElement) && progress == old(progress) && shown == old(shown)
      ensures !old(spec.open) && spec.timepoints.sequence != [] && spec.angles.sequence != [] ==>
        && progress == RanAll(Seeded(old(progress), spec.Files()), spec.Files(), reports)
        && order == EnrolAll(old(order), spec.Files())
        && (AnyReports(spec.Files(), reports) ==> order != [] && shown == Mean(order, progress))
        && o == Awaited(spec.Files(), crashes)
        && !spec.open
      ensures !old(spec.open) && spec.timepoints.sequence != [] && spec.angles.sequence == [] ==>
        o == (if |spec.timepoints.sequence| >= 2 then Fail(NoSuchElement) else Pass) && spec.open
      ensures spec.angles.sequence == [] ==> progress == old(progress) && shown == old(shown)
    {
      o := spec.Iterator();
      if o.Fail? {
        return;
      }
      var r := Submit(spec);
      if r.Failure? {
        return Fail(r.fault);
      }
      SeededEntries(old(progress), r.value);
      RunTasks(r.value, reports);
      o := AwaitAll(r.value, crashes);
    }

    /** The first loop of `performProcessing`: draws every file from the open
        cursor, giving each a 0.0 entry. Without angles the cursor yields
        nothing, and may throw instead. */
    method Submit(spec: SpimDataSpecifier) returns (r: Result<seq<Path>>)
      requires Valid() && spec.Valid() && spec.open && spec.Pending() == spec.AllPairs()
      modifies this, spec
      ensures Valid() && spec.Valid()
      ensures shown == old(shown)
      ensures r.Success? ==>
        r.value == spec.Files() && progress == Seeded(old(progress), r.value) && order == EnrolAll(old(order), r.value)
      ensures r.Failure? ==> r == Failure(NoSuchElement) && progress == old(progress) && spec.angles.sequence == []
      ensures spec.angles.sequence != [] ==> r.Success? && !spec.open
      ensures spec.angles.sequence == [] ==> progress == old(progress) && (r.Success? ==> r.value == [])
      ensures spec.angles.sequence == [] ==>
        && spec.open
        && r == (if old(spec.tpNext) < |spec.timepoints.sequence| then Failure(NoSuchElement) else Success([]))
    {
      ghost var all, files := spec.AllPairs(), spec.Files();
      if spec.angles.sequence == [] {
        PairsNoAngles(spec.timepoints.sequence);
      }
      var submitted: seq<Path> := [];
      while spec.HasNext()
        invariant Valid() && spec.Valid()
        invariant spec.angles.sequence != [] && spec.Pending() == [] ==> !spec.open
        invariant |submitted| <= |all| && spec.Pending() == all[|submitted|..]
        invariant submitted == files[..|submitted|]
        invariant progress == Seeded(old(progress), submitted)
        invariant order == EnrolAll(old(order), submitted) && shown == old(shown)
        invariant spec.angles.sequence == [] ==> spec.open && spec.tpNext == old(spec.tpNext)
        decreases |spec.Pending()|
      {
        var next := SubmitNext(spec, submitted, old(progress), old(order));
        if next.Failure? {
          assert submitted == [] && progress == old(progress) by {
            assert |all| == 0;
          }
          return Failure(next.fault);
        }
        submitted := submitted + [next.value];
      }
      if spec.angles.sequence == [] {
        assert submitted == [] && progress == old(progress) by {
          assert |all| == 0;
        }
      } else {
        assert submitted == files by {
          assert spec.Pending() == [];
          assert |submitted| == |all| == |files|;
        }
      }
      r := Success(submitted);
    }

    /** One turn of the first loop: the next file and its 0.0 entry, after
        the files `submitted` were seeded into the table `table` enumerated
        in order `base`. */
    method SubmitNext(spec: SpimDataSpecifier, ghost submitted: seq<Path>,
                      ghost table: map<Path, real>, ghost base: seq<Path>) returns (r: Result<Path>)
      requires Valid() && spec.Valid() && spec.HasNext()
      requires |submitted| <= |spec.AllPairs()| && spec.Pending() == spec.AllPairs()[|submitted|..]
      requires submitted == spec.Files()[..|submitted|]
      requires progress == Seeded(table, submitted) && order == EnrolAll(base, submitted)
      modifies this, spec
      ensures Valid() && spec.Valid() && shown == old(shown)
      ensures r.Failure? ==>
        && r == Failure(NoSuchElement) && spec.angles.sequence == [] && spec.open
        && progress == old(progress) && order == old(order)
      ensures r.Success? ==>
        && |submitted| < |spec.AllPairs()| && spec.Pending() == spec.AllPairs()[|submitted| + 1..]
        && submitted + [r.value] == spec.Files()[..|submitted| + 1]
        && progress == old(progress)[r.value := 0.0] && order == Enrol(old(order), r.value)
        && progress == Seeded(table, submitted + [r.value]) && order == EnrolAll(base, submitted + [r.value])
        && (spec.angles.sequence != [] && spec.Pending() == [] ==> !spec.open)
    {
      r := Draw(spec, submitted);
      if r.Failure? {
        return;
      }
      SeededStep(table, base, submitted, r.value);
      Put(r.value, 0.0);
    }
  }

  /** The `next()` of one turn of the first loop, after the files `submitted`
      were drawn: the next file, or `NoSuchElementException` when there are
      no angles. */
  method Draw(spec: SpimDataSpecifier, ghost submitted: seq<Path>) returns (r: Result<Path>)
    requires spec.Valid() && spec.HasNext()
    requires |submitted| <= |spec.AllPairs()| && spec.Pending() == spec.AllPairs()[|submitted|..]
    requires submitted == spec.Files()[..|submitted|]
    modifies spec
    ensures spec.Valid()
    ensures r.Failure? ==> r == Failure(NoSuchElement) && spec.angles.sequence == [] && spec.open
    ensures r.Success? ==>
      && |submitted| < |spec.AllPairs()| && spec.Pending() == spec.AllPairs()[|submitted| + 1..]
      && submitted + [r.value] == spec.Files()[..|submitted| + 1]
      && (spec.angles.sequence != [] && spec.Pending() == [] ==> !spec.open)
  {
    ghost var all, files, before := spec.AllPairs(), spec.Files(), spec.Pending();
    r := spec.Next();
    if r.Failure? {
      return;
    }
    var f := r.value;
    assert |submitted| < |all| && spec.Pending() == all[|submitted| + 1..] by {
      assert before != [] && spec.Pending() == before[1..];
    }
    assert files[..|submitted| + 1] == submitted + [f] by {
      assert f == files[|submitted|];
    }
  }

  /** The loop of `reportProgress` that adds up each entry divided by the
      number of entries. */
  method Average(keys: seq<Path>, table: map<Path, real>) returns (overall: real)
    requires keys != [] && forall f :: f in keys ==> f in table
    ensures overall == Mean(keys, table)
  {
    var n := |keys| as real;
    overall := 0.0;
    var i := 0;
    while i < |keys|
      invariant 0 <= i <= |keys|
      invariant overall == Total(keys[..i], table) / n
    {
      TotalStep(keys, table, i);
      DivideSum(Total(keys[..i], table), table[keys[i]], n);
      overall := overall + table[keys[i]] / n;
      i := i + 1;
    }
    assert keys[..|keys|] == keys;
  }

  /** The second loop of `performProcessing`: `get()` on each future in order. */
  method AwaitAll(views: seq<Path>, crashes: set<Path>) returns (o: Outcome)
    ensures o == Awaited(views, crashes)
  {
    var i := 0;
    while i < |views|
      invariant 0 <= i <= |views|
      invariant Awaited(views, crashes) == Awaited(views[i..], crashes)
    {
      assert views[i..][1..] == views[i + 1..];
      if views[i] in crashes {
        return Fail(ExecutionFailed(views[i]));
      }
      i := i + 1;
    }
    o := Pass;
  }
}
