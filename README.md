# Fusion pipeline orchestration, modelled in Dafny

This project models the orchestration core of the OpenSPIM fusion pipeline, an
ImageJ plugin. The plugin runs a fixed sequence of processing stages over the
views of a SPIM (selective plane illumination microscopy) acquisition:

- preprocessing, segmentation and post-segmentation;
- registration and post-registration;
- fusion and postprocessing.

The model covers these parts of the plugin:

- **Dataset specifier.** A `SpimDataSpecifier` names the view files. It holds
  a directory, a file-name pattern with `{t…}`/`{a…}` placeholders, and two
  "multi-specs" (comma-separated ranges `min[-max[:step]]`) for timepoints and
  angles. The object is its own single-use cursor over every
  (timepoint, angle) file, in timepoint-major order.
- **Capabilities and stages.** Processors advertise capability bits. Each
  stage owns a bit mask, and `CapFilter` lazily keeps the processors whose
  capabilities meet a mask.
- **ViewProcessor.** It submits one task per view, keeps a per-view progress
  table and averages it, and waits for every task in submission order.
- **Bead filter.** `BeadProcessor.processView` backs up a view's bead list and
  rewrites it with only the beads a filter keeps.
- **Fusion_Pipeline.** The dialog's "Process"/cancel handling records macro
  options. `run` executes the chosen processors stage by stage and stops at
  the first that throws.
- **SortableDualList.** A pair of list boxes from which the user picks and
  orders processors. It has its own `SimpleListModel`, moves items between
  the two sides and reorders the right-hand side.
- **OpenSPIMToolkit.** The `RegField` parameter registry, macro-option
  strings, the `registration`/`output` directories and the simple bead
  loader.

Files, one module each:

| file | module | models |
|---|---|---|
| `common.dfy` | `Common` | option/result/outcome values, Java exceptions as `Fault`, `File` paths as component sequences, split and normalised as `java.io.File` does |
| `text.dfy` | `Text` | digits and `%0Nd` padding, `String.trim`, `split`/`join`, lines, scanner tokens |
| `range_spec.dfy` | `RangeSpec` | `SpimDataSpecifier.MultiSpec` |
| `data_specifier.dfy` | `DataSpecifier` | `SpimDataSpecifier` |
| `capabilities.dfy` | `Capabilities` | `Processor` flags, `Processor.Stage`, `Processor.CapFilter` |
| `dispatch.dfy` | `Dispatch` | `ViewProcessor` |
| `bead_filter.dfy` | `BeadFilter` | `BeadProcessor.processView`, over an explicit file-system map |
| `toolkit.dfy` | `Toolkit` | `OpenSPIMToolkit.RegField` and helpers |
| `pipeline.dfy` | `Pipeline` | `Fusion_Pipeline` |
| `selection_list.dfy` | `SelectionList` | `SortableDualList` and `SimpleListModel` |

The classes whose fields the source updates in place are Dafny classes with
`modifies` frames. These are `SpimDataSpecifier`, `CapFilter`,
`ViewProcessor`, the `RegField` registry, `Fusion_Pipeline`,
`SimpleListModel` and `SortableDualList`. The file system that
`processView` works on is also a class. Each such method is specified
against a pure function of the old state, and the lemmas beside it prove
what the source promises about that function.

Three pieces of the original are inputs to the model rather than code in
it:

- **Processor bodies.** What a processor does in `performProcessing` is a
  function parameter from (processor, stage) to an outcome.
- **Bead predicate.** Which beads a filter keeps is a predicate parameter.
- **Failing views.** Which views' tasks throw is a set parameter.

Where the description of the system and the code differ, the model follows
the code. Three cases stand out:

- Bead-filter progress after the n-th record is n/(n+1)
  (`BeadFilter.ProgressAfter`). It is not a fraction of a record count known
  in advance.
- A range with step 0 never terminates: the loop variable stays at min, so
  the guard holds on every pass (`RangeSpec.ZeroStepNeverEnds`). Such a
  range is not admissible.
- `BeadProcessor.processView` never filters anything, as written. See
  "## Findings".

## Model

| member | source | states |
|---|---|---|
| Common.Child | src/main/java/org/openspim/toolkit/BeadProcessor.java:23 | `new File(dir, name)` appends the components of `name`: a single component becomes the name with `dir` the parent, and an empty name leaves `dir` |
| Common.Components | src/main/java/org/openspim/toolkit/BeadProcessor.java:23 | a path text's components are non-empty and hold no separator |
| Common.ComponentsAppend | src/main/java/org/openspim/toolkit/BeadProcessor.java:23 | a separator inside a name separates its components |
| Common.ChildSplits | src/main/java/org/openspim/toolkit/BeadProcessor.java:23 | `new File(dir, "a/b")` is `new File(new File(dir, "a"), "b")` |
| Text.Decimal | src/main/java/org/openspim/toolkit/OpenSPIMToolkit.java:139 | the decimal text of n is all digits, with no leading zero unless it is "0" |
| Text.DecimalValue | src/main/java/org/openspim/toolkit/OpenSPIMToolkit.java:139 | the decimal text of n reads back as n |
| Text.PadValue | src/main/java/org/openspim/toolkit/SpimDataSpecifier.java:144 | `%0Nd` yields max(N, digits of n) characters that read back as n |
| Text.IntText | src/main/java/org/openspim/toolkit/OpenSPIMToolkit.java:139 | `%d` is the decimal text, with a leading '-' exactly for negative values |
| Text.Trim | src/main/java/org/openspim/toolkit/SpimDataSpecifier.java:47 | `trim()` leaves no character up to U+0020 at either end |
| Text.TrimKeeps | src/main/java/org/openspim/toolkit/SpimDataSpecifier.java:47 | text whose ends are not blank is its own trim |
| Text.IndexOf | src/main/java/org/openspim/toolkit/SpimDataSpecifier.java:43 | the first occurrence of a character, or the length when it is absent |
| Text.Split | src/main/java/org/openspim/toolkit/SpimDataSpecifier.java:43 | `split(",")` gives at least one piece and no piece holds the separator |
| Text.JoinSplit | src/main/java/org/openspim/toolkit/SpimDataSpecifier.java:43 | joining the pieces of a split with the separator gives the text back |
| Text.SplitJoin | src/main/java/org/openspim/toolkit/SpimDataSpecifier.java:43 | splitting separator-free pieces joined by the separator gives the pieces back |
| Text.Lines | src/main/java/org/openspim/toolkit/OpenSPIMToolkit.java:313-323 | reading a file line by line gives pieces with no '\n' and no '\r' in them |
| Text.BreakAt | src/main/java/org/openspim/toolkit/OpenSPIMToolkit.java:318 | the first line break, or the length when there is none |
| Text.LinesBreak | src/main/java/org/openspim/toolkit/OpenSPIMToolkit.java:317-318 | a line ends at "\n", at "\r\n" or at a lone "\r", and the next line starts after the break |
| Text.LinesUnLines | src/main/java/org/openspim/toolkit/BeadProcessor.java:36-43 | lines written each followed by '\n' read back as the same lines |
| Text.WordLength | src/main/java/org/openspim/toolkit/BeadProcessor.java:47-49 | a scanner token runs up to, and not including, the next whitespace |
| Text.Fields | src/main/java/org/openspim/toolkit/OpenSPIMToolkit.java:292-296 | the tokens a `Scanner` reads are non-empty |
| Text.FieldsAreWords | src/main/java/org/openspim/toolkit/OpenSPIMToolkit.java:292-296 | every token is non-empty and holds no delimiter |
| Text.FieldsCons | src/main/java/org/openspim/toolkit/OpenSPIMToolkit.java:292-296 | a token followed by a delimiter, or by nothing, is read whole as the first token |
| Text.FieldsSpace | src/main/java/org/openspim/toolkit/OpenSPIMToolkit.java:292-296 | a leading delimiter is skipped |
| Text.FieldsJoin | src/main/java/org/openspim/toolkit/OpenSPIMToolkit.java:292-296 | tokens joined by single spaces are read back as the same tokens |
| RangeSpec.ParseSingle | src/main/java/org/openspim/toolkit/SpimDataSpecifier.java:47-55 | a trimmed bare number v is the range v..v with step 1 |
| RangeSpec.ParsePair | src/main/java/org/openspim/toolkit/SpimDataSpecifier.java:47-58 | a trimmed `a-b` is the range a..b with step 1 |
| RangeSpec.ParseTriple | src/main/java/org/openspim/toolkit/SpimDataSpecifier.java:47-61 | a trimmed `a-b:c` is the range a..b with step c |
| RangeSpec.ParseTrimmedTriple | src/main/java/org/openspim/toolkit/SpimDataSpecifier.java:34 | the regular expression accepts `a-b:c` and captures its three numbers |
| RangeSpec.ParsedShape | src/main/java/org/openspim/toolkit/SpimDataSpecifier.java:34-61 | conversely, a token that matches is, once trimmed, exactly `a`, `a-b` or `a-b:c` of digit strings, and its range holds their values with the defaults for what is absent |
| RangeSpec.TrimmedShape | src/main/java/org/openspim/toolkit/SpimDataSpecifier.java:34 | the same for a trimmed token |
| RangeSpec.UpperShape | src/main/java/org/openspim/toolkit/SpimDataSpecifier.java:34 | what follows the '-' of a matching token is `b` or `b:c` of digit strings |
| RangeSpec.TrimPadding | src/main/java/org/openspim/toolkit/SpimDataSpecifier.java:47 | blanks around a token are removed and nothing else is |
| RangeSpec.ValuesShape | src/main/java/org/openspim/toolkit/SpimDataSpecifier.java:63-64 | the loop yields min + k·step for each k while that is at most max; nothing when max < min; the next step would pass max |
| RangeSpec.ZeroStepNeverEnds | src/main/java/org/openspim/toolkit/SpimDataSpecifier.java:63 | with step 0 and min ≤ max, after any number of passes the loop variable is still min and the guard still holds, so the loop never ends and the range is not admissible |
| RangeSpec.AddInt | src/main/java/org/openspim/toolkit/SpimDataSpecifier.java:63 | `i += step` on ints stays within the int range and differs from the true sum by 0 or ±2^32 |
| RangeSpec.LoopVisitsSteps | src/main/java/org/openspim/toolkit/SpimDataSpecifier.java:63-64 | for an admissible range, the loop variable on pass k is the k-th value of the expansion, the guard holds on those passes and fails on the next |
| RangeSpec.ExpandRangesAppend | src/main/java/org/openspim/toolkit/SpimDataSpecifier.java:46-65 | the values of consecutive tokens are concatenated in source order |
| RangeSpec.ExpandTwo | src/main/java/org/openspim/toolkit/SpimDataSpecifier.java:43-65 | `a,b` expands to a's values followed by b's |
| RangeSpec.ExpandTriple | src/main/java/org/openspim/toolkit/SpimDataSpecifier.java:54-64 | `a-b:c` expands to the values of the range a..b with step c |
| RangeSpec.ExpandDigits | src/main/java/org/openspim/toolkit/SpimDataSpecifier.java:54-64 | a single number denotes only itself |
| RangeSpec.ValuesStep | src/main/java/org/openspim/toolkit/SpimDataSpecifier.java:63-64 | `1-5:2` gives 1, 3, 5 |
| RangeSpec.ExampleInvalid | src/main/java/org/openspim/toolkit/SpimDataSpecifier.java:48-52 | a token the expression rejects is skipped: "x" denotes nothing |
| RangeSpec.Parse | src/main/java/org/openspim/toolkit/SpimDataSpecifier.java:39-66 | the constructor keeps the source text and its loops build exactly the expansion of the text |
| RangeSpec.MultiSpec.Count | src/main/java/org/openspim/toolkit/SpimDataSpecifier.java:68-71 | `count()` of a parsed specifier is the number of values its text expands to |
| RangeSpec.MultiSpec.Get | src/main/java/org/openspim/toolkit/SpimDataSpecifier.java:73-76 | `get(i)` is the i-th value of the expansion; an index outside the list throws IndexOutOfBoundsException, and only such an index does |
| RangeSpec.Wrap32 | src/main/java/org/openspim/toolkit/SpimDataSpecifier.java:107 | the 32-bit result lies in the `int` range, agrees with the true value modulo 2^32, and is the true value when that fits |
| RangeSpec.ProductsWrap | src/main/java/org/openspim/toolkit/SpimDataSpecifier.java:107 | 65536 × 65536 is 0 and 65536 × 32768 is `Integer.MIN_VALUE` as `int` products |
| RangeSpec.AppendRange | src/main/java/org/openspim/toolkit/SpimDataSpecifier.java:63-64 | the inner loop appends the range's values to the sequence |
| DataSpecifier.RunFrom | src/main/java/org/openspim/toolkit/SpimDataSpecifier.java:128-129 | `t+`/`a+` matches the longest run of the letter |
| DataSpecifier.FindFirst | src/main/java/org/openspim/toolkit/SpimDataSpecifier.java:142-143 | `find()` stops at the leftmost placeholder, and finds none exactly when the text holds none |
| DataSpecifier.SubstituteAll | src/main/java/org/openspim/toolkit/SpimDataSpecifier.java:141-148 | the `while(m.find())` replacement loop computes the substitution of every placeholder of one letter |
| DataSpecifier.SubstituteStep | src/main/java/org/openspim/toolkit/SpimDataSpecifier.java:143-144 | the first placeholder of n letters becomes the value padded to n digits; the text before it is kept |
| DataSpecifier.SubstituteFirst | src/main/java/org/openspim/toolkit/SpimDataSpecifier.java:143-144 | `x{c^k}y` becomes x, the value padded to k digits, then the substituted y |
| DataSpecifier.SubstituteClears | src/main/java/org/openspim/toolkit/SpimDataSpecifier.java:141-148 | after substitution no placeholder of the letter is left, and none of another letter is created |
| DataSpecifier.SubstituteKeeps | src/main/java/org/openspim/toolkit/SpimDataSpecifier.java:141-148 | a pattern without the letter's placeholders is unchanged |
| DataSpecifier.SubstituteOnly | src/main/java/org/openspim/toolkit/SpimDataSpecifier.java:143-148 | with one placeholder, only that placeholder changes |
| DataSpecifier.FileNameComplete | src/main/java/org/openspim/toolkit/SpimDataSpecifier.java:141-148 | a file name holds no `{t…}` and no `{a…}` placeholder |
| DataSpecifier.FileNameOfPattern | src/main/java/org/openspim/toolkit/SpimDataSpecifier.java:141-148 | `x{t^k}y{a^m}z` names x, the timepoint in k digits, y, the angle in m digits, then z |
| DataSpecifier.ExampleFileName | src/main/java/org/openspim/toolkit/SpimDataSpecifier.java:141-148 | with the default pattern, timepoint 1 gives "01" and angle 0 gives "0" |
| DataSpecifier.PairsLength | src/main/java/org/openspim/toolkit/SpimDataSpecifier.java:105-108 | there are \|timepoints\|·\|angles\| pairs |
| DataSpecifier.PairsIndex | src/main/java/org/openspim/toolkit/SpimDataSpecifier.java:131-139 | pair i·\|angles\|+j is (timepoint i, angle j): the order is timepoint-major |
| DataSpecifier.RemainingLive | src/main/java/org/openspim/toolkit/SpimDataSpecifier.java:123-126 | while either iterator has more, and there are angles, a pair remains |
| DataSpecifier.SpimDataSpecifier.constructor | src/main/java/org/openspim/toolkit/SpimDataSpecifier.java:94-103 | keeps directory and pattern, parses both multi-specs, starts closed at timepoint 0 |
| DataSpecifier.SpimDataSpecifier.Files | src/main/java/org/openspim/toolkit/SpimDataSpecifier.java:141-156 | file k is the directory child named by the pattern for pair k |
| DataSpecifier.SpimDataSpecifier.Count | src/main/java/org/openspim/toolkit/SpimDataSpecifier.java:105-108 | `count()` is the `int` product of the two counts: the number of pairs, which is the number of files, reduced to 32 bits; exactly that number when it fits an `int` |
| DataSpecifier.SpimDataSpecifier.Iterator | src/main/java/org/openspim/toolkit/SpimDataSpecifier.java:110-120 | a second iteration throws UnsupportedOperationException; no timepoints throws NoSuchElementException and leaves the cursor open; otherwise every pair is pending |
| DataSpecifier.SpimDataSpecifier.HasNext | src/main/java/org/openspim/toolkit/SpimDataSpecifier.java:122-126 | with angles present, true exactly when a pair is pending; only while open |
| DataSpecifier.SpimDataSpecifier.CurrentTimepoint | src/main/java/org/openspim/toolkit/SpimDataSpecifier.java:158-161 | while the current timepoint has angles left, it is the timepoint of the next pair the cursor yields |
| DataSpecifier.SpimDataSpecifier.Next | src/main/java/org/openspim/toolkit/SpimDataSpecifier.java:131-157 | closed: NullPointerException; otherwise the file of the first pending pair and its timepoint, closing after the last; nothing pending: NoSuchElementException |
| DataSpecifier.SpimDataSpecifier.Rewind | src/main/java/org/openspim/toolkit/SpimDataSpecifier.java:133-137 | the angles restart and the next timepoint is taken, or NoSuchElementException after the last one |
| DataSpecifier.SpimDataSpecifier.TakeAngle | src/main/java/org/openspim/toolkit/SpimDataSpecifier.java:139 | takes the next angle and removes its pair from the pending ones |
| DataSpecifier.SpimDataSpecifier.FileFor | src/main/java/org/openspim/toolkit/SpimDataSpecifier.java:141-156 | the file of one (timepoint, angle) pair |
| DataSpecifier.SpimDataSpecifier.ParameterString | src/main/java/org/openspim/toolkit/SpimDataSpecifier.java:170-174 | the absolute directory and the angle text appear verbatim in their brackets |
| DataSpecifier.AbandonCursor | src/main/java/org/openspim/toolkit/SpimDataSpecifier.java:111-114 | a cursor left part-way keeps the specifier open, so iterating it again throws |
| Capabilities.FlagsAreBits | src/main/java/org/openspim/toolkit/Processor.java:33-49 | the eleven capability constants are the distinct bits 1<<0..1<<10 |
| Capabilities.Stage.Mask | src/main/java/org/openspim/toolkit/Processor.java:27-30 | every stage mask is non-empty and within the eleven bits |
| Capabilities.StageMasksPartition | src/main/java/org/openspim/toolkit/Processor.java:12-18 | each capability bit belongs to exactly one stage; the masks are disjoint and cover all bits |
| Capabilities.StageMasksDisjoint | src/main/java/org/openspim/toolkit/Processor.java:12-18 | stage masks are pairwise disjoint and together cover the eleven bits |
| Capabilities.StageOrder | src/main/java/org/openspim/toolkit/Processor.java:10-18 | the seven stages are distinct, in ascending mask order, and the list stages alternate with the single-choice ones |
| Capabilities.MatchingMembers | src/main/java/org/openspim/toolkit/Processor.java:81-87 | a processor is yielded iff it is in the source and shares a bit with the mask |
| Capabilities.MatchingCounts | src/main/java/org/openspim/toolkit/Processor.java:81-87 | matching processors keep their multiplicity; the others are dropped |
| Capabilities.MatchingAppend | src/main/java/org/openspim/toolkit/Processor.java:81-87 | filtering preserves source order |
| Capabilities.StagesServedMembers | src/main/java/org/openspim/toolkit/Processor.java:27-30 | a processor serves a stage iff its capabilities meet the stage mask |
| Capabilities.RegistrationAdapterStages | src/main/java/org/openspim/toolkit/adapters/DefaultSPIMRegistration.java:21-23 | the registration adapter serves segmentation and registration |
| Capabilities.BeadFilterStages | src/main/java/org/openspim/toolkit/BeadProcessor.java:73-77 | the bead filter serves exactly the three list stages after segmentation |
| Capabilities.CapFilter.constructor | src/main/java/org/openspim/toolkit/Processor.java:56-62 | the filter will yield exactly the matching processors of the source, in order |
| Capabilities.CapFilter.FindNext | src/main/java/org/openspim/toolkit/Processor.java:81-87 | skipping non-matching processors does not change what is yielded |
| Capabilities.CapFilter.HasNext | src/main/java/org/openspim/toolkit/Processor.java:64-67 | true iff a matching processor remains |
| Capabilities.CapFilter.Next | src/main/java/org/openspim/toolkit/Processor.java:69-74 | yields the next matching processor, or null once exhausted |
| Capabilities.CapFilter.Remove | src/main/java/org/openspim/toolkit/Processor.java:76-79 | always throws UnsupportedOperationException |
| Dispatch.Enrol | src/main/java/org/openspim/toolkit/ViewProcessor.java:42 | putting a key adds it to the keys and loses none |
| Dispatch.SeededEntries | src/main/java/org/openspim/toolkit/ViewProcessor.java:21-23 | submission sets every view's progress to 0 and leaves other entries alone |
| Dispatch.MeanBounds | src/main/java/org/openspim/toolkit/ViewProcessor.java:44-47 | the mean of progress values in [0,1] is in [0,1] |
| Dispatch.MeanOnes | src/main/java/org/openspim/toolkit/ViewProcessor.java:44-47 | when every view reports 1, the overall progress is 1 |
| Dispatch.AwaitedFirst | src/main/java/org/openspim/toolkit/ViewProcessor.java:36-37 | waiting succeeds iff no view's task threw; otherwise it reports the first view, in submission order, that threw |
| Dispatch.Average | src/main/java/org/openspim/toolkit/ViewProcessor.java:44-47 | the averaging loop computes the mean of the table |
| Dispatch.AwaitAll | src/main/java/org/openspim/toolkit/ViewProcessor.java:36-37 | the `get()` loop yields the awaited outcome |
| Dispatch.ViewProcessor.constructor | src/main/java/org/openspim/toolkit/ViewProcessor.java:15 | the progress table starts empty |
| Dispatch.ViewProcessor.Put | src/main/java/org/openspim/toolkit/ViewProcessor.java:42 | the table maps the view to the new value and enrols it |
| Dispatch.ViewProcessor.ReportProgress | src/main/java/org/openspim/toolkit/ViewProcessor.java:40-51 | records one view's progress, returns the mean over every recorded view and shows that mean |
| Dispatch.ViewProcessor.RunTask | src/main/java/org/openspim/toolkit/ViewProcessor.java:28-29 | one view's task reports its progress values in turn: the view's entry ends at its last report, and what is shown is the mean of the table |
| Dispatch.ViewProcessor.RunTasks | src/main/java/org/openspim/toolkit/ViewProcessor.java:25-33 | running every submitted task leaves each view's entry at its last report; the others are unchanged |
| Dispatch.RanAllEntries | src/main/java/org/openspim/toolkit/ViewProcessor.java:40-42 | after the tasks ran, the table's keys are unchanged and each reporting view holds its last report |
| Dispatch.FinalTable | src/main/java/org/openspim/toolkit/ViewProcessor.java:18-42 | after processing, the table holds every old key and every file; a file holds its last report, or 0 without one; other entries are unchanged |
| Dispatch.AllDoneShowsOne | src/main/java/org/openspim/toolkit/ViewProcessor.java:40-49 | when every view's last report is 1 and every other entry is 1, the overall progress is 1 |
| Dispatch.FinalFraction | src/main/java/org/openspim/toolkit/ViewProcessor.java:40-49 | when every report and old entry is a fraction, the overall progress is a fraction |
| Dispatch.SeededStep | src/main/java/org/openspim/toolkit/ViewProcessor.java:23 | seeding one more file adds its 0 entry and enrols it |
| Dispatch.ViewProcessor.PerformProcessing | src/main/java/org/openspim/toolkit/ViewProcessor.java:18-38 | an open specifier throws; no timepoints throws NoSuchElementException; timepoints without angles submit nothing and leave the specifier locked, passing with one timepoint and throwing NoSuchElementException with more; otherwise every file is seeded at 0, each task's reports are applied, the final table is the seeded table with each file's last report, the mean of that table is shown, and the outcome is the first failure, if any |
| Dispatch.ViewProcessor.Submit | src/main/java/org/openspim/toolkit/ViewProcessor.java:21-34 | with angles, submits every file of the specifier in iteration order, leaving it closed; without angles, submits nothing, leaves it open, and throws NoSuchElementException exactly when a further timepoint remains |
| Dispatch.Draw | src/main/java/org/openspim/toolkit/ViewProcessor.java:21 | the next file the loop draws is the next of the specifier's files; without angles the draw throws and leaves the specifier open |
| Dispatch.ViewProcessor.SubmitNext | src/main/java/org/openspim/toolkit/ViewProcessor.java:22-33 | one iteration: the next file of the specifier is seeded at 0 and enrolled |
| BeadFilter.Moved | src/main/java/org/openspim/toolkit/BeadProcessor.java:24 | a rename moves the contents to the new name and removes the old name |
| BeadFilter.FileSystem.Rename | src/main/java/org/openspim/toolkit/BeadProcessor.java:24 | `renameTo` succeeds iff the file exists, the names differ and the platform allows it |
| BeadFilter.FileSystem.CreateNewFile | src/main/java/org/openspim/toolkit/BeadProcessor.java:30 | `createNewFile` creates an empty file iff none was there |
| BeadFilter.FileSystem.Write | src/main/java/org/openspim/toolkit/BeadProcessor.java:37-59 | writing replaces the file's contents |
| BeadFilter.BackupFile | src/main/java/org/openspim/toolkit/BeadProcessor.java:24 | the backup is `<view>.beads.unfiltered.txt` beside the bead list |
| BeadFilter.BackupBesideBeads | src/main/java/org/openspim/toolkit/BeadProcessor.java:23-26 | backup and bead list are different files in the registration directory |
| BeadFilter.ProgressAfter | src/main/java/org/openspim/toolkit/BeadProcessor.java:54 | n/(n+1) stays in [0,1) |
| BeadFilter.ProgressIncreases | src/main/java/org/openspim/toolkit/BeadProcessor.java:54 | in real arithmetic, each reported progress is larger than the one before |
| BeadFilter.Selected | src/main/java/org/openspim/toolkit/BeadProcessor.java:51-52 | only records of the bead list are kept |
| BeadFilter.SelectedMembers | src/main/java/org/openspim/toolkit/BeadProcessor.java:47-52 | a record is kept iff it is one of the records, its bead is read and the filter accepts it |
| BeadFilter.SelectedAppend | src/main/java/org/openspim/toolkit/BeadProcessor.java:41-56 | kept records stay in their order: selecting from two runs one after the other is selecting from each in turn |
| BeadFilter.SelectedCons | src/main/java/org/openspim/toolkit/BeadProcessor.java:47-52 | the first record is kept or dropped on its own, then the rest are selected |
| BeadFilter.FilterAsWritten | src/main/java/org/openspim/toolkit/BeadProcessor.java:39-56 | the loop as written computes the as-written result |
| BeadFilter.AsWrittenSkipsSuccessor | src/main/java/org/openspim/toolkit/BeadProcessor.java:51-52 | as written, a kept record causes the following line to be written, and that line never reaches the filter |
| BeadFilter.LoopSelects | src/main/java/org/openspim/toolkit/BeadProcessor.java:41-56 | the corrected loop faults iff some record does not parse, with that record's fault |
| BeadFilter.FilteredSelects | src/main/java/org/openspim/toolkit/BeadProcessor.java:39-56 | the corrected output reads back as the header plus the kept records; every bead reaches the filter once, in order |
| BeadFilter.Filter | src/main/java/org/openspim/toolkit/BeadProcessor.java:39-56 | the corrected read/write loop computes the filtered result |
| BeadFilter.ProcessViewAsWritten | src/main/java/org/openspim/toolkit/BeadProcessor.java:18-34 | as written every view ends at "Couldn't read beads"; the only effect is the rename |
| BeadFilter.ProcessView | src/main/java/org/openspim/toolkit/BeadProcessor.java:18-71 | corrected: reads the backup, rewrites the bead list through the filter and reports progress; an unreadable backup logs and stops |
| BeadFilter.ProcessViewFilters | src/main/java/org/openspim/toolkit/BeadProcessor.java:23-59 | when the rename succeeds, the new bead list is the old header plus exactly the kept beads, and the backup holds the original |
| Toolkit.StringValue | src/main/java/org/openspim/toolkit/OpenSPIMToolkit.java:122-124 | a null value reads "(null)"; a text value reads as itself |
| Toolkit.IntValue | src/main/java/org/openspim/toolkit/OpenSPIMToolkit.java:130-132 | anything but an Integer reads 0 |
| Toolkit.MacroParameter | src/main/java/org/openspim/toolkit/OpenSPIMToolkit.java:134-144 | null gives "" and only null does; any other value gives `name=` followed by its text |
| Toolkit.MacroParameterShape | src/main/java/org/openspim/toolkit/OpenSPIMToolkit.java:134-144 | null gives ""; an Integer gives `name=` and digits reading back as the value; any other object gives `name=[value]` |
| Toolkit.TerminatedJoin | src/main/java/org/openspim/toolkit/OpenSPIMToolkit.java:158-165 | appending each parameter with a space and dropping the last character is joining with spaces |
| Toolkit.PathOf | src/main/java/org/openspim/toolkit/OpenSPIMToolkit.java:229 | `new File(text)` is absolute exactly when the text starts with a separator, its other components are non-empty and separator-free, and a text in normal form prints as written |
| Toolkit.PathOfCollapses | src/main/java/org/openspim/toolkit/OpenSPIMToolkit.java:229 | a doubled separator counts as one |
| Toolkit.PathOfTrailing | src/main/java/org/openspim/toolkit/OpenSPIMToolkit.java:229 | a trailing separator is dropped, except from the root |
| Toolkit.Registry.constructor | src/main/java/org/openspim/toolkit/OpenSPIMToolkit.java:90-99 | every field starts at its declared default |
| Toolkit.Registry.GetValue | src/main/java/org/openspim/toolkit/OpenSPIMToolkit.java:118-120 | the value the field holds |
| Toolkit.Registry.SetValue | src/main/java/org/openspim/toolkit/OpenSPIMToolkit.java:146-148 | the field takes the value; no other field changes |
| Toolkit.Registry.MacroOptions | src/main/java/org/openspim/toolkit/OpenSPIMToolkit.java:158-165 | no fields: StringIndexOutOfBoundsException; otherwise the parameters joined by spaces |
| Toolkit.Registry.LastSpecifier | src/main/java/org/openspim/toolkit/OpenSPIMToolkit.java:228-231 | a fresh, closed specifier built from the four text fields |
| Toolkit.SpecifierOptions | src/main/java/org/openspim/toolkit/OpenSPIMToolkit.java:158-165 | the macro options of the four specifier fields equal the specifier's parameter string |
| Toolkit.DefaultSpecifierCount | src/main/java/org/openspim/toolkit/OpenSPIMToolkit.java:92-93 | the default specifier names 6 files |
| Toolkit.DefaultTimepoints | src/main/java/org/openspim/toolkit/OpenSPIMToolkit.java:92 | the default timepoints are just 1 |
| Toolkit.DefaultAngles | src/main/java/org/openspim/toolkit/OpenSPIMToolkit.java:93 | the default angles are 0 to 5 |
| Toolkit.RegistrationDirectory | src/main/java/org/openspim/toolkit/OpenSPIMToolkit.java:305-307 | `registration` beside the view |
| Toolkit.OutputDirectory | src/main/java/org/openspim/toolkit/OpenSPIMToolkit.java:309-311 | `output` beside the view |
| Toolkit.BeadsFile | src/main/java/org/openspim/toolkit/OpenSPIMToolkit.java:273 | `<view>.beads.txt` in the registration directory |
| Toolkit.SiblingsShareDirectories | src/main/java/org/openspim/toolkit/OpenSPIMToolkit.java:305-311 | views in one directory share both directories, and the two directories differ |
| Toolkit.NestedViewDirectories | src/main/java/org/openspim/toolkit/OpenSPIMToolkit.java:273 | a file name `sub/name` puts the view in `sub`, with its own registration directory and bead list there |
| Toolkit.BeadOf | src/main/java/org/openspim/toolkit/OpenSPIMToolkit.java:292-296 | a record throws NoSuchElementException (or its subclass InputMismatchException) exactly when it has fewer than five tokens or its first two tokens are not `int`s; otherwise a bead is read |
| Toolkit.BeadOfRecord | src/main/java/org/openspim/toolkit/OpenSPIMToolkit.java:292-296 | a record written as an `int` bead id, an `int` view id, three coordinates and any further tokens reads back as those coordinates |
| Toolkit.NonNumericIdThrows | src/main/java/org/openspim/toolkit/OpenSPIMToolkit.java:294 | a record whose first token is not an `int` throws, whatever follows |
| Toolkit.DigitsValueOf | src/main/java/org/openspim/toolkit/OpenSPIMToolkit.java:294 | the digits `nextInt` reads have a value exactly when the token is all decimal digits, and it is their decimal value |
| Toolkit.BeadsOf | src/main/java/org/openspim/toolkit/OpenSPIMToolkit.java:291-300 | a failure is the NoSuchElementException of a malformed record |
| Toolkit.BeadsOfLength | src/main/java/org/openspim/toolkit/OpenSPIMToolkit.java:291-300 | parsing succeeds iff every record parses, giving one bead per record in order |
| Toolkit.LoadBeadsSimple | src/main/java/org/openspim/toolkit/OpenSPIMToolkit.java:272-303 | a missing file gives null; an empty file throws NoSuchElementException; otherwise one bead per record after the header, or the first record's fault |
| Pipeline.PanelMasksAreStageMasks | src/main/java/Fusion_Pipeline.java:224-258 | each dialog panel filters with its stage's mask |
| Pipeline.PanelOffers | src/main/java/Fusion_Pipeline.java:224-258 | a panel offers a processor iff it is installed and serves the panel's stage |
| Pipeline.FromIterator | src/main/java/Fusion_Pipeline.java:124-132 | the list holds everything the iterator yields, in order, and drains it |
| Pipeline.Candidates | src/main/java/Fusion_Pipeline.java:231-253 | a combo box lists exactly the matching processors |
| Pipeline.StageSlots | src/main/java/Fusion_Pipeline.java:66-101 | each stage's calls carry that stage; a single-choice stage makes exactly one call |
| Pipeline.ListSlots | src/main/java/Fusion_Pipeline.java:67-68 | a list stage calls its chosen processors in list order |
| Pipeline.Planned | src/main/java/Fusion_Pipeline.java:63-103 | the calls of a run that nothing stops: the seven stages' calls one after another, as `run` writes them out |
| Pipeline.PlannedStep | src/main/java/Fusion_Pipeline.java:63-103 | each further stage appends its calls to the plan |
| Pipeline.PlannedLength | src/main/java/Fusion_Pipeline.java:63-103 | the plan is the four lists plus the three single choices |
| Pipeline.PlannedOrdered | src/main/java/Fusion_Pipeline.java:63-103 | calls are in stage order |
| Pipeline.StopFirst | src/main/java/Fusion_Pipeline.java:63-112 | execution stops at the first call that throws, and every earlier call passed |
| Pipeline.StopInStage | src/main/java/Fusion_Pipeline.java:63-112 | a throw inside a stage is the first throw of the whole plan, and the calls made are the plan up to and including it |
| Pipeline.StopAtEnd | src/main/java/Fusion_Pipeline.java:63-103 | when nothing throws, every planned call is made |
| Pipeline.RunStage | src/main/java/Fusion_Pipeline.java:67-68 | one stage's loop stops at its first throwing call |
| Pipeline.ReadSpecifierFields | src/main/java/org/openspim/toolkit/OpenSPIMToolkit.java:183-190 | the four form texts become the four field values |
| Pipeline.ProcessThenCancel | src/main/java/Fusion_Pipeline.java:288-315 | after "Process", cancelling would record the parameter string of the specifier the form shows |
| Pipeline.FusionPipeline.constructor | src/main/java/Fusion_Pipeline.java:201-203 | the dialog starts not processing and hidden |
| Pipeline.FusionPipeline.ActionPerformed | src/main/java/Fusion_Pipeline.java:300-315 | "Process" reads the form and sets doProcessing; any other command cancels, recording the four fields as macro options; the dialog is hidden |
| Pipeline.FusionPipeline.CancelDialog | src/main/java/Fusion_Pipeline.java:288-298 | records the four specifier fields as macro options and hides the dialog |
| Pipeline.FusionPipeline.Run | src/main/java/Fusion_Pipeline.java:43-113 | nothing without "Process"; otherwise the planned calls up to the first throw, ending as that exception dictates |
| SelectionList.MovedAt | src/main/java/org/openspim/gui/SortableDualList.java:108 | `add(q, remove(p))` puts item p at q and shifts the items between by one |
| SelectionList.MovedKeeps | src/main/java/org/openspim/gui/SortableDualList.java:108 | moving one item keeps the length and the multiset |
| SelectionList.MoveItem | src/main/java/org/openspim/gui/SortableDualList.java:108 | one move step puts item p at q, keeps the items outside the span between them in place, keeps the multiset, and leaves the other items in their order |
| SelectionList.MovedMoves | src/main/java/org/openspim/gui/SortableDualList.java:108 | `add(q, remove(p))` satisfies that description of a move |
| SelectionList.PickedExcept | src/main/java/org/openspim/gui/SortableDualList.java:58-90 | the picked items and the rest together are the original multiset |
| SelectionList.ExceptMembers | src/main/java/org/openspim/gui/SortableDualList.java:83-90 | removal keeps every item not selected and adds none |
| SelectionList.RefreshTracks | src/main/java/org/openspim/gui/SortableDualList.java:132-154 | the refresh events tell a listener the new size |
| SelectionList.SimpleListModel.Empty | src/main/java/org/openspim/gui/SortableDualList.java:33-35 | an empty model |
| SelectionList.SimpleListModel.Of | src/main/java/org/openspim/gui/SortableDualList.java:38-44 | holds the elements, in order |
| SelectionList.SimpleListModel.Drain | src/main/java/org/openspim/gui/SortableDualList.java:46-51 | holds everything the iterator yields, in order, and drains it |
| SelectionList.SimpleListModel.Size | src/main/java/org/openspim/gui/SortableDualList.java:166-169 | the number of items |
| SelectionList.SimpleListModel.Refresh | src/main/java/org/openspim/gui/SortableDualList.java:132-154 | announces the change of contents and size; the data is unchanged |
| SelectionList.SimpleListModel.AddAllIndices | src/main/java/org/openspim/gui/SortableDualList.java:58-72 | inserts the selected items at idx in selection order and rewrites the indices to where they landed |
| SelectionList.SimpleListModel.AddAll | src/main/java/org/openspim/gui/SortableDualList.java:74-81 | inserts the whole list at idx |
| SelectionList.SimpleListModel.RemoveAllIndices | src/main/java/org/openspim/gui/SortableDualList.java:83-90 | removes exactly the selected positions, keeping the order of the rest |
| SelectionList.SimpleListModel.Move | src/main/java/org/openspim/gui/SortableDualList.java:91-124 | offset 0 changes nothing; a move with no selection throws; otherwise the offset is clamped, each selected item lands that many places away, the unselected items keep their order in the places left, the multiset is kept, and the indices follow |
| SelectionList.SimpleListModel.Rearrange | src/main/java/org/openspim/gui/SortableDualList.java:103-119 | each selected item lands c places away, the unselected items keep their order, and length and multiset are kept |
| SelectionList.SimpleListModel.RemoveAll | src/main/java/org/openspim/gui/SortableDualList.java:126-130 | the model becomes empty |
| SelectionList.RemoveEach | src/main/java/org/openspim/gui/SortableDualList.java:85-87 | the `index - offs++` loop removes exactly the selected positions |
| SelectionList.ClampKeepsInside | src/main/java/org/openspim/gui/SortableDualList.java:97-101 | the clamped offset keeps every selected index inside the list |
| SelectionList.ShiftDown | src/main/java/org/openspim/gui/SortableDualList.java:104-111 | moving last-first by a positive offset lands every selected item offset places later and keeps the unselected items in order |
| SelectionList.ShiftUp | src/main/java/org/openspim/gui/SortableDualList.java:112-119 | moving first-first by a negative offset lands every selected item offset places earlier and keeps the unselected items in order |
| SelectionList.ExceptRemove | src/main/java/org/openspim/gui/SortableDualList.java:108 | removing a selected position does not change the unselected items, once the later positions are renumbered |
| SelectionList.MoveMark | src/main/java/org/openspim/gui/SortableDualList.java:108 | moving one selected item, with the other selected items on either side of the move, keeps the unselected items in order |
| SelectionList.LoweredAgree | src/main/java/org/openspim/gui/SortableDualList.java:108 | before and after such a move, the renumbered selected positions are the same |
| SelectionList.DownMarks | src/main/java/org/openspim/gui/SortableDualList.java:104-111 | in the positive loop, the step for item i moves only that item's mark, past no other selected item |
| SelectionList.UpMarks | src/main/java/org/openspim/gui/SortableDualList.java:112-119 | the same for the negative loop |
| SelectionList.DownOrder | src/main/java/org/openspim/gui/SortableDualList.java:104-111 | one step of the positive loop keeps the unselected items in order |
| SelectionList.UpOrder | src/main/java/org/openspim/gui/SortableDualList.java:112-119 | one step of the negative loop keeps the unselected items in order |
| SelectionList.ExceptDetermines | src/main/java/org/openspim/gui/SortableDualList.java:91-124 | two lists of one length that agree at the selected positions and on the unselected items in order are equal |
| SelectionList.ShiftIndices | src/main/java/org/openspim/gui/SortableDualList.java:109 | every index grows by the offset |
| SelectionList.InsertionPoint | src/main/java/org/openspim/gui/SortableDualList.java:255-256 | insertion is at the last selected index, or at the end with no selection |
| SelectionList.TopAndBottom | src/main/java/org/openspim/gui/SortableDualList.java:279-286 | "Top" brings the selection to index 0 and "Bottom" brings it to the last index |
| SelectionList.TransferKeeps | src/main/java/org/openspim/gui/SortableDualList.java:251-259 | moving the selected items across keeps the combined multiset |
| SelectionList.TransferAllKeeps | src/main/java/org/openspim/gui/SortableDualList.java:260-264 | moving everything across keeps the combined multiset |
| SelectionList.SortableDualList.constructor | src/main/java/org/openspim/gui/SortableDualList.java:186-216 | the left side holds everything the source yields and the right side is empty |
| SelectionList.SortableDualList.Chosen | src/main/java/org/openspim/gui/SortableDualList.java:244-247 | the iterator walks the right-hand items in order |
| SelectionList.SortableDualList.CountRHS | src/main/java/org/openspim/gui/SortableDualList.java:301-304 | the count is the number of items the iterator yields |
| SelectionList.SortableDualList.ActionPerformed | src/main/java/org/openspim/gui/SortableDualList.java:249-288 | every command keeps the combined multiset; ">", "<", ">>" and "<<" move items across as the source does; the four reorder commands move the right-hand selection and keep the unselected items in order; anything else changes nothing; each list that changed announces one full refresh, and the other announces nothing |
| SelectionList.SortableDualList.Transfer | src/main/java/org/openspim/gui/SortableDualList.java:251-259 | with no selection nothing happens and nothing is announced; otherwise the items are spliced in at the insertion point, removed from their side, the selections are updated, and both lists announce a full refresh |
| SelectionList.SortableDualList.TransferAll | src/main/java/org/openspim/gui/SortableDualList.java:260-264 | every item is spliced in at the insertion point, the other side is emptied, and both lists announce a full refresh |
| SelectionList.SortableDualList.Reorder | src/main/java/org/openspim/gui/SortableDualList.java:279-286 | moves the right-hand selection by the clamped offset, keeping the unselected items in order, and selects where the items landed; the list announces a full refresh exactly when it moved |
| SelectionList.ReorderedDetermines | src/main/java/org/openspim/gui/SortableDualList.java:91-124 | a reordering leaves only one possible list, outcome and selection |
| SelectionList.ExceptNothing | src/main/java/org/openspim/gui/SortableDualList.java:83-90 | with nothing left out, every item is kept |
| SelectionList.DownFirst | src/main/java/org/openspim/gui/SortableDualList.java:279-286 | "Down" with only the first item selected swaps the first two items and leaves the rest in place |

## Left out

- Swing and AWT are not modelled: widgets, layout, focus, key bindings and
  `JList` selection handling. A list's selection is a parameter of
  `SortableDualList.ActionPerformed` and part of its result. The events
  `triggerFullRefresh` sends are kept as a list in `SimpleListModel`,
  recorded once rather than once per listener.
- `RegField.getLabel` and the Swing forms keyed by it
  (`createSpecifierFields`, `directoryField`, `createManualRegFields`) are
  not modelled. `readSpecifierFields` is given the four texts the form holds.
- `addListDataListener`, `removeListDataListener`, `getElementAt` and
  `getList` are not modelled: they only expose the model's fields. For
  `getList`, `Chosen` reads the same sequence.
- `getSelectedValueRHS` depends on the widget's selection and is not
  modelled. `getValuesRHS` returns the same items as the iterator,
  `SortableDualList.Chosen`.
- Commands are a `Command` datatype, not strings.
  `Fusion_Pipeline.actionPerformed` compares strings with `==`, that is by
  identity. The model treats that as text equality, which is what the
  Swing button's action command gives in practice.
- Concurrency is left out. `ViewProcessor` tasks run after every file has
  been submitted, one by one in submission order. Each task's progress
  reports are a parameter. The final table does not depend on how the tasks
  interleave, but the value last shown does. The executor, thread counts,
  interruption of the pool and `shutdownNow` are not part of this model.
- Dispatch.Enrol: `Hashtable` enumerates its keys in an order of its own.
  The model takes the order of first insertion. The mean does not depend on
  it.
- Floating point is not modelled. `ViewProcessor` progress is `real`.
  `progressScale` is left out. `%.6f` parameters carry their formatted text
  as data. Bead coordinates are opaque scanner tokens.
- Toolkit.BeadOf: the three coordinates are not checked. `nextDouble` throws
  InputMismatchException on a token that is not a decimal number, and the
  model reads such a record as a bead. The two ids are checked as a sign and
  decimal digits within the `int` range; the locale's group separators and
  the non-ASCII decimal digits, which `nextInt` also accepts, are not.
  Tokens are separated at ASCII whitespace only (`Text.IsWhitespace`); the
  other characters `Character.isWhitespace` admits (U+1680, U+2000 to
  U+2006, U+2008 to U+200A, U+2028, U+2029, U+205F, U+3000), at which the
  `Scanner` also splits, are not separators in the model.
- RangeSpec.Parse: requires that every range of the text is admissible. A
  range with step 0 would loop forever, and a range whose `i += step` passes
  `Integer.MAX_VALUE` (a maximum or a step near it) would wrap around in
  32-bit arithmetic. `RangeSpec.ZeroStepNeverEnds`
  states the first. Numbers beyond 32 bits, which `Integer.parseInt` rejects
  with an exception, are excluded in the same way.
- `ServiceLoader` discovery is an explicit sequence of processors.
  `performProcessing` bodies are a function parameter. Which views fail is a
  set parameter.
- IJ logging and `IJ.handleException` are not modelled. Where they mark an
  outcome, the model returns an event or a `Fault` instead.
- `readAllLines` reads through `ready()`. The model takes a file's lines to
  be its text split at line breaks ('\n', '\r' or "\r\n"). A reader that
  is not ready before the end of the file is not modelled.
- Toolkit.PathOf: an empty path text is the empty path, and a child of it is
  the bare file name. Java's `new File(new File(""), name)` resolves to
  `/name` instead. The model does not tell that root apart.
- Common.Child: names are split at '/' only; the platform's other separators
  and `File`'s handling of them are not modelled. `getAbsolutePath` depends
  on the working directory and is a parameter where it is used.
- `BeadProcessor` never closes its reader and writer on the exception path.
  That leak is not modelled.
- The `params` that `run` assembles are not modelled: thread count, bead
  radii, threshold and pixel sizes (`Fusion_Pipeline.java:50-61`).
  `readManualRegFields` is not modelled either.
- `RegField.getDoubleValue`, `readMacroOptions`,
  `getManualRegParameterString`, `getInteractiveParameterString`,
  `get1ChannelDoMSimple` and the form-building helpers only move values
  between dialogs and strings. They are not modelled.
- Java's `split` drops trailing empty pieces, for example in "1,". The
  model keeps them, and the empty piece is then skipped as an invalid range,
  so the values are the same.
- `configureProcessor` and the "Configure…"
  buttons are not part of it. The processor UI is not part of this model.

## Findings

| source | as written | input that shows it | evidently intended | confidence | as-written member | corrected member |
|---|---|---|---|---|---|---|
| src/main/java/org/openspim/toolkit/BeadProcessor.java:23-34 | the existence check looks at `beads`, the file just renamed away, and `createNewFile` targets that same name | any view: if the rename succeeds `beads` no longer exists; if it fails, the bead list still exists and `createNewFile` returns false | read the `.beads.unfiltered.txt` backup and write a fresh bead list | high (not executed) | BeadFilter.ProcessViewAsWritten | BeadFilter.ProcessView |
| src/main/java/org/openspim/toolkit/BeadProcessor.java:51-52 | a kept bead writes `lines.readLine()`, the next line, which never reaches the filter; no line breaks are written | a header, one kept record and one more line: the output is the header followed directly by the third line | write the kept record itself, each line followed by a line break | high (not executed) | BeadFilter.AsWrittenSkipsSuccessor | BeadFilter.FilteredSelects |
