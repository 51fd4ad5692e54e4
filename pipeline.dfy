/** `Fusion_Pipeline`: the dialog that offers each stage the processors able to
    take part in it, and `run`, which sets the current stage through the seven
    stages in order and runs the chosen processors of each, stopping at the
    first failure. */
module Pipeline {
  import opened Common
  import opened Text
  import opened RangeSpec
  import opened Capabilities
  import opened DataSpecifier
  import opened Toolkit

  // ---------------------------------------------------------------------------
  // The panels
  // ---------------------------------------------------------------------------

  /** The flags the constructor gives the `CapFilter` of each stage's panel. */
  function PanelMask(s: Stage): Flags {
    match s
    case Preprocess => PREPROCESSOR | PRE_SEGMENTATION
    case Segmentation => SEGMENTATION
    case PostSegPreReg => POST_SEGMENTATION | PRE_REGISTRATION
    case Registration => REGISTRATION
    case PostRegPreFuse => POST_REGISTRATION | PRE_FUSION
    case Fusion => FUSION
    case Postprocess => POST_FUSION | POSTPROCESSOR
  }

  /** Each panel filters by exactly the mask of its stage. */
  lemma PanelMasksAreStageMasks()
    ensures forall s: Stage :: PanelMask(s) == s.Mask()
  {
  }

  lemma PanelMaskIs(s: Stage)
    ensures PanelMask(s) == s.Mask()
  {
  }

  /** A stage's panel offers a processor exactly when the processor was
      discovered and can take part in that stage. */
  lemma PanelOffers(procs: seq<Processor>, p: Processor, s: Stage)
    ensures p in Matching(procs, PanelMask(s)) <==> p in procs && s in StagesServed(p.capabilities)
  {
    PanelMaskIs(s);
    MatchingMembers(procs, PanelMask(s), p);
    StagesServedMembers(p.capabilities, s);
  }

  /** The index of a stage in the stage order. */
  function StageIndex(s: Stage): (k: nat)
    ensures k < |Stages| && Stages[k] == s
  {
    match s
    case Preprocess => 0
    case Segmentation => 1
    case PostSegPreReg => 2
    case Registration => 3
    case PostRegPreFuse => 4
    case Fusion => 5
    case Postprocess => 6
  }

  /** `StageIndex` and the stage order agree. */
  lemma StageIndexOf(k: nat)
    requires k < |Stages|
    ensures StageIndex(Stages[k]) == k
  {
    if k == 0 {} else if k == 1 {} else if k == 2 {} else if k == 3 {} else if k == 4 {} else if k == 5 {} else {}
  }

  /** `fromIterator(iter)`: everything the filter has still to yield, in order;
      the filter is exhausted afterwards. */
  method FromIterator(f: CapFilter) returns (ret: seq<Processor>)
    requires f.Valid()
    modifies f
    ensures f.Valid() && f.Yields() == []
    ensures ret == old(f.Yields())
  {
    ret := [];
    while f.HasNext()
      invariant f.Valid()
      invariant ret + f.Yields() == old(f.Yields())
      decreases |f.Yields()|
    {
      var p := f.Next();
      ret := ret + [p.value];
    }
    assert ret + [] == ret;
  }

  /** The items of a stage's drop-down: `fromIterator` over a `CapFilter` with
      the panel's mask, that is, the discovered processors serving the stage,
      in discovery order. */
  method Candidates(procs: seq<Processor>, s: Stage) returns (items: seq<Processor>)
    ensures items == Matching(procs, s.Mask())
  {
    var f := new CapFilter(procs, PanelMask(s));
    items := FromIterator(f);
  }

  // ---------------------------------------------------------------------------
  // The plan of a run
  // ---------------------------------------------------------------------------

  /** What the dialog holds when `run` starts: the right-hand lists of the four
      list stages and the selected items of the three drop-downs (`None` for
      no selection, which `run` casts and calls, throwing). */
  datatype Choices = Choices(
    preproc: seq<Processor>, seg: Option<Processor>,
    prereg: seq<Processor>, reg: Option<Processor>,
    prefuse: seq<Processor>, fuse: Option<Processor>,
    postproc: seq<Processor>)

  /** One `performProcessing` call that `run` makes, with `params.stage` at the time. */
  datatype Slot = Slot(stage: Stage, processor: Option<Processor>)

  /** The slots of one stage: a list stage's processors in list order, or the
      one selected item of a choice stage. */
  function StageSlots(c: Choices, s: Stage): (slots: seq<Slot>)
    ensures forall i :: 0 <= i < |slots| ==> slots[i].stage == s
    ensures !s.IsList() ==> |slots| == 1
  {
    match s
    case Preprocess => ListSlots(s, c.preproc)
    case Segmentation => [Slot(s, c.seg)]
    case PostSegPreReg => ListSlots(s, c.prereg)
    case Registration => [Slot(s, c.reg)]
    case PostRegPreFuse => ListSlots(s, c.prefuse)
    case Fusion => [Slot(s, c.fuse)]
    case Postprocess => ListSlots(s, c.postproc)
  }

  function ListSlots(s: Stage, ps: seq<Processor>): (slots: seq<Slot>)
    ensures |slots| == |ps|
    ensures forall i :: 0 <= i < |ps| ==> slots[i] == Slot(s, Some(ps[i]))
  {
    seq(|ps|, i requires 0 <= i < |ps| => Slot(s, Some(ps[i])))
  }

  /** The slots of the first `k` stages, in stage order. */
  function PlannedUpTo(c: Choices, k: nat): seq<Slot>
    requires k <= |Stages|
  {
    if k == 0 then [] else PlannedUpTo(c, k - 1) + StageSlots(c, Stages[k - 1])
  }

  /** Every call a run makes when nothing fails: the seven stages' calls one
      after another, as `run` writes them out. */
  function Planned(c: Choices): (p: seq<Slot>)
    ensures p == ListSlots(Preprocess, c.preproc) + [Slot(Segmentation, c.seg)]
      + ListSlots(PostSegPreReg, c.prereg) + [Slot(Registration, c.reg)]
      + ListSlots(PostRegPreFuse, c.prefuse) + [Slot(Fusion, c.fuse)]
      + ListSlots(Postprocess, c.postproc)
  {
    ghost var p1, p2, p3, p4 := PlannedUpTo(c, 1), PlannedUpTo(c, 2), PlannedUpTo(c, 3), PlannedUpTo(c, 4);
    ghost var p5, p6, p7 := PlannedUpTo(c, 5), PlannedUpTo(c, 6), PlannedUpTo(c, 7);
    assert p1 == ListSlots(Preprocess, c.preproc) by {
      PlannedStep(c, 1, Preprocess);
      assert PlannedUpTo(c, 0) == [];
    }
    assert p2 == p1 + [Slot(Segmentation, c.seg)] by {
      PlannedStep(c, 2, Segmentation);
    }
    assert p3 == p2 + ListSlots(PostSegPreReg, c.prereg) by {
      PlannedStep(c, 3, PostSegPreReg);
    }
    assert p4 == p3 + [Slot(Registration, c.reg)] by {
      PlannedStep(c, 4, Registration);
    }
    assert p5 == p4 + ListSlots(PostRegPreFuse, c.prefuse) by {
      PlannedStep(c, 5, PostRegPreFuse);
    }
    assert p6 == p5 + [Slot(Fusion, c.fuse)] by {
      PlannedStep(c, 6, Fusion);
    }
    assert p7 == p6 + ListSlots(Postprocess, c.postproc) by {
      PlannedStep(c, 7, Postprocess);
    }
    PlannedUpTo(c, |Stages|)
  }

  /** One more stage of the plan. */
  lemma PlannedStep(c: Choices, k: nat, s: Stage)
    requires 0 < k <= |Stages| && Stages[k - 1] == s
    ensures PlannedUpTo(c, k) == PlannedUpTo(c, k - 1) + StageSlots(c, s)
  {
  }

  /** The first `k` stages' slots begin the plan of any later stage count. */
  lemma {:induction false} PlannedPrefix(c: Choices, k: nat, m: nat)
    requires k <= m <= |Stages|
    ensures PlannedUpTo(c, k) <= PlannedUpTo(c, m)
    decreases m - k
  {
    if k < m {
      PlannedPrefix(c, k, m - 1);
    }
  }

  /** The slots of the first `k` stages belong to those stages, in stage order. */
  lemma {:induction false} PlannedUpToOrdered(c: Choices, k: nat)
    requires k <= |Stages|
    ensures forall i :: 0 <= i < |PlannedUpTo(c, k)| ==> StageIndex(PlannedUpTo(c, k)[i].stage) < k
    ensures forall i, j :: 0 <= i < j < |PlannedUpTo(c, k)| ==>
      StageIndex(PlannedUpTo(c, k)[i].stage) <= StageIndex(PlannedUpTo(c, k)[j].stage)
  {
    if k > 0 {
      PlannedUpToOrdered(c, k - 1);
      StageIndexOf(k - 1);
      var a, b := PlannedUpTo(c, k - 1), StageSlots(c, Stages[k - 1]);
      var p := a + b;
      assert PlannedUpTo(c, k) == p;
      forall i | 0 <= i < |p|
        ensures StageIndex(p[i].stage) < k
        ensures i < |a| ==> p[i] == a[i]
        ensures i >= |a| ==> StageIndex(p[i].stage) == k - 1
      {
        if i >= |a| {
          assert p[i] == b[i - |a|];
          assert b[i - |a|].stage == Stages[k - 1];
        } else {
          assert p[i] == a[i];
          assert StageIndex(a[i].stage) < k - 1;
        }
      }
      forall i, j | 0 <= i < j < |p|
        ensures StageIndex(p[i].stage) <= StageIndex(p[j].stage)
      {
        if j < |a| {
          assert p[i] == a[i] && p[j] == a[j];
        }
      }
    }
  }

  /** The number of calls a run makes when nothing fails. */
  lemma PlannedLength(c: Choices)
    ensures |Planned(c)| == |c.preproc| + |c.prereg| + |c.prefuse| + |c.postproc| + 3
  {
    assert |PlannedUpTo(c, 1)| == |c.preproc|;
    assert |PlannedUpTo(c, 2)| == |c.preproc| + 1;
    assert |PlannedUpTo(c, 3)| == |c.preproc| + 1 + |c.prereg|;
    assert |PlannedUpTo(c, 4)| == |c.preproc| + 2 + |c.prereg|;
    assert |PlannedUpTo(c, 5)| == |c.preproc| + 2 + |c.prereg| + |c.prefuse|;
    assert |PlannedUpTo(c, 6)| == |c.preproc| + 3 + |c.prereg| + |c.prefuse|;
  }

  /** A run calls the stages' processors in the fixed stage order; the plan
      holds every list processor and one slot per choice stage. */
  lemma PlannedOrdered(c: Choices)
    ensures var p := Planned(c);
      && (forall i, j :: 0 <= i < j < |p| ==> StageIndex(p[i].stage) <= StageIndex(p[j].stage))
      && |p| == |c.preproc| + |c.prereg| + |c.prefuse| + |c.postproc| + 3
  {
    PlannedUpToOrdered(c, |Stages|);
    PlannedLength(c);
  }

  // ---------------------------------------------------------------------------
  // Failure
  // ---------------------------------------------------------------------------

  /** Whether a call throws: a missing selection, or a processor that fails. */
  predicate Fails(slot: Slot, perform: (Processor, Stage) -> Outcome) {
    slot.processor.None? || perform(slot.processor.value, slot.stage).Fail?
  }

  /** What a failing call throws. */
  function FaultOf(slot: Slot, perform: (Processor, Stage) -> Outcome): Fault
    requires Fails(slot, perform)
  {
    if slot.processor.None? then NullPointer else perform(slot.processor.value, slot.stage).fault
  }

  /** The index of the first failing slot from `i` on, or `|plan|`. */
  function StopFrom(plan: seq<Slot>, i: nat, perform: (Processor, Stage) -> Outcome): (k: nat)
    requires i <= |plan|
    ensures i <= k <= |plan|
    ensures k < |plan| ==> Fails(plan[k], perform)
    decreases |plan| - i
  {
    if i == |plan| then |plan| else if Fails(plan[i], perform) then i else StopFrom(plan, i + 1, perform)
  }

  function Stop(plan: seq<Slot>, perform: (Processor, Stage) -> Outcome): (k: nat)
    ensures k <= |plan| && (k < |plan| ==> Fails(plan[k], perform))
  {
    StopFrom(plan, 0, perform)
  }

  /** The first failing slot stops the plan: every slot before it passes. */
  lemma {:induction false} StopFromFirst(plan: seq<Slot>, i: nat, perform: (Processor, Stage) -> Outcome)
    requires i <= |plan|
    ensures var k := StopFrom(plan, i, perform);
      && (forall j :: i <= j < k ==> !Fails(plan[j], perform))
      && (k < |plan| ==> Fails(plan[k], perform))
    decreases |plan| - i
  {
    if i < |plan| && !Fails(plan[i], perform) {
      StopFromFirst(plan, i + 1, perform);
    }
  }

  lemma StopFirst(plan: seq<Slot>, perform: (Processor, Stage) -> Outcome)
    ensures var k := Stop(plan, perform);
      && k <= |plan|
      && (forall j :: 0 <= j < k ==> !Fails(plan[j], perform))
      && (k < |plan| ==> Fails(plan[k], perform))
  {
    StopFromFirst(plan, 0, perform);
  }

  /** A slot that fails after only passing ones is where the plan stops. */
  lemma {:induction false} StopIs(plan: seq<Slot>, k: nat, perform: (Processor, Stage) -> Outcome)
    requires k <= |plan|
    requires forall j :: 0 <= j < k ==> !Fails(plan[j], perform)
    requires k < |plan| ==> Fails(plan[k], perform)
    ensures Stop(plan, perform) == k
  {
    StopFromIs(plan, 0, k, perform);
  }

  lemma {:induction false} StopFromIs(plan: seq<Slot>, i: nat, k: nat, perform: (Processor, Stage) -> Outcome)
    requires i <= k <= |plan|
    requires forall j :: i <= j < k ==> !Fails(plan[j], perform)
    requires k < |plan| ==> Fails(plan[k], perform)
    ensures StopFrom(plan, i, perform) == k
    decreases k - i
  {
    if i < k {
      StopFromIs(plan, i + 1, k, perform);
    }
  }

  /** The calls made: the plan up to and including the first that fails. */
  function Attempted(plan: seq<Slot>, perform: (Processor, Stage) -> Outcome): seq<Slot> {
    var k := Stop(plan, perform);
    if k < |plan| then plan[..k + 1] else plan
  }

  /** How `run` ends. */
  datatype Ending =
    | Skipped          // the dialog was not closed through "Process"
    | Done             // every stage ran
    | Aborted(fault: Fault)  // a checked exception was caught; the pool was shut down
    | Escaped(fault: Fault)  // an unchecked exception left `run`; the pool was not shut down

  /** The ending of a run whose calls stopped at `plan[k]` (`k == |plan|` for none). */
  function EndingAt(plan: seq<Slot>, k: nat, perform: (Processor, Stage) -> Outcome): Ending
    requires k <= |plan|
    requires k < |plan| ==> Fails(plan[k], perform)
  {
    if k == |plan| then Done
    else
      var f := FaultOf(plan[k], perform);
      if f.IsChecked() then Aborted(f) else Escaped(f)
  }

  /** The slots of stage `k` that ran when the first `j` of them passed and
      then one failed: the run stopped there. */
  lemma StopInStage(c: Choices, k: nat, j: nat, perform: (Processor, Stage) -> Outcome)
    requires k < |Stages|
    requires forall i :: 0 <= i < |PlannedUpTo(c, k)| ==> !Fails(PlannedUpTo(c, k)[i], perform)
    requires j < |StageSlots(c, Stages[k])|
    requires forall i :: 0 <= i < j ==> !Fails(StageSlots(c, Stages[k])[i], perform)
    requires Fails(StageSlots(c, Stages[k])[j], perform)
    ensures var done := PlannedUpTo(c, k); var n := |done| + j;
      && Stop(Planned(c), perform) == n
      && n < |Planned(c)|
      && done + StageSlots(c, Stages[k])[..j + 1] == Attempted(Planned(c), perform)
  {
    PlannedPrefix(c, k + 1, |Stages|);
    assert PlannedUpTo(c, k + 1) == PlannedUpTo(c, k) + StageSlots(c, Stages[k]);
    StopAfter(Planned(c), PlannedUpTo(c, k), StageSlots(c, Stages[k]), j, perform);
  }

  /** A plan that begins with passing slots `done` and then slots `here`, of
      which the first `j` pass and the next fails, stops at that slot. */
  lemma StopAfter(plan: seq<Slot>, done: seq<Slot>, here: seq<Slot>, j: nat, perform: (Processor, Stage) -> Outcome)
    requires done + here <= plan
    requires forall i :: 0 <= i < |done| ==> !Fails(done[i], perform)
    requires j < |here|
    requires forall i :: 0 <= i < j ==> !Fails(here[i], perform)
    requires Fails(here[j], perform)
    ensures Stop(plan, perform) == |done| + j < |plan|
    ensures done + here[..j + 1] == Attempted(plan, perform)
  {
    var pre := done + here;
    var n := |done| + j;
    assert pre == plan[..|pre|];
    forall i | 0 <= i < n
      ensures !Fails(plan[i], perform)
    {
      assert plan[i] == pre[i];
      if i >= |done| {
        assert pre[i] == here[i - |done|];
      }
    }
    assert plan[n] == pre[n] == here[j];
    StopIs(plan, n, perform);
    assert pre[..n + 1] == done + here[..j + 1];
    assert plan[..n + 1] == pre[..n + 1];
  }

  /** When every slot of every stage passed, the run made every planned call. */
  lemma StopAtEnd(c: Choices, perform: (Processor, Stage) -> Outcome)
    requires forall i :: 0 <= i < |Planned(c)| ==> !Fails(Planned(c)[i], perform)
    ensures Stop(Planned(c), perform) == |Planned(c)|
    ensures Attempted(Planned(c), perform) == Planned(c)
  {
    StopIs(Planned(c), |Planned(c)|, perform);
  }

  // ---------------------------------------------------------------------------
  // The dialog and `run`
  // ---------------------------------------------------------------------------

  /** The four specifier texts the dialog's form holds. */
  datatype SpecifierForm = SpecifierForm(path: string, pattern: string, timepoints: string, angles: string)

  /** The fields `cancelDialog` records as macro options. */
  const SpecifierFields: seq<RegField> := [PathField, PatternField, TimepointsField, AnglesField]

  class FusionPipeline {
    /** Set when the dialog is closed through "Process". */
    var doProcessing: bool
    var visible: bool
    /** ImageJ's recorded macro options (`Macro.setOptions`). */
    var macroOptions: Option<string>

    constructor ()
      ensures !doProcessing && !visible && macroOptions == None
    {
      doProcessing := false;
      visible := false;
      macroOptions := None;
    }

    /** `actionPerformed`: "Process" reads the specifier form into the field
        registry, sets `doProcessing` and hides the dialog; any other command
        cancels, recording the four specifier fields as macro options. */
    method ActionPerformed(command: string, form: SpecifierForm, reg: Registry)
      requires reg.Valid()
      requires command == "Process" ==> AdmissibleText(form.timepoints) && AdmissibleText(form.angles)
      modifies this, reg
      ensures reg.Valid() && !visible
      ensures command == "Process" ==>
        && doProcessing && macroOptions == old(macroOptions)
        && reg.values == old(reg.values)[PathField := Object(form.path)][PatternField := Object(form.pattern)]
             [TimepointsField := Object(form.timepoints)][AnglesField := Object(form.angles)]
      ensures command != "Process" ==>
        && doProcessing == old(doProcessing) && reg.values == old(reg.values)
        && macroOptions == Some(Join(Params(reg.values, SpecifierFields), ' '))
    {
      if command == "Process" {
        ReadSpecifierFields(form, reg);
      }
      if command != "Process" {
        CancelDialog(reg);
      } else {
        doProcessing := true;
        visible := false;
      }
    }

    /** `cancelDialog()`. */
    method CancelDialog(reg: Registry)
      requires reg.Valid()
      modifies this
      ensures !visible && doProcessing == old(doProcessing)
      ensures macroOptions == Some(Join(Params(reg.values, SpecifierFields), ' '))
    {
      var options := reg.MacroOptions(SpecifierFields);
      macroOptions := Some(options.value);
      visible := false;
    }

    /** `run`: nothing unless the dialog ended through "Process"; otherwise the
        planned calls in stage order up to and including the first that
        throws, ending as that exception dictates. */
    method Run(c: Choices, perform: (Processor, Stage) -> Outcome) returns (calls: seq<Slot>, ending: Ending)
      ensures !doProcessing ==> calls == [] && ending == Skipped
      ensures doProcessing ==>
        && calls == Attempted(Planned(c), perform)
        && ending == EndingAt(Planned(c), Stop(Planned(c), perform), perform)
    {
      if !doProcessing {
        return [], Skipped;
      }
      StopFirst(Planned(c), perform);
      calls := [];
      var k := 0;
      while k < |Stages|
        invariant k <= |Stages|
        invariant calls == PlannedUpTo(c, k)
        invariant forall i :: 0 <= i < |calls| ==> !Fails(calls[i], perform)
      {
        var slots := StageSlots(c, Stages[k]);
        var ran, j := RunStage(slots, perform);
        if j < |slots| {
          StopInStage(c, k, j, perform);
          return calls + ran, EndingAt(Planned(c), |calls| + j, perform);
        }
        assert PlannedUpTo(c, k + 1) == calls + slots;
        AllPass(calls, slots, perform);
        calls := calls + slots;
        k := k + 1;
      }
      StopAtEnd(c, perform);
      ending := Done;
    }
  }

  /** Slots that all pass, followed by more that all pass. */
  lemma AllPass(a: seq<Slot>, b: seq<Slot>, perform: (Processor, Stage) -> Outcome)
    requires forall i :: 0 <= i < |a| ==> !Fails(a[i], perform)
    requires forall i :: 0 <= i < |b| ==> !Fails(b[i], perform)
    ensures forall i :: 0 <= i < |a + b| ==> !Fails((a + b)[i], perform)
  {
    forall i | 0 <= i < |a + b|
      ensures !Fails((a + b)[i], perform)
    {
      if i >= |a| {
        assert (a + b)[i] == b[i - |a|];
      }
    }
  }

  /** One stage: `performProcessing` on each slot in order, stopping at the
      first that throws; `j` is its index, or `|slots|` when none did. */
  method RunStage(slots: seq<Slot>, perform: (Processor, Stage) -> Outcome) returns (ran: seq<Slot>, j: nat)
    ensures j <= |slots|
    ensures forall i :: 0 <= i < j ==> !Fails(slots[i], perform)
    ensures j < |slots| ==> Fails(slots[j], perform) && ran == slots[..j + 1]
    ensures j == |slots| ==> ran == slots
  {
    j := 0;
    while j < |slots|
      invariant j <= |slots|
      invariant forall i :: 0 <= i < j ==> !Fails(slots[i], perform)
    {
      if Fails(slots[j], perform) {
        return slots[..j + 1], j;
      }
      j := j + 1;
    }
    ran := slots;
  }

  /** `readSpecifierFields(form)`: the four texts become the field values; the
      specifier it then builds is not kept. */
  method ReadSpecifierFields(form: SpecifierForm, reg: Registry)
    requires reg.Valid()
    requires AdmissibleText(form.timepoints) && AdmissibleText(form.angles)
    modifies reg
    ensures reg.Valid()
    ensures reg.values == old(reg.values)[PathField := Object(form.path)][PatternField := Object(form.pattern)]
      [TimepointsField := Object(form.timepoints)][AnglesField := Object(form.angles)]
  {
    reg.SetValue(PathField, Object(form.path));
    reg.SetValue(PatternField, Object(form.pattern));
    reg.SetValue(TimepointsField, Object(form.timepoints));
    reg.SetValue(AnglesField, Object(form.angles));
    var _ := reg.LastSpecifier();
  }

  /** After "Process" the registry describes the specifier the form shows, and
      cancelling afterwards would record exactly that specifier's parameter string. */
  lemma ProcessThenCancel(values: map<RegField, FieldValue>, form: SpecifierForm, spec: SpimDataSpecifier)
    requires forall f :: f in values
    requires spec.pattern == form.pattern && spec.timepoints.source == form.timepoints && spec.angles.source == form.angles
    ensures var v := values[PathField := Object(form.path)][PatternField := Object(form.pattern)]
      [TimepointsField := Object(form.timepoints)][AnglesField := Object(form.angles)];
      Join(Params(v, SpecifierFields), ' ') == spec.ParameterString(form.path)
  {
    var v := values[PathField := Object(form.path)][PatternField := Object(form.pattern)]
      [TimepointsField := Object(form.timepoints)][AnglesField := Object(form.angles)];
    SpecifierOptions(v, spec);
  }
}
