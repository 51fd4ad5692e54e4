/** `Processor`: the capability flags a processor advertises, the seven stages
    of the pipeline with the flags each one serves, and `CapFilter`, the
    iterator that keeps only the processors serving a given set of flags. */
module Capabilities {
  import opened Common

  /** A Java `int` used as a bit set. */
  type Flags = bv32

  const PREPROCESSOR: Flags := 1 << 0
  const PRE_SEGMENTATION: Flags := 1 << 1
  const SEGMENTATION: Flags := 1 << 2
  const POST_SEGMENTATION: Flags := 1 << 3
  const PRE_REGISTRATION: Flags := 1 << 4
  const REGISTRATION: Flags := 1 << 5
  const POST_REGISTRATION: Flags := 1 << 6
  const PRE_FUSION: Flags := 1 << 7
  const FUSION: Flags := 1 << 8
  const POST_FUSION: Flags := 1 << 9
  const POSTPROCESSOR: Flags := 1 << 10

  /** The eleven flags in declaration order. */
  const AllFlags: seq<Flags> := [PREPROCESSOR, PRE_SEGMENTATION, SEGMENTATION, POST_SEGMENTATION,
    PRE_REGISTRATION, REGISTRATION, POST_REGISTRATION, PRE_FUSION, FUSION, POST_FUSION, POSTPROCESSOR]

  /** A flag set with exactly one bit. */
  predicate SingleBit(f: Flags) {
    f != 0 && f & (f - 1) == 0
  }

  /** Each flag is one bit of its own: flag `i` is bit `i`. */
  lemma FlagsAreBits()
    ensures |AllFlags| == 11
    ensures forall i :: 0 <= i < 11 ==> SingleBit(AllFlags[i]) && AllFlags[i] == 1 << i
    ensures forall i, j :: 0 <= i < j < 11 ==> AllFlags[i] & AllFlags[j] == 0
  {
  }

  /** The stages, in the order the pipeline runs them. */
  datatype Stage = Preprocess | Segmentation | PostSegPreReg | Registration | PostRegPreFuse | Fusion | Postprocess
  {
    /** `getMask()`: the flags a processor may advertise to take part in this stage. */
    function Mask(): (m: Flags)
      ensures m != 0 && m & !0x7FF == 0
    {
      match this
      case Preprocess => PREPROCESSOR | PRE_SEGMENTATION
      case Segmentation => SEGMENTATION
      case PostSegPreReg => POST_SEGMENTATION | PRE_REGISTRATION
      case Registration => REGISTRATION
      case PostRegPreFuse => POST_REGISTRATION | PRE_FUSION
      case Fusion => FUSION
      case Postprocess => POST_FUSION | POSTPROCESSOR
    }

    /** Whether the stage runs a user-ordered list of processors (rather than
        one processor chosen from a drop-down). */
    predicate IsList() {
      Preprocess? || PostSegPreReg? || PostRegPreFuse? || Postprocess?
    }
  }

  /** `Stage.values()`. */
  const Stages: seq<Stage> := [Preprocess, Segmentation, PostSegPreReg, Registration, PostRegPreFuse, Fusion, Postprocess]

  /** The stage that owns flag `i`. */
  function Owner(i: nat): Stage
    requires i < 11
  {
    if i < 2 then Preprocess
    else if i == 2 then Segmentation
    else if i < 5 then PostSegPreReg
    else if i == 5 then Registration
    else if i < 8 then PostRegPreFuse
    else if i == 8 then Fusion
    else Postprocess
  }

  /** Every flag belongs to exactly one stage: the stage masks are pairwise
      disjoint and together cover all eleven flags. */
  lemma {:induction false} StageMasksPartition()
    ensures forall i, s: Stage :: 0 <= i < 11 ==> (AllFlags[i] & s.Mask() != 0 <==> s == Owner(i))
    ensures forall s: Stage, t: Stage :: s != t ==> s.Mask() & t.Mask() == 0
    ensures Preprocess.Mask() | Segmentation.Mask() | PostSegPreReg.Mask() | Registration.Mask()
      | PostRegPreFuse.Mask() | Fusion.Mask() | Postprocess.Mask() == 0x7FF
  {
    StageMasksDisjoint();
    forall i, s: Stage | 0 <= i < 11
      ensures AllFlags[i] & s.Mask() != 0 <==> s == Owner(i)
    {
      FlagOwner(i, s);
    }
  }

  /** Flag `i` is in the mask of its owner and of no other stage. */
  lemma FlagOwner(i: nat, s: Stage)
    requires i < 11
    ensures AllFlags[i] & s.Mask() != 0 <==> s == Owner(i)
  {
    FlagsAreBits();
  }

  /** No two stages share a flag, and between them they use all eleven. */
  lemma StageMasksDisjoint()
    ensures forall s: Stage, t: Stage :: s != t ==> s.Mask() & t.Mask() == 0
    ensures Preprocess.Mask() | Segmentation.Mask() | PostSegPreReg.Mask() | Registration.Mask()
      | PostRegPreFuse.Mask() | Fusion.Mask() | Postprocess.Mask() == 0x7FF
  {
  }

  /** The stages run in a fixed order, every stage exactly once, and a later
      stage is served by higher flags than an earlier one. */
  lemma StageOrder()
    ensures forall s: Stage :: s in Stages
    ensures forall i, j :: 0 <= i < j < |Stages| ==> Stages[i] != Stages[j] && Stages[i].Mask() < Stages[j].Mask()
    ensures forall i :: 0 <= i < |Stages| ==> (Stages[i].IsList() <==> i % 2 == 0)
  {
    forall s: Stage
      ensures s in Stages
    {
      match s
      case Preprocess => assert Stages[0] == s;
      case Segmentation => assert Stages[1] == s;
      case PostSegPreReg => assert Stages[2] == s;
      case Registration => assert Stages[3] == s;
      case PostRegPreFuse => assert Stages[4] == s;
      case Fusion => assert Stages[5] == s;
      case Postprocess => assert Stages[6] == s;
    }
  }

  /** A processor as the filter sees it: its `getCapabilities()` flags. Its
      name identifies it; what it does is not part of this module. */
  datatype Processor = Processor(name: string, capabilities: Flags)

  predicate Serves(p: Processor, bitmask: Flags) {
    p.capabilities & bitmask != 0
  }

  /** The processors of `s` that serve `bitmask`, in their order in `s`. */
  function Matching(s: seq<Processor>, bitmask: Flags): seq<Processor> {
    if s == [] then []
    else (if Serves(s[0], bitmask) then [s[0]] else []) + Matching(s[1..], bitmask)
  }

  /** A processor is kept exactly when it is in the source and serves the mask. */
  lemma {:induction false} MatchingMembers(s: seq<Processor>, bitmask: Flags, p: Processor)
    ensures p in Matching(s, bitmask) <==> p in s && Serves(p, bitmask)
  {
    if s != [] {
      MatchingMembers(s[1..], bitmask, p);
      assert s == [s[0]] + s[1..];
    }
  }

  /** Each kept processor is kept as often as it occurs in the source. */
  lemma {:induction false} MatchingCounts(s: seq<Processor>, bitmask: Flags, p: Processor)
    ensures multiset(Matching(s, bitmask))[p] == if Serves(p, bitmask) then multiset(s)[p] else 0
  {
    if s != [] {
      MatchingCounts(s[1..], bitmask, p);
      assert s == [s[0]] + s[1..];
    }
  }

  /** Filtering keeps the source order: it distributes over concatenation. */
  lemma {:induction false} MatchingAppend(a: seq<Processor>, b: seq<Processor>, bitmask: Flags)
    ensures Matching(a + b, bitmask) == Matching(a, bitmask) + Matching(b, bitmask)
  {
    if a != [] {
      MatchingAppend(a[1..], b, bitmask);
      assert (a + b)[0] == a[0];
      assert (a + b)[1..] == a[1..] + b;
      var head := if Serves(a[0], bitmask) then [a[0]] else [];
      calc {
        Matching(a + b, bitmask);
        head + Matching(a[1..] + b, bitmask);
        head + (Matching(a[1..], bitmask) + Matching(b, bitmask));
        (head + Matching(a[1..], bitmask)) + Matching(b, bitmask);
        Matching(a, bitmask) + Matching(b, bitmask);
      }
    } else {
      assert a + b == b;
    }
  }

  /** The stages a processor with the given capabilities can take part in. */
  function StagesServed(capabilities: Flags): seq<Stage> {
    ServedAmong(Stages, capabilities)
  }

  /** The stages of `stages` whose mask meets the capabilities, in order. */
  function ServedAmong(stages: seq<Stage>, capabilities: Flags): seq<Stage> {
    if stages == [] then []
    else (if capabilities & stages[0].Mask() != 0 then [stages[0]] else []) + ServedAmong(stages[1..], capabilities)
  }

  /** A processor takes part in a stage exactly when the stage's mask meets
      its capabilities. */
  lemma StagesServedMembers(capabilities: Flags, s: Stage)
    ensures s in StagesServed(capabilities) <==> capabilities & s.Mask() != 0
  {
    StageOrder();
    ServedAmongMembers(Stages, capabilities, s);
  }

  lemma {:induction false} ServedAmongMembers(stages: seq<Stage>, capabilities: Flags, s: Stage)
    ensures s in ServedAmong(stages, capabilities) <==> s in stages && capabilities & s.Mask() != 0
  {
    if stages != [] {
      ServedAmongMembers(stages[1..], capabilities, s);
      assert stages == [stages[0]] + stages[1..];
    }
  }

  /** The registration adapter (`REGISTRATION | SEGMENTATION`) serves exactly
      the segmentation and registration stages. */
  lemma RegistrationAdapterStages()
    ensures StagesServed(REGISTRATION | SEGMENTATION) == [Segmentation, Registration]
  {
    var c := REGISTRATION | SEGMENTATION;
    assert ServedAmong(Stages[6..], c) == [] by { assert Stages[6..][1..] == []; }
    assert ServedAmong(Stages[5..], c) == [] by { assert Stages[5..][1..] == Stages[6..]; }
    assert ServedAmong(Stages[4..], c) == [] by { assert Stages[4..][1..] == Stages[5..]; }
    assert ServedAmong(Stages[3..], c) == [Registration] by { assert Stages[3..][1..] == Stages[4..]; }
    assert ServedAmong(Stages[2..], c) == [Registration] by { assert Stages[2..][1..] == Stages[3..]; }
    assert ServedAmong(Stages[1..], c) == [Segmentation, Registration] by { assert Stages[1..][1..] == Stages[2..]; }
    assert Stages[0..] == Stages;
  }

  /** The bead filter (`POST_SEGMENTATION | POST_REGISTRATION | POST_FUSION`)
      serves exactly the three later list stages. */
  lemma BeadFilterStages()
    ensures StagesServed(POST_SEGMENTATION | POST_REGISTRATION | POST_FUSION) == [PostSegPreReg, PostRegPreFuse, Postprocess]
    ensures forall s :: s in StagesServed(POST_SEGMENTATION | POST_REGISTRATION | POST_FUSION) ==> s.IsList()
  {
    var c := POST_SEGMENTATION | POST_REGISTRATION | POST_FUSION;
    assert StagesServed(c) == [PostSegPreReg, PostRegPreFuse, Postprocess] by {
      assert ServedAmong(Stages[6..], c) == [Postprocess] by { assert Stages[6..][1..] == []; }
      assert ServedAmong(Stages[5..], c) == [Postprocess] by { assert Stages[5..][1..] == Stages[6..]; }
      assert ServedAmong(Stages[4..], c) == [PostRegPreFuse, Postprocess] by { assert Stages[4..][1..] == Stages[5..]; }
      assert ServedAmong(Stages[3..], c) == [PostRegPreFuse, Postprocess] by { assert Stages[3..][1..] == Stages[4..]; }
      assert ServedAmong(Stages[2..], c) == [PostSegPreReg, PostRegPreFuse, Postprocess] by { assert Stages[2..][1..] == Stages[3..]; }
      assert ServedAmong(Stages[1..], c) == [PostSegPreReg, PostRegPreFuse, Postprocess] by { assert Stages[1..][1..] == Stages[2..]; }
      assert Stages[0..] == Stages;
    }
  }

  /** `Processor.CapFilter`: an iterator over the processors of `source` that
      serve `bitmask`. `next` is the look-ahead (`None` for Java's `null`);
      `source` is what the underlying iterator has still to yield. */
  class CapFilter {
    const bitmask: Flags
    var source: seq<Processor>
    var next: Option<Processor>

    /** The look-ahead serves the mask, and is only missing once the source is drained. */
    ghost predicate Valid()
      reads this
    {
      && (next.Some? ==> Serves(next.value, bitmask))
      && (next.None? ==> source == [])
    }

    /** What the filter has still to yield. */
    function Yields(): seq<Processor>
      reads this
    {
      (if next.Some? then [next.value] else []) + Matching(source, bitmask)
    }

    /** The constructor looks ahead to the first matching processor. */
    constructor (source: seq<Processor>, bitmask: Flags)
      ensures Valid() && this.bitmask == bitmask
      ensures Yields() == Matching(source, bitmask)
    {
      this.bitmask := bitmask;
      this.source := source;
      next := None;
      new;
      FindNext();
    }

    /** `findNext()`: draws from the source until a processor serves the mask,
        which becomes the look-ahead; with none left the look-ahead is `null`. */
    method FindNext()
      modifies this
      ensures Valid()
      ensures Yields() == Matching(old(source), bitmask)
    {
      while source != []
        invariant Matching(source, bitmask) == Matching(old(source), bitmask)
      {
        var head, rest := source[0], source[1..];
        assert Matching(source, bitmask) == (if Serves(head, bitmask) then [head] else []) + Matching(rest, bitmask);
        next := Some(head);
        source := rest;
        if Serves(head, bitmask) {
          return;
        }
      }
      next := None;
    }

    /** `hasNext()`: whether anything is left to yield. */
    function HasNext(): (b: bool)
      reads this
      requires Valid()
      ensures b <==> Yields() != []
    {
      next.Some?
    }

    /** `next()`: the first processor left to yield; on an exhausted filter it
        returns `null` (`None`) rather than throwing. */
    method Next() returns (p: Option<Processor>)
      requires Valid()
      modifies this
      ensures Valid()
      ensures old(Yields()) == [] ==> p == None && Yields() == []
      ensures old(Yields()) != [] ==> p == Some(old(Yields())[0]) && Yields() == old(Yields())[1..]
    {
      p := next;
      FindNext();
    }

    /** `remove()` is not supported. */
    method Remove() returns (o: Outcome)
      ensures o == Fail(Unsupported)
    {
      o := Fail(Unsupported);
    }
  }
}
