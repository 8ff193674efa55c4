/** The start() sequence of each boot stage, as a specification of the
    trace it records, and a run object that executes it primitive by
    primitive. */
module Boot {
  import opened Steps
  import opened Hierarchy

  /** The boot stages that implement start(). */
  datatype Variant = FirstStage | SecondStage | LegacySAR | RootFS

  /** The class implementing each boot stage, with its place in the
      hierarchy. */
  function ClassOf(v: Variant): (c: InitClass)
    ensures DescendsFrom(c, MagiskInit) <==> v != FirstStage
    ensures DescendsFrom(c, SARBase) <==> (v == SecondStage || v == LegacySAR)
    ensures v == FirstStage ==> Parent(c) == Some(BaseInit)
    ensures IsConcrete(c)
  {
    match v
    case FirstStage => FirstStageInit
    case SecondStage => SecondStageInit
    case LegacySAR => LegacySARInit
    case RootFS => RootFSInit
  }

  /** The trace start() of boot stage `v` records, where `probe` is what its
      probing step returned (ignored by the stages whose probe returns
      nothing). */
  function StartTrace(v: Variant, probe: bool): (t: seq<Step>)
    // every run ends with exactly one handoff and nothing after it
    ensures EndsInHandoff(t)
    // the probe runs first and only once
    ensures IsProbe(t[0])
    ensures forall i :: 0 < i < |t| ==> !IsProbe(t[i])
    // at most one root patch
    ensures forall i, j :: 0 <= i < j < |t| ==> !(IsRootPatch(t[i]) && IsRootPatch(t[j]))
    // only primitives the class may call
    ensures Conforms(ClassOf(v), t)
    // the branches
    ensures (PatchRwRoot in t) <==> (v == RootFS || (v == SecondStage && probe))
    ensures (PatchRoRoot in t) <==> ((v == SecondStage || v == LegacySAR) && !probe)
    ensures (FirstStagePrep in t) <==> (v == LegacySAR && probe)
    ensures v == FirstStage ==> t == [Prepare, ExecInit]
    ensures v == RootFS ==> t == [EarlyMount, PatchRwRoot, ExecInit]
  {
    match v
    case FirstStage => [Prepare, ExecInit]
    case SecondStage => [Prepare, if probe then PatchRwRoot else PatchRoRoot, ExecInit]
    case LegacySAR => [EarlyMount, if probe then FirstStagePrep else PatchRoRoot, ExecInit]
    case RootFS => [EarlyMount, PatchRwRoot, ExecInit]
  }

  /** The handoff occurs exactly once in every start() trace, as its last step. */
  lemma StartHandsOffOnce(v: Variant, probe: bool)
    ensures Occurrences(StartTrace(v, probe), ExecInit) == 1
  {
    HandoffOccursOnce(StartTrace(v, probe));
  }

  /** One boot-stage object with the primitives it has run so far. */
  class BootRun {
    const cls: InitClass
    var trace: seq<Step>
    var handedOff: bool

    /** Only available primitives have run, and `handedOff` records that
        the handoff has happened, as the last step. */
    ghost predicate Valid()
      reads this
    {
      && Conforms(cls, trace)
      && (handedOff <==> Step.ExecInit in trace)
      && (handedOff ==> EndsInHandoff(trace))
    }

    constructor (c: InitClass)
      requires IsConcrete(c)
      ensures cls == c && trace == [] && !handedOff && Valid()
    {
      cls := c;
      trace := [];
      handedOff := false;
    }

    /** Runs a primitive whose result start() does not use. */
    method Invoke(s: Step)
      requires Valid() && !handedOff
      requires s in Available(cls) && s != Step.ExecInit && !ReturnsProbeResult(cls, s)
      modifies this`trace
      ensures trace == old(trace) + [s]
      ensures !handedOff && Valid()
    {
      AppendStep(trace, s);
      trace := trace + [s];
    }

    /** Runs a probing primitive that returns bool; `outcome` is what it
        returns on this device. */
    method Probe(s: Step, outcome: bool) returns (r: bool)
      requires Valid() && !handedOff
      requires ReturnsProbeResult(cls, s)
      modifies this`trace
      ensures IsProbe(s)
      ensures r == outcome
      ensures trace == old(trace) + [s]
      ensures !handedOff && Valid()
    {
      AppendStep(trace, s);
      trace := trace + [s];
      r := outcome;
    }

    /** exec_init: hands control to the real init. It does not return, so
        every primitive above requires that it has not run. */
    method ExecInit()
      requires Valid() && !handedOff
      modifies this`trace, this`handedOff
      ensures trace == old(trace) + [Step.ExecInit]
      ensures handedOff && Valid()
    {
      AppendStep(trace, Step.ExecInit);
      assert Step.ExecInit in Visible(cls) by {
        VisibleIffDescends(cls, Step.ExecInit);
      }
      trace := trace + [Step.ExecInit];
      handedOff := true;
    }

    /** FirstStageInit::start */
    method StartFirstStage()
      requires Valid() && !handedOff && cls == FirstStageInit
      modifies this`trace, this`handedOff
      ensures trace == old(trace) + StartTrace(FirstStage, false)
      ensures handedOff && Valid()
    {
      Invoke(Step.Prepare);
      ExecInit();
    }

    /** SecondStageInit::start; `prepared` is what prepare() returns. */
    method StartSecondStage(prepared: bool)
      requires Valid() && !handedOff && cls == SecondStageInit
      modifies this`trace, this`handedOff
      ensures trace == old(trace) + StartTrace(SecondStage, prepared)
      ensures handedOff && Valid()
    {
      var ok := Probe(Step.Prepare, prepared);
      if ok {
        Invoke(PatchRwRoot);
      } else {
        Invoke(PatchRoRoot);
      }
      ExecInit();
    }

    /** LegacySARInit::start; `mounted` is what early_mount() returns. */
    method StartLegacySAR(mounted: bool)
      requires Valid() && !handedOff && cls == LegacySARInit
      modifies this`trace, this`handedOff
      ensures trace == old(trace) + StartTrace(LegacySAR, mounted)
      ensures handedOff && Valid()
    {
      var ok := Probe(EarlyMount, mounted);
      if ok {
        Invoke(FirstStagePrep);
      } else {
        Invoke(PatchRoRoot);
      }
      ExecInit();
    }

    /** RootFSInit::start */
    method StartRootFS()
      requires Valid() && !handedOff && cls == RootFSInit
      modifies this`trace, this`handedOff
      ensures trace == old(trace) + StartTrace(RootFS, false)
      ensures handedOff && Valid()
    {
      Invoke(EarlyMount);
      Invoke(PatchRwRoot);
      ExecInit();
    }
  }

  /** A fresh boot-stage object of each variant records exactly its start()
      trace and ends handed off. */
  method RunVariant(v: Variant, probe: bool) returns (t: seq<Step>)
    ensures t == StartTrace(v, probe)
    ensures Occurrences(t, ExecInit) == 1
  {
    var run := new BootRun(ClassOf(v));
    match v {
      case FirstStage => run.StartFirstStage();
      case SecondStage => run.StartSecondStage(probe);
      case LegacySAR => run.StartLegacySAR(probe);
      case RootFS => run.StartRootFS();
    }
    t := run.trace;
    StartHandsOffOnce(v, probe);
  }
}
