/** The init class hierarchy BaseInit -> MagiskInit -> SARBase and the
    concrete boot stages below it, and which primitives each class may call
    under C++ access control: its own private members, its own protected
    members, and the protected members of every ancestor. */
module Hierarchy {
  import opened Steps

  datatype Option<T> = None | Some(value: T)

  datatype InitClass =
    | BaseInit
    | MagiskInit
    | SARBase
    | FirstStageInit
    | SecondStageInit
    | LegacySARInit
    | RootFSInit
    | MagiskProxy

  /** The classes that can be instantiated: BaseInit, MagiskInit and
      SARBase leave the pure virtual start() unimplemented. */
  predicate IsConcrete(c: InitClass) {
    c !in {BaseInit, MagiskInit, SARBase}
  }

  /** `s` is a probe that `c` declares returning bool: SecondStageInit's
      prepare() and LegacySARInit's early_mount(). FirstStageInit's prepare()
      and RootFSInit's early_mount() return nothing. */
  predicate ReturnsProbeResult(c: InitClass, s: Step) {
    (c == SecondStageInit && s == Prepare) || (c == LegacySARInit && s == EarlyMount)
  }

  /** Distance from the root of the hierarchy; used for termination. */
  function Depth(c: InitClass): nat {
    match c
    case BaseInit => 0
    case MagiskInit => 1
    case FirstStageInit => 1
    case SARBase => 2
    case RootFSInit => 2
    case MagiskProxy => 2
    case SecondStageInit => 3
    case LegacySARInit => 3
  }

  /** The direct base class. BaseInit is the only root. */
  function Parent(c: InitClass): (r: Option<InitClass>)
    ensures r.None? <==> c == BaseInit
    ensures r.Some? ==> Depth(r.value) + 1 == Depth(c)
  {
    match c
    case BaseInit => None
    case MagiskInit => Some(BaseInit)
    case SARBase => Some(MagiskInit)
    case FirstStageInit => Some(BaseInit)
    case SecondStageInit => Some(SARBase)
    case LegacySARInit => Some(SARBase)
    case RootFSInit => Some(MagiskInit)
    case MagiskProxy => Some(MagiskInit)
  }

  /** `c` is `a` or derives from it, directly or indirectly. */
  predicate DescendsFrom(c: InitClass, a: InitClass)
    decreases Depth(c)
  {
    c == a || (Parent(c).Some? && DescendsFrom(Parent(c).value, a))
  }

  /** The protected primitives a class declares. */
  function ProtectedOf(c: InitClass): set<Step> {
    match c
    case BaseInit => {ExecInit, ReadDtFstab}
    case MagiskInit => {MountWithDt, PatchSepolicy, SetupTmp, MountRulesDir, PatchRwRoot}
    case SARBase => {BackupFiles, PatchRoRoot, MountSystemRoot}
    case _ => {}
  }

  /** The private primitives a class declares. */
  function PrivateOf(c: InitClass): set<Step> {
    match c
    case FirstStageInit => {Prepare}
    case SecondStageInit => {Prepare}
    case LegacySARInit => {EarlyMount, FirstStagePrep}
    case RootFSInit => {EarlyMount}
    case _ => {}
  }

  /** The class that declares `s` protected, if any. Every protected
      primitive has exactly one declaring class. */
  function Owner(s: Step): (r: Option<InitClass>)
    ensures forall a :: s in ProtectedOf(a) <==> r == Some(a)
  {
    match s
    case ExecInit => Some(BaseInit)
    case ReadDtFstab => Some(BaseInit)
    case MountWithDt => Some(MagiskInit)
    case PatchSepolicy => Some(MagiskInit)
    case SetupTmp => Some(MagiskInit)
    case MountRulesDir => Some(MagiskInit)
    case PatchRwRoot => Some(MagiskInit)
    case BackupFiles => Some(SARBase)
    case PatchRoRoot => Some(SARBase)
    case MountSystemRoot => Some(SARBase)
    case _ => None
  }

  /** Private primitives are never also protected somewhere. */
  lemma PrivateIsUnowned(c: InitClass, s: Step)
    requires s in PrivateOf(c)
    ensures Owner(s).None?
  {
  }

  /** The protected primitives of `c` and of all its ancestors: what `c`
      and its descendants can reach. */
  function Visible(c: InitClass): set<Step>
    decreases Depth(c)
  {
    ProtectedOf(c) + match Parent(c) {
      case None => {}
      case Some(p) => Visible(p)
    }
  }

  /** Every primitive a member function of `c` may call. */
  function Available(c: InitClass): set<Step> {
    PrivateOf(c) + Visible(c)
  }

  /** A protected primitive is visible in `c` exactly when `c` descends from
      the class that declares it. */
  lemma {:induction false} VisibleIffDescends(c: InitClass, s: Step)
    requires Owner(s).Some?
    ensures s in Visible(c) <==> DescendsFrom(c, Owner(s).value)
    decreases Depth(c)
  {
    match Parent(c)
    case None =>
    case Some(p) => VisibleIffDescends(p, s);
  }

  /** A private primitive is available in `c` exactly when `c` itself
      declares it: it is never inherited. */
  lemma {:induction false} PrivateStaysLocal(c: InitClass, s: Step)
    requires Owner(s).None?
    ensures s in Available(c) <==> s in PrivateOf(c)
    decreases Depth(c)
  {
    match Parent(c)
    case None =>
    case Some(p) => PrivateStaysLocal(p, s);
  }

  /** A protected primitive is available in `c` exactly when `c` descends
      from the class that declares it. */
  lemma AvailableIffDescends(c: InitClass, s: Step)
    requires Owner(s).Some?
    ensures s in Available(c) <==> DescendsFrom(c, Owner(s).value)
  {
    VisibleIffDescends(c, s);
    if s in PrivateOf(c) {
      PrivateIsUnowned(c, s);
    }
  }

  /** Every step of `t` is available to `c`. */
  predicate Conforms(c: InitClass, t: seq<Step>) {
    forall i :: 0 <= i < |t| ==> t[i] in Available(c)
  }

  /** A class that does not descend from a primitive's declaring class can
      never have that primitive in a conforming trace. */
  lemma ForeignPrimitiveAbsent(c: InitClass, t: seq<Step>, s: Step)
    requires Conforms(c, t)
    requires Owner(s).Some? && !DescendsFrom(c, Owner(s).value)
    ensures s !in t
  {
    if s in t {
      var i :| 0 <= i < |t| && t[i] == s;
      AvailableIffDescends(c, s);
    }
  }

  /** patch_ro_root can only appear in the trace of a SARBase descendant. */
  lemma PatchRoRootOnlyUnderSARBase(c: InitClass, t: seq<Step>)
    requires Conforms(c, t)
    requires PatchRoRoot in t
    ensures DescendsFrom(c, SARBase)
  {
    if !DescendsFrom(c, SARBase) {
      ForeignPrimitiveAbsent(c, t, PatchRoRoot);
    }
  }

  /** FirstStageInit derives from BaseInit alone, so no MagiskInit or
      SARBase primitive can appear in its trace. */
  lemma FirstStageAvoidsMagiskPrimitives(t: seq<Step>)
    requires Conforms(FirstStageInit, t)
    ensures forall s :: s in ProtectedOf(MagiskInit) + ProtectedOf(SARBase) ==> s !in t
  {
    forall s | s in ProtectedOf(MagiskInit) + ProtectedOf(SARBase)
      ensures s !in t
    {
      ForeignPrimitiveAbsent(FirstStageInit, t, s);
    }
  }
}
