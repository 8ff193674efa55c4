/** The primitive operations a boot stage can run, and facts about the
    traces (ordered lists of primitives) a run of a boot stage records. */
module Steps {

  /** One label per primitive name of the init classes. `Prepare` and
      `EarlyMount` each label two private functions of the same name
      declared by different classes. */
  datatype Step =
    | Prepare          // FirstStageInit::prepare, SecondStageInit::prepare
    | EarlyMount       // LegacySARInit::early_mount, RootFSInit::early_mount
    | FirstStagePrep   // LegacySARInit::first_stage_prep
    | ReadDtFstab      // BaseInit::read_dt_fstab
    | MountWithDt      // MagiskInit::mount_with_dt
    | PatchSepolicy    // MagiskInit::patch_sepolicy
    | SetupTmp         // MagiskInit::setup_tmp
    | MountRulesDir    // MagiskInit::mount_rules_dir
    | PatchRwRoot      // MagiskInit::patch_rw_root
    | BackupFiles      // SARBase::backup_files
    | PatchRoRoot      // SARBase::patch_ro_root
    | MountSystemRoot  // SARBase::mount_system_root
    | ExecInit         // BaseInit::exec_init, the handoff to the real init

  /** The probing steps, whose outcome decides a branch of start(). */
  predicate IsProbe(s: Step) {
    s == Prepare || s == EarlyMount
  }

  /** The steps that rewrite the root filesystem. */
  predicate IsRootPatch(s: Step) {
    s == PatchRwRoot || s == PatchRoRoot
  }

  /** How many times step `s` occurs in trace `t`. This and
      OccurrencesAppend are helpers for stating that the handoff occurs
      exactly once. */
  function Occurrences(t: seq<Step>, s: Step): (n: nat)
    ensures n <= |t|
    ensures n == 0 <==> s !in t
  {
    if t == [] then 0
    else (if t[0] == s then 1 else 0) + Occurrences(t[1..], s)
  }

  /** The trace has been handed off: it ends with the handoff and the
      handoff occurs nowhere before its last position. */
  predicate EndsInHandoff(t: seq<Step>) {
    |t| > 0 && t[|t| - 1] == ExecInit && ExecInit !in t[..|t| - 1]
  }

  lemma {:induction false} OccurrencesAppend(a: seq<Step>, b: seq<Step>, s: Step)
    ensures Occurrences(a + b, s) == Occurrences(a, s) + Occurrences(b, s)
  {
    if a == [] {
      assert a + b == b;
    } else {
      assert (a + b)[1..] == a[1..] + b;
      OccurrencesAppend(a[1..], b, s);
    }
  }

  /** A trace is handed off exactly when it ends in the handoff and the
      handoff occurs in it exactly once. */
  lemma {:induction false} HandoffOccursOnce(t: seq<Step>)
    ensures EndsInHandoff(t) <==>
              (|t| > 0 && t[|t| - 1] == ExecInit && Occurrences(t, ExecInit) == 1)
  {
    if |t| > 0 {
      var init := t[..|t| - 1];
      assert t == init + [t[|t| - 1]];
      OccurrencesAppend(init, [t[|t| - 1]], ExecInit);
      assert Occurrences([t[|t| - 1]], ExecInit) == (if t[|t| - 1] == ExecInit then 1 else 0);
    }
  }

  /** Appending a step other than the handoff to a trace that has not been
      handed off keeps it not handed off; appending the handoff hands it off. */
  lemma AppendStep(t: seq<Step>, s: Step)
    requires ExecInit !in t
    ensures s != ExecInit ==> ExecInit !in t + [s]
    ensures s == ExecInit ==> EndsInHandoff(t + [s])
  {
    assert (t + [s])[..|t|] == t;
  }
}
