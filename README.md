# Boot-stage dispatch of magiskinit

This project models the boot-stage strategies of `magiskinit`, the program that
runs as PID 1 in place of Android's init, patches the root filesystem and then
execs the real init. Each boot stage is a class with a `start()` method:
FirstStageInit, SecondStageInit, LegacySARInit and RootFSInit. Each `start()`
calls a fixed, ordered sequence of primitives. At most one branch depends on the
boolean that a probing primitive (`prepare()` or `early_mount()`) returns. Every
sequence ends in `exec_init()`, which never returns.

The model has three modules:

- `Steps` (steps.dfy): one label per primitive name, how often a step occurs
  in a trace, and the shape of a handed-off trace (the handoff last and nowhere
  before). `Prepare` labels both `FirstStageInit::prepare` and
  `SecondStageInit::prepare`; `EarlyMount` labels both `LegacySARInit::early_mount`
  and `RootFSInit::early_mount`. Which of the two a trace means follows from the
  class that runs it.
- `Hierarchy` (hierarchy.dfy): the class tree BaseInit → MagiskInit → SARBase
  and the concrete classes below it. It records which primitives each class
  declares private or protected. From that it derives the primitives a class
  may call under C++ access control: its own members plus the protected members
  of every ancestor.
- `Boot` (boot.dfy): `StartTrace`, the trace each `start()` records. The
  `BootRun` class holds the trace and a `handedOff` flag. Its methods append one
  primitive each, and it has one `Start…` method per `start()` body. Every
  primitive requires `!handedOff`. This models `[[noreturn]]`, because nothing
  can run after `exec_init`. Every primitive also requires that the class may
  call it, which models the compiler's access check.

What `prepare()` and `early_mount()` return depends on the device. In the model
it is a parameter of the `Start…` method, handed to `BootRun.Probe`. `Probe`
accepts only the two probes declared returning bool (`SecondStageInit::prepare`,
`LegacySARInit::early_mount`). `FirstStageInit::prepare` and
`RootFSInit::early_mount` return nothing, so those two run through
`BootRun.Invoke`, which refuses the bool-returning probes. A `BootRun` can only
be created for a class that implements `start()`; BaseInit, MagiskInit and
SARBase leave it pure virtual.

## Model

| member | source | states |
|---|---|---|
| `Steps.HandoffOccursOnce` | native/jni/init/init.hpp:59 | a trace ends in the handoff with no earlier handoff if and only if its last step is the handoff and the handoff occurs in it exactly once |
| `Steps.AppendStep` | native/jni/init/init.hpp:59 | appending a step other than `exec_init` to a trace that has not been handed off leaves it not handed off; appending `exec_init` hands it off |
| `Steps.Occurrences` | native/jni/init/init.hpp:59 | a helper for stating that `exec_init` occurs once: the count of a step in a trace is at most the trace's length, and it is zero exactly when the step is absent |
| `Steps.OccurrencesAppend` | native/jni/init/init.hpp:59 | a helper for stating that `exec_init` occurs once: the count of a step in a concatenation is the sum of its counts in the two pieces |
| `Hierarchy.Parent` | native/jni/init/init.hpp:54-182 | BaseInit is the only class without a base class, and every base class is one level closer to the root |
| `Hierarchy.Owner` | native/jni/init/init.hpp:54-100 | each protected primitive is declared by exactly one class: `exec_init` and `read_dt_fstab` by BaseInit, `mount_with_dt`, `patch_sepolicy`, `setup_tmp`, `mount_rules_dir` and `patch_rw_root` by MagiskInit, `backup_files`, `patch_ro_root` and `mount_system_root` by SARBase |
| `Hierarchy.PrivateIsUnowned` | native/jni/init/init.hpp:106-164 | a private primitive (`prepare`, `early_mount`, `first_stage_prep`) is not declared protected by any class |
| `Hierarchy.VisibleIffDescends` | native/jni/init/init.hpp:54-100 | a protected primitive is visible in a class if and only if the class is, or derives from, the class that declares it |
| `Hierarchy.PrivateStaysLocal` | native/jni/init/init.hpp:106-164 | a private primitive is available in a class if and only if that class declares it; subclasses never inherit it |
| `Hierarchy.AvailableIffDescends` | native/jni/init/init.hpp:54-100 | a protected primitive is callable in a class if and only if the class descends from its declaring class |
| `Hierarchy.ForeignPrimitiveAbsent` | native/jni/init/init.hpp:54-100 | a trace of only callable primitives never contains a protected primitive whose declaring class is not an ancestor |
| `Hierarchy.PatchRoRootOnlyUnderSARBase` | native/jni/init/init.hpp:91-100 | if `patch_ro_root` is in a class's trace, the class derives from SARBase |
| `Hierarchy.FirstStageAvoidsMagiskPrimitives` | native/jni/init/init.hpp:67-117 | no MagiskInit or SARBase primitive can appear in a FirstStageInit trace, because FirstStageInit derives from BaseInit only |
| `Boot.ClassOf` | native/jni/init/init.hpp:106-174 | each stage's class implements start(); every stage except FirstStageInit derives from MagiskInit; exactly SecondStageInit and LegacySARInit derive from SARBase; FirstStageInit's base class is BaseInit |
| `Boot.StartTrace` | native/jni/init/init.hpp:113-173 | every start() trace ends with one `exec_init` and nothing after it; the probe runs first and only once; at most one root patch runs; only callable primitives appear; `patch_rw_root` runs if and only if the stage is RootFSInit, or SecondStageInit with `prepare()` true; `patch_ro_root` runs if and only if a SAR stage's probe returned false; `first_stage_prep` runs if and only if LegacySARInit's `early_mount()` returned true; FirstStageInit runs exactly `[prepare, exec_init]`; RootFSInit runs exactly `[early_mount, patch_rw_root, exec_init]` |
| `Boot.StartHandsOffOnce` | native/jni/init/init.hpp:59-173 | `exec_init` occurs exactly once in every start() trace |
| `Boot.BootRun.constructor` | native/jni/init/init.hpp:62-64 | only a class that implements the pure virtual start() can be instantiated; a new stage object has an empty trace and has not handed off |
| `Boot.BootRun.Invoke` | native/jni/init/init.hpp:59-173 | a primitive callable by the class whose result start() does not use (any primitive except `exec_init` and the two bool-returning probes), run before the handoff, appends its label and keeps the object's invariant |
| `Boot.BootRun.Probe` | native/jni/init/init.hpp:121-150 | only SecondStageInit's `prepare()` and LegacySARInit's `early_mount()` return a probe result; such a probe appends its label and returns the device's outcome |
| `Boot.BootRun.ExecInit` | native/jni/init/init.hpp:59 | the handoff appends `exec_init` last and sets `handedOff`; after it no primitive can run |
| `Boot.BootRun.StartFirstStage` | native/jni/init/init.hpp:113-116 | FirstStageInit::start appends exactly its start trace and hands off |
| `Boot.BootRun.StartSecondStage` | native/jni/init/init.hpp:128-134 | SecondStageInit::start appends its start trace for the given `prepare()` outcome and hands off |
| `Boot.BootRun.StartLegacySAR` | native/jni/init/init.hpp:149-155 | LegacySARInit::start appends its start trace for the given `early_mount()` outcome and hands off |
| `Boot.BootRun.StartRootFS` | native/jni/init/init.hpp:169-173 | RootFSInit::start appends exactly its start trace and hands off |
| `Boot.RunVariant` | native/jni/init/init.hpp:64 | calling start() on a fresh object of any stage records exactly that stage's start trace, with `exec_init` once |

## Left out

- The bodies of the primitives (`prepare`, `early_mount`, `first_stage_prep`, `mount_with_dt`, `patch_sepolicy`, `setup_tmp`, `mount_rules_dir`, `patch_rw_root`, `backup_files`, `patch_ro_root`, `mount_system_root`, `read_dt_fstab`) are not part of this model. They are mount, exec and file I/O against the kernel, defined outside init.hpp. They appear only as labels in the hierarchy and in traces. The `bool` result of `patch_sepolicy` is not modelled either; start() never calls it directly.
- Boot.StartTrace: every primitive is assumed to return normally. The traces modelled are those of runs that reach `exec_init`. A primitive that aborts the process would leave a prefix of such a trace with no handoff, and those runs are not modelled. The same holds for the `Start…` methods of `BootRun`.
- `MagiskProxy::start`: init.hpp only declares it; its body is defined elsewhere. MagiskProxy does appear in the hierarchy as a MagiskInit subclass.
- `BootConfig::set`, `BootConfig::print`, `load_kernel_info`, `check_two_stage` and `backup_init` are left out, and so are the `BootConfig` fields. init.hpp only declares them; their parsing and probing code is defined elsewhere.
- Choosing which stage to run is left out. It happens in the caller of `start()`, which is not part of this model.
- `unxz`: a decompression of a byte stream done by code outside this file.
- `setup_klog` and the `LOGD` calls in the constructors are logging only.
- The process-wide `mount_list` and the `overlays` vector of SARBase are left out. init.hpp only declares them, and the code that fills them is defined elsewhere.
- The move-only `fstab_entry` and the `mmap_data` mappings are left out. They are C++ ownership details.
- `ENABLE_AVD_HACK` is compiled to the constant false, and `avd_hack` is then a constant false. Neither changes any `start()` sequence.
- Boot.BootRun.ExecInit: a failing exec, after which the process terminates, is not modelled. The model treats the handoff as always taking place.
- The content of `argv`, which `exec_init` passes on to the real init, and the `BootConfig` that `config` points to are not modelled.
