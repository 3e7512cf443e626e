/** Abstract kernel and library calls issued while a sandbox or container is
    built, the small part of kernel state they act on, and a fail-stop runner
    for sequences of calls.

    Real kernel semantics are not modelled. A call fails for one of two
    reasons: a deterministic rule of the state (a loaded syscall filter, an
    existing directory, a path hidden by a fresh tmpfs, an unknown
    capability number, a missing filter context, a NUL byte in a C string)
    or an oracle that stands for every other reason the kernel may refuse
    it. */
module Kernel {
  import opened Results
  import opened Text

  datatype Namespace = UserNs | PidNs | NetNs | MountNs | UtsNs | IpcNs

  datatype MountFlag = Bind | Remount | ReadOnly | Recursive | NoSuid | NoDev | StrictAtime

  datatype Syscall =
    | SysClone | SysWait4 | SysUnshare | SysOpenat | SysWrite | SysMkdir
    | SysMount | SysUmount2 | SysPivotRoot | SysChdir | SysPrctl | SysSeccomp
    | SysExecve | SysPtrace | SysKexecLoad | SysGetpid

  datatype Errno = EPerm | EExist | EInval | ENoEnt | Other(code: nat)

  /** One attempted call. `Log` and `SetEnv` are not kernel calls but are
      recorded so that "logged, not fatal" and environment changes are
      visible in a trace. Mount sources, types and data use "" for absent. */
  datatype Op =
    | CreateDirAll(path: string)
    | Fork
    | Waitpid
    | Unshare(namespaces: set<Namespace>)
    | CreateFile(path: string)
    | WriteFile(path: string, text: string)
    | Mkdir(path: string)
    | Mount(source: string, target: string, fstype: string, flags: set<MountFlag>, data: string)
    | CapDrop(cap: nat)
    | SetNoNewPrivs
    | SeccompInit
    | SeccompRuleAdd(syscall: Syscall)
    | SeccompLoad
    | SeccompRelease
    | Chdir(path: string)
    | PivotRoot(newRoot: string, putOld: string)
    | DetachUnmount(target: string)
    | CString(text: string)
    | Execvp(file: string, args: seq<string>)
    | Log(message: string)
    | SetEnv(key: string, value: string)

  /** The system call a filter sees for an op; library-only steps have none. */
  function SyscallOf(op: Op): Option<Syscall> {
    match op
    case CreateDirAll(_) => Some(SysMkdir)
    case Fork => Some(SysClone)
    case Waitpid => Some(SysWait4)
    case Unshare(_) => Some(SysUnshare)
    case CreateFile(_) => Some(SysOpenat)
    case WriteFile(_, _) => Some(SysWrite)
    case Mkdir(_) => Some(SysMkdir)
    case Mount(_, _, _, _, _) => Some(SysMount)
    case CapDrop(_) => Some(SysPrctl)
    case SetNoNewPrivs => Some(SysPrctl)
    case SeccompLoad => Some(SysSeccomp)
    case Chdir(_) => Some(SysChdir)
    case PivotRoot(_, _) => Some(SysPivotRoot)
    case DetachUnmount(_) => Some(SysUmount2)
    case Execvp(_, _) => Some(SysExecve)
    case _ => None
  }

  /** A default-allow filter with a deny list answers EPERM exactly for the
      calls on the list. */
  predicate FilterDenies(denied: set<Syscall>, op: Op) {
    SyscallOf(op).Some? && SyscallOf(op).value in denied
  }

  datatype Step = Step(op: Op, errno: Option<Errno>)

  /** What the model tracks of the calling process. `bounding` is the
      capability bounding set, `context` the filter being assembled by
      libseccomp (None is a null context), `denied` the syscalls the loaded
      filters refuse, and `emptied` the mount points of the fresh tmpfs
      instances this process has mounted. */
  datatype Sys = Sys(
    existing: set<string>,
    emptied: set<string>,
    lastCap: nat,
    bounding: set<nat>,
    noNewPrivs: bool,
    context: Option<set<Syscall>>,
    denied: set<Syscall>,
    env: map<string, string>,
    log: seq<Step>)

  /** Failures outside the model, indexed by the position of the attempt in
      the log, so that the same call may fail once and succeed later. */
  type Oracle = (nat, Op) -> Option<Errno>

  ghost predicate Faultless(fault: Oracle) {
    forall k, op :: fault(k, op).None?
  }

  /** The oracle never refuses `op`, wherever it is attempted. */
  ghost predicate Reliable(fault: Oracle, op: Op) {
    forall k :: fault(k, op).None?
  }

  /** Steps that cannot fail: logging, setting an environment variable in
      the process, and releasing a filter context. */
  predicate NeverRefused(op: Op) {
    op.Log? || op.SetEnv? || op.SeccompRelease?
  }

  /** `path` lies strictly below the directory `dir`. */
  predicate Under(path: string, dir: string) {
    StartsWith(path, dir + "/")
  }

  /** A mount that replaces a directory's contents with an empty file
      system. */
  predicate EmptiesDir(op: Op) {
    op.Mount? && op.fstype == "tmpfs"
  }

  /** `path` was below a fresh tmpfs when it was mounted and has not been
      created since: a lookup of it fails. */
  predicate Hidden(s: Sys, path: string) {
    path !in s.existing && exists dir | dir in s.emptied :: Under(path, dir)
  }

  /** A mount names a path that a lookup no longer finds. */
  predicate MountsHidden(s: Sys, op: Op) {
    op.Mount? && (Hidden(s, op.target) || (Bind in op.flags && Hidden(s, op.source)))
  }

  /** The error, if any, with which the call is refused in state `s`. */
  function Refusal(s: Sys, op: Op, fault: Oracle): (e: Option<Errno>)
    ensures FilterDenies(s.denied, op) && !op.CString? ==> e == Some(EPerm)
    ensures op.Mkdir? && op.path in s.existing && !FilterDenies(s.denied, op) ==> e == Some(EExist)
    ensures MountsHidden(s, op) && !FilterDenies(s.denied, op) ==> e == Some(ENoEnt)
    ensures NeverRefused(op) ==> e.None?
  {
    if NeverRefused(op) then None
    else if op.CString? then (if '\0' in op.text then Some(EInval) else None)
    else if FilterDenies(s.denied, op) then Some(EPerm)
    else if op.Mkdir? && op.path in s.existing then Some(EExist)
    else if MountsHidden(s, op) then Some(ENoEnt)
    else if op.CapDrop? && op.cap > s.lastCap then Some(EInval)
    else if (op.SeccompRuleAdd? || op.SeccompLoad?) && s.context.None? then Some(EInval)
    else fault(|s.log|, op)
  }

  /** On a kernel without faults a mount is refused only by the filter, or
      because it names a hidden path. */
  lemma MountRefusal(s: Sys, op: Op, fault: Oracle)
    requires Faultless(fault) && op.Mount?
    ensures Refusal(s, op, fault) ==
      if FilterDenies(s.denied, op) then Some(EPerm)
      else if MountsHidden(s, op) then Some(ENoEnt)
      else None
  {
  }

  /** The effect of a call the kernel accepted. A fresh tmpfs hides
      everything below its mount point. */
  function Apply(s: Sys, op: Op): (r: Sys)
    ensures r.log == s.log && r.lastCap == s.lastCap
    ensures !op.SeccompLoad? ==> r.denied == s.denied
    ensures !EmptiesDir(op) ==> r.emptied == s.emptied && s.existing <= r.existing
    ensures EmptiesDir(op) ==>
      && r.emptied == s.emptied + {op.target}
      && forall p :: p in r.existing <==> p in s.existing && !Under(p, op.target)
    ensures (op.CreateDirAll? || op.Mkdir? || op.CreateFile?) ==> op.path in r.existing
  {
    match op
    case CreateDirAll(p) => s.(existing := s.existing + {p})
    case Mkdir(p) => s.(existing := s.existing + {p})
    case CreateFile(p) => s.(existing := s.existing + {p})
    case Mount(_, t, fs, _, _) =>
      if fs == "tmpfs" then
        s.(existing := (set p | p in s.existing && !Under(p, t)), emptied := s.emptied + {t})
      else s
    case CapDrop(c) => s.(bounding := s.bounding - {c})
    case SetNoNewPrivs => s.(noNewPrivs := true)
    case SeccompInit => s.(context := Some({}))
    case SeccompRuleAdd(sc) => if s.context.Some? then s.(context := Some(s.context.value + {sc})) else s
    case SeccompLoad => if s.context.Some? then s.(denied := s.denied + s.context.value) else s
    case SeccompRelease => s.(context := None)
    case SetEnv(k, v) => s.(env := s.env[k := v])
    case _ => s
  }

  /** Attempt one call: it is logged with its outcome, and takes effect only
      when accepted. */
  function Attempt(s: Sys, op: Op, fault: Oracle): (r: Sys)
    ensures r.log == s.log + [Step(op, Refusal(s, op, fault))]
    ensures r.lastCap == s.lastCap
    ensures !op.SeccompLoad? ==> r.denied == s.denied
    ensures Refusal(s, op, fault).Some? ==> r == s.(log := r.log)
    ensures Refusal(s, op, fault).None? ==> r == Apply(s, op).(log := r.log)
  {
    var e := Refusal(s, op, fault);
    (if e.None? then Apply(s, op) else s).(log := s.log + [Step(op, e)])
  }

  /** Calls whose failure the caller ignores: libseccomp's rule-add and load
      results are discarded by the sandbox builder. */
  predicate Ignored(op: Op) {
    op.SeccompRuleAdd? || op.SeccompLoad?
  }

  datatype Status = Completed | Aborted(op: Op, errno: Errno)

  datatype Run = Run(sys: Sys, status: Status)

  /** `after` is `before` extended by the attempts of a prefix of `ops`, in
      order; no attempt but the last was a fatal failure, and the status says
      whether the whole plan ran or which call stopped it. */
  ghost predicate Replays(before: seq<Step>, after: seq<Step>, ops: seq<Op>, status: Status) {
    && |before| <= |after| <= |before| + |ops|
    && after[..|before|] == before
    && (forall i | |before| <= i < |after| :: after[i].op == ops[i - |before|])
    && (forall i | |before| <= i < |after| && after[i].errno.Some? && !Ignored(after[i].op) ::
          i == |after| - 1 && status.Aborted?)
    && (forall i | |before| <= i < |after| && NeverRefused(after[i].op) :: after[i].errno.None?)
    && (status.Completed? ==> |after| == |before| + |ops|)
    && (status.Aborted? ==>
          |after| > |before| && after[|after| - 1] == Step(status.op, Some(status.errno))
          && !Ignored(status.op))
  }

  /** An accepted (or ignored) first attempt followed by a replay of the rest
      of the plan is a replay of the whole plan. */
  lemma ReplaysCons(before: seq<Step>, step: Step, after: seq<Step>, ops: seq<Op>, status: Status)
    requires |ops| > 0 && step.op == ops[0]
    requires step.errno.None? || Ignored(step.op)
    requires Replays(before + [step], after, ops[1..], status)
    ensures Replays(before, after, ops, status)
  {
    var b1 := before + [step];
    assert after[..|before|] == b1[..|before|] == before by {
      assert after[..|b1|] == b1;
    }
    assert after[|before|] == b1[|before|] == step;
    forall i | |before| <= i < |after|
      ensures after[i].op == ops[i - |before|]
    {
      if i > |before| {
        assert after[i].op == ops[1..][i - |b1|];
      }
    }
  }

  /** Run a plan the way a chain of `?` (or Go's `must`) runs it: the first
      refused call that is not ignored stops everything after it. */
  function RunOps(s: Sys, ops: seq<Op>, fault: Oracle): (r: Run)
    ensures r.sys.lastCap == s.lastCap
    ensures SeccompLoad !in ops ==> r.sys.denied == s.denied
    decreases |ops|
  {
    if ops == [] then Run(s, Completed)
    else
      var e := Refusal(s, ops[0], fault);
      var s1 := Attempt(s, ops[0], fault);
      if e.Some? && !Ignored(ops[0]) then Run(s1, Aborted(ops[0], e.value))
      else RunOps(s1, ops[1..], fault)
  }

  /** A run that completes logs one attempt per call of its plan. */
  lemma CompletedLength(s: Sys, ops: seq<Op>, fault: Oracle)
    ensures var r := RunOps(s, ops, fault);
      r.status.Completed? ==> |r.sys.log| == |s.log| + |ops|
  {
    RunReplays(s, ops, fault);
  }

  /** A run that stops logs the refused call last. */
  lemma AbortedLogsLast(s: Sys, ops: seq<Op>, fault: Oracle)
    ensures var r := RunOps(s, ops, fault);
      r.status.Aborted? ==>
        |r.sys.log| > |s.log| && r.sys.log[|r.sys.log| - 1] == Step(r.status.op, Some(r.status.errno))
  {
    RunReplays(s, ops, fault);
  }

  /** A one-call plan logs that call and stops exactly when it is refused
      and not ignored. */
  lemma OneCall(s: Sys, op: Op, fault: Oracle)
    ensures var r := RunOps(s, [op], fault); var e := Refusal(s, op, fault);
      && r.sys.log == s.log + [Step(op, e)]
      && (r.status.Completed? <==> e.None? || Ignored(op))
      && (r.status.Aborted? ==> r.status == Aborted(op, e.value))
  {
    assert [op][1..] == [];
  }

  /** Every run replays a prefix of its plan and stops exactly at the first
      fatal refusal. */
  lemma {:induction false} RunReplays(s: Sys, ops: seq<Op>, fault: Oracle)
    ensures Replays(s.log, RunOps(s, ops, fault).sys.log, ops, RunOps(s, ops, fault).status)
    decreases |ops|
  {
    if ops != [] {
      var e := Refusal(s, ops[0], fault);
      var s1 := Attempt(s, ops[0], fault);
      if !(e.Some? && !Ignored(ops[0])) {
        RunReplays(s1, ops[1..], fault);
        var r := RunOps(s1, ops[1..], fault);
        ReplaysCons(s.log, Step(ops[0], e), r.sys.log, ops, r.status);
      }
    }
  }

  /** A run stops only at a call of its plan, and only when that call was
      refused. */
  lemma AbortedAtPlanOp(s: Sys, ops: seq<Op>, fault: Oracle)
    ensures var r := RunOps(s, ops, fault);
      r.status.Aborted? ==> r.status.op in ops && !Ignored(r.status.op) && !NeverRefused(r.status.op)
  {
    var r := RunOps(s, ops, fault);
    RunReplays(s, ops, fault);
    if r.status.Aborted? {
      var last := |r.sys.log| - 1;
      assert r.sys.log[last].op == ops[last - |s.log|];
    }
  }

  /** A call that is accepted, or refused but ignored, lets the run go on. */
  lemma RunStep(s: Sys, ops: seq<Op>, fault: Oracle)
    requires ops != []
    requires Refusal(s, ops[0], fault).None? || Ignored(ops[0])
    ensures RunOps(s, ops, fault) == RunOps(Attempt(s, ops[0], fault), ops[1..], fault)
  {
  }

  /** The same, for a plan written as its first call and the rest. */
  lemma RunAccepted(s: Sys, op: Op, rest: seq<Op>, fault: Oracle)
    requires Refusal(s, op, fault).None? || Ignored(op)
    ensures RunOps(s, [op] + rest, fault) == RunOps(Attempt(s, op, fault), rest, fault)
  {
    assert ([op] + rest)[0] == op && ([op] + rest)[1..] == rest;
  }

  /** A refused call that is not ignored stops the run at once. */
  lemma RunStops(s: Sys, ops: seq<Op>, fault: Oracle)
    requires ops != [] && Refusal(s, ops[0], fault).Some? && !Ignored(ops[0])
    ensures RunOps(s, ops, fault).status == Aborted(ops[0], Refusal(s, ops[0], fault).value)
    ensures RunOps(s, ops, fault).sys == Attempt(s, ops[0], fault)
  {
  }

  /** Continue a run with a further plan if it has not been stopped. */
  function Then(r: Run, ops: seq<Op>, fault: Oracle): Run {
    if r.status.Completed? then RunOps(r.sys, ops, fault) else r
  }

  /** Running two plans back to back is running their concatenation. */
  lemma {:induction false} RunConcat(s: Sys, a: seq<Op>, b: seq<Op>, fault: Oracle)
    ensures RunOps(s, a + b, fault) == Then(RunOps(s, a, fault), b, fault)
    decreases |a|
  {
    if a == [] {
      assert a + b == b;
    } else {
      assert (a + b)[0] == a[0];
      assert (a + b)[1..] == a[1..] + b;
      var e := Refusal(s, a[0], fault);
      if !(e.Some? && !Ignored(a[0])) {
        RunConcat(Attempt(s, a[0], fault), a[1..], b, fault);
      }
    }
  }

  /** Calls that nothing deterministic in the model refuses, given the loaded
      filter and the kernel's highest capability number, and that hide no
      path. */
  predicate Harmless(op: Op, denied: set<Syscall>, lastCap: nat) {
    && !op.Mkdir? && !op.SeccompRuleAdd? && !op.SeccompLoad? && !EmptiesDir(op)
    && !FilterDenies(denied, op)
    && (op.CapDrop? ==> op.cap <= lastCap)
    && (op.CString? ==> '\0' !in op.text)
  }

  /** A mount names no path below one of the directories `roots`. */
  predicate Outside(op: Op, roots: set<string>) {
    op.Mount? ==> forall dir | dir in roots :: !Under(op.target, dir) && !Under(op.source, dir)
  }

  /** On a kernel without faults a plan of harmless calls that mount nothing
      below a fresh tmpfs runs to the end, every call is accepted, and no
      path disappears. */
  lemma {:induction false} CleanRun(s: Sys, ops: seq<Op>, fault: Oracle)
    requires Faultless(fault)
    requires forall i | 0 <= i < |ops| :: Harmless(ops[i], s.denied, s.lastCap)
    requires forall i | 0 <= i < |ops| :: Outside(ops[i], s.emptied)
    ensures RunOps(s, ops, fault).status.Completed?
    ensures forall i | |s.log| <= i < |RunOps(s, ops, fault).sys.log| ::
              RunOps(s, ops, fault).sys.log[i].errno.None?
    ensures RunOps(s, ops, fault).sys.emptied == s.emptied
    ensures s.existing <= RunOps(s, ops, fault).sys.existing
    decreases |ops|
  {
    if ops != [] {
      var op := ops[0];
      assert Harmless(op, s.denied, s.lastCap) && Outside(op, s.emptied);
      assert !MountsHidden(s, op);
      assert Refusal(s, op, fault) == fault(|s.log|, op);
      var s1 := Attempt(s, op, fault);
      assert s1.emptied == s.emptied && s.existing <= s1.existing;
      assert forall i | 0 <= i < |ops[1..]| :: Harmless(ops[1..][i], s1.denied, s1.lastCap) by {
        forall i | 0 <= i < |ops[1..]|
          ensures Harmless(ops[1..][i], s1.denied, s1.lastCap)
        {
          assert ops[1..][i] == ops[i + 1];
          assert Harmless(ops[i + 1], s.denied, s.lastCap);
        }
      }
      assert forall i | 0 <= i < |ops[1..]| :: Outside(ops[1..][i], s1.emptied) by {
        forall i | 0 <= i < |ops[1..]|
          ensures Outside(ops[1..][i], s1.emptied)
        {
          assert ops[1..][i] == ops[i + 1];
        }
      }
      CleanRun(s1, ops[1..], fault);
      RunReplays(s1, ops[1..], fault);
      var r := RunOps(s1, ops[1..], fault);
      assert RunOps(s, ops, fault) == r;
      assert r.sys.log[..|s1.log|] == s1.log;
      assert r.sys.log[|s.log|] == s1.log[|s.log|];
    }
  }

  /** Only creating a path adds it to the existing ones, and only a fresh
      tmpfs removes one. */
  lemma {:induction false} ExistingUntouched(s: Sys, ops: seq<Op>, fault: Oracle, path: string)
    requires forall i | 0 <= i < |ops| :: ops[i] != CreateDirAll(path) && ops[i] != Mkdir(path)
    requires forall i | 0 <= i < |ops| :: ops[i] != CreateFile(path) && !EmptiesDir(ops[i])
    ensures path in RunOps(s, ops, fault).sys.existing <==> path in s.existing
    decreases |ops|
  {
    if ops != [] {
      var s1 := Attempt(s, ops[0], fault);
      assert ops[0] != CreateDirAll(path) && ops[0] != Mkdir(path);
      assert ops[0] != CreateFile(path) && !EmptiesDir(ops[0]);
      assert path in s1.existing <==> path in s.existing;
      if !(Refusal(s, ops[0], fault).Some? && !Ignored(ops[0])) {
        assert RunOps(s, ops, fault) == RunOps(s1, ops[1..], fault);
        assert forall i | 0 <= i < |ops[1..]| :: ops[1..][i] == ops[i + 1];
        ExistingUntouched(s1, ops[1..], fault, path);
      }
    }
  }

  lemma ApplyKeepsEnv(s: Sys, op: Op, key: string)
    requires !(op.SetEnv? && op.key == key)
    ensures key in Apply(s, op).env <==> key in s.env
    ensures key in s.env ==> Apply(s, op).env[key] == s.env[key]
  {
  }

  /** Only a `SetEnv` of a key changes that key in the environment. */
  lemma {:induction false} EnvUntouched(s: Sys, ops: seq<Op>, fault: Oracle, key: string)
    requires forall i | 0 <= i < |ops| :: !(ops[i].SetEnv? && ops[i].key == key)
    ensures key in RunOps(s, ops, fault).sys.env <==> key in s.env
    ensures key in s.env ==> RunOps(s, ops, fault).sys.env[key] == s.env[key]
    decreases |ops|
  {
    if ops != [] {
      var op := ops[0];
      assert !(op.SetEnv? && op.key == key);
      var e := Refusal(s, op, fault);
      var s1 := Attempt(s, op, fault);
      ApplyKeepsEnv(s, op, key);
      assert key in s1.env <==> key in s.env;
      assert key in s.env ==> s1.env[key] == s.env[key];
      if e.Some? && !Ignored(op) {
        assert RunOps(s, ops, fault).sys == s1;
      } else {
        assert RunOps(s, ops, fault) == RunOps(s1, ops[1..], fault);
        assert forall i | 0 <= i < |ops[1..]| :: ops[1..][i] == ops[i + 1];
        EnvUntouched(s1, ops[1..], fault, key);
      }
    }
  }

  /** A plan whose every `SetEnv` of `key` sets the same value leaves that
      value in the environment once it has run to the end. */
  lemma {:induction false} EnvSetTo(s: Sys, ops: seq<Op>, fault: Oracle, key: string, value: string)
    requires forall i | 0 <= i < |ops| && ops[i].SetEnv? && ops[i].key == key :: ops[i].value == value
    requires SetEnv(key, value) in ops
    requires RunOps(s, ops, fault).status.Completed?
    ensures key in RunOps(s, ops, fault).sys.env && RunOps(s, ops, fault).sys.env[key] == value
    decreases |ops|
  {
    var op := ops[0];
    var s1 := Attempt(s, op, fault);
    var e := Refusal(s, op, fault);
    assert !(e.Some? && !Ignored(op));
    assert RunOps(s, ops, fault) == RunOps(s1, ops[1..], fault);
    assert forall i | 0 <= i < |ops[1..]| :: ops[1..][i] == ops[i + 1];
    if SetEnv(key, value) in ops[1..] {
      EnvSetTo(s1, ops[1..], fault, key, value);
    } else {
      assert op == SetEnv(key, value);
      assert s1.env == s.env[key := value];
      forall i | 0 <= i < |ops[1..]|
        ensures !(ops[1..][i].SetEnv? && ops[1..][i].key == key)
      {
        assert ops[1..][i] == ops[i + 1];
      }
      EnvUntouched(s1, ops[1..], fault, key);
    }
  }
}
