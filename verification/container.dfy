/** The Go child process and its parent: the `must`-guarded calls `child`
    issues before it starts the command, the GPU device selection, the
    `DISPLAY` handling, and how `runContainer` spawns and judges the child. */
module Container {
  import opened Results
  import opened Text
  import opened Kernel
  import opened Runtime
  import Sandbox

  // ---------------------------------------------------------------------
  // The child's calls

  /** The child as `main.go` writes it, or with its mount sequence
      corrected so that every call can succeed. */
  datatype Variant = AsWritten | Corrected

  /** Bind the rootfs onto itself, create `oldrootfs` in it, pivot into it
      and change to the new root. */
  function RootSwitch(rootfsDir: string): seq<Op> {
    [ Mount(rootfsDir, rootfsDir, "", {Bind}, ""),
      CreateDirAll(GoJoin(rootfsDir, "oldrootfs")),
      PivotRoot(rootfsDir, GoJoin(rootfsDir, "oldrootfs")),
      Chdir("/") ]
  }

  /** Where the host's root is found once the root has been switched. */
  const OldRoot := "/oldrootfs"

  const ProcFs := Mount("proc", "/proc", "proc", {}, "")
  const SysFs := Mount("sysfs", "/sys", "sysfs", {}, "")
  const DevTmpfs := Mount("tmpfs", "/dev", "tmpfs", {NoSuid, StrictAtime}, "mode=755")
  const DevPts := Mount("devpts", "/dev/pts", "devpts", {}, "")
  const RunTmpfs := Mount("tmpfs", "/run", "tmpfs", {NoSuid, NoDev, StrictAtime}, "mode=755")

  /** The root switch, proc and sysfs: the calls before the tmpfs on
      `/dev`, in both variants. */
  function SwitchAndProc(rootfsDir: string): seq<Op> {
    RootSwitch(rootfsDir) + [ProcFs, SysFs]
  }

  /** The tmpfs on `/dev` and devpts on `/dev/pts`; corrected, `/dev/pts` is
      created in the fresh `/dev` in between. */
  function DevMounts(v: Variant): seq<Op> {
    if v.AsWritten? then [DevTmpfs, DevPts] else [DevTmpfs, CreateDirAll("/dev/pts"), DevPts]
  }

  /** The calls before the device binds: the root switch, proc, sysfs, the
      `/dev` mounts and a tmpfs `/run`. */
  function Head(v: Variant, rootfsDir: string): seq<Op> {
    SwitchAndProc(rootfsDir) + DevMounts(v) + [RunTmpfs]
  }

  /** A recursive bind mount of a path onto the same path. */
  function SelfBind(path: string): Op {
    Mount(path, path, "bind", {Bind, Recursive}, "")
  }

  /** A recursive bind mount of the host's `path`, reached through the old
      root, onto `path` in the container. */
  function HostBind(path: string): Op {
    Mount(OldRoot + path, path, "bind", {Bind, Recursive}, "")
  }

  const X11Socket := "/tmp/.X11-unix"

  /** The devices of `devs` that exist (`present`), in list order. */
  function PresentDevices(devs: seq<string>, present: set<string>): (r: seq<string>)
    ensures forall d :: d in r <==> d in devs && d in present
    ensures |r| <= |devs|
    decreases |devs|
  {
    if devs == [] then []
    else (if devs[0] in present then [devs[0]] else []) + PresentDevices(devs[1..], present)
  }

  /** The present devices keep the order of the list. */
  lemma {:induction false} PresentDevicesInOrder(devs: seq<string>, present: set<string>)
    ensures IsSubsequence(PresentDevices(devs, present), devs)
    decreases |devs|
  {
    if devs != [] {
      PresentDevicesInOrder(devs[1..], present);
      var rest := PresentDevices(devs[1..], present);
      if devs[0] in present {
        assert PresentDevices(devs, present) == [devs[0]] + rest;
        assert ([devs[0]] + rest)[1..] == rest;
      } else {
        assert PresentDevices(devs, present) == rest;
        assert rest != [] ==> rest[0] in present;
      }
    }
  }

  function SelfBinds(paths: seq<string>): (r: seq<Op>)
    ensures |r| == |paths|
    ensures forall i | 0 <= i < |r| :: r[i] == SelfBind(paths[i])
  {
    seq(|paths|, i requires 0 <= i < |paths| => SelfBind(paths[i]))
  }

  /** For each device, create the file to mount on in the fresh `/dev`, then
      bind the host's node onto it. */
  function HostDeviceBinds(devs: seq<string>): (r: seq<Op>)
    ensures |r| == 2 * |devs|
    ensures forall i | 0 <= i < |r| :: r[i] == (if i % 2 == 0 then CreateFile(devs[i / 2]) else HostBind(devs[i / 2]))
    decreases |devs|
  {
    if devs == [] then []
    else [CreateFile(devs[0]), HostBind(devs[0])] + HostDeviceBinds(devs[1..])
  }

  /** `path` lies below the target of a tmpfs mount in `plan`, which starts
      out empty and so hides what was there. */
  predicate HiddenBy(plan: seq<Op>, path: string) {
    exists i | 0 <= i < |plan| :: EmptiesDir(plan[i]) && Under(path, plan[i].target)
  }

  /** The paths of `host` that a lookup still finds after `plan`. */
  function VisibleAfter(plan: seq<Op>, host: set<string>): (r: set<string>)
    ensures forall p :: p in r <==> p in host && !HiddenBy(plan, p)
  {
    set p | p in host && !HiddenBy(plan, p)
  }

  /** As written: `os.Stat` of each listed device after the standard mounts,
      and a bind of each one found onto itself. */
  function AsWrittenDeviceBinds(rootfsDir: string, gpu: bool, host: set<string>): seq<Op> {
    if gpu then SelfBinds(PresentDevices(GpuDevices, VisibleAfter(Head(AsWritten, rootfsDir), host))) else []
  }

  /** Corrected: the host's devices, looked up before the tmpfs hides them
      and bound from the old root. */
  function CorrectedDeviceBinds(gpu: bool, host: set<string>): seq<Op> {
    if gpu then HostDeviceBinds(PresentDevices(GpuDevices, host)) else []
  }

  /** The GPU calls: none without `--gpu`. */
  function DeviceBinds(v: Variant, cfg: ChildConfig, host: set<string>): seq<Op> {
    match v
    case AsWritten => AsWrittenDeviceBinds(cfg.rootfsDir, cfg.gpu, host)
    case Corrected => CorrectedDeviceBinds(cfg.gpu, host)
  }

  /** As written, the device lookup runs after a fresh tmpfs is mounted on
      `/dev`: whatever device nodes the host has, `--gpu` binds none. */
  lemma GpuLookupAfterTmpfs(rootfsDir: string, gpu: bool, host: set<string>)
    ensures AsWrittenDeviceBinds(rootfsDir, gpu, host) == []
  {
    var plan := Head(AsWritten, rootfsDir);
    assert plan[6] == DevTmpfs;
    forall d | d in GpuDevices
      ensures HiddenBy(plan, d)
    {
      assert Under(d, plan[6].target);
    }
    var devs := PresentDevices(GpuDevices, VisibleAfter(plan, host));
    assert forall d | d in devs :: d in GpuDevices && d !in VisibleAfter(plan, host);
  }

  /** Corrected, with `--gpu` exactly the listed devices the host has are
      bound, in list order, each from the old root onto the same path, and
      each right after the file it is mounted on is created; without it
      nothing is. */
  lemma DeviceBindsSelect(gpu: bool, host: set<string>)
    ensures var binds := CorrectedDeviceBinds(gpu, host);
      && (forall d :: HostBind(d) in binds <==> gpu && d in GpuDevices && d in host)
      && (forall i | 0 <= i < |binds| :: binds[i].CreateFile? || binds[i].Mount?)
      && (forall i | 0 <= i < |binds| && binds[i].Mount? ::
            0 < i && binds[i - 1] == CreateFile(binds[i].target) && binds[i].source == OldRoot + binds[i].target)
      && (gpu ==> IsSubsequence(PresentDevices(GpuDevices, host), GpuDevices))
  {
    if gpu {
      var devs := PresentDevices(GpuDevices, host);
      assert CorrectedDeviceBinds(gpu, host) == HostDeviceBinds(devs);
      assert forall d :: d in devs <==> d in GpuDevices && d in host;
      HostBindsMembers(devs);
      HostBindsPaired(devs);
      PresentDevicesInOrder(GpuDevices, host);
    }
  }

  /** Each host bind follows the creation of its target, and nothing else
      is issued. */
  lemma HostBindsPaired(devs: seq<string>)
    ensures var binds := HostDeviceBinds(devs);
      && (forall i | 0 <= i < |binds| :: binds[i].CreateFile? || binds[i].Mount?)
      && (forall i | 0 <= i < |binds| && binds[i].Mount? ::
            0 < i && binds[i - 1] == CreateFile(binds[i].target) && binds[i].source == OldRoot + binds[i].target)
  {
    var binds := HostDeviceBinds(devs);
    forall i | 0 <= i < |binds| && binds[i].Mount?
      ensures 0 < i && binds[i - 1] == CreateFile(binds[i].target)
    {
      assert i % 2 == 1;
      assert (i - 1) % 2 == 0 && (i - 1) / 2 == i / 2;
    }
  }

  /** The host binds of a list bind exactly its paths. */
  lemma HostBindsMembers(devs: seq<string>)
    ensures forall d :: HostBind(d) in HostDeviceBinds(devs) <==> d in devs
  {
    var binds := HostDeviceBinds(devs);
    forall d
      ensures HostBind(d) in binds <==> d in devs
    {
      if HostBind(d) in binds {
        var i :| 0 <= i < |binds| && binds[i] == HostBind(d);
        assert i % 2 == 1 && devs[i / 2] == d;
      }
      if d in devs {
        var i :| 0 <= i < |devs| && devs[i] == d;
        assert binds[2 * i + 1] == HostBind(d);
      }
    }
  }

  /** The X11 socket bind, only with `--gui`. */
  function GuiBinds(gui: bool): seq<Op> {
    if gui then [SelfBind(X11Socket)] else []
  }

  /** Everything `child` mounts, in order, before it starts the command. */
  function MountPlan(v: Variant, cfg: ChildConfig, host: set<string>): seq<Op> {
    Head(v, cfg.rootfsDir) + DeviceBinds(v, cfg, host) + GuiBinds(cfg.gui)
  }

  /** A GPU call: the creation of a listed device file, or a bind mount
      onto a listed device path. */
  predicate DeviceCall(op: Op) {
    (op.CreateFile? && op.path in GpuDevices) || (op.Mount? && op.target in GpuDevices && op.fstype == "bind")
  }

  /** In both variants, only GPU calls are issued for the devices. */
  lemma DeviceBindCalls(v: Variant, cfg: ChildConfig, host: set<string>)
    ensures forall op | op in DeviceBinds(v, cfg, host) :: DeviceCall(op)
  {
    if cfg.gpu {
      if v.AsWritten? {
        var devs := PresentDevices(GpuDevices, VisibleAfter(Head(AsWritten, cfg.rootfsDir), host));
        assert DeviceBinds(v, cfg, host) == SelfBinds(devs);
        SelfBindsCalls(devs);
      } else {
        var devs := PresentDevices(GpuDevices, host);
        assert DeviceBinds(v, cfg, host) == HostDeviceBinds(devs);
        HostBindsCalls(devs);
      }
    }
  }

  lemma SelfBindsCalls(devs: seq<string>)
    requires forall d | d in devs :: d in GpuDevices
    ensures forall op | op in SelfBinds(devs) :: DeviceCall(op)
  {
    var binds := SelfBinds(devs);
    forall op | op in binds
      ensures DeviceCall(op)
    {
      var i :| 0 <= i < |binds| && binds[i] == op;
      assert devs[i] in devs;
    }
  }

  lemma HostBindsCalls(devs: seq<string>)
    requires forall d | d in devs :: d in GpuDevices
    ensures forall op | op in HostDeviceBinds(devs) :: DeviceCall(op)
  {
    var binds := HostDeviceBinds(devs);
    forall op | op in binds
      ensures DeviceCall(op)
    {
      var i :| 0 <= i < |binds| && binds[i] == op;
      assert devs[i / 2] in devs;
    }
  }

  /** The root switch comes first (so `/proc` and the rest are mounted in the
      new root), then the standard mounts, the GPU calls, and the X11 socket
      last and only with `--gui`. As written, devpts directly follows the
      tmpfs on `/dev`; corrected, `/dev/pts` is created in between. */
  lemma ChildMountOrder(v: Variant, cfg: ChildConfig, host: set<string>)
    ensures var plan := MountPlan(v, cfg, host);
      var h := |Head(v, cfg.rootfsDir)|;
      var n := |DeviceBinds(v, cfg, host)|;
      && h == (if v.AsWritten? then 9 else 10)
      && |plan| == h + n + (if cfg.gui then 1 else 0)
      && plan[2] == PivotRoot(cfg.rootfsDir, GoJoin(cfg.rootfsDir, "oldrootfs"))
      && plan[4] == ProcFs && plan[6] == DevTmpfs
      && (v.AsWritten? ==> plan[7] == DevPts)
      && (v.Corrected? ==> plan[7] == CreateDirAll("/dev/pts") && plan[8] == DevPts)
      && plan[h..h + n] == DeviceBinds(v, cfg, host)
      && (cfg.gui <==> SelfBind(X11Socket) in plan)
      && (cfg.gui ==> plan[|plan| - 1] == SelfBind(X11Socket))
  {
    var head := Head(v, cfg.rootfsDir);
    var binds := DeviceBinds(v, cfg, host);
    HeadLayout(v, cfg.rootfsDir);
    DeviceBindCalls(v, cfg, host);
    assert X11Socket !in GpuDevices;
    assert SelfBind(X11Socket) !in binds;
    PlanLayout(head, binds, SelfBind(X11Socket), cfg.gui);
    var plan := head + binds + GuiBinds(cfg.gui);
    assert plan == MountPlan(v, cfg, host);
    var pre := plan[..|head|];
    assert pre[2] == plan[2] && pre[4] == plan[4] && pre[6] == plan[6] && pre[7] == plan[7] && pre[8] == plan[8];
  }

  /** The fixed calls: nine as written, ten corrected. */
  lemma HeadLayout(v: Variant, rootfsDir: string)
    ensures var head := Head(v, rootfsDir);
      && |head| == (if v.AsWritten? then 9 else 10)
      && head[2] == PivotRoot(rootfsDir, GoJoin(rootfsDir, "oldrootfs"))
      && head[4] == ProcFs && head[6] == DevTmpfs
      && (v.AsWritten? ==> head[7] == DevPts)
      && (v.Corrected? ==> head[7] == CreateDirAll("/dev/pts") && head[8] == DevPts)
      && SelfBind(X11Socket) !in head
  {
  }

  /** A fixed head, a run of binds, and one optional last call. */
  lemma PlanLayout(head: seq<Op>, binds: seq<Op>, last: Op, present: bool)
    requires last !in head && last !in binds
    ensures var plan := head + binds + (if present then [last] else []);
      && |plan| == |head| + |binds| + (if present then 1 else 0)
      && plan[..|head|] == head
      && plan[|head|..|head| + |binds|] == binds
      && (present <==> last in plan)
      && (present ==> plan[|plan| - 1] == last)
  {
    var plan := head + binds + (if present then [last] else []);
    assert plan[..|head| + |binds|] == head + binds;
    assert (head + binds)[|head|..] == binds;
  }

  /** The calls of the mount plan are mounts, directory and file creations,
      the pivot and a change of directory; none of their results is
      ignored. */
  lemma ChildMountCalls(v: Variant, cfg: ChildConfig, host: set<string>)
    ensures forall op | op in MountPlan(v, cfg, host) ::
      op.Mount? || op.CreateDirAll? || op.CreateFile? || op.PivotRoot? || op.Chdir?
    ensures forall op | op in MountPlan(v, cfg, host) :: !Ignored(op)
  {
    var head := Head(v, cfg.rootfsDir);
    DeviceBindCalls(v, cfg, host);
    assert forall op | op in head :: op.Mount? || op.CreateDirAll? || op.PivotRoot? || op.Chdir?;
    PlanCalls(head, DeviceBinds(v, cfg, host), GuiBinds(cfg.gui));
  }

  lemma PlanCalls(head: seq<Op>, binds: seq<Op>, gui: seq<Op>)
    requires forall op | op in head :: op.Mount? || op.CreateDirAll? || op.PivotRoot? || op.Chdir?
    requires forall op | op in binds :: DeviceCall(op)
    requires forall op | op in gui :: op.Mount?
    ensures forall op | op in head + binds + gui ::
      op.Mount? || op.CreateDirAll? || op.CreateFile? || op.PivotRoot? || op.Chdir?
    ensures forall op | op in head + binds + gui :: !Ignored(op)
  {
  }

  // ---------------------------------------------------------------------
  // The command's environment

  /** `entry` is a `key=value` entry for `key`. */
  predicate EntryFor(entry: string, key: string) {
    StartsWith(entry, key + "=")
  }

  /** `os.Getenv`: the value of the first entry for `key`, "" when none. */
  function GetEnv(environ: seq<string>, key: string): string
    decreases |environ|
  {
    if environ == [] then ""
    else if EntryFor(environ[0], key) then environ[0][|key| + 1..]
    else GetEnv(environ[1..], key)
  }

  /** The value a started process sees for `key`: `exec.Cmd` keeps the last
      entry for each key. */
  function Effective(environ: seq<string>, key: string): (r: Option<string>)
    decreases |environ|
  {
    if environ == [] then None
    else
      var last := environ[|environ| - 1];
      if EntryFor(last, key) then Some(last[|key| + 1..]) else Effective(environ[..|environ| - 1], key)
  }

  /** The host's `DISPLAY`, or ":0" when it is empty or unset. */
  function DisplayFor(environ: seq<string>): (r: string)
    ensures r != ""
    ensures GetEnv(environ, "DISPLAY") != "" ==> r == GetEnv(environ, "DISPLAY")
    ensures GetEnv(environ, "DISPLAY") == "" ==> r == ":0"
  {
    var display := GetEnv(environ, "DISPLAY");
    if display == "" then ":0" else display
  }

  /** The environment given to the command. */
  function ChildEnv(environ: seq<string>, gui: bool): seq<string> {
    if gui then environ + ["DISPLAY=" + DisplayFor(environ)] else environ
  }

  /** An entry for `DISPLAY` is an entry for no other key without `=`. */
  lemma DisplayEntryOnlyForDisplay(value: string, key: string)
    requires '=' !in key
    ensures EntryFor("DISPLAY=" + value, key) <==> key == "DISPLAY"
  {
    var e := "DISPLAY=" + value;
    if EntryFor(e, key) {
      var k := key + "=";
      assert e[..|k|] == k;
      assert e[|key|] == '=';
      assert forall j | 0 <= j < |key| :: e[j] == key[j] != '=';
      assert e[7] == '=';
      assert |key| <= 7;
      assert key == e[..|key|];
    }
  }

  /** With `--gui` the command sees `DISPLAY` set to the host's value or
      ":0", and every other variable as inherited; without it the
      environment is passed on unchanged. */
  lemma ChildEnvEffective(environ: seq<string>, gui: bool, key: string)
    requires '=' !in key
    ensures !gui ==> ChildEnv(environ, gui) == environ
    ensures gui ==> Effective(ChildEnv(environ, gui), "DISPLAY") == Some(DisplayFor(environ))
    ensures key != "DISPLAY" ==> Effective(ChildEnv(environ, gui), key) == Effective(environ, key)
  {
    if gui {
      var env := ChildEnv(environ, gui);
      var e := "DISPLAY=" + DisplayFor(environ);
      assert env[..|env| - 1] == environ;
      assert EntryFor(e, "DISPLAY");
      assert e[|"DISPLAY"| + 1..] == DisplayFor(environ);
      DisplayEntryOnlyForDisplay(DisplayFor(environ), key);
    }
  }

  // ---------------------------------------------------------------------
  // Running the child

  /** The command `child` starts. */
  datatype Started = Started(cmd: string, args: seq<string>, env: seq<string>)

  /** A Go panic exits with status 2; otherwise `child` exits with 0 or 1. */
  datatype ChildExit = Panicked(panic: GoPanic) | Exited(code: nat)

  datatype ChildRun = ChildRun(log: seq<Step>, started: Option<Started>, exit: ChildExit)

  function ExitCode(e: ChildExit): nat {
    match e
    case Panicked(_) => 2
    case Exited(c) => c
  }

  /** `child(args)`: decode the arguments, issue the mounts under `must`,
      then start the command; the device nodes the host has and whether the
      command succeeds are parameters. */
  function RunChild(v: Variant, args: seq<string>, host: set<string>, environ: seq<string>,
                    s: Sys, fault: Oracle, commandOk: bool): ChildRun {
    match DecodeChildArgs(args)
    case Err(p) => ChildRun(s.log, None, Panicked(p))
    case Ok(cfg) => MustThenStart(MountPlan(v, cfg, host), cfg, environ, s, fault, commandOk)
  }

  /** Issue `plan` under `must`, then start the configured command. */
  function MustThenStart(plan: seq<Op>, cfg: ChildConfig, environ: seq<string>,
                         s: Sys, fault: Oracle, commandOk: bool): ChildRun {
    var r := RunOps(s, plan, fault);
    if r.status.Aborted? then ChildRun(r.sys.log, None, Panicked(MountError(r.status.op, r.status.errno)))
    else ChildRun(r.sys.log, Some(Started(cfg.cmd, cfg.cmdArgs, ChildEnv(environ, cfg.gui))), Exited(if commandOk then 0 else 1))
  }

  /** A completed run of a plan with no ignored calls accepted every call. */
  lemma CompletedAcceptedAll(s: Sys, ops: seq<Op>, fault: Oracle)
    requires forall op | op in ops :: !Ignored(op)
    ensures var r := RunOps(s, ops, fault);
      r.status.Completed? ==>
        |r.sys.log| == |s.log| + |ops| && forall i | |s.log| <= i < |r.sys.log| :: r.sys.log[i].errno.None?
  {
    var r := RunOps(s, ops, fault);
    RunReplays(s, ops, fault);
    if r.status.Completed? {
      forall i | |s.log| <= i < |r.sys.log|
        ensures r.sys.log[i].errno.None?
      {
        assert r.sys.log[i].op == ops[i - |s.log|];
      }
    }
  }

  /** `must` panics at the first refused call: the command is started only
      when every mount call was accepted, and a mount panic names a call of
      the plan, the last one attempted. */
  lemma MustStopsChild(v: Variant, args: seq<string>, host: set<string>, environ: seq<string>,
                       s: Sys, fault: Oracle, commandOk: bool)
    ensures var c := RunChild(v, args, host, environ, s, fault, commandOk);
      && (c.started.Some? <==> c.exit.Exited?)
      && (c.exit.Panicked? && c.exit.panic.MountError? ==>
            DecodeChildArgs(args).Ok?
            && c.exit.panic.op in MountPlan(v, DecodeChildArgs(args).value, host)
            && |c.log| > |s.log|
            && c.log[|c.log| - 1] == Step(c.exit.panic.op, Some(c.exit.panic.errno)))
      && (c.started.Some? ==>
            DecodeChildArgs(args).Ok?
            && |c.log| == |s.log| + |MountPlan(v, DecodeChildArgs(args).value, host)|
            && forall i | |s.log| <= i < |c.log| :: c.log[i].errno.None?)
  {
    if DecodeChildArgs(args).Ok? {
      var cfg := DecodeChildArgs(args).value;
      ChildMountCalls(v, cfg, host);
      MustThenStartOutcome(MountPlan(v, cfg, host), cfg, environ, s, fault, commandOk);
    }
  }

  lemma MustThenStartOutcome(plan: seq<Op>, cfg: ChildConfig, environ: seq<string>,
                             s: Sys, fault: Oracle, commandOk: bool)
    requires forall op | op in plan :: !Ignored(op)
    ensures var c := MustThenStart(plan, cfg, environ, s, fault, commandOk);
      && (c.started.Some? <==> c.exit.Exited?)
      && (c.exit.Panicked? ==>
            c.exit.panic.MountError? && c.exit.panic.op in plan && |c.log| > |s.log|
            && c.log[|c.log| - 1] == Step(c.exit.panic.op, Some(c.exit.panic.errno)))
      && (c.started.Some? ==>
            |c.log| == |s.log| + |plan| && forall i | |s.log| <= i < |c.log| :: c.log[i].errno.None?)
  {
    MustRun(s, plan, fault);
  }

  /** A `must`-guarded sequence either stops at a call of its own, logged
      last with its error, or has every call accepted. */
  lemma MustRun(s: Sys, plan: seq<Op>, fault: Oracle)
    requires forall op | op in plan :: !Ignored(op)
    ensures var r := RunOps(s, plan, fault);
      && (r.status.Aborted? ==>
            r.status.op in plan && |r.sys.log| > |s.log|
            && r.sys.log[|r.sys.log| - 1] == Step(r.status.op, Some(r.status.errno)))
      && (r.status.Completed? ==>
            |r.sys.log| == |s.log| + |plan| && forall i | |s.log| <= i < |r.sys.log| :: r.sys.log[i].errno.None?)
  {
    AbortedLogsLast(s, plan, fault);
    AbortedAtPlanOp(s, plan, fault);
    CompletedAcceptedAll(s, plan, fault);
  }

  // ---------------------------------------------------------------------
  // devpts on the fresh /dev

  /** Once a tmpfs is accepted, a mount onto a path below it fails with
      ENOENT; the tmpfs itself can only fail by being refused. */
  lemma MountBelowFreshTmpfs(s: Sys, a: Op, b: Op, rest: seq<Op>, fault: Oracle)
    requires EmptiesDir(a) && b.Mount? && Under(b.target, a.target)
    ensures var r := RunOps(s, [a, b] + rest, fault); var e := Refusal(s, a, fault);
      && (e.Some? ==> r.status == Aborted(a, e.value))
      && (e.None? ==> r.status == Aborted(b, ENoEnt))
  {
    var e := Refusal(s, a, fault);
    assert ([a, b] + rest)[0] == a && ([a, b] + rest)[1..] == [b] + rest;
    if e.None? {
      var s1 := Attempt(s, a, fault);
      assert !FilterDenies(s.denied, a);
      assert s1.denied == s.denied && a.target in s1.emptied && b.target !in s1.existing;
      assert Hidden(s1, b.target);
      assert Refusal(s1, b, fault) == Some(ENoEnt);
      RunStops(s1, [b] + rest, fault);
    }
  }

  /** What follows devpts as written. */
  function AsWrittenTail(cfg: ChildConfig, host: set<string>): seq<Op> {
    [RunTmpfs] + DeviceBinds(AsWritten, cfg, host) + GuiBinds(cfg.gui)
  }

  lemma AsWrittenSplit(cfg: ChildConfig, host: set<string>)
    ensures MountPlan(AsWritten, cfg, host) == SwitchAndProc(cfg.rootfsDir) + ([DevTmpfs, DevPts] + AsWrittenTail(cfg, host))
  {
    Reassociate(SwitchAndProc(cfg.rootfsDir), DevMounts(AsWritten), [RunTmpfs],
                DeviceBinds(AsWritten, cfg, host), GuiBinds(cfg.gui));
  }

  lemma Reassociate(a: seq<Op>, b: seq<Op>, c: seq<Op>, d: seq<Op>, e: seq<Op>)
    ensures a + b + c + d + e == a + (b + (c + d + e))
  {
  }

  /** On a kernel that refuses nothing on its own and a fresh process, the
      calls before the tmpfs on `/dev` are accepted and hide nothing. */
  lemma SwitchAndProcRuns(rootfsDir: string, s: Sys, fault: Oracle)
    requires Faultless(fault) && s.denied == {} && s.emptied == {}
    ensures var r := RunOps(s, SwitchAndProc(rootfsDir), fault);
      r.status.Completed? && r.sys.denied == {} && r.sys.emptied == {}
  {
    CleanRun(s, SwitchAndProc(rootfsDir), fault);
  }

  /** As written, `child` never starts the command: whatever the arguments,
      the host and the kernel's answers, either an earlier call fails or the
      tmpfs on `/dev` is accepted and hides `/dev/pts`, so the devpts mount
      fails with ENOENT and `must` panics. */
  lemma DevPtsMountFails(args: seq<string>, host: set<string>, environ: seq<string>,
                         s: Sys, fault: Oracle, commandOk: bool)
    ensures var c := RunChild(AsWritten, args, host, environ, s, fault, commandOk);
      c.started.None? && c.exit.Panicked?
  {
    if DecodeChildArgs(args).Ok? {
      var cfg := DecodeChildArgs(args).value;
      var a := SwitchAndProc(cfg.rootfsDir);
      var rest := AsWrittenTail(cfg, host);
      AsWrittenSplit(cfg, host);
      RunConcat(s, a, [DevTmpfs, DevPts] + rest, fault);
      var ra := RunOps(s, a, fault);
      if ra.status.Completed? {
        MountBelowFreshTmpfs(ra.sys, DevTmpfs, DevPts, rest, fault);
      }
    }
  }

  /** As written, on a kernel that refuses nothing on its own, the first
      seven calls are accepted and `child` panics at the devpts mount. */
  lemma ChildPanicsAtDevPts(args: seq<string>, host: set<string>, environ: seq<string>,
                            s: Sys, fault: Oracle, commandOk: bool)
    requires Faultless(fault) && s.denied == {} && s.emptied == {}
    requires DecodeChildArgs(args).Ok?
    ensures RunChild(AsWritten, args, host, environ, s, fault, commandOk).exit == Panicked(MountError(DevPts, ENoEnt))
  {
    var cfg := DecodeChildArgs(args).value;
    var a := SwitchAndProc(cfg.rootfsDir);
    var rest := AsWrittenTail(cfg, host);
    AsWrittenSplit(cfg, host);
    RunConcat(s, a, [DevTmpfs, DevPts] + rest, fault);
    SwitchAndProcRuns(cfg.rootfsDir, s, fault);
    var ra := RunOps(s, a, fault);
    MountRefusal(ra.sys, DevTmpfs, fault);
    assert !MountsHidden(ra.sys, DevTmpfs);
    MountBelowFreshTmpfs(ra.sys, DevTmpfs, DevPts, rest, fault);
  }

  /** The corrected calls from the tmpfs on `/dev` to the tmpfs on `/run`. */
  const FreshDirs: seq<Op> := [DevTmpfs, CreateDirAll("/dev/pts"), DevPts, RunTmpfs]

  lemma CorrectedSplit(cfg: ChildConfig, host: set<string>)
    ensures MountPlan(Corrected, cfg, host)
      == SwitchAndProc(cfg.rootfsDir) + FreshDirs + DeviceBinds(Corrected, cfg, host) + GuiBinds(cfg.gui)
  {
    var a := SwitchAndProc(cfg.rootfsDir);
    var d := DeviceBinds(Corrected, cfg, host);
    assert DevMounts(Corrected) + [RunTmpfs] == FreshDirs;
    assert a + DevMounts(Corrected) + [RunTmpfs] == a + FreshDirs;
  }

  /** Corrected, on a kernel that refuses nothing on its own, the fresh
      `/dev` and `/run` are mounted, `/dev/pts` is created before devpts is
      mounted on it, and every call is accepted. */
  lemma FreshDirsRun(t: Sys, fault: Oracle)
    requires Faultless(fault) && t.denied == {} && t.emptied == {}
    ensures var r := RunOps(t, FreshDirs, fault);
      && r.status.Completed? && r.sys.denied == {} && r.sys.emptied == {"/dev", "/run"}
  {
    MountRefusal(t, DevTmpfs, fault);
    assert !MountsHidden(t, DevTmpfs);
    RunAccepted(t, DevTmpfs, FreshDirs[1..], fault);
    var t1 := Attempt(t, DevTmpfs, fault);
    assert t1.emptied == {"/dev"} && t1.denied == {};
    PtsCreatedThenMounted(t1, fault);
  }

  /** In a fresh `/dev`, creating `/dev/pts` lets devpts be mounted on it,
      and `/run` is not below `/dev`. */
  lemma PtsCreatedThenMounted(t1: Sys, fault: Oracle)
    requires Faultless(fault) && t1.denied == {} && t1.emptied == {"/dev"}
    ensures var r := RunOps(t1, FreshDirs[1..], fault);
      && r.status.Completed? && r.sys.denied == {} && r.sys.emptied == {"/dev", "/run"}
  {
    var mk := CreateDirAll("/dev/pts");
    assert Refusal(t1, mk, fault).None?;
    RunAccepted(t1, mk, [DevPts, RunTmpfs], fault);
    var t2 := Attempt(t1, mk, fault);
    assert "/dev/pts" in t2.existing && t2.emptied == {"/dev"} && t2.denied == {};
    DevPtsThenRun(t2, fault);
  }

  lemma DevPtsThenRun(t2: Sys, fault: Oracle)
    requires Faultless(fault) && t2.denied == {} && t2.emptied == {"/dev"} && "/dev/pts" in t2.existing
    ensures var r := RunOps(t2, [DevPts, RunTmpfs], fault);
      && r.status.Completed? && r.sys.denied == {} && r.sys.emptied == {"/dev", "/run"}
  {
    MountRefusal(t2, DevPts, fault);
    assert !MountsHidden(t2, DevPts);
    RunAccepted(t2, DevPts, [RunTmpfs], fault);
    var t3 := Attempt(t2, DevPts, fault);
    assert t3.emptied == {"/dev"} && t3.denied == {};
    MountRefusal(t3, RunTmpfs, fault);
    assert "/run"[1] == 'r';
    assert !Under("/run", "/dev");
    assert !MountsHidden(t3, RunTmpfs);
    RunAccepted(t3, RunTmpfs, [], fault);
  }

  /** Below fresh `/dev` and `/run`, each device file is created and the
      host's node is bound onto it. */
  lemma {:induction false} HostDeviceBindsRun(t: Sys, devs: seq<string>, fault: Oracle)
    requires Faultless(fault) && t.denied == {} && t.emptied == {"/dev", "/run"}
    ensures var r := RunOps(t, HostDeviceBinds(devs), fault);
      r.status.Completed? && r.sys.denied == {} && r.sys.emptied == t.emptied
    decreases |devs|
  {
    if devs != [] {
      var d := devs[0];
      var rest := HostDeviceBinds(devs[1..]);
      assert HostDeviceBinds(devs) == [CreateFile(d)] + ([HostBind(d)] + rest);
      assert Refusal(t, CreateFile(d), fault).None?;
      RunAccepted(t, CreateFile(d), [HostBind(d)] + rest, fault);
      var t1 := Attempt(t, CreateFile(d), fault);
      assert d in t1.existing && t1.emptied == t.emptied && t1.denied == {};
      HostBindAccepted(t1, d, fault);
      RunAccepted(t1, HostBind(d), rest, fault);
      var t2 := Attempt(t1, HostBind(d), fault);
      assert t2.emptied == t.emptied && t2.denied == {};
      HostDeviceBindsRun(t2, devs[1..], fault);
    }
  }

  /** The old root is not below the fresh `/dev` or `/run`, and the target
      has just been created: the host bind is accepted. */
  lemma HostBindAccepted(t: Sys, d: string, fault: Oracle)
    requires Faultless(fault) && t.denied == {} && t.emptied == {"/dev", "/run"} && d in t.existing
    ensures Refusal(t, HostBind(d), fault).None?
  {
    MountRefusal(t, HostBind(d), fault);
    assert (OldRoot + d)[1] == 'o';
    assert !Under(OldRoot + d, "/dev") && !Under(OldRoot + d, "/run");
    assert !Hidden(t, OldRoot + d);
  }

  /** Corrected, on a kernel that refuses nothing on its own and a fresh
      process, every mount call of the child is accepted. */
  lemma CorrectedMountsAccepted(cfg: ChildConfig, host: set<string>, s: Sys, fault: Oracle)
    requires Faultless(fault) && s.denied == {} && s.emptied == {}
    ensures RunOps(s, MountPlan(Corrected, cfg, host), fault).status.Completed?
    ensures RunOps(s, MountPlan(Corrected, cfg, host), fault).sys.emptied == {"/dev", "/run"}
  {
    var a := SwitchAndProc(cfg.rootfsDir);
    var d := DeviceBinds(Corrected, cfg, host);
    var g := GuiBinds(cfg.gui);
    CorrectedSplit(cfg, host);
    RunConcat(s, a + FreshDirs + d, g, fault);
    RunConcat(s, a + FreshDirs, d, fault);
    RunConcat(s, a, FreshDirs, fault);
    SwitchAndProcRuns(cfg.rootfsDir, s, fault);
    var ra := RunOps(s, a, fault);
    FreshDirsRun(ra.sys, fault);
    var rb := RunOps(ra.sys, FreshDirs, fault);
    if cfg.gpu {
      HostDeviceBindsRun(rb.sys, PresentDevices(GpuDevices, host), fault);
    }
    var rd := RunOps(rb.sys, d, fault);
    GuiBindsRun(cfg.gui, rd.sys, fault);
  }

  /** The X11 socket is not below `/dev` or `/run`: its bind is accepted. */
  lemma GuiBindsRun(gui: bool, t: Sys, fault: Oracle)
    requires Faultless(fault) && t.denied == {} && t.emptied == {"/dev", "/run"}
    ensures RunOps(t, GuiBinds(gui), fault).status.Completed?
    ensures RunOps(t, GuiBinds(gui), fault).sys.emptied == t.emptied
  {
    assert X11Socket[1] == 't';
    assert !Under(X11Socket, "/dev") && !Under(X11Socket, "/run");
    CleanRun(t, GuiBinds(gui), fault);
  }

  // ---------------------------------------------------------------------
  // runContainer

  /** The re-exec of the binary in new namespaces, with the caller's uid
      and gid each mapped to 0. */
  datatype Spawn = Spawn(path: string, args: seq<string>, namespaces: set<Namespace>,
                         uidMap: Sandbox.IdMapping, gidMap: Sandbox.IdMapping)

  datatype ContainerStart = RootfsMissing(name: string) | Spawned(spawn: Spawn)

  /** `runContainer` up to the spawn: the rootfs must exist, and the child
      is handed the configuration it needs to rebuild, in every namespace
      the Rust sandbox also unshares. */
  function StartContainer(rootfsName: string, cmdArgs: seq<string>, gpu: bool, gui: bool,
                          existing: set<string>, uid: nat, gid: nat): (r: ContainerStart)
    ensures r.RootfsMissing? <==> GoJoin(RootfsBase, rootfsName) !in existing
    ensures r.Spawned? ==> r.spawn.path == "/proc/self/exe" && |r.spawn.args| >= 2 && r.spawn.args[0] == "child"
    ensures r.Spawned? && |cmdArgs| > 0 && !IsFlag(cmdArgs[0]) ==>
      DecodeChildArgs(r.spawn.args[1..]) == Ok(ChildConfig(GoJoin(RootfsBase, rootfsName), gpu, gui, cmdArgs[0], cmdArgs[1..]))
    ensures r.Spawned? ==> r.spawn.namespaces == Sandbox.AllNamespaces
    ensures r.Spawned? ==> r.spawn.uidMap == Sandbox.IdMapping(0, uid, 1) && r.spawn.gidMap == Sandbox.IdMapping(0, gid, 1)
  {
    var rootfsDir := GoJoin(RootfsBase, rootfsName);
    if rootfsDir !in existing then RootfsMissing(rootfsName)
    else
      ReexecDecodes(rootfsDir, gpu, gui, cmdArgs);
      Spawned(Spawn("/proc/self/exe", EncodeChildArgs(rootfsDir, gpu, gui, cmdArgs),
                    {UtsNs, PidNs, MountNs, UserNs, IpcNs, NetNs},
                    Sandbox.IdMapping(0, uid, 1), Sandbox.IdMapping(0, gid, 1)))
  }

  /** The child decodes what the parent encodes whenever the command is
      not a flag. */
  lemma ReexecDecodes(rootfsDir: string, gpu: bool, gui: bool, cmdArgs: seq<string>)
    ensures |cmdArgs| > 0 && !IsFlag(cmdArgs[0]) ==>
      DecodeChildArgs(EncodeChildArgs(rootfsDir, gpu, gui, cmdArgs)[1..]) == Ok(ChildConfig(rootfsDir, gpu, gui, cmdArgs[0], cmdArgs[1..]))
  {
    if |cmdArgs| > 0 && !IsFlag(cmdArgs[0]) {
      ChildArgsRoundTrip(rootfsDir, gpu, gui, cmdArgs);
    }
  }

  /** The whole run: the re-executed binary dispatches its arguments with
      the variant's command table; the parent exits 1 when the rootfs is
      missing or the child exits non-zero, and 0 otherwise. */
  datatype ContainerRun = ContainerRun(child: Option<ChildRun>, exitCode: nat)

  /** The subcommands the re-executed binary knows. */
  function Commands(v: Variant): seq<string> {
    if v.AsWritten? then RegisteredCommands else CorrectedCommands
  }

  function RunContainer(v: Variant, rootfsName: string, cmdArgs: seq<string>, gpu: bool, gui: bool,
                        existing: set<string>, uid: nat, gid: nat,
                        host: set<string>, environ: seq<string>, s: Sys, fault: Oracle, commandOk: bool): ContainerRun {
    match StartContainer(rootfsName, cmdArgs, gpu, gui, existing, uid, gid)
    case RootfsMissing(_) => ContainerRun(None, 1)
    case Spawned(sp) =>
      match DispatchArgs(Commands(v), sp.args)
      case RunsChild(a) =>
        var c := RunChild(v, a, host, environ, s, fault, commandOk);
        ContainerRun(Some(c), if ExitCode(c.exit) == 0 then 0 else 1)
      case _ => ContainerRun(None, 1)
  }

  /** As written, no container ever runs its command: the re-executed
      binary rejects "child" and the parent reports an error. */
  lemma ContainerNeverStarts(rootfsName: string, cmdArgs: seq<string>, gpu: bool, gui: bool,
                             existing: set<string>, uid: nat, gid: nat,
                             host: set<string>, environ: seq<string>, s: Sys, fault: Oracle, commandOk: bool)
    ensures RunContainer(AsWritten, rootfsName, cmdArgs, gpu, gui, existing, uid, gid, host, environ, s, fault, commandOk)
      == ContainerRun(None, 1)
  {
    var st := StartContainer(rootfsName, cmdArgs, gpu, gui, existing, uid, gid);
    if st.Spawned? {
      ReexecIsUnknownCommand(GoJoin(RootfsBase, rootfsName), gpu, gui, cmdArgs);
    }
  }

  /** Corrected (with "child" registered and the mount sequence fixed), on a
      kernel that refuses nothing on its own, an existing rootfs and a
      command that is not a flag, the command is started with its arguments
      and environment, and the parent's status follows it. */
  lemma CorrectedContainerStartsCommand(rootfsName: string, cmdArgs: seq<string>, gpu: bool, gui: bool,
                                        existing: set<string>, uid: nat, gid: nat,
                                        host: set<string>, environ: seq<string>, s: Sys, fault: Oracle, commandOk: bool)
    requires GoJoin(RootfsBase, rootfsName) in existing
    requires |cmdArgs| > 0 && !IsFlag(cmdArgs[0])
    requires Faultless(fault) && s.denied == {} && s.emptied == {}
    ensures var run := RunContainer(Corrected, rootfsName, cmdArgs, gpu, gui, existing, uid, gid, host, environ, s, fault, commandOk);
      && run.child.Some?
      && run.child.value.started == Some(Started(cmdArgs[0], cmdArgs[1..], ChildEnv(environ, gui)))
      && run.exitCode == (if commandOk then 0 else 1)
  {
    var rootfsDir := GoJoin(RootfsBase, rootfsName);
    CorrectedReexecReachesChild(rootfsDir, gpu, gui, cmdArgs);
    var cfg := ChildConfig(rootfsDir, gpu, gui, cmdArgs[0], cmdArgs[1..]);
    CorrectedMountsAccepted(cfg, host, s, fault);
  }
}
