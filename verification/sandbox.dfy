/** The sandbox builder of `src/main.rs` (`create_environment` and the
    routines it calls), modelled as plans of abstract kernel calls.

    Each Rust routine becomes the list of calls it issues, in source order;
    `?` becomes the fail-stop runner of module Kernel, which stops at the
    first refused call. Fork is modelled by running the parent side and the
    child side as two separate continuations of the same prefix. */
module Sandbox {
  import opened Results
  import opened Text
  import opened Kernel

  /** The namespaces unshared in one call by the child. */
  const AllNamespaces: set<Namespace> := {UserNs, PidNs, NetNs, MountNs, UtsNs, IpcNs}

  /** The capability loop runs `0..=40`: the kernel's last capability at the
      time the program was written, hardcoded. */
  const CapLoopLast: nat := 40

  /** The syscalls the filter answers with EPERM; everything else is allowed. */
  const DenyList: set<Syscall> := {SysPtrace, SysMount, SysKexecLoad}

  const UidMapPath := "/proc/self/uid_map"
  const GidMapPath := "/proc/self/gid_map"
  const SetgroupsPath := "/proc/self/setgroups"

  /** What `create_environment` receives: the application name, the share
      tokens in command-line order, the isolator directory, and what the
      process would learn from its environment (home directory, uid). */
  datatype Request = Request(app: string, shares: seq<string>, isolatorDir: string, home: string, uid: nat)

  function AppDir(req: Request): string {
    JoinPath(req.isolatorDir, req.app)
  }

  // ---------------------------------------------------------------------
  // Preparation in the calling process

  /** `create_dir_all(app_dir)` then `setup_rootfs`, which only creates
      `usr/bin` below it. */
  function PreparePlan(req: Request): (r: seq<Op>)
    ensures forall i | 0 <= i < |r| :: r[i].CreateDirAll?
  {
    [CreateDirAll(AppDir(req)), CreateDirAll(JoinPath(AppDir(req), "usr/bin"))]
  }

  // ---------------------------------------------------------------------
  // setup_user_namespace

  /** One mapping line of `uid_map`/`gid_map`: id inside, id outside, count. */
  datatype IdMapping = IdMapping(inside: nat, outside: nat, count: nat)

  /** The text `writeln!` produces for `"0 {} 1"`. The model treats it as
      the content of a single write; on an unbuffered file the formatting
      machinery hands it to the kernel in three pieces ("0 ", the id,
      " 1\n"), which is not modelled. */
  function MapLine(id: nat): string {
    "0 " + Decimal(id) + " 1\n"
  }

  /** How the kernel reads a one-line map: three decimal fields separated by
      single spaces, ended by a newline. */
  function ParseMapLine(line: string): Option<IdMapping> {
    if |line| == 0 || line[|line| - 1] != '\n' then None
    else
      var fields := Split(line[..|line| - 1], ' ');
      if |fields| != 3 then None
      else
        match (ParseDecimal(fields[0]), ParseDecimal(fields[1]), ParseDecimal(fields[2]))
        case (Some(a), Some(b), Some(c)) => Some(IdMapping(a, b, c))
        case _ => None
  }

  /** Read as one complete line, the text is exactly the mapping "inside 0,
      outside `id`, one id". */
  lemma MapLineRoundTrip(id: nat)
    ensures ParseMapLine(MapLine(id)) == Some(IdMapping(0, id, 1))
  {
    var d := Decimal(id);
    var line := MapLine(id);
    var body := "0" + [' '] + (d + [' '] + "1");
    assert line[..|line| - 1] == body;
    assert forall i | 0 <= i < |d| :: d[i] != ' ';
    SplitAfterField("0", ' ', d + [' '] + "1");
    SplitAfterField(d, ' ', "1");
    SplitNoSeparator("1", ' ');
    assert Split(body, ' ') == ["0", d, "1"];
    DecimalRoundTrip(id);
    assert ParseDecimal("0") == Some(0) by {
      assert DigitsValue("0") == DigitsValue("0"[..0]) * 10 + DigitValue('0');
    }
    assert ParseDecimal("1") == Some(1) by {
      assert DigitsValue("1") == DigitsValue("1"[..0]) * 10 + DigitValue('1');
    }
  }

  /** Each file is created and then written, each `writeln!` modelled as
      one write of its whole line; uid_map first, then gid_map (with the uid
      again), then "deny" to setgroups. */
  function UserNamespacePlan(uid: nat): (r: seq<Op>)
    ensures |r| == 6
    ensures forall i | 0 <= i < |r| :: r[i].CreateFile? || r[i].WriteFile?
    ensures forall k | 0 <= k < 3 :: r[2 * k].CreateFile? && r[2 * k + 1].WriteFile? && r[2 * k + 1].path == r[2 * k].path
    ensures r[1].WriteFile? && r[1].path == UidMapPath && ParseMapLine(r[1].text) == Some(IdMapping(0, uid, 1))
    ensures r[3].WriteFile? && r[3].path == GidMapPath && ParseMapLine(r[3].text) == Some(IdMapping(0, uid, 1))
    ensures r[5] == WriteFile(SetgroupsPath, "deny\n")
  {
    MapLineRoundTrip(uid);
    [ CreateFile(UidMapPath), WriteFile(UidMapPath, MapLine(uid)),
      CreateFile(GidMapPath), WriteFile(GidMapPath, MapLine(uid)),
      CreateFile(SetgroupsPath), WriteFile(SetgroupsPath, "deny\n") ]
  }

  // ---------------------------------------------------------------------
  // setup_mounts

  /** The recognised shares, as a closed enumeration. */
  datatype ShareKind = Home | Wayland | X11 | Sound | Tools

  function ShareToken(k: ShareKind): string {
    match k
    case Home => "home"
    case Wayland => "wayland"
    case X11 => "x11"
    case Sound => "sound"
    case Tools => "tools"
  }

  /** Exact, case-sensitive recognition of a share token. */
  function ParseShare(token: string): (r: Option<ShareKind>)
    ensures r.Some? ==> ShareToken(r.value) == token
    ensures forall k :: ShareToken(k) == token ==> r == Some(k)
  {
    if token == "home" then Some(Home)
    else if token == "wayland" then Some(Wayland)
    else if token == "x11" then Some(X11)
    else if token == "sound" then Some(Sound)
    else if token == "tools" then Some(Tools)
    else None
  }

  /** Host-side source of each share; Wayland and sound assume uid 1000. */
  function ShareSource(k: ShareKind, home: string): string {
    match k
    case Home => JoinPath(home, "Documents")
    case Wayland => "/run/user/1000/wayland-0"
    case X11 => "/tmp/.X11-unix"
    case Sound => "/run/user/1000/pipewire-0"
    case Tools => "/usr/bin/git"
  }

  /** Target of each share inside the sandbox. */
  function ShareTarget(k: ShareKind): string {
    match k
    case Home => "/home/user/Documents"
    case Wayland => "/run/wayland-0"
    case X11 => "/tmp/.X11-unix"
    case Sound => "/run/pipewire-0"
    case Tools => "/usr/bin/git"
  }

  /** The environment variable a share sets for the application. */
  function ShareEnv(k: ShareKind): seq<Op> {
    match k
    case Wayland => [SetEnv("WAYLAND_DISPLAY", "wayland-0")]
    case X11 => [SetEnv("DISPLAY", ":0")]
    case _ => []
  }

  function BindMount(source: string, target: string): Op {
    Mount(source, target, "", {Bind}, "")
  }

  const ProcMount := Mount("proc", "/proc", "proc", {}, "")

  /** The calls for one share token, as the `match` in `setup_mounts` issues
      them; an unknown token is only logged. */
  function ShareOps(token: string, home: string): (r: seq<Op>)
    ensures ParseShare(token).None? ==> r == [Log("Unknown share: " + token)]
    ensures ParseShare(token).Some? ==>
      r == [BindMount(ShareSource(ParseShare(token).value, home), ShareTarget(ParseShare(token).value))]
           + ShareEnv(ParseShare(token).value)
  {
    match token
    case "home" => [BindMount(JoinPath(home, "Documents"), "/home/user/Documents")]
    case "wayland" => [BindMount("/run/user/1000/wayland-0", "/run/wayland-0"), SetEnv("WAYLAND_DISPLAY", "wayland-0")]
    case "x11" => [BindMount("/tmp/.X11-unix", "/tmp/.X11-unix"), SetEnv("DISPLAY", ":0")]
    case "sound" => [BindMount("/run/user/1000/pipewire-0", "/run/pipewire-0")]
    case "tools" => [BindMount("/usr/bin/git", "/usr/bin/git")]
    case _ => [Log("Unknown share: " + token)]
  }

  /** The kinds of call a share issues: a plain bind mount that covers
      neither `/proc` nor `/usr`, an environment variable, a log line. */
  predicate ShareCall(op: Op) {
    || (op.Mount? && op.fstype == "" && op.flags == {Bind} && op.target != "/proc" && op.target != "/usr")
    || op.SetEnv? || op.Log?
  }

  /** The share loop: the tokens' calls in input order. */
  function SharesPlan(tokens: seq<string>, home: string): (r: seq<Op>)
    ensures forall i | 0 <= i < |r| :: ShareCall(r[i])
    decreases |tokens|
  {
    if tokens == [] then []
    else
      var head := ShareOps(tokens[0], home);
      var tail := SharesPlan(tokens[1..], home);
      assert forall i | 0 <= i < |head| :: ShareCall(head[i]);
      head + tail
  }

  /** `mkdir("/proc")`, the procfs mount, then the shares. */
  function MountsPlan(tokens: seq<string>, home: string): seq<Op> {
    [Mkdir("/proc"), ProcMount] + SharesPlan(tokens, home)
  }

  // ---------------------------------------------------------------------
  // drop_capabilities

  /** `CapDrop(lo)`, ..., `CapDrop(hi - 1)`. */
  function CapsFrom(lo: nat, hi: nat): (r: seq<Op>)
    ensures |r| == if lo <= hi then hi - lo else 0
    ensures forall i | 0 <= i < |r| :: r[i] == CapDrop(lo + i)
    decreases hi - lo
  {
    if lo >= hi then [] else [CapDrop(lo)] + CapsFrom(lo + 1, hi)
  }

  function CapDropPlan(): seq<Op> {
    CapsFrom(0, CapLoopLast + 1)
  }

  // ---------------------------------------------------------------------
  // setup_seccomp

  function SeccompPlan(): seq<Op> {
    [ SeccompInit,
      SeccompRuleAdd(SysPtrace), SeccompRuleAdd(SysMount), SeccompRuleAdd(SysKexecLoad),
      SeccompLoad, SeccompRelease ]
  }

  // ---------------------------------------------------------------------
  // The child branch of create_environment

  /** `MS_BIND | MS_REMOUNT | MS_RDONLY` on `/usr`. */
  const UsrRemount := Mount("/usr", "/usr", "", {Bind, Remount, ReadOnly}, "")

  /** Everything the child issues before the filter is built. */
  function ChildPrefix(req: Request): seq<Op> {
    [Unshare(AllNamespaces)] + UserNamespacePlan(req.uid) + MountsPlan(req.shares, req.home)
    + CapDropPlan() + [SetNoNewPrivs]
  }

  /** Everything after the filter: the root switch, the read-only `/usr`,
      the C string for the application name and the exec with no arguments. */
  function SwitchAndExecPlan(req: Request): seq<Op> {
    [ Chdir(AppDir(req)), PivotRoot(".", "old_root"), DetachUnmount("old_root"),
      UsrRemount, CString(req.app), Execvp(req.app, []) ]
  }

  /** The child's calls, in the order the source issues them. */
  function ChildPlan(req: Request): seq<Op> {
    ChildPrefix(req) + SeccompPlan() + SwitchAndExecPlan(req)
  }

  // ---------------------------------------------------------------------
  // The corrected order

  /** `/proc` is created only if missing (`create_dir_all`), then mounted. */
  function CorrectedMountsPlan(tokens: seq<string>, home: string): seq<Op> {
    [CreateDirAll("/proc"), ProcMount] + SharesPlan(tokens, home)
  }

  /** The root switch and the remount of `/usr`, while mount is still
      allowed. */
  function RootSwitchPlan(req: Request): seq<Op> {
    [Chdir(AppDir(req)), PivotRoot(".", "old_root"), DetachUnmount("old_root"), UsrRemount]
  }

  /** The child's calls in the order unshare, identity maps, mounts, root
      switch, capability drop, no_new_privs, filter, exec: the filter comes
      last, so it cannot refuse the calls that build the sandbox. */
  function CorrectedChildPlan(req: Request): seq<Op> {
    [Unshare(AllNamespaces)] + UserNamespacePlan(req.uid) + CorrectedMountsPlan(req.shares, req.home)
    + RootSwitchPlan(req) + CapDropPlan() + [SetNoNewPrivs]
    + SeccompPlan() + [CString(req.app), Execvp(req.app, [])]
  }

  // ---------------------------------------------------------------------
  // create_environment

  /** The errors `create_environment` can return. */
  datatype Error =
    | CallFailed(op: Op, errno: Errno)
    | CapDropFailed(cap: nat)
    | NoNewPrivsFailed
    | SeccompInitFailed
    | NulInAppName
    | PromptFailed

  /** The error value the source builds for a refused call. */
  function ErrorOf(op: Op, e: Errno): (r: Error)
    ensures r.CallFailed? ==> r.op == op
  {
    match op
    case CapDrop(c) => CapDropFailed(c)
    case SetNoNewPrivs => NoNewPrivsFailed
    case SeccompInit => SeccompInitFailed
    case CString(_) => NulInAppName
    case _ => CallFailed(op, e)
  }

  /** The user's answer to the confirmation prompt. */
  datatype Answer = Accept | Decline | PromptError

  /** Which side of the fork is being followed. */
  datatype Role = ParentSide | ChildSide

  /** How the process leaves `create_environment`: returning `Ok(())`,
      returning an error, or replaced by the application image. */
  datatype Exit = Returned | Failed(error: Error) | Replaced(file: string, env: map<string, string>)

  datatype Launch = Launch(log: seq<Step>, exit: Exit)

  function ExitOf(r: Run): Exit {
    if r.status.Aborted? then Failed(ErrorOf(r.status.op, r.status.errno)) else Returned
  }

  /** `create_environment` as seen by one side of the fork, with the child's
      calls given by `childPlan`. The parent waits for the child and ignores
      its exit status. */
  function LaunchWith(req: Request, s: Sys, answer: Answer, role: Role, fault: Oracle, childPlan: seq<Op>): Launch {
    var prep := RunOps(s, PreparePlan(req), fault);
    if prep.status.Aborted? then Launch(prep.sys.log, ExitOf(prep))
    else
      match answer
      case PromptError => Launch(prep.sys.log, Failed(PromptFailed))
      case Decline => Launch(prep.sys.log, Returned)
      case Accept =>
        var forked := RunOps(prep.sys, [Fork], fault);
        if forked.status.Aborted? then Launch(forked.sys.log, ExitOf(forked))
        else
          match role
          case ParentSide =>
            var waited := RunOps(forked.sys, [Waitpid], fault);
            Launch(waited.sys.log, ExitOf(waited))
          case ChildSide =>
            var child := RunOps(forked.sys, childPlan, fault);
            if child.status.Aborted? then Launch(child.sys.log, ExitOf(child))
            else Launch(child.sys.log, Replaced(req.app, child.sys.env))
  }

  /** `create_environment` as written. */
  function CreateEnvironment(req: Request, s: Sys, answer: Answer, role: Role, fault: Oracle): Launch {
    LaunchWith(req, s, answer, role, fault, ChildPlan(req))
  }

  /** `create_environment` with the child's calls in the corrected order. */
  function CorrectedCreateEnvironment(req: Request, s: Sys, answer: Answer, role: Role, fault: Oracle): Launch {
    LaunchWith(req, s, answer, role, fault, CorrectedChildPlan(req))
  }
}
