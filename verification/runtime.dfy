/** The container runtime of `main.go`: name sanitising, the argument list
    with which `runContainer` re-executes itself, its decoding in `child`,
    and the `must`-guarded sequence of calls the child issues before it
    starts the command. */
module Runtime {
  import opened Results
  import opened Text
  import opened Kernel
  import Sandbox

  const RootfsBase := "/var/lib/isolator/rootfs"

  /** The GPU device nodes tried, in this order. */
  const GpuDevices: seq<string> := ["/dev/nvidiactl", "/dev/nvidia-uvm", "/dev/nvidia0", "/dev/nvidia1"]

  const GpuFlag := "--gpu"
  const GuiFlag := "--gui"

  /** `filepath.Join(base, elem)` for a base without a trailing separator;
      the lexical clean-up Go applies afterwards is not modelled. */
  function GoJoin(base: string, elem: string): string {
    if elem == [] then base else base + "/" + elem
  }

  // ---------------------------------------------------------------------
  // sanitizeName

  /** Both `/` and `:` become `_`, one character at a time. */
  function SanitizeName(name: string): (r: string)
    ensures |r| == |name|
    ensures forall i | 0 <= i < |r| :: r[i] != '/' && r[i] != ':'
    ensures forall i | 0 <= i < |r| :: r[i] == (if name[i] == '/' || name[i] == ':' then '_' else name[i])
  {
    ReplaceChar(ReplaceChar(name, '/', '_'), ':', '_')
  }

  /** A name without `/` and `:` is left as it is. */
  lemma SanitizeFixesClean(name: string)
    requires '/' !in name && ':' !in name
    ensures SanitizeName(name) == name
  {
    var r := SanitizeName(name);
    assert forall i | 0 <= i < |name| :: r[i] == name[i];
  }

  /** Sanitising twice is sanitising once. */
  lemma SanitizeIdempotent(name: string)
    ensures SanitizeName(SanitizeName(name)) == SanitizeName(name)
  {
    var r := SanitizeName(name);
    assert forall i | 0 <= i < |r| :: r[i] != '/' && r[i] != ':';
    SanitizeFixesClean(r);
  }

  // ---------------------------------------------------------------------
  // The re-exec argument list

  predicate IsFlag(arg: string) {
    arg == GpuFlag || arg == GuiFlag
  }

  /** `childArgs` as `runContainer` builds it: the word "child", the rootfs
      directory, "--gpu" and "--gui" when set (in that order), then the
      command and its arguments. */
  function EncodeChildArgs(rootfsDir: string, gpu: bool, gui: bool, cmdArgs: seq<string>): (r: seq<string>)
    ensures |r| == 2 + (if gpu then 1 else 0) + (if gui then 1 else 0) + |cmdArgs|
    ensures r[0] == "child" && r[1] == rootfsDir
    ensures r[|r| - |cmdArgs|..] == cmdArgs
    ensures forall i | 2 <= i < |r| - |cmdArgs| :: IsFlag(r[i])
    ensures (GpuFlag in r[2..|r| - |cmdArgs|]) == gpu && (GuiFlag in r[2..|r| - |cmdArgs|]) == gui
    ensures gpu ==> r[2] == GpuFlag
    ensures gui ==> r[|r| - |cmdArgs| - 1] == GuiFlag
  {
    var flags := (if gpu then [GpuFlag] else []) + (if gui then [GuiFlag] else []);
    var r := ["child", rootfsDir] + flags + cmdArgs;
    assert r[2..|r| - |cmdArgs|] == flags;
    r
  }

  /** What `child` reads from its arguments. */
  datatype ChildConfig = ChildConfig(rootfsDir: string, gpu: bool, gui: bool, cmd: string, cmdArgs: seq<string>)

  /** The ways the child process panics. */
  datatype GoPanic =
    | InvalidChildArgs
    | IndexOutOfRange(index: nat, length: nat)
    | MountError(op: Op, errno: Errno)

  /** The position of the first argument at or after `i` that is not a flag. */
  function FirstNonFlag(args: seq<string>, i: nat): (r: nat)
    requires i <= |args|
    ensures i <= r <= |args|
    ensures forall k | i <= k < r :: IsFlag(args[k])
    ensures r < |args| ==> !IsFlag(args[r])
    decreases |args| - i
  {
    if i == |args| || !IsFlag(args[i]) then i else FirstNonFlag(args, i + 1)
  }

  /** The decoding as a function: fewer than two arguments panic; the flags
      after the rootfs directory are consumed in any order and number; an
      argument list that is all flags after it indexes past its end. */
  function DecodeChildArgs(args: seq<string>): (r: Result<ChildConfig, GoPanic>)
    ensures |args| < 2 ==> r == Err(InvalidChildArgs)
    ensures r.Ok? ==> (
      && |args| >= 2 && r.value.rootfsDir == args[0] && !IsFlag(r.value.cmd)
      && |r.value.cmdArgs| <= |args| - 2
      && args[|args| - |r.value.cmdArgs| - 1] == r.value.cmd
      && args[|args| - |r.value.cmdArgs|..] == r.value.cmdArgs
      && forall k | 1 <= k < |args| - |r.value.cmdArgs| - 1 :: IsFlag(args[k]))
    ensures r.Ok? ==>
      && r.value.gpu == (GpuFlag in args[1..|args| - |r.value.cmdArgs| - 1])
      && r.value.gui == (GuiFlag in args[1..|args| - |r.value.cmdArgs| - 1])
    ensures r.Err? && |args| >= 2 ==> (
      && r == Err(IndexOutOfRange(|args|, |args|))
      && forall k | 1 <= k < |args| :: IsFlag(args[k]))
  {
    if |args| < 2 then Err(InvalidChildArgs)
    else
      var i := FirstNonFlag(args, 1);
      if i == |args| then Err(IndexOutOfRange(i, |args|))
      else
        Ok(ChildConfig(args[0], GpuFlag in args[1..i], GuiFlag in args[1..i], args[i], args[i + 1..]))
  }

  /** The parsing loop of `child`, statement by statement. */
  method ParseChildArgs(args: seq<string>) returns (r: Result<ChildConfig, GoPanic>)
    ensures r == DecodeChildArgs(args)
  {
    if |args| < 2 {
      return Err(InvalidChildArgs);
    }
    var rootfsDir := args[0];
    var gpu, gui := false, false;
    var i := 1;
    while i < |args|
      invariant 1 <= i <= |args|
      invariant forall k | 1 <= k < i :: IsFlag(args[k])
      invariant gpu == (GpuFlag in args[1..i]) && gui == (GuiFlag in args[1..i])
      invariant FirstNonFlag(args, 1) == FirstNonFlag(args, i)
    {
      assert args[1..i + 1] == args[1..i] + [args[i]];
      if args[i] == GpuFlag {
        gpu := true;
      } else if args[i] == GuiFlag {
        gui := true;
      } else {
        break;
      }
      i := i + 1;
    }
    if i >= |args| {
      return Err(IndexOutOfRange(i, |args|));
    }
    r := Ok(ChildConfig(rootfsDir, gpu, gui, args[i], args[i + 1..]));
  }

  /** The child recovers what the parent encoded, as long as the command
      itself is not one of the two flags. */
  lemma {:induction false} ChildArgsRoundTrip(rootfsDir: string, gpu: bool, gui: bool, cmdArgs: seq<string>)
    requires |cmdArgs| > 0 && !IsFlag(cmdArgs[0])
    ensures DecodeChildArgs(EncodeChildArgs(rootfsDir, gpu, gui, cmdArgs)[1..])
      == Ok(ChildConfig(rootfsDir, gpu, gui, cmdArgs[0], cmdArgs[1..]))
  {
    var args := EncodeChildArgs(rootfsDir, gpu, gui, cmdArgs)[1..];
    var flags := (if gpu then [GpuFlag] else []) + (if gui then [GuiFlag] else []);
    assert args == [rootfsDir] + flags + cmdArgs;
    var n := 1 + |flags|;
    FirstNonFlagSkips(args, 1, n);
    assert args[n] == cmdArgs[0];
    assert args[1..n] == flags;
    assert args[n + 1..] == cmdArgs[1..];
  }

  lemma {:induction false} FirstNonFlagSkips(args: seq<string>, i: nat, n: nat)
    requires i <= n < |args|
    requires forall k | i <= k < n :: IsFlag(args[k])
    requires !IsFlag(args[n])
    ensures FirstNonFlag(args, i) == n
    decreases n - i
  {
    if i < n {
      FirstNonFlagSkips(args, i + 1, n);
    }
  }

  /** A command that is itself a flag is taken for one: the round trip
      needs its precondition. */
  lemma LeadingFlagCommandAbsorbed()
    ensures DecodeChildArgs(EncodeChildArgs("/r", false, false, [GuiFlag, "xterm"])[1..])
      == Ok(ChildConfig("/r", false, true, "xterm", []))
  {
    var args := EncodeChildArgs("/r", false, false, [GuiFlag, "xterm"])[1..];
    assert args == ["/r", GuiFlag, "xterm"];
    assert FirstNonFlag(args, 1) == 2 by {
      FirstNonFlagSkips(args, 1, 2);
    }
    assert args[1..2] == [GuiFlag];
  }

  /** A command list of flags only makes the child index past the end. */
  lemma AllFlagCommandPanics()
    ensures DecodeChildArgs(EncodeChildArgs("/r", true, false, [GpuFlag])[1..]) == Err(IndexOutOfRange(3, 3))
  {
    var args := EncodeChildArgs("/r", true, false, [GpuFlag])[1..];
    assert args == ["/r", GpuFlag, GpuFlag];
  }

  // ---------------------------------------------------------------------
  // Command dispatch of the re-executed binary

  /** The subcommands registered with `AddCommand`, in order. */
  const RegisteredCommands: seq<string> := ["pull", "run", "list", "rm"]

  /** The commands cobra adds to a root command that has subcommands: the
      help command, the shell-completion command and the two hidden
      commands that answer completion requests. */
  const CobraCommands: seq<string> := ["help", "completion", "__complete", "__completeNoDesc"]

  /** The flags with which cobra prints a command's help. */
  const HelpFlags: seq<string> := ["-h", "--help"]

  /** An argument that cobra's search for a subcommand skips as a flag. */
  predicate DashArg(arg: string) {
    |arg| > 0 && arg[0] == '-'
  }

  /** What `rootCmd.Execute()` does with the process arguments (after the
      program name). A list that starts with a flag other than a lone help
      flag is only classified, not resolved further. */
  datatype Dispatch =
    | ShowHelp
    | UnknownCommand(name: string)
    | RunsChild(args: seq<string>)
    | RunsCommand(name: string, args: seq<string>)
    | RunsCobraCommand(name: string, args: seq<string>)
    | LeadingFlag(argv: seq<string>)

  function DispatchArgs(table: seq<string>, argv: seq<string>): (r: Dispatch)
    ensures r.UnknownCommand? <==>
      argv != [] && !DashArg(argv[0]) && argv[0] !in table && argv[0] !in CobraCommands
    ensures r.UnknownCommand? ==> r.name == argv[0]
    ensures r.ShowHelp? <==> argv == [] || (|argv| == 1 && argv[0] in HelpFlags)
    ensures r.RunsChild? ==> "child" in table && argv == ["child"] + r.args
    ensures r.RunsCobraCommand? ==> argv != [] && argv[0] == r.name && r.name in CobraCommands && r.name !in table
  {
    if argv == [] then ShowHelp
    else if DashArg(argv[0]) then (if |argv| == 1 && argv[0] in HelpFlags then ShowHelp else LeadingFlag(argv))
    else if argv[0] in table then (if argv[0] == "child" then RunsChild(argv[1..]) else RunsCommand(argv[0], argv[1..]))
    else if argv[0] in CobraCommands then RunsCobraCommand(argv[0], argv[1..])
    else UnknownCommand(argv[0])
  }

  /** As written, "child" is not a registered subcommand: the re-executed
      binary rejects every argument list `runContainer` builds. */
  lemma ReexecIsUnknownCommand(rootfsDir: string, gpu: bool, gui: bool, cmdArgs: seq<string>)
    ensures DispatchArgs(RegisteredCommands, EncodeChildArgs(rootfsDir, gpu, gui, cmdArgs)) == UnknownCommand("child")
  {
  }

  /** The table with the hidden "child" subcommand the re-exec relies on.
      The subcommand is meant to be registered with cobra's
      `DisableFlagParsing`, so that "--gpu", "--gui" and the command's own
      dash arguments reach `child` unchanged; a "child" subcommand that let
      cobra parse flags would reject them as unknown flags. */
  const CorrectedCommands: seq<string> := RegisteredCommands + ["child"]

  /** With "child" registered (and its flag parsing disabled, so that the
      list is passed on as built), the re-executed binary hands the rest of
      the list to `child`, which recovers the parent's configuration. */
  lemma CorrectedReexecReachesChild(rootfsDir: string, gpu: bool, gui: bool, cmdArgs: seq<string>)
    requires |cmdArgs| > 0 && !IsFlag(cmdArgs[0])
    ensures var argv := EncodeChildArgs(rootfsDir, gpu, gui, cmdArgs);
      && DispatchArgs(CorrectedCommands, argv) == RunsChild(argv[1..])
      && DecodeChildArgs(argv[1..]) == Ok(ChildConfig(rootfsDir, gpu, gui, cmdArgs[0], cmdArgs[1..]))
  {
    ChildArgsRoundTrip(rootfsDir, gpu, gui, cmdArgs);
  }
}
