/** Properties of `create_environment` as a whole: the confirmation prompt,
    the two sides of the fork, and the environment the application is
    started with. */
module LaunchProofs {
  import opened Results
  import opened Kernel
  import opened Sandbox
  import opened SandboxProofs
  import opened SandboxFindings

  // ---------------------------------------------------------------------
  // Before the fork

  /** Preparation issues at most the two directory creations, stops at the
      first refused one, and touches no environment variable. */
  lemma PrepareRun(req: Request, s: Sys, fault: Oracle, key: string)
    ensures var r := RunOps(s, PreparePlan(req), fault);
      && |s.log| <= |r.sys.log| <= |s.log| + 2 && r.sys.log[..|s.log|] == s.log
      && (forall i | |s.log| <= i < |r.sys.log| :: r.sys.log[i].op.CreateDirAll?)
      && (r.status.Completed? <==>
            |r.sys.log| == |s.log| + 2 && forall i | |s.log| <= i < |r.sys.log| :: r.sys.log[i].errno.None?)
      && (r.status.Aborted? ==> r.status.op.CreateDirAll?)
      && r.sys.denied == s.denied && r.sys.lastCap == s.lastCap
      && (key in r.sys.env <==> key in s.env) && (key in s.env ==> r.sys.env[key] == s.env[key])
  {
    PrepareLog(req, s, fault);
    PrepareKeepsFilter(req, s, fault);
    EnvUntouched(s, PreparePlan(req), fault, key);
  }

  lemma PrepareLog(req: Request, s: Sys, fault: Oracle)
    ensures var r := RunOps(s, PreparePlan(req), fault);
      && |s.log| <= |r.sys.log| <= |s.log| + 2 && r.sys.log[..|s.log|] == s.log
      && (forall i | |s.log| <= i < |r.sys.log| :: r.sys.log[i].op.CreateDirAll?)
      && (r.status.Completed? <==>
            |r.sys.log| == |s.log| + 2 && forall i | |s.log| <= i < |r.sys.log| :: r.sys.log[i].errno.None?)
      && (r.status.Aborted? ==> r.status.op.CreateDirAll?)
  {
    var plan := PreparePlan(req);
    var r := RunOps(s, plan, fault);
    RunReplays(s, plan, fault);
    if r.status.Aborted? {
      var last := |r.sys.log| - 1;
      assert r.sys.log[last].op == plan[last - |s.log|];
    }
  }

  lemma PrepareKeepsFilter(req: Request, s: Sys, fault: Oracle)
    ensures var r := RunOps(s, PreparePlan(req), fault);
      r.sys.denied == s.denied && r.sys.lastCap == s.lastCap
  {
  }

  /** Declining the prompt is a normal return: nothing but the preparation
      has happened, no process is forked, and the result is `Ok` exactly
      when both directories were created. */
  lemma DeclineLaunchesNothing(req: Request, s: Sys, role: Role, fault: Oracle, childPlan: seq<Op>)
    ensures var l := LaunchWith(req, s, Decline, role, fault, childPlan);
      && |s.log| <= |l.log| <= |s.log| + 2 && l.log[..|s.log|] == s.log
      && (forall i | |s.log| <= i < |l.log| :: l.log[i].op.CreateDirAll?)
      && (l.exit == Returned <==>
            |l.log| == |s.log| + 2 && forall i | |s.log| <= i < |l.log| :: l.log[i].errno.None?)
      && (l.exit != Returned ==> l.exit.Failed? && l.exit.error.CallFailed? && l.exit.error.op.CreateDirAll?)
  {
    PrepareRun(req, s, fault, "");
  }

  /** A failed prompt is reported as an error after the preparation, and
      nothing else happens. */
  lemma PromptErrorFails(req: Request, s: Sys, role: Role, fault: Oracle, childPlan: seq<Op>)
    ensures var l := LaunchWith(req, s, PromptError, role, fault, childPlan);
      && l.exit.Failed?
      && (forall i | |s.log| <= i < |l.log| :: l.log[i].op.CreateDirAll?)
      && (|l.log| == |s.log| + 2 && (forall i | |s.log| <= i < |l.log| :: l.log[i].errno.None?) ==>
            l.exit.error == PromptFailed)
  {
    PrepareRun(req, s, fault, "");
  }

  // ---------------------------------------------------------------------
  // The parent side

  /** The parent only forks and waits: its outcome is the same whatever the
      child does, and it returns `Ok` exactly when the preparation, the fork
      and the wait were accepted. */
  lemma ParentIgnoresChild(req: Request, s: Sys, fault: Oracle, plan1: seq<Op>, plan2: seq<Op>)
    ensures LaunchWith(req, s, Accept, ParentSide, fault, plan1) == LaunchWith(req, s, Accept, ParentSide, fault, plan2)
    ensures var l := LaunchWith(req, s, Accept, ParentSide, fault, plan1);
      && !l.exit.Replaced?
      && |s.log| <= |l.log| <= |s.log| + 4
      && (forall i | |s.log| <= i < |l.log| :: l.log[i].op.CreateDirAll? || l.log[i].op.Fork? || l.log[i].op.Waitpid?)
      && (l.exit == Returned <==>
            |l.log| == |s.log| + 4 && forall i | |s.log| <= i < |l.log| :: l.log[i].errno.None?)
  {
    ParentOutcome(req, s, fault, plan1);
  }

  lemma ParentOutcome(req: Request, s: Sys, fault: Oracle, plan: seq<Op>)
    ensures var l := LaunchWith(req, s, Accept, ParentSide, fault, plan);
      && !l.exit.Replaced?
      && |s.log| <= |l.log| <= |s.log| + 4
      && (forall i | |s.log| <= i < |l.log| :: l.log[i].op.CreateDirAll? || l.log[i].op.Fork? || l.log[i].op.Waitpid?)
      && (l.exit == Returned <==>
            |l.log| == |s.log| + 4 && forall i | |s.log| <= i < |l.log| :: l.log[i].errno.None?)
  {
    var prep := RunOps(s, PreparePlan(req), fault);
    PrepareLog(req, s, fault);
    if prep.status.Completed? {
      var forked := RunOps(prep.sys, [Fork], fault);
      OneCall(prep.sys, Fork, fault);
      if forked.status.Completed? {
        OneCall(forked.sys, Waitpid, fault);
        ParentLog(s.log, prep.sys.log, Refusal(prep.sys, Fork, fault), Refusal(forked.sys, Waitpid, fault));
      }
    }
  }

  /** The log of a parent whose preparation ran to the end, extended by the
      fork and the wait. */
  lemma ParentLog(before: seq<Step>, prep: seq<Step>, f: Option<Errno>, w: Option<Errno>)
    requires |prep| == |before| + 2 && prep[..|before|] == before
    requires forall i | |before| <= i < |prep| :: prep[i].op.CreateDirAll?
    requires f.None?
    ensures var l := prep + [Step(Fork, f)] + [Step(Waitpid, w)];
      && |l| == |before| + 4
      && (forall i | |before| <= i < |l| :: l[i].op.CreateDirAll? || l[i].op.Fork? || l[i].op.Waitpid?)
      && ((forall i | |before| <= i < |l| :: l[i].errno.None?) <==>
            w.None? && forall i | |before| <= i < |prep| :: prep[i].errno.None?)
  {
    var l := prep + [Step(Fork, f)] + [Step(Waitpid, w)];
    assert l[|before| + 3].errno == w;
    assert forall i | |before| <= i < |prep| :: l[i] == prep[i];
  }

  // ---------------------------------------------------------------------
  // The child side and the application's environment

  /** The environment the shares promise: `WAYLAND_DISPLAY=wayland-0` when
      "wayland" is requested, `DISPLAY=:0` when "x11" is, everything else
      inherited. */
  function ExpectedEnv(env: map<string, string>, tokens: seq<string>): (r: map<string, string>)
    ensures forall key | key != "WAYLAND_DISPLAY" && key != "DISPLAY" ::
      (key in r <==> key in env) && (key in env ==> r[key] == env[key])
  {
    var withWayland := if "wayland" in tokens then env["WAYLAND_DISPLAY" := "wayland-0"] else env;
    if "x11" in tokens then withWayland["DISPLAY" := ":0"] else withWayland
  }

  /** A child plan whose environment changes are exactly those of the share
      loop. */
  ghost predicate SetsEnvLikeShares(plan: seq<Op>, tokens: seq<string>, home: string) {
    forall op: Op | op.SetEnv? :: op in plan <==> op in SharesPlan(tokens, home)
  }

  lemma NoSetEnvIn(ops: seq<Op>)
    requires forall i | 0 <= i < |ops| :: !ops[i].SetEnv?
    ensures forall op | op in ops :: !op.SetEnv?
  {
  }

  /** Outside the share loop, neither plan sets an environment variable. */
  lemma PiecesSetNoEnv(req: Request)
    ensures forall op | op in UserNamespacePlan(req.uid) :: !op.SetEnv?
    ensures forall op | op in CapDropPlan() :: !op.SetEnv?
    ensures forall op | op in SeccompPlan() + SwitchAndExecPlan(req) + RootSwitchPlan(req) :: !op.SetEnv?
  {
    NoSetEnvIn(UserNamespacePlan(req.uid));
    NoSetEnvIn(CapDropPlan());
  }

  lemma PlansSetEnvLikeShares(req: Request)
    ensures SetsEnvLikeShares(ChildPlan(req), req.shares, req.home)
    ensures SetsEnvLikeShares(CorrectedChildPlan(req), req.shares, req.home)
  {
    AsWrittenSetsEnvLikeShares(req);
    CorrectedSetsEnvLikeShares(req);
  }

  lemma AsWrittenSetsEnvLikeShares(req: Request)
    ensures SetsEnvLikeShares(ChildPlan(req), req.shares, req.home)
  {
    PiecesSetNoEnv(req);
    var sh := SharesPlan(req.shares, req.home);
    var u := UserNamespacePlan(req.uid);
    var caps := CapDropPlan();
    forall op: Op | op.SetEnv?
      ensures op in ChildPlan(req) <==> op in sh
    {
      assert op in ChildPlan(req) <==>
        || op in u || op in sh || op in caps
        || op in SeccompPlan() + SwitchAndExecPlan(req) + RootSwitchPlan(req);
    }
  }

  lemma CorrectedSetsEnvLikeShares(req: Request)
    ensures SetsEnvLikeShares(CorrectedChildPlan(req), req.shares, req.home)
  {
    PiecesSetNoEnv(req);
    var sh := SharesPlan(req.shares, req.home);
    var u := UserNamespacePlan(req.uid);
    var caps := CapDropPlan();
    forall op: Op | op.SetEnv?
      ensures op in CorrectedChildPlan(req) <==> op in sh
    {
      assert op in CorrectedChildPlan(req) <==>
        || op in u || op in sh || op in caps
        || op in SeccompPlan() + SwitchAndExecPlan(req) + RootSwitchPlan(req);
    }
  }

  /** The child side never returns `Ok`: it fails at a call of the
      preparation, the fork or its own plan, or it is replaced by the
      application after its whole plan ran. */
  lemma ChildSideFollowsPlan(req: Request, s: Sys, fault: Oracle, childPlan: seq<Op>)
    ensures var l := LaunchWith(req, s, Accept, ChildSide, fault, childPlan);
      && l.exit != Returned
      && (l.exit.Replaced? ==> l.exit.file == req.app && |l.log| == |s.log| + 3 + |childPlan|)
      && (l.exit.Failed? && l.exit.error.CallFailed? ==>
            l.exit.error.op.CreateDirAll? || l.exit.error.op == Fork || l.exit.error.op in childPlan)
  {
    ChildSideNeverReturns(req, s, fault, childPlan);
    ChildSideReplacedAfterPlan(req, s, fault, childPlan);
    ChildSideFailsAtCall(req, s, fault, childPlan);
  }

  lemma ChildSideNeverReturns(req: Request, s: Sys, fault: Oracle, childPlan: seq<Op>)
    ensures LaunchWith(req, s, Accept, ChildSide, fault, childPlan).exit != Returned
  {
  }

  lemma ChildSideReplacedAfterPlan(req: Request, s: Sys, fault: Oracle, childPlan: seq<Op>)
    ensures var l := LaunchWith(req, s, Accept, ChildSide, fault, childPlan);
      l.exit.Replaced? ==> l.exit.file == req.app && |l.log| == |s.log| + 3 + |childPlan|
  {
    var prep := RunOps(s, PreparePlan(req), fault);
    CompletedLength(s, PreparePlan(req), fault);
    var forked := RunOps(prep.sys, [Fork], fault);
    OneCall(prep.sys, Fork, fault);
    CompletedLength(forked.sys, childPlan, fault);
  }

  lemma ChildSideFailsAtCall(req: Request, s: Sys, fault: Oracle, childPlan: seq<Op>)
    ensures var l := LaunchWith(req, s, Accept, ChildSide, fault, childPlan);
      l.exit.Failed? && l.exit.error.CallFailed? ==>
        l.exit.error.op.CreateDirAll? || l.exit.error.op == Fork || l.exit.error.op in childPlan
  {
    var prep := RunOps(s, PreparePlan(req), fault);
    PrepareLog(req, s, fault);
    var forked := RunOps(prep.sys, [Fork], fault);
    OneCall(prep.sys, Fork, fault);
    AbortedAtPlanOp(forked.sys, childPlan, fault);
  }

  /** One variable of the application's environment: set by the share
      loop when its share is requested, inherited otherwise. */
  lemma ChildEnvVariable(req: Request, s: Sys, fault: Oracle, plan: seq<Op>, key: string)
    requires SetsEnvLikeShares(plan, req.shares, req.home)
    ensures var l := LaunchWith(req, s, Accept, ChildSide, fault, plan);
      l.exit.Replaced? ==>
        (key in l.exit.env <==> key in ExpectedEnv(s.env, req.shares))
        && (key in l.exit.env ==> l.exit.env[key] == ExpectedEnv(s.env, req.shares)[key])
  {
    var prep := RunOps(s, PreparePlan(req), fault);
    var forked := RunOps(prep.sys, [Fork], fault);
    EnvUntouched(s, PreparePlan(req), fault, key);
    EnvUntouched(prep.sys, [Fork], fault, key);
    var l := LaunchWith(req, s, Accept, ChildSide, fault, plan);
    if l.exit.Replaced? {
      PlanEnvVariable(req, forked.sys, fault, plan, key);
      ExpectedEnvAt(s.env, req.shares, key);
    }
  }

  /** The value the share loop gives `key`, if any. */
  function ShareValue(tokens: seq<string>, key: string): Option<string> {
    if key == "WAYLAND_DISPLAY" && "wayland" in tokens then Some("wayland-0")
    else if key == "DISPLAY" && "x11" in tokens then Some(":0")
    else None
  }

  /** A variable the shares set has their value; any other is inherited. */
  ghost predicate EnvAgrees(after: map<string, string>, before: map<string, string>, w: Option<string>, key: string) {
    && (w.Some? ==> key in after && after[key] == w.value)
    && (w.None? ==> (key in after <==> key in before) && (key in before ==> after[key] == before[key]))
  }

  lemma ExpectedEnvAt(env: map<string, string>, tokens: seq<string>, key: string)
    ensures EnvAgrees(ExpectedEnv(env, tokens), env, ShareValue(tokens, key), key)
  {
  }

  /** A completed child plan that sets variables like the share loop leaves
      each variable as the shares say. */
  lemma PlanEnvVariable(req: Request, s0: Sys, fault: Oracle, plan: seq<Op>, key: string)
    requires SetsEnvLikeShares(plan, req.shares, req.home)
    requires RunOps(s0, plan, fault).status.Completed?
    ensures EnvAgrees(RunOps(s0, plan, fault).sys.env, s0.env, ShareValue(req.shares, key), key)
  {
    var wanted := ShareValue(req.shares, key);
    forall i | 0 <= i < |plan| && plan[i].SetEnv? && plan[i].key == key
      ensures wanted.Some? && plan[i].value == wanted.value
    {
      assert plan[i] in plan;
      ShareEnvOnlyFromDisplays(req.shares, req.home, key, plan[i].value);
    }
    if wanted.Some? {
      ShareEnvOnlyFromDisplays(req.shares, req.home, key, wanted.value);
      EnvSetTo(s0, plan, fault, key, wanted.value);
    } else {
      EnvUntouched(s0, plan, fault, key);
    }
  }

  /** When the application is started, its environment is the caller's
      with the display variables of the requested shares. */
  lemma ChildEnvFollowsShares(req: Request, s: Sys, fault: Oracle, plan: seq<Op>)
    requires SetsEnvLikeShares(plan, req.shares, req.home)
    ensures var l := LaunchWith(req, s, Accept, ChildSide, fault, plan);
      l.exit.Replaced? ==> l.exit.env == ExpectedEnv(s.env, req.shares)
  {
    var l := LaunchWith(req, s, Accept, ChildSide, fault, plan);
    if l.exit.Replaced? {
      forall key
        ensures (key in l.exit.env <==> key in ExpectedEnv(s.env, req.shares))
        ensures key in l.exit.env ==> l.exit.env[key] == ExpectedEnv(s.env, req.shares)[key]
      {
        ChildEnvVariable(req, s, fault, plan, key);
      }
    }
  }

  /** Preparation and fork succeed on a kernel that refuses nothing on its
      own; `/proc` stays wherever it was. */
  lemma PrepareAndForkRun(req: Request, s: Sys, fault: Oracle)
    requires Faultless(fault) && s.denied == {}
    ensures var prep := RunOps(s, PreparePlan(req), fault);
      var forked := RunOps(prep.sys, [Fork], fault);
      && prep.status.Completed? && forked.status.Completed?
      && forked.sys.denied == {} && forked.sys.lastCap == s.lastCap
      && s.existing <= forked.sys.existing && forked.sys.emptied == s.emptied
  {
    var prep := RunOps(s, PreparePlan(req), fault);
    assert AllHarmless(PreparePlan(req), {}, s.lastCap);
    CleanRun(s, PreparePlan(req), fault);
    assert AllHarmless([Fork], {}, s.lastCap);
    CleanRun(prep.sys, [Fork], fault);
  }

  /** On a host where `/proc` exists (every Linux host) and a kernel that
      accepts the id-map writes, `create_environment` as written fails in
      the child at `mkdir("/proc")` while the parent returns `Ok`. */
  lemma HostLaunchFailsAtProc(req: Request, s: Sys, fault: Oracle)
    requires Faultless(fault) && s.denied == {}
    requires "/proc" in s.existing
    ensures CreateEnvironment(req, s, Accept, ChildSide, fault).exit == Failed(CallFailed(Mkdir("/proc"), EExist))
    ensures CreateEnvironment(req, s, Accept, ParentSide, fault).exit == Returned
  {
    HostChildFailsAtProc(req, s, fault);
    HostParentReturns(req, s, fault);
  }

  lemma HostChildFailsAtProc(req: Request, s: Sys, fault: Oracle)
    requires Faultless(fault) && s.denied == {}
    requires "/proc" in s.existing
    ensures CreateEnvironment(req, s, Accept, ChildSide, fault).exit == Failed(CallFailed(Mkdir("/proc"), EExist))
  {
    PrepareAndForkRun(req, s, fault);
    var prep := RunOps(s, PreparePlan(req), fault);
    var forked := RunOps(prep.sys, [Fork], fault);
    ProcMkdirFailsWhenPresent(req, forked.sys, fault);
  }

  lemma HostParentReturns(req: Request, s: Sys, fault: Oracle)
    requires Faultless(fault) && s.denied == {}
    ensures CreateEnvironment(req, s, Accept, ParentSide, fault).exit == Returned
  {
    PrepareAndForkRun(req, s, fault);
    var prep := RunOps(s, PreparePlan(req), fault);
    var forked := RunOps(prep.sys, [Fork], fault);
    assert AllHarmless([Waitpid], {}, s.lastCap);
    CleanRun(forked.sys, [Waitpid], fault);
  }

  /** With the corrected order, on a kernel that refuses nothing on its own
      (and so waives the preconditions of `pivot_root` and of the `/usr`
      remount), the child is replaced by the application, started with the
      display variables of the requested shares. */
  lemma CorrectedLaunchStartsApp(req: Request, s: Sys, fault: Oracle)
    requires Faultless(fault) && s.denied == {} && s.emptied == {} && s.lastCap >= CapLoopLast
    requires '\0' !in req.app
    ensures CorrectedCreateEnvironment(req, s, Accept, ChildSide, fault).exit
      == Replaced(req.app, ExpectedEnv(s.env, req.shares))
  {
    PrepareAndForkRun(req, s, fault);
    var prep := RunOps(s, PreparePlan(req), fault);
    var forked := RunOps(prep.sys, [Fork], fault);
    CorrectedChildReachesExec(req, forked.sys, fault);
    PlansSetEnvLikeShares(req);
    ChildEnvFollowsShares(req, s, fault, CorrectedChildPlan(req));
  }
}
