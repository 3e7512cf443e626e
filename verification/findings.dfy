/** Two defects of the child's call order in `create_environment`, shown on
    a kernel that refuses nothing on its own, and the corrected order that
    reaches the exec. */
module SandboxFindings {
  import opened Results
  import opened Kernel
  import opened Sandbox
  import opened SandboxProofs

  predicate AllHarmless(ops: seq<Op>, denied: set<Syscall>, lastCap: nat) {
    forall i | 0 <= i < |ops| :: Harmless(ops[i], denied, lastCap)
  }

  lemma AllHarmlessConcat(a: seq<Op>, b: seq<Op>, denied: set<Syscall>, lastCap: nat)
    requires AllHarmless(a, denied, lastCap) && AllHarmless(b, denied, lastCap)
    ensures AllHarmless(a + b, denied, lastCap)
  {
    forall i | 0 <= i < |a + b|
      ensures Harmless((a + b)[i], denied, lastCap)
    {
      if i < |a| {
        assert (a + b)[i] == a[i];
      } else {
        assert (a + b)[i] == b[i - |a|];
      }
    }
  }

  /** A harmless plan never loads a filter. */
  lemma HarmlessLoadsNothing(ops: seq<Op>, denied: set<Syscall>, lastCap: nat)
    requires AllHarmless(ops, denied, lastCap)
    ensures SeccompLoad !in ops
  {
  }

  /** The unshare and the identity-map writes. */
  function NamespaceSteps(req: Request): seq<Op> {
    [Unshare(AllNamespaces)] + UserNamespacePlan(req.uid)
  }

  /** The calls of the as-written prefix after `mkdir("/proc")`. */
  function AfterProcMkdir(req: Request): seq<Op> {
    [ProcMount] + SharesPlan(req.shares, req.home) + CapDropPlan() + [SetNoNewPrivs]
  }

  lemma NamespaceStepsHarmless(req: Request, lastCap: nat)
    ensures AllHarmless(NamespaceSteps(req), {}, lastCap)
    ensures forall i | 0 <= i < |NamespaceSteps(req)| ::
      NamespaceSteps(req)[i] != CreateDirAll("/proc") && NamespaceSteps(req)[i] != Mkdir("/proc")
  {
    var u := UserNamespacePlan(req.uid);
    var ns := NamespaceSteps(req);
    forall i | 0 <= i < |ns|
      ensures ns[i].Unshare? || ns[i].CreateFile? || ns[i].WriteFile?
    {
      if i > 0 {
        assert ns[i] == u[i - 1];
      }
    }
  }

  lemma SharesHarmless(tokens: seq<string>, home: string, denied: set<Syscall>, lastCap: nat)
    requires SysMount !in denied
    ensures AllHarmless(SharesPlan(tokens, home), denied, lastCap)
  {
    var sh := SharesPlan(tokens, home);
    forall i | 0 <= i < |sh|
      ensures Harmless(sh[i], denied, lastCap)
    {
      ShareCallHarmless(sh[i], denied, lastCap);
    }
  }

  lemma ShareCallHarmless(op: Op, denied: set<Syscall>, lastCap: nat)
    requires ShareCall(op) && SysMount !in denied
    ensures Harmless(op, denied, lastCap)
  {
  }

  lemma CapsHarmless(lastCap: nat)
    requires lastCap >= CapLoopLast
    ensures AllHarmless(CapDropPlan(), {}, lastCap)
  {
  }

  lemma AfterProcMkdirHarmless(req: Request, lastCap: nat)
    requires lastCap >= CapLoopLast
    ensures AllHarmless(AfterProcMkdir(req), {}, lastCap)
  {
    SharesHarmless(req.shares, req.home, {}, lastCap);
    CapsHarmless(lastCap);
    AllHarmlessConcat([ProcMount], SharesPlan(req.shares, req.home), {}, lastCap);
    AllHarmlessConcat([ProcMount] + SharesPlan(req.shares, req.home), CapDropPlan(), {}, lastCap);
    AllHarmlessConcat([ProcMount] + SharesPlan(req.shares, req.home) + CapDropPlan(), [SetNoNewPrivs], {}, lastCap);
  }

  lemma ChildPrefixSplit(req: Request)
    ensures ChildPrefix(req) == NamespaceSteps(req) + ([Mkdir("/proc")] + AfterProcMkdir(req))
  {
    var ns := NamespaceSteps(req);
    var sh := SharesPlan(req.shares, req.home);
    var caps := CapDropPlan();
    var m := MountsPlan(req.shares, req.home);
    PairSplit(Mkdir("/proc"), ProcMount, sh);
    assert ChildPrefix(req) == ns + m + caps + [SetNoNewPrivs];
    assert AfterProcMkdir(req) == ([ProcMount] + sh) + caps + [SetNoNewPrivs];
    Regroup(ns, [Mkdir("/proc")], [ProcMount] + sh, caps, [SetNoNewPrivs]);
  }

  lemma PairSplit(x: Op, y: Op, t: seq<Op>)
    ensures [x, y] + t == [x] + ([y] + t)
  {
  }

  lemma Regroup(a: seq<Op>, b: seq<Op>, c: seq<Op>, d: seq<Op>, e: seq<Op>)
    ensures a + (b + c) + d + e == a + (b + (c + d + e))
  {
  }

  /** With mount denied by the filter and nothing else refused, the tail
      after the filter stops exactly at the remount of `/usr`. A kernel
      that refuses nothing on its own accepts the pivot although no
      `old_root` was created; a real one stops the tail there. */
  lemma SwitchStopsExactlyAtRemount(req: Request, t: Sys, fault: Oracle)
    requires Faultless(fault) && t.denied == DenyList
    ensures RunOps(t, SwitchAndExecPlan(req), fault).status == Aborted(UsrRemount, EPerm)
  {
    var c1 := SwitchCalls(req);
    var c2 := [UsrRemount, CString(req.app), Execvp(req.app, [])];
    SwitchSplit(req);
    RunConcat(t, c1, c2, fault);
    SwitchCallsAccepted(req, t, fault);
    var t3 := RunOps(t, c1, fault).sys;
    RemountDenied(t3, fault);
    RunStops(t3, c2, fault);
  }

  lemma SwitchSplit(req: Request)
    ensures SwitchAndExecPlan(req) == SwitchCalls(req) + [UsrRemount, CString(req.app), Execvp(req.app, [])]
  {
  }

  /** Once mount is on the deny list, the remount of `/usr` is refused. */
  lemma RemountDenied(t: Sys, fault: Oracle)
    requires t.denied == DenyList
    ensures Refusal(t, UsrRemount, fault) == Some(EPerm) && !Ignored(UsrRemount)
  {
    assert FilterDenies(t.denied, UsrRemount);
  }

  /** The chdir, pivot_root and detach of the root switch. */
  function SwitchCalls(req: Request): seq<Op> {
    [Chdir(AppDir(req)), PivotRoot(".", "old_root"), DetachUnmount("old_root")]
  }

  /** The chdir, pivot_root and detach are not on the deny list. */
  lemma SwitchCallsAccepted(req: Request, t: Sys, fault: Oracle)
    requires Faultless(fault) && t.denied == DenyList
    ensures RunOps(t, SwitchCalls(req), fault).status.Completed?
    ensures RunOps(t, SwitchCalls(req), fault).sys.denied == DenyList
  {
    assert AllHarmless(SwitchCalls(req), t.denied, t.lastCap);
    CleanRun(t, SwitchCalls(req), fault);
  }

  /** The unshare and the identity maps run cleanly and leave `/proc` as
      it was. */
  lemma NamespaceStepsRun(req: Request, s: Sys, fault: Oracle)
    requires Faultless(fault) && s.denied == {}
    ensures var r := RunOps(s, NamespaceSteps(req), fault);
      && r.status.Completed? && r.sys.denied == {} && r.sys.lastCap == s.lastCap
      && r.sys.emptied == s.emptied
      && ("/proc" in r.sys.existing <==> "/proc" in s.existing)
      && s.existing <= r.sys.existing
      && |r.sys.log| == |s.log| + 7
  {
    var q := NamespaceSteps(req);
    NamespaceStepsHarmless(req, s.lastCap);
    CleanRun(s, q, fault);
    RunReplays(s, q, fault);
    ExistingUntouched(s, q, fault, "/proc");
    HarmlessLoadsNothing(q, {}, s.lastCap);
  }

  lemma AfterProcMkdirRun(req: Request, s: Sys, fault: Oracle)
    requires Faultless(fault) && s.denied == {} && s.emptied == {} && s.lastCap >= CapLoopLast
    ensures RunOps(s, AfterProcMkdir(req), fault).status.Completed?
    ensures RunOps(s, AfterProcMkdir(req), fault).sys.denied == {}
  {
    AfterProcMkdirHarmless(req, s.lastCap);
    CleanRun(s, AfterProcMkdir(req), fault);
    HarmlessLoadsNothing(AfterProcMkdir(req), {}, s.lastCap);
  }

  /** Without `/proc`, its creation is accepted and so is everything after
      it up to the filter. */
  lemma ProcMkdirThenRest(req: Request, s: Sys, fault: Oracle)
    requires Faultless(fault) && s.denied == {} && s.emptied == {} && s.lastCap >= CapLoopLast
    requires "/proc" !in s.existing
    ensures RunOps(s, [Mkdir("/proc")] + AfterProcMkdir(req), fault).status.Completed?
    ensures RunOps(s, [Mkdir("/proc")] + AfterProcMkdir(req), fault).sys.denied == {}
  {
    var rest := AfterProcMkdir(req);
    var tail := [Mkdir("/proc")] + rest;
    assert fault(|s.log|, Mkdir("/proc")).None?;
    assert Refusal(s, Mkdir("/proc"), fault).None?;
    RunStep(s, tail, fault);
    assert tail[1..] == rest;
    var sm := Attempt(s, Mkdir("/proc"), fault);
    assert sm.denied == {} && sm.emptied == {} && sm.lastCap == s.lastCap;
    AfterProcMkdirRun(req, sm, fault);
  }

  /** On a kernel that refuses nothing on its own, without `/proc` on the
      host, every call before the filter is accepted. */
  lemma PrefixRunsWithoutProc(req: Request, s: Sys, fault: Oracle)
    requires Faultless(fault) && s.denied == {} && s.emptied == {} && s.lastCap >= CapLoopLast
    requires "/proc" !in s.existing
    ensures RunOps(s, ChildPrefix(req), fault).status.Completed?
    ensures RunOps(s, ChildPrefix(req), fault).sys.denied == {}
  {
    var q := NamespaceSteps(req);
    var tail := [Mkdir("/proc")] + AfterProcMkdir(req);
    ChildPrefixSplit(req);
    RunConcat(s, q, tail, fault);
    NamespaceStepsRun(req, s, fault);
    ProcMkdirThenRest(req, RunOps(s, q, fault).sys, fault);
  }

  /** As written, on a kernel that refuses nothing on its own and a host
      without `/proc`, every call up to the filter succeeds, the filter
      denies mount, and the remount of `/usr` is refused with EPERM: the
      application is never executed. Such a kernel accepts the id-map
      writes, the pivot without `old_root` and the remount of a path that
      is not a mount point. */
  lemma FilterBlocksUsrRemount(req: Request, s: Sys, fault: Oracle)
    requires Faultless(fault) && s.denied == {} && s.emptied == {} && s.lastCap >= CapLoopLast
    requires "/proc" !in s.existing
    ensures RunOps(s, ChildPlan(req), fault).status == Aborted(UsrRemount, EPerm)
  {
    var pb := ChildPrefix(req) + SeccompPlan();
    PrefixThenFilter(req, s, fault);
    RunConcat(s, pb, SwitchAndExecPlan(req), fault);
    SwitchStopsExactlyAtRemount(req, RunOps(s, pb, fault).sys, fault);
  }

  /** As written, the filter is in force before the root switch starts. */
  lemma PrefixThenFilter(req: Request, s: Sys, fault: Oracle)
    requires Faultless(fault) && s.denied == {} && s.emptied == {} && s.lastCap >= CapLoopLast
    requires "/proc" !in s.existing
    ensures RunOps(s, ChildPrefix(req) + SeccompPlan(), fault).status.Completed?
    ensures RunOps(s, ChildPrefix(req) + SeccompPlan(), fault).sys.denied == DenyList
  {
    var p := ChildPrefix(req);
    PrefixRunsWithoutProc(req, s, fault);
    RunConcat(s, p, SeccompPlan(), fault);
    SeccompDeniesList(RunOps(s, p, fault).sys, fault);
  }

  /** As written, `mkdir("/proc")` fails with EEXIST whenever `/proc`
      already exists (as it does on every Linux host), so a child whose
      id-map writes were accepted stops there, eight calls in, before any
      share is mounted. */
  lemma ProcMkdirFailsWhenPresent(req: Request, s: Sys, fault: Oracle)
    requires Faultless(fault) && s.denied == {}
    requires "/proc" in s.existing
    ensures RunOps(s, ChildPlan(req), fault).status == Aborted(Mkdir("/proc"), EExist)
    ensures |RunOps(s, ChildPlan(req), fault).sys.log| == |s.log| + 8
  {
    var q := NamespaceSteps(req);
    var tail := [Mkdir("/proc")] + (AfterProcMkdir(req) + SeccompPlan() + SwitchAndExecPlan(req));
    ChildPrefixSplit(req);
    Regroup(q, [Mkdir("/proc")], AfterProcMkdir(req), SeccompPlan(), SwitchAndExecPlan(req));
    assert ChildPlan(req) == q + tail;
    RunConcat(s, q, tail, fault);
    NamespaceStepsRun(req, s, fault);
    var sq := RunOps(s, q, fault).sys;
    assert tail[0] == Mkdir("/proc");
    assert Refusal(sq, Mkdir("/proc"), fault) == Some(EExist);
    RunStops(sq, tail, fault);
  }

  // ---------------------------------------------------------------------
  // The corrected order

  /** Everything of the corrected plan before the filter. */
  function CorrectedBeforeFilter(req: Request): seq<Op> {
    [Unshare(AllNamespaces)] + UserNamespacePlan(req.uid) + CorrectedMountsPlan(req.shares, req.home)
    + RootSwitchPlan(req) + CapDropPlan() + [SetNoNewPrivs]
  }

  lemma CorrectedPlanSplit(req: Request)
    ensures CorrectedChildPlan(req) == CorrectedBeforeFilter(req) + SeccompPlan() + [CString(req.app), Execvp(req.app, [])]
  {
  }

  lemma CorrectedMountsHarmless(tokens: seq<string>, home: string, lastCap: nat)
    ensures AllHarmless(CorrectedMountsPlan(tokens, home), {}, lastCap)
  {
    SharesHarmless(tokens, home, {}, lastCap);
    AllHarmlessConcat([CreateDirAll("/proc"), ProcMount], SharesPlan(tokens, home), {}, lastCap);
  }

  lemma RootSwitchHarmless(req: Request, lastCap: nat)
    ensures AllHarmless(RootSwitchPlan(req), {}, lastCap)
  {
  }

  lemma CorrectedBeforeFilterHarmless(req: Request, lastCap: nat)
    requires lastCap >= CapLoopLast
    ensures AllHarmless(CorrectedBeforeFilter(req), {}, lastCap)
  {
    var m := CorrectedMountsPlan(req.shares, req.home);
    var a1 := NamespaceSteps(req);
    var a2 := a1 + m;
    var a3 := a2 + RootSwitchPlan(req);
    var a4 := a3 + CapDropPlan();
    assert CorrectedBeforeFilter(req) == a4 + [SetNoNewPrivs];
    NamespaceStepsHarmless(req, lastCap);
    CorrectedMountsHarmless(req.shares, req.home, lastCap);
    RootSwitchHarmless(req, lastCap);
    CapsHarmless(lastCap);
    AllHarmlessConcat(a1, m, {}, lastCap);
    AllHarmlessConcat(a2, RootSwitchPlan(req), {}, lastCap);
    AllHarmlessConcat(a3, CapDropPlan(), {}, lastCap);
    AllHarmlessConcat(a4, [SetNoNewPrivs], {}, lastCap);
  }

  /** In the corrected order, on a kernel that refuses nothing on its own,
      every call is accepted whether or not `/proc` exists, the exec is
      reached, and the three listed syscalls are denied to the application.
      The corrected order does not create `old_root`: the exec is reached
      because such a kernel waives the preconditions of the pivot and of
      the `/usr` remount. */
  lemma CorrectedChildReachesExec(req: Request, s: Sys, fault: Oracle)
    requires Faultless(fault) && s.denied == {} && s.emptied == {} && s.lastCap >= CapLoopLast
    requires '\0' !in req.app
    ensures RunOps(s, CorrectedChildPlan(req), fault).status.Completed?
    ensures RunOps(s, CorrectedChildPlan(req), fault).sys.denied == DenyList
  {
    var ab := CorrectedBeforeFilter(req) + SeccompPlan();
    CorrectedPlanSplit(req);
    CorrectedPrefixThenFilter(req, s, fault);
    RunConcat(s, ab, [CString(req.app), Execvp(req.app, [])], fault);
    ExecCallsAccepted(req, RunOps(s, ab, fault).sys, fault);
  }

  lemma CorrectedPrefixThenFilter(req: Request, s: Sys, fault: Oracle)
    requires Faultless(fault) && s.denied == {} && s.emptied == {} && s.lastCap >= CapLoopLast
    ensures RunOps(s, CorrectedBeforeFilter(req) + SeccompPlan(), fault).status.Completed?
    ensures RunOps(s, CorrectedBeforeFilter(req) + SeccompPlan(), fault).sys.denied == DenyList
  {
    var a := CorrectedBeforeFilter(req);
    CorrectedPrefixRuns(req, s, fault);
    RunConcat(s, a, SeccompPlan(), fault);
    SeccompDeniesList(RunOps(s, a, fault).sys, fault);
  }

  /** Converting a name without NUL and the exec are not refused by the
      filter. */
  lemma ExecCallsAccepted(req: Request, t: Sys, fault: Oracle)
    requires Faultless(fault) && t.denied == DenyList && '\0' !in req.app
    ensures RunOps(t, [CString(req.app), Execvp(req.app, [])], fault).status.Completed?
    ensures RunOps(t, [CString(req.app), Execvp(req.app, [])], fault).sys.denied == DenyList
  {
    var c := [CString(req.app), Execvp(req.app, [])];
    assert AllHarmless(c, t.denied, t.lastCap);
    CleanRun(t, c, fault);
  }

  lemma CorrectedPrefixRuns(req: Request, s: Sys, fault: Oracle)
    requires Faultless(fault) && s.denied == {} && s.emptied == {} && s.lastCap >= CapLoopLast
    ensures RunOps(s, CorrectedBeforeFilter(req), fault).status.Completed?
    ensures RunOps(s, CorrectedBeforeFilter(req), fault).sys.denied == {}
  {
    var a := CorrectedBeforeFilter(req);
    CorrectedBeforeFilterHarmless(req, s.lastCap);
    CleanRun(s, a, fault);
    HarmlessLoadsNothing(a, {}, s.lastCap);
  }

  /** In the corrected plan the filter is loaded once, after no_new_privs,
      and no mount, root switch or unmount follows it. */
  lemma CorrectedFilterComesLast(req: Request)
    ensures var plan := CorrectedChildPlan(req); var n := |CorrectedBeforeFilter(req)|;
      && plan[n - 1] == SetNoNewPrivs
      && (forall i | 0 <= i < |plan| :: plan[i] == SeccompLoad <==> i == n + 4)
      && (forall j | n + 4 < j < |plan| :: !plan[j].Mount? && !plan[j].PivotRoot? && !plan[j].DetachUnmount?)
  {
    var plan := CorrectedChildPlan(req);
    var a := CorrectedBeforeFilter(req);
    var n := |a|;
    CorrectedPlanSplit(req);
    CorrectedBeforeFilterHarmless(req, CapLoopLast);
    forall i | 0 <= i < |plan|
      ensures plan[i] == SeccompLoad <==> i == n + 4
    {
      if i < n {
        assert plan[i] == a[i] && Harmless(a[i], {}, CapLoopLast);
      }
    }
  }
}
