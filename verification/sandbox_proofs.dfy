/** Properties of the sandbox builder of `src/main.rs`: the share dispatch,
    the capability loop, the filter, the order of the child's calls, the
    confirmation and fork branches, and two defects of the call order
    together with a corrected order. */
module SandboxProofs {
  import opened Results
  import opened Text
  import opened Kernel
  import opened Sandbox

  // ---------------------------------------------------------------------
  // Shares

  /** The mount calls of a plan, in order. */
  function MountsOf(ops: seq<Op>): (r: seq<Op>)
    ensures forall i | 0 <= i < |r| :: r[i].Mount?
    decreases |ops|
  {
    if ops == [] then [] else (if ops[0].Mount? then [ops[0]] else []) + MountsOf(ops[1..])
  }

  lemma {:induction false} MountsOfConcat(a: seq<Op>, b: seq<Op>)
    ensures MountsOf(a + b) == MountsOf(a) + MountsOf(b)
    decreases |a|
  {
    if a == [] {
      assert a + b == b;
    } else {
      assert (a + b)[0] == a[0];
      assert (a + b)[1..] == a[1..] + b;
      MountsOfConcat(a[1..], b);
    }
  }

  /** The bind mounts the share table prescribes, one per recognised token,
      in token order; unknown tokens contribute nothing. */
  function RecognisedMounts(tokens: seq<string>, home: string): seq<Op>
    decreases |tokens|
  {
    if tokens == [] then []
    else
      (match ParseShare(tokens[0])
       case Some(k) => [BindMount(ShareSource(k, home), ShareTarget(k))]
       case None => [])
      + RecognisedMounts(tokens[1..], home)
  }

  /** Each recognised token yields exactly its bind mount, in input order
      (a repeated token mounts again); unknown tokens mount nothing. */
  lemma {:induction false} ShareMountsFollowTokens(tokens: seq<string>, home: string)
    ensures MountsOf(SharesPlan(tokens, home)) == RecognisedMounts(tokens, home)
    decreases |tokens|
  {
    if tokens != [] {
      var head := ShareOps(tokens[0], home);
      MountsOfConcat(head, SharesPlan(tokens[1..], home));
      ShareMountsFollowTokens(tokens[1..], home);
      match ParseShare(tokens[0])
      case Some(k) =>
        MountsOfConcat([BindMount(ShareSource(k, home), ShareTarget(k))], ShareEnv(k));
        assert MountsOf(ShareEnv(k)) == [];
      case None =>
    }
  }

  /** Only "wayland" sets `WAYLAND_DISPLAY=wayland-0` and only "x11" sets
      `DISPLAY=:0`; no other share touches the environment. */
  lemma {:induction false} ShareEnvOnlyFromDisplays(tokens: seq<string>, home: string, key: string, value: string)
    ensures SetEnv(key, value) in SharesPlan(tokens, home) <==>
      || (key == "WAYLAND_DISPLAY" && value == "wayland-0" && "wayland" in tokens)
      || (key == "DISPLAY" && value == ":0" && "x11" in tokens)
    decreases |tokens|
  {
    if tokens != [] {
      ShareEnvOnlyFromDisplays(tokens[1..], home, key, value);
      ShareOpsEnv(tokens[0], home, key, value);
      assert SharesPlan(tokens, home) == ShareOps(tokens[0], home) + SharesPlan(tokens[1..], home);
      InHeadOrTail("wayland", tokens);
      InHeadOrTail("x11", tokens);
    }
  }

  lemma InHeadOrTail<T>(x: T, s: seq<T>)
    requires s != []
    ensures x in s <==> x == s[0] || x in s[1..]
  {
    assert s == [s[0]] + s[1..];
  }

  /** The same for the calls of one token. */
  lemma ShareOpsEnv(token: string, home: string, key: string, value: string)
    ensures SetEnv(key, value) in ShareOps(token, home) <==>
      || (key == "WAYLAND_DISPLAY" && value == "wayland-0" && token == "wayland")
      || (key == "DISPLAY" && value == ":0" && token == "x11")
  {
  }

  /** Unknown tokens are logged and never stop the build: a run of the share
      loop can only stop at a mount. */
  lemma SharesStopOnlyAtMount(s: Sys, tokens: seq<string>, home: string, fault: Oracle)
    ensures RunOps(s, SharesPlan(tokens, home), fault).status.Aborted? ==>
      RunOps(s, SharesPlan(tokens, home), fault).status.op.Mount?
  {
    var r := RunOps(s, SharesPlan(tokens, home), fault);
    RunReplays(s, SharesPlan(tokens, home), fault);
    if r.status.Aborted? {
      var last := |r.sys.log| - 1;
      assert r.sys.log[last].op == SharesPlan(tokens, home)[last - |s.log|];
    }
  }

  // ---------------------------------------------------------------------
  // drop_capabilities

  /** The capability numbers `lo`, ..., `hi - 1`. */
  function CapSet(lo: nat, hi: nat): (r: set<nat>)
    ensures forall c: nat :: c in r <==> lo <= c < hi
    decreases hi - lo
  {
    if lo >= hi then {} else {lo} + CapSet(lo + 1, hi)
  }

  /** The capability loop as written: caps 0 to 40 in ascending order, the
      first refusal returns an error naming that cap. On success all 41 caps
      are gone from the bounding set and nothing else is; the set is empty
      afterwards only when the kernel's last capability is exactly 40. */
  method DropCapabilities(s: Sys, fault: Oracle) returns (r: Run)
    ensures r == RunOps(s, CapDropPlan(), fault)
    ensures r.status.Completed? ==>
      s.lastCap >= CapLoopLast && r.sys.bounding == s.bounding - CapSet(0, CapLoopLast + 1)
    ensures r.status.Aborted? ==>
      && r.status.op.CapDrop? && r.status.op.cap <= CapLoopLast
      && ErrorOf(r.status.op, r.status.errno) == CapDropFailed(r.status.op.cap)
      && |r.sys.log| == |s.log| + r.status.op.cap + 1
      && r.sys.bounding == s.bounding - CapSet(0, r.status.op.cap)
    ensures s.lastCap < CapLoopLast ==> r.status.Aborted? && r.status.op.cap <= s.lastCap + 1
    ensures s.bounding == CapSet(0, s.lastCap + 1) && r.status.Completed? ==>
      (r.sys.bounding == {} <==> s.lastCap == CapLoopLast)
  {
    var cur := s;
    var cap: nat := 0;
    while cap <= CapLoopLast
      invariant cap <= CapLoopLast + 1
      invariant RunOps(s, CapDropPlan(), fault) == RunOps(cur, CapsFrom(cap, CapLoopLast + 1), fault)
      invariant cur.bounding == s.bounding - CapSet(0, cap)
      invariant |cur.log| == |s.log| + cap
      invariant cur.lastCap == s.lastCap
      invariant cap <= s.lastCap + 1
    {
      var e := Refusal(cur, CapDrop(cap), fault);
      var next := Attempt(cur, CapDrop(cap), fault);
      CapStep(cur, cap, CapLoopLast + 1, fault);
      if e.Some? {
        r := Run(next, Aborted(CapDrop(cap), e.value));
        CapAbortFacts(s, cur, cap, r);
        return;
      }
      CapSetExtend(cap);
      cur := next;
      cap := cap + 1;
    }
    r := Run(cur, Completed);
    CapCompleteFacts(s, r);
  }

  /** What the loop knows when cap `cap` is refused. */
  lemma CapAbortFacts(s: Sys, cur: Sys, cap: nat, r: Run)
    requires cap <= CapLoopLast && cap <= s.lastCap + 1
    requires cur.bounding == s.bounding - CapSet(0, cap) && |cur.log| == |s.log| + cap
    requires r.status.Aborted? && r.status.op == CapDrop(cap)
    requires |r.sys.log| == |cur.log| + 1 && r.sys.bounding == cur.bounding
    ensures r.status.op.CapDrop? && r.status.op.cap <= CapLoopLast
    ensures ErrorOf(r.status.op, r.status.errno) == CapDropFailed(r.status.op.cap)
    ensures |r.sys.log| == |s.log| + r.status.op.cap + 1
    ensures r.sys.bounding == s.bounding - CapSet(0, r.status.op.cap)
    ensures s.lastCap < CapLoopLast ==> r.status.op.cap <= s.lastCap + 1
  {
  }

  /** What the loop knows when all caps were dropped. */
  lemma CapCompleteFacts(s: Sys, r: Run)
    requires r.status.Completed? && CapLoopLast + 1 <= s.lastCap + 1
    requires r.sys.bounding == s.bounding - CapSet(0, CapLoopLast + 1)
    ensures s.lastCap >= CapLoopLast
    ensures s.bounding == CapSet(0, s.lastCap + 1) ==> (r.sys.bounding == {} <==> s.lastCap == CapLoopLast)
  {
    BoundingEmptiedExactly(s.bounding, s.lastCap);
  }

  lemma CapSetExtend(hi: nat)
    ensures CapSet(0, hi + 1) == CapSet(0, hi) + {hi}
  {
    assert forall c: nat :: c in CapSet(0, hi + 1) <==> c in CapSet(0, hi) + {hi};
  }

  /** Dropping caps 0 to 40 from a full bounding set empties it exactly
      when 40 is the kernel's last capability. */
  lemma BoundingEmptiedExactly(bounding: set<nat>, lastCap: nat)
    requires lastCap >= CapLoopLast
    ensures bounding == CapSet(0, lastCap + 1) ==>
      (bounding - CapSet(0, CapLoopLast + 1) == {} <==> lastCap == CapLoopLast)
  {
    if bounding == CapSet(0, lastCap + 1) {
      if lastCap == CapLoopLast {
        assert bounding - CapSet(0, CapLoopLast + 1) == {};
      } else {
        assert lastCap in bounding - CapSet(0, CapLoopLast + 1);
      }
    }
  }

  /** One turn of the capability loop. */
  lemma CapStep(cur: Sys, cap: nat, hi: nat, fault: Oracle)
    requires cap < hi
    ensures var e := Refusal(cur, CapDrop(cap), fault);
      var next := Attempt(cur, CapDrop(cap), fault);
      && RunOps(cur, CapsFrom(cap, hi), fault)
         == (if e.Some? then Run(next, Aborted(CapDrop(cap), e.value)) else RunOps(next, CapsFrom(cap + 1, hi), fault))
      && |next.log| == |cur.log| + 1 && next.lastCap == cur.lastCap
      && (e.None? ==> cap <= cur.lastCap && next.bounding == cur.bounding - {cap})
      && (e.Some? ==> next.bounding == cur.bounding)
  {
    var rest := CapsFrom(cap, hi);
    assert rest[0] == CapDrop(cap) && rest[1..] == CapsFrom(cap + 1, hi);
  }

  // ---------------------------------------------------------------------
  // setup_seccomp

  /** Calls of the filter after `seccomp_init`: a rule for a listed syscall,
      the load, and the release. */
  predicate FilterStep(op: Op) {
    || (op.SeccompRuleAdd? && op.syscall in DenyList)
    || op.SeccompLoad?
    || op.SeccompRelease?
  }

  /** None of the filter's later calls can stop the run, and they can only
      add listed syscalls to the denied set. */
  lemma {:induction false} FilterStepsBounded(st: Sys, ops: seq<Op>, fault: Oracle)
    requires forall i | 0 <= i < |ops| :: FilterStep(ops[i])
    requires st.context.Some? ==> st.context.value <= DenyList
    ensures var r := RunOps(st, ops, fault);
      && r.status.Completed? && |r.sys.log| == |st.log| + |ops|
      && st.denied <= r.sys.denied <= st.denied + DenyList
      && (r.sys.context.Some? ==> r.sys.context.value <= DenyList)
    decreases |ops|
  {
    if ops != [] {
      assert FilterStep(ops[0]);
      RunStep(st, ops, fault);
      var s1 := Attempt(st, ops[0], fault);
      assert s1.context.Some? ==> s1.context.value <= DenyList;
      assert st.denied <= s1.denied <= st.denied + DenyList;
      FilterStepsBounded(s1, ops[1..], fault);
    }
  }

  /** The filter: the only error is a null context from `seccomp_init`; the
      rule-add and load results are ignored, so whatever happens only ptrace,
      mount and kexec_load can become denied (default allow). */
  lemma SeccompOutcome(s: Sys, fault: Oracle)
    ensures var r := RunOps(s, SeccompPlan(), fault);
      && (r.status.Aborted? <==> fault(|s.log|, SeccompInit).Some?)
      && (r.status.Aborted? ==> r.status.op == SeccompInit && |r.sys.log| == |s.log| + 1)
      && (r.status.Completed? ==> |r.sys.log| == |s.log| + 6)
      && s.denied <= r.sys.denied <= s.denied + DenyList
  {
    assert Refusal(s, SeccompInit, fault) == fault(|s.log|, SeccompInit);
    if fault(|s.log|, SeccompInit).None? {
      SeccompAfterInit(s, fault);
    } else {
      RunStops(s, SeccompPlan(), fault);
    }
  }

  lemma SeccompAfterInit(s: Sys, fault: Oracle)
    requires Refusal(s, SeccompInit, fault).None?
    ensures var r := RunOps(s, SeccompPlan(), fault);
      && r.status.Completed? && |r.sys.log| == |s.log| + 6
      && s.denied <= r.sys.denied <= s.denied + DenyList
  {
    var r1 := [SeccompRuleAdd(SysPtrace), SeccompRuleAdd(SysMount), SeccompRuleAdd(SysKexecLoad), SeccompLoad, SeccompRelease];
    assert SeccompPlan() == [SeccompInit] + r1;
    RunAccepted(s, SeccompInit, r1, fault);
    FilterTailSteps(r1);
    AcceptedInit(s, fault);
    FilterStepsBounded(Attempt(s, SeccompInit, fault), r1, fault);
  }

  lemma FilterTailSteps(r1: seq<Op>)
    requires r1 == [SeccompRuleAdd(SysPtrace), SeccompRuleAdd(SysMount), SeccompRuleAdd(SysKexecLoad), SeccompLoad, SeccompRelease]
    ensures forall i | 0 <= i < |r1| :: FilterStep(r1[i])
  {
    assert SysPtrace in DenyList && SysMount in DenyList && SysKexecLoad in DenyList;
  }

  lemma AcceptedInit(s: Sys, fault: Oracle)
    requires Refusal(s, SeccompInit, fault).None?
    ensures Attempt(s, SeccompInit, fault).context == Some({})
  {
  }

  lemma InitStep(s: Sys, fault: Oracle)
    requires Reliable(fault, SeccompInit)
    ensures Attempt(s, SeccompInit, fault).context == Some({})
    ensures Attempt(s, SeccompInit, fault).denied == s.denied
    ensures Refusal(s, SeccompInit, fault).None?
  {
    assert fault(|s.log|, SeccompInit).None?;
  }

  lemma RuleStep(st: Sys, sc: Syscall, fault: Oracle)
    requires st.context.Some?
    ensures var t := Attempt(st, SeccompRuleAdd(sc), fault);
      && t.denied == st.denied && t.context.Some? && st.context.value <= t.context.value
      && t.context.value <= st.context.value + {sc}
      && (Reliable(fault, SeccompRuleAdd(sc)) ==> t.context.value == st.context.value + {sc})
  {
    if Reliable(fault, SeccompRuleAdd(sc)) {
      assert fault(|st.log|, SeccompRuleAdd(sc)).None?;
    }
  }

  lemma LoadStep(st: Sys, fault: Oracle)
    requires st.context.Some? && Reliable(fault, SeccompLoad) && SysSeccomp !in st.denied
    ensures Attempt(st, SeccompLoad, fault).denied == st.denied + st.context.value
  {
    assert fault(|st.log|, SeccompLoad).None?;
  }

  /** When the initialisation, the mount rule and the load are accepted,
      mount is denied afterwards, whatever the other two rules did. */
  lemma SeccompDeniesMount(s: Sys, fault: Oracle)
    requires Reliable(fault, SeccompInit) && Reliable(fault, SeccompRuleAdd(SysMount))
    requires Reliable(fault, SeccompLoad) && SysSeccomp !in s.denied
    ensures RunOps(s, SeccompPlan(), fault).status.Completed?
    ensures SysMount in RunOps(s, SeccompPlan(), fault).sys.denied
  {
    var s1 := Attempt(s, SeccompInit, fault);
    var s2 := Attempt(s1, SeccompRuleAdd(SysPtrace), fault);
    var s3 := Attempt(s2, SeccompRuleAdd(SysMount), fault);
    var s4 := Attempt(s3, SeccompRuleAdd(SysKexecLoad), fault);
    var s5 := Attempt(s4, SeccompLoad, fault);
    InitStep(s, fault);
    RuleStep(s1, SysPtrace, fault);
    RuleStep(s2, SysMount, fault);
    RuleStep(s3, SysKexecLoad, fault);
    LoadStep(s4, fault);
    SeccompRunsThrough(s, fault);
  }

  /** After an accepted initialisation the filter's run is the chain of its
      six attempts. */
  lemma SeccompRunsThrough(s: Sys, fault: Oracle)
    requires Refusal(s, SeccompInit, fault).None?
    ensures var s6 := Attempt(Attempt(Attempt(Attempt(Attempt(Attempt(s, SeccompInit, fault),
        SeccompRuleAdd(SysPtrace), fault), SeccompRuleAdd(SysMount), fault),
        SeccompRuleAdd(SysKexecLoad), fault), SeccompLoad, fault), SeccompRelease, fault);
      RunOps(s, SeccompPlan(), fault) == Run(s6, Completed)
  {
    var s1 := Attempt(s, SeccompInit, fault);
    var s2 := Attempt(s1, SeccompRuleAdd(SysPtrace), fault);
    var s3 := Attempt(s2, SeccompRuleAdd(SysMount), fault);
    var s4 := Attempt(s3, SeccompRuleAdd(SysKexecLoad), fault);
    var s5 := Attempt(s4, SeccompLoad, fault);
    var r5: seq<Op> := [SeccompRelease];
    var r4 := [SeccompLoad, SeccompRelease];
    var r3 := [SeccompRuleAdd(SysKexecLoad), SeccompLoad, SeccompRelease];
    var r2 := [SeccompRuleAdd(SysMount), SeccompRuleAdd(SysKexecLoad), SeccompLoad, SeccompRelease];
    var r1 := [SeccompRuleAdd(SysPtrace), SeccompRuleAdd(SysMount), SeccompRuleAdd(SysKexecLoad), SeccompLoad, SeccompRelease];
    assert SeccompPlan() == [SeccompInit] + r1;
    assert r1 == [SeccompRuleAdd(SysPtrace)] + r2;
    assert r2 == [SeccompRuleAdd(SysMount)] + r3;
    assert r3 == [SeccompRuleAdd(SysKexecLoad)] + r4;
    assert r4 == [SeccompLoad] + r5;
    assert r5 == [SeccompRelease] + [];
    RunAccepted(s, SeccompInit, r1, fault);
    RunAccepted(s1, SeccompRuleAdd(SysPtrace), r2, fault);
    RunAccepted(s2, SeccompRuleAdd(SysMount), r3, fault);
    RunAccepted(s3, SeccompRuleAdd(SysKexecLoad), r4, fault);
    RunAccepted(s4, SeccompLoad, r5, fault);
    RunAccepted(s5, SeccompRelease, [], fault);
  }

  /** When every call of the filter is accepted, exactly the three listed
      syscalls are added to the denied set. */
  lemma SeccompDeniesList(s: Sys, fault: Oracle)
    requires Faultless(fault) && SysSeccomp !in s.denied
    ensures RunOps(s, SeccompPlan(), fault).status.Completed?
    ensures RunOps(s, SeccompPlan(), fault).sys.denied == s.denied + DenyList
  {
    var s1 := Attempt(s, SeccompInit, fault);
    var s2 := Attempt(s1, SeccompRuleAdd(SysPtrace), fault);
    var s3 := Attempt(s2, SeccompRuleAdd(SysMount), fault);
    var s4 := Attempt(s3, SeccompRuleAdd(SysKexecLoad), fault);
    var s5 := Attempt(s4, SeccompLoad, fault);
    InitStep(s, fault);
    RuleStep(s1, SysPtrace, fault);
    RuleStep(s2, SysMount, fault);
    RuleStep(s3, SysKexecLoad, fault);
    assert s4.context.value == DenyList;
    LoadStep(s4, fault);
    SeccompRunsThrough(s, fault);
  }

  // ---------------------------------------------------------------------
  // Layout of the child's plan

  /** The kinds of call the child issues before the filter is built. */
  predicate PrefixOp(op: Op) {
    || op.Unshare? || op.CreateFile? || op.WriteFile? || op.Mkdir?
    || (op.Mount? && op.target != "/usr") || op.CapDrop? || op.SetNoNewPrivs?
    || op.SetEnv? || op.Log?
  }

  predicate AllPrefixOps(ops: seq<Op>) {
    forall i | 0 <= i < |ops| :: PrefixOp(ops[i])
  }

  lemma AllPrefixOpsConcat(a: seq<Op>, b: seq<Op>)
    requires AllPrefixOps(a) && AllPrefixOps(b)
    ensures AllPrefixOps(a + b)
  {
    forall i | 0 <= i < |a + b|
      ensures PrefixOp((a + b)[i])
    {
      if i < |a| {
        assert (a + b)[i] == a[i];
      } else {
        assert (a + b)[i] == b[i - |a|];
      }
    }
  }

  lemma PrefixPieces(req: Request)
    ensures AllPrefixOps(UserNamespacePlan(req.uid))
    ensures AllPrefixOps(MountsPlan(req.shares, req.home))
    ensures AllPrefixOps(CapDropPlan())
  {
    MountsPrefixOps(req.shares, req.home);
  }

  lemma MountsPrefixOps(tokens: seq<string>, home: string)
    ensures AllPrefixOps(MountsPlan(tokens, home))
  {
    var sh := SharesPlan(tokens, home);
    assert AllPrefixOps(sh);
    AllPrefixOpsConcat([Mkdir("/proc"), ProcMount], sh);
  }

  lemma PrefixAllOps(req: Request)
    ensures AllPrefixOps(ChildPrefix(req))
  {
    var u := UserNamespacePlan(req.uid);
    var m := MountsPlan(req.shares, req.home);
    var caps := CapDropPlan();
    PrefixPieces(req);
    AllPrefixOpsConcat([Unshare(AllNamespaces)], u);
    AllPrefixOpsConcat([Unshare(AllNamespaces)] + u, m);
    AllPrefixOpsConcat([Unshare(AllNamespaces)] + u + m, caps);
    AllPrefixOpsConcat([Unshare(AllNamespaces)] + u + m + caps, [SetNoNewPrivs]);
  }

  lemma PrefixLandmarks(req: Request)
    ensures var p := ChildPrefix(req);
      && |p| == 51 + |SharesPlan(req.shares, req.home)|
      && p[0] == Unshare(AllNamespaces)
      && p[7] == Mkdir("/proc") && p[8] == ProcMount
      && p[|p| - 1] == SetNoNewPrivs
  {
    var m := MountsPlan(req.shares, req.home);
    var a := [Unshare(AllNamespaces)] + UserNamespacePlan(req.uid);
    var b := a + m;
    var d := b + CapDropPlan();
    var p := ChildPrefix(req);
    assert p == d + [SetNoNewPrivs];
    assert |a| == 7 && |m| == 2 + |SharesPlan(req.shares, req.home)|;
    assert p[7] == d[7] == b[7] == m[0];
    assert p[8] == d[8] == b[8] == m[1];
  }

  /** Where each part of the child's plan sits: `n` calls before the filter,
      ending with no_new_privs; the six filter calls; then the root switch,
      the remount of `/usr` and the exec. */
  lemma ChildPlanLayout(req: Request)
    ensures var p := ChildPrefix(req); var n := |p|;
      && n == 51 + |SharesPlan(req.shares, req.home)|
      && AllPrefixOps(p)
      && p[0] == Unshare(AllNamespaces)
      && p[7] == Mkdir("/proc") && p[8] == ProcMount
      && p[n - 1] == SetNoNewPrivs
      && ChildPlan(req) == p + SeccompPlan() + SwitchAndExecPlan(req)
      && |ChildPlan(req)| == n + 12
  {
    PrefixAllOps(req);
    PrefixLandmarks(req);
  }

  /** The calls after the prefix, by offset. */
  lemma ChildPlanTail(req: Request, i: nat)
    requires |ChildPrefix(req)| <= i < |ChildPlan(req)|
    ensures var n := |ChildPrefix(req)|; var op := ChildPlan(req)[i];
      && (op == SeccompLoad <==> i == n + 4)
      && (op.PivotRoot? <==> i == n + 7)
      && (op.Execvp? <==> i == n + 11)
  {
    var p := ChildPrefix(req);
    var tail := SeccompPlan() + SwitchAndExecPlan(req);
    assert ChildPlan(req) == p + tail;
    assert ChildPlan(req)[i] == tail[i - |p|];
    TailLayout(req);
  }

  /** The twelve calls from the filter on. */
  lemma TailLayout(req: Request)
    ensures var t := SeccompPlan() + SwitchAndExecPlan(req);
      && |t| == 12
      && forall j | 0 <= j < 12 ::
           && (t[j] == SeccompLoad <==> j == 4)
           && (t[j].PivotRoot? <==> j == 7)
           && (t[j].Execvp? <==> j == 11)
  {
    var t := SeccompPlan() + SwitchAndExecPlan(req);
    assert t == [ SeccompInit, SeccompRuleAdd(SysPtrace), SeccompRuleAdd(SysMount), SeccompRuleAdd(SysKexecLoad),
                  SeccompLoad, SeccompRelease, Chdir(AppDir(req)), PivotRoot(".", "old_root"),
                  DetachUnmount("old_root"), UsrRemount, CString(req.app), Execvp(req.app, []) ];
  }

  /** The filter is loaded at exactly one position of the child's plan, five
      calls after no_new_privs; the root switch and the exec each occur once,
      after it. */
  lemma ChildPlanPositions(req: Request)
    ensures var plan := ChildPlan(req); var n := |ChildPrefix(req)|;
      && (forall i | 0 <= i < |plan| :: plan[i] == SeccompLoad <==> i == n + 4)
      && (forall i | 0 <= i < |plan| :: plan[i].PivotRoot? <==> i == n + 7)
      && (forall i | 0 <= i < |plan| :: plan[i].Execvp? <==> i == n + 11)
      && plan[n - 1] == SetNoNewPrivs && plan[n + 9] == UsrRemount
  {
    var plan := ChildPlan(req);
    var n := |ChildPrefix(req)|;
    PrefixAllOps(req);
    forall i | 0 <= i < |plan|
      ensures plan[i] == SeccompLoad <==> i == n + 4
      ensures plan[i].PivotRoot? <==> i == n + 7
      ensures plan[i].Execvp? <==> i == n + 11
    {
      ChildPlanAt(req, i);
    }
    ChildPlanEnds(req);
  }

  /** One position of the child's plan: a prefix call or one of the tail's. */
  lemma ChildPlanAt(req: Request, i: nat)
    requires AllPrefixOps(ChildPrefix(req))
    requires i < |ChildPlan(req)|
    ensures var n := |ChildPrefix(req)|; var op := ChildPlan(req)[i];
      && (op == SeccompLoad <==> i == n + 4)
      && (op.PivotRoot? <==> i == n + 7)
      && (op.Execvp? <==> i == n + 11)
  {
    var p := ChildPrefix(req);
    if i < |p| {
      assert ChildPlan(req) == p + (SeccompPlan() + SwitchAndExecPlan(req));
      assert ChildPlan(req)[i] == p[i] && PrefixOp(p[i]);
    } else {
      ChildPlanTail(req, i);
    }
  }

  lemma ChildPlanEnds(req: Request)
    ensures var plan := ChildPlan(req); var n := |ChildPrefix(req)|;
      n > 0 && |plan| == n + 12 && plan[n - 1] == SetNoNewPrivs && plan[n + 9] == UsrRemount
  {
    var p := ChildPrefix(req);
    var tail := SeccompPlan() + SwitchAndExecPlan(req);
    ChildPlanSplit(req);
    PrefixLandmarks(req);
    assert (p + tail)[|p| - 1] == p[|p| - 1];
    RemountInTail(req);
    assert (p + tail)[|p| + 9] == tail[9];
  }

  lemma ChildPlanSplit(req: Request)
    ensures ChildPlan(req) == ChildPrefix(req) + (SeccompPlan() + SwitchAndExecPlan(req))
  {
  }

  lemma RemountInTail(req: Request)
    ensures |SeccompPlan() + SwitchAndExecPlan(req)| == 12
    ensures (SeccompPlan() + SwitchAndExecPlan(req))[9] == UsrRemount
  {
  }

  // ---------------------------------------------------------------------
  // Order of the child's calls as written

  /** In any run of the child, a filter load was preceded five calls earlier
      by an accepted no_new_privs. */
  lemma NoNewPrivsBeforeFilterLoad(req: Request, s: Sys, fault: Oracle)
    ensures var r := RunOps(s, ChildPlan(req), fault);
      forall j | |s.log| <= j < |r.sys.log| && r.sys.log[j].op == SeccompLoad ::
        j >= |s.log| + 5 && r.sys.log[j - 5] == Step(SetNoNewPrivs, None)
  {
    var r := RunOps(s, ChildPlan(req), fault);
    RunReplays(s, ChildPlan(req), fault);
    LoadPosition(req);
    ReplayedFiveBefore(s.log, r.sys.log, ChildPlan(req), r.status, |ChildPrefix(req)| + 4, SeccompLoad, SetNoNewPrivs);
  }

  /** The filter is loaded once, five calls after no_new_privs. */
  lemma LoadPosition(req: Request)
    ensures var plan := ChildPlan(req); var m := |ChildPrefix(req)| + 4;
      && 5 <= m < |plan| && plan[m - 5] == SetNoNewPrivs && !Ignored(SetNoNewPrivs)
      && forall i | 0 <= i < |plan| :: plan[i] == SeccompLoad <==> i == m
  {
    ChildPlanPositions(req);
  }

  /** In a replay, if `b` sits five places before the only occurrence of
      `a` in the plan, then every logged `a` is preceded five entries
      earlier by an accepted `b`. */
  lemma ReplayedFiveBefore(before: seq<Step>, after: seq<Step>, ops: seq<Op>, status: Status, m: nat, a: Op, b: Op)
    requires Replays(before, after, ops, status)
    requires 5 <= m < |ops| && ops[m - 5] == b && !Ignored(b)
    requires forall i | 0 <= i < |ops| :: ops[i] == a <==> i == m
    ensures forall j | |before| <= j < |after| && after[j].op == a ::
      j >= |before| + 5 && after[j - 5] == Step(b, None)
  {
    forall j | |before| <= j < |after| && after[j].op == a
      ensures j >= |before| + 5 && after[j - 5] == Step(b, None)
    {
      assert ops[j - |before|] == a;
      var k := j - 5;
      assert after[k].op == ops[m - 5];
    }
  }

  /** Every call before the filter is one of the prefix kinds. */
  lemma InChildPrefix(req: Request, op: Op)
    requires op in ChildPrefix(req)
    ensures PrefixOp(op)
  {
    PrefixAllOps(req);
    var p := ChildPrefix(req);
    var i :| 0 <= i < |p| && p[i] == op;
  }

  /** Whatever the kernel does, the run of the child as written stops before
      the application name is converted and before the exec, as soon as the
      filter's initialisation, mount rule and load are accepted. */
  lemma ExecUnreachable(req: Request, s: Sys, fault: Oracle)
    requires Reliable(fault, SeccompInit) && Reliable(fault, SeccompRuleAdd(SysMount))
    requires Reliable(fault, SeccompLoad) && SysSeccomp !in s.denied
    ensures RunOps(s, ChildPlan(req), fault).status.Aborted?
    ensures !RunOps(s, ChildPlan(req), fault).status.op.Execvp?
    ensures !RunOps(s, ChildPlan(req), fault).status.op.CString?
    ensures RunOps(s, ChildPlan(req), fault).status.op == UsrRemount ==>
      RunOps(s, ChildPlan(req), fault).status.errno == EPerm
  {
    var p := ChildPrefix(req);
    var b := SeccompPlan();
    var c := SwitchAndExecPlan(req);
    RunConcat(s, p + b, c, fault);
    RunConcat(s, p, b, fault);
    var rp := RunOps(s, p, fault);
    AbortedAtPlanOp(s, p, fault);
    if rp.status.Completed? {
      if SeccompLoad in p {
        InChildPrefix(req, SeccompLoad);
      }
      assert rp.sys.denied == s.denied;
      SeccompDeniesMount(rp.sys, fault);
      SwitchStopsAtRemount(req, RunOps(rp.sys, b, fault).sys, fault);
    } else {
      InChildPrefix(req, rp.status.op);
    }
  }

  /** With mount denied, the switch-and-exec tail cannot complete: it stops
      at one of the three root-switch calls or at the remount, with EPERM. */
  lemma SwitchStopsAtRemount(req: Request, t: Sys, fault: Oracle)
    requires SysMount in t.denied
    ensures var r := RunOps(t, SwitchAndExecPlan(req), fault);
      && r.status.Aborted?
      && (r.status.op.Chdir? || r.status.op.PivotRoot? || r.status.op.DetachUnmount?
          || r.status == Aborted(UsrRemount, EPerm))
  {
    var c := SwitchAndExecPlan(req);
    var t1 := Attempt(t, c[0], fault);
    var t2 := Attempt(t1, c[1], fault);
    var t3 := Attempt(t2, c[2], fault);
    if Refusal(t, c[0], fault).None? {
      RunStep(t, c, fault);
      if Refusal(t1, c[1], fault).None? {
        RunStep(t1, c[1..], fault);
        if Refusal(t2, c[2], fault).None? {
          RunStep(t2, c[2..], fault);
          assert c[2..][1..] == c[3..];
          assert t3.denied == t.denied;
          assert Refusal(t3, UsrRemount, fault) == Some(EPerm);
        }
      }
    }
  }
}
