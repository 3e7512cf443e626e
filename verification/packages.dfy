/** The package front end of `main.py`: one Podman container per package,
    named from the package, the commands `install`, `update`, `remove` and
    `update-all` issue, and `run_command`, which stops at the first command
    that fails. Only the list of commands is modelled; what Podman and
    pacman do with them is not. */
module Packages {
  import opened Results
  import opened Text

  const Prefix := "isolator-"
  const BaseImage := "docker.io/library/archlinux:latest"

  // ---------------------------------------------------------------------
  // Container names

  /** `get_container_name`: the prefix, then the package with each `/`
      turned into `-`. */
  function ContainerName(package: string): (r: string)
    ensures |r| == |package| + |Prefix|
    ensures StartsWith(r, Prefix)
    ensures '/' !in r
    ensures forall i | 0 <= i < |package| :: r[|Prefix| + i] == (if package[i] == '/' then '-' else package[i])
  {
    var r := Prefix + ReplaceChar(package, '/', '-');
    assert forall i | 0 <= i < |r| :: r[i] != '/';
    r
  }

  /** Two characters a container name cannot tell apart. */
  predicate SameInName(a: char, b: char) {
    a == b || ((a == '/' || a == '-') && (b == '/' || b == '-'))
  }

  /** Two packages share a container exactly when they differ only in
      where they have `/` and where `-`. */
  lemma ContainerNameCollides(p: string, q: string)
    ensures ContainerName(p) == ContainerName(q) <==>
      |p| == |q| && forall i | 0 <= i < |p| :: SameInName(p[i], q[i])
  {
    var cp, cq := ContainerName(p), ContainerName(q);
    if cp == cq {
      forall i | 0 <= i < |p|
        ensures SameInName(p[i], q[i])
      {
        assert cp[|Prefix| + i] == cq[|Prefix| + i];
      }
    }
    if |p| == |q| && forall i | 0 <= i < |p| :: SameInName(p[i], q[i]) {
      forall i | 0 <= i < |cp|
        ensures cp[i] == cq[i]
      {
        if i >= |Prefix| {
          assert SameInName(p[i - |Prefix|], q[i - |Prefix|]);
        }
      }
    }
  }

  /** "a/b" and "a-b" are installed into the same container. */
  lemma ContainerNameNotInjective()
    ensures ContainerName("a/b") == ContainerName("a-b") == "isolator-a-b"
  {
    ContainerNameCollides("a/b", "a-b");
    assert SameInName('/', '-');
  }

  // ---------------------------------------------------------------------
  // The reverse mapping of update_all

  /** The "approximate reverse" of `update_all`: every occurrence of the
      prefix is removed, then every `-` becomes `/`. */
  function PackageOf(container: string): string {
    ReplaceChar(ReplaceAll(container, Prefix, ""), '-', '/')
  }

  /** A package without `-` in which "isolator/" never occurs is recovered
      from its container name. */
  lemma PackageOfContainerName(p: string)
    requires '-' !in p
    requires forall k: nat :: !OccursAt("isolator/", p, k)
    ensures PackageOf(ContainerName(p)) == p
  {
    var q := ReplaceChar(p, '/', '-');
    assert ContainerName(p) == Prefix + q;
    NoPrefixInRenamed(p);
    ReplaceAllAbsent(q, Prefix, "");
    assert (Prefix + q)[..|Prefix|] == Prefix;
    assert (Prefix + q)[|Prefix|..] == q;
    assert ReplaceAll(Prefix + q, Prefix, "") == q;
    var back := ReplaceChar(q, '-', '/');
    assert forall i | 0 <= i < |p| :: back[i] == p[i];
  }

  /** The prefix occurs in the renamed package only where the package had
      "isolator/" or "isolator-". */
  lemma NoPrefixInRenamed(p: string)
    requires '-' !in p
    requires forall k: nat :: !OccursAt("isolator/", p, k)
    ensures forall k: nat :: !OccursAt(Prefix, ReplaceChar(p, '/', '-'), k)
  {
    var q := ReplaceChar(p, '/', '-');
    forall k: nat | OccursAt(Prefix, q, k)
      ensures OccursAt("isolator/", p, k)
    {
      forall j | 0 <= j < 9
        ensures p[k + j] == "isolator/"[j]
      {
        assert q[k + j] == Prefix[j];
      }
      assert p[k..k + 9] == "isolator/";
    }
  }

  /** The reverse is only approximate: a `-` in a package comes back as `/`. */
  lemma PackageOfDashed()
    ensures PackageOf(ContainerName("a-b")) == "a/b"
  {
    DashedName();
    StripShortAfterPrefix("a-b");
    DashToSlash();
  }

  lemma DashedName()
    ensures ContainerName("a-b") == Prefix + "a-b"
  {
    var c := ContainerName("a-b");
    assert c[9] == 'a' && c[10] == '-' && c[11] == 'b';
  }

  /** After the prefix, a remainder too short to hold it again is kept. */
  lemma StripShortAfterPrefix(rest: string)
    requires |rest| < |Prefix|
    ensures ReplaceAll(Prefix + rest, Prefix, "") == rest
  {
    var c := Prefix + rest;
    assert c[..|Prefix|] == Prefix;
    assert c[|Prefix|..] == rest;
  }

  lemma DashToSlash()
    ensures ReplaceChar("a-b", '-', '/') == "a/b"
  {
    var r := ReplaceChar("a-b", '-', '/');
    assert r[0] == 'a' && r[1] == '/' && r[2] == 'b';
  }

  // ---------------------------------------------------------------------
  // get_all_isolator_containers

  /** The names listed by Podman that start with the prefix, in order. */
  function IsolatorContainers(names: seq<string>): (r: seq<string>)
    ensures forall n :: n in r <==> n in names && StartsWith(n, Prefix)
    ensures |r| <= |names|
  {
    if names == [] then []
    else (if StartsWith(names[0], Prefix) then [names[0]] else []) + IsolatorContainers(names[1..])
  }

  /** The filter keeps the order of the listing, and keeps all of it when
      every name has the prefix. */
  lemma {:induction false} IsolatorContainersInOrder(names: seq<string>)
    ensures IsSubsequence(IsolatorContainers(names), names)
    ensures (forall i | 0 <= i < |names| :: StartsWith(names[i], Prefix)) ==> IsolatorContainers(names) == names
  {
    if names != [] {
      IsolatorContainersInOrder(names[1..]);
      var rest := IsolatorContainers(names[1..]);
      if StartsWith(names[0], Prefix) {
        assert IsolatorContainers(names) == [names[0]] + rest;
        assert ([names[0]] + rest)[1..] == rest;
      } else {
        assert IsolatorContainers(names) == rest;
        assert forall n | n in rest :: StartsWith(n, Prefix);
      }
    }
  }

  // ---------------------------------------------------------------------
  // The commands

  /** An argument vector handed to `subprocess.run`. */
  type Command = seq<string>

  function Start(container: string): Command { ["podman", "start", container] }
  function SystemUpgrade(container: string): Command { ["podman", "exec", container, "pacman", "-Syu", "--noconfirm"] }
  function PacmanInstall(container: string, package: string): Command { ["podman", "exec", container, "pacman", "-S", "--noconfirm", package] }
  function Stop(container: string): Command { ["podman", "stop", container] }

  /** `podman create` with the X11 socket, `/dev/dri` and the host IPC
      namespace, running `sleep infinity` in the base image. */
  function Create(container: string): Command {
    ["podman", "create", "--name", container,
     "-v", "/tmp/.X11-unix:/tmp/.X11-unix",
     "--device", "/dev/dri",
     "--ipc", "host",
     BaseImage, "sleep", "infinity"]
  }

  /** The five steps of `install`. */
  function InstallCommands(package: string): (r: seq<Command>)
    ensures |r| == 5
  {
    var c := ContainerName(package);
    [Create(c), Start(c), SystemUpgrade(c), PacmanInstall(c, package), Stop(c)]
  }

  /** The four steps of `update`: `install` without the creation. */
  function UpdateCommands(package: string): (r: seq<Command>)
    ensures r == InstallCommands(package)[1..]
  {
    var c := ContainerName(package);
    [Start(c), SystemUpgrade(c), PacmanInstall(c, package), Stop(c)]
  }

  /** The one step of `remove`. */
  function RemoveCommands(package: string): seq<Command> {
    [["podman", "rm", "-f", ContainerName(package)]]
  }

  /** The steps of `update-all`: start, upgrade and stop each prefixed
      container in listing order. The package recovered with `PackageOf`
      is only printed. */
  function UpdateAllCommands(names: seq<string>): (r: seq<Command>)
    ensures |r| == 3 * |IsolatorContainers(names)|
  {
    UpgradeEach(IsolatorContainers(names))
  }

  function UpgradeEach(containers: seq<string>): (r: seq<Command>)
    ensures |r| == 3 * |containers|
  {
    if containers == [] then []
    else [Start(containers[0]), SystemUpgrade(containers[0]), Stop(containers[0])] + UpgradeEach(containers[1..])
  }

  /** Container `k` is started, upgraded and stopped by commands 3k, 3k+1
      and 3k+2; with no prefixed container nothing is issued. */
  lemma {:induction false} UpgradeEachLayout(containers: seq<string>)
    ensures forall k | 0 <= k < |containers| ::
      && UpgradeEach(containers)[3 * k] == Start(containers[k])
      && UpgradeEach(containers)[3 * k + 1] == SystemUpgrade(containers[k])
      && UpgradeEach(containers)[3 * k + 2] == Stop(containers[k])
  {
    if containers != [] {
      UpgradeEachLayout(containers[1..]);
      var r := UpgradeEach(containers);
      var rest := UpgradeEach(containers[1..]);
      assert r == [Start(containers[0]), SystemUpgrade(containers[0]), Stop(containers[0])] + rest;
      forall k | 1 <= k < |containers|
        ensures r[3 * k] == Start(containers[k])
        ensures r[3 * k + 1] == SystemUpgrade(containers[k])
        ensures r[3 * k + 2] == Stop(containers[k])
      {
        assert r[3 * k] == rest[3 * (k - 1)];
        assert r[3 * k + 1] == rest[3 * (k - 1) + 1];
        assert r[3 * k + 2] == rest[3 * (k - 1) + 2];
        assert containers[1..][k - 1] == containers[k];
      }
    }
  }

  /** `update-all` with no prefixed container issues nothing, and every
      command it issues names a prefixed container from the listing. */
  lemma UpdateAllTouchesIsolatorContainers(names: seq<string>)
    ensures IsolatorContainers(names) == [] <==> UpdateAllCommands(names) == []
    ensures forall k | 0 <= k < |UpdateAllCommands(names)| ::
      |UpdateAllCommands(names)[k]| >= 3 && UpdateAllCommands(names)[k][2] in names && StartsWith(UpdateAllCommands(names)[k][2], Prefix)
  {
    UpgradeEachTargets(IsolatorContainers(names));
  }

  /** Every upgrade command names one of the containers as its third word. */
  lemma {:induction false} UpgradeEachTargets(containers: seq<string>)
    ensures forall k | 0 <= k < |UpgradeEach(containers)| ::
      |UpgradeEach(containers)[k]| >= 3 && UpgradeEach(containers)[k][2] in containers
  {
    if containers != [] {
      var c := containers[0];
      var rest := UpgradeEach(containers[1..]);
      UpgradeEachTargets(containers[1..]);
      var r := UpgradeEach(containers);
      assert r == [Start(c), SystemUpgrade(c), Stop(c)] + rest;
      forall k | 0 <= k < |r|
        ensures |r[k]| >= 3 && r[k][2] in containers
      {
        if k >= 3 {
          assert r[k] == rest[k - 3];
          assert r[k][2] in containers[1..];
        }
      }
    }
  }

  // ---------------------------------------------------------------------
  // run_command

  /** What happened to a list of commands: the ones issued, in order, and
      the one that failed, if any. */
  datatype Outcome = Outcome(issued: seq<Command>, failed: Option<Command>)

  /** Whether the `n`-th command issued exits with status 0 is not in the
      model: an oracle answers. */
  type Succeeds = (nat, Command) -> bool

  /** Commands run one after the other; `run_command` re-raises the error of
      a failing one, which ends the whole operation. */
  function RunCommands(cmds: seq<Command>, ok: Succeeds, done: nat): (r: Outcome)
    ensures |r.issued| <= |cmds| && r.issued == cmds[..|r.issued|]
    ensures r.failed.None? ==> r.issued == cmds
    ensures r.failed.Some? ==> (
      && |r.issued| > 0 && r.failed.value == r.issued[|r.issued| - 1]
      && !ok(done + |r.issued| - 1, r.failed.value))
    ensures forall i | 0 <= i < |r.issued| && (r.failed.None? || i < |r.issued| - 1) :: ok(done + i, r.issued[i])
    decreases |cmds|
  {
    if cmds == [] then Outcome([], None)
    else if !ok(done, cmds[0]) then Outcome([cmds[0]], Some(cmds[0]))
    else
      var rest := RunCommands(cmds[1..], ok, done + 1);
      Outcome([cmds[0]] + rest.issued, rest.failed)
  }

  /** Running from position `i`: the command there is issued, and the run
      goes on past it only when it succeeds. */
  lemma RunCommandsStep(cmds: seq<Command>, ok: Succeeds, i: nat)
    requires i < |cmds|
    ensures var here := RunCommands(cmds[i..], ok, i);
      var next := RunCommands(cmds[i + 1..], ok, i + 1);
      here == if ok(i, cmds[i]) then Outcome([cmds[i]] + next.issued, next.failed)
              else Outcome([cmds[i]], Some(cmds[i]))
  {
    assert cmds[i..][0] == cmds[i] && cmds[i..][1..] == cmds[i + 1..];
  }

  /** The same, the way the Python code runs it: a loop that returns at the
      first failure. */
  method RunEach(cmds: seq<Command>, ok: Succeeds) returns (issued: seq<Command>, failed: Option<Command>)
    ensures Outcome(issued, failed) == RunCommands(cmds, ok, 0)
  {
    issued := [];
    var i := 0;
    assert cmds[0..] == cmds;
    while i < |cmds|
      invariant 0 <= i <= |cmds|
      invariant RunCommands(cmds, ok, 0) == Prepend(issued, RunCommands(cmds[i..], ok, i))
    {
      RunCommandsStep(cmds, ok, i);
      PrependTwice(issued, [cmds[i]], RunCommands(cmds[i + 1..], ok, i + 1));
      issued := issued + [cmds[i]];
      if !ok(i, cmds[i]) {
        return issued, Some(cmds[i]);
      }
      i := i + 1;
    }
    assert cmds[i..] == [];
    failed := None;
  }

  /** `before` issued ahead of an outcome. */
  function Prepend(before: seq<Command>, o: Outcome): (r: Outcome)
    ensures r.failed == o.failed && |r.issued| == |before| + |o.issued|
  {
    Outcome(before + o.issued, o.failed)
  }

  lemma PrependTwice(a: seq<Command>, b: seq<Command>, o: Outcome)
    ensures Prepend(a, Prepend(b, o)) == Prepend(a + b, o)
  {
    assert a + (b + o.issued) == (a + b) + o.issued;
  }

  /** The steps of `install` are issued in the order create, start,
      upgrade, install, stop; a package is installed (its `pacman -S`
      issued and successful) only after its container was created, started
      and upgraded, and a failed step stops everything after it. */
  lemma InstallFailStop(package: string, ok: Succeeds)
    ensures var out := RunCommands(InstallCommands(package), ok, 0);
      var c := ContainerName(package);
      && out.issued <= [Create(c), Start(c), SystemUpgrade(c), PacmanInstall(c, package), Stop(c)]
      && out.issued[0] == Create(c)
      && (!ok(0, Create(c)) ==> out == Outcome([Create(c)], Some(Create(c))))
      && (|out.issued| >= 4 ==> forall i | 0 <= i < 3 :: ok(i, out.issued[i]))
      && (PacmanInstall(c, package) in out.issued <==> |out.issued| >= 4)
      && (out.failed.None? <==> forall i | 0 <= i < 5 :: ok(i, InstallCommands(package)[i]))
  {
    var cmds := InstallCommands(package);
    var out := RunCommands(cmds, ok, 0);
    var c := ContainerName(package);
    assert out.issued[0] == cmds[0];
    assert PacmanInstall(c, package) in out.issued <==> |out.issued| >= 4 by {
      assert forall i | 0 <= i < 5 && i != 3 :: cmds[i] != PacmanInstall(c, package);
      if |out.issued| >= 4 {
        assert out.issued[3] == cmds[3];
      }
    }
    if out.failed.Some? {
      var j := |out.issued| - 1;
      assert !ok(j, cmds[j]);
    }
  }
}
