# Isolator, modelled in Dafny

Isolator runs applications and packages in isolated environments. It has
three independent front ends, and this project models the core of each:

- **The sandbox builder** (`src/main.rs`, `create_environment`) creates a
  per-application directory and asks for confirmation. It then forks. The
  child unshares six namespaces, writes its identity maps, mounts `/proc`
  and the requested shares, and drops capabilities 0 to 40. It sets
  no_new_privs, installs a seccomp filter that denies ptrace, mount and
  kexec_load, switches root, remounts `/usr` read-only and execs the
  application.
- **The container runtime** (`main.go`) handles `run`. It re-executes
  itself as `/proc/self/exe child <rootfs> [--gpu] [--gui] cmd args...` in
  new namespaces. The child decodes these arguments and issues its mounts,
  each one guarded by `must`, which panics on error. It then starts the
  command. `sanitizeName` is modelled as well.
- **The package front end** (`main.py`) gives each package its own Podman
  container, named `isolator-<package>`. The model covers the commands that
  `install`, `update`, `remove` and `update-all` issue, the reverse mapping
  from a container to a package, and `run_command`, which stops at the
  first failure.

System calls are abstract operations (`Kernel.Op`). They act on a small
process state: existing paths, the mount points of fresh tmpfs instances,
the capability bounding set, the seccomp context and the denied syscalls,
the environment, and a log of attempts.

- The kernel refuses a call deterministically in five cases: a loaded
  filter denies it with EPERM, `mkdir` finds the path existing (EEXIST), a
  mount names a path that an earlier tmpfs has hidden (ENOENT), a
  capability lies above the last one, or libseccomp has a null context.
  Any other refusal comes from an oracle `fault`.
- A tmpfs mount hides every existing path below its mount point; creating
  a path makes it exist again.
- Each routine is the list of calls it issues, in source order.
- Rust's `?` and Go's `must` become `Kernel.RunOps`, a fail-stop runner.
  The results of `seccomp_rule_add` and `seccomp_load` are discarded, as in
  the code.
- The fork is modelled as two continuations of the same prefix:
  `ParentSide` and `ChildSide`.

The modules follow the programs:

- `Text`: string helpers.
- `Kernel`: the call model and the runner.
- `Sandbox`: the Rust plans.
- `SandboxProofs`, `SandboxFindings`, `LaunchProofs`: their properties.
- `Runtime`, `Container`: the Go side.
- `Packages`: the Python side.

Where the code departs from the documented design, the model follows the
code:

- Shares are an ordered list, and a repeated share mounts again.
- `gid_map` is written with the uid.
- The filter is loaded before `pivot_root`.
- The parent ignores the child's exit status.
- The capability loop stops at the hardcoded 40.
- Uid 1000 is hardcoded in the Wayland and PipeWire socket paths.
- The Go child never unmounts the old root.
- The package that `update_all` recovers is only printed.

## Model

| member | source | states |
|---|---|---|
| Sandbox.PreparePlan | source-code/src/main.rs:103-115 | Before the prompt the caller issues directory creations and nothing else (the app directory and its `usr/bin`). |
| LaunchProofs.PrepareRun | source-code/src/main.rs:103-115 | Preparation logs at most two calls, both directory creations, and stops at the first refused one. It completes iff both were accepted. The filter, the last capability and every environment variable are unchanged. |
| LaunchProofs.DeclineLaunchesNothing | source-code/src/main.rs:120-123 | Declining returns `Ok` after the preparation and forks nothing. The result is `Ok` iff both directory creations were accepted; otherwise it is the failed creation's error. |
| LaunchProofs.PromptErrorFails | source-code/src/main.rs:120 | A failed prompt is an error, and after a complete preparation it is the prompt's error. Only directory creations are logged. |
| LaunchProofs.ParentIgnoresChild | source-code/src/main.rs:127-131 | The parent's outcome is the same for any child plan. It never execs, it logs only creations, the fork and the wait, and it returns `Ok` iff all four were accepted. |
| LaunchProofs.ChildSideFollowsPlan | source-code/src/main.rs:132-164 | The child side never returns `Ok`. It is replaced by the application only after its whole plan ran (3 + plan calls). A failed call is a creation, the fork or a call of its plan. |
| Kernel.RunReplays | source-code/src/main.rs:133-163 | A fail-stop run logs a prefix of its plan in order. Only the last attempt can be a fatal refusal, and a completed run logs the whole plan. |
| Kernel.AbortedAtPlanOp | source-code/src/main.rs:133-163 | A run stops only at a call of its plan that was neither ignored nor immune to refusal. |
| Sandbox.MapLineRoundTrip | source-code/src/main.rs:184 | The line `"0 {uid} 1\n"` parses back to the mapping inside 0, outside uid, count 1. |
| Sandbox.UserNamespacePlan | source-code/src/main.rs:180-190 | The routine makes six calls, each a file creation followed by a write to the same file. `uid_map` and `gid_map` both parse as 0 → uid, 1, and `setgroups` gets "deny". |
| SandboxProofs.ShareMountsFollowTokens | source-code/src/main.rs:201-229 | The share loop's mounts are exactly one bind per recognised token, in token order, with repeats. Unknown tokens mount nothing. |
| SandboxProofs.ShareEnvOnlyFromDisplays | source-code/src/main.rs:208-217 | The loop sets a variable iff it is `WAYLAND_DISPLAY=wayland-0` with "wayland" requested or `DISPLAY=:0` with "x11" requested. |
| SandboxProofs.SharesStopOnlyAtMount | source-code/src/main.rs:227 | An unknown token is only logged: the share loop can only stop at a mount. |
| LaunchProofs.PlansSetEnvLikeShares | source-code/src/main.rs:201-229 | In both the as-written and the corrected child plans, the set-env calls are exactly those of the share loop. |
| LaunchProofs.ChildEnvVariable | source-code/src/main.rs:211-216 | When the application starts, each variable is the share-set value if its share was requested and is inherited otherwise. |
| LaunchProofs.ChildEnvFollowsShares | source-code/src/main.rs:211-216 | When the application starts, its environment is the caller's plus the display variables of the requested shares. |
| SandboxProofs.DropCapabilities | source-code/src/main.rs:233-243 | The loop drops caps 0..=40 in order and equals the plan's run. On the first refusal the error names that cap, exactly the caps below it are gone, and cap + 1 calls are logged. On completion exactly caps 0..=40 are gone. A kernel whose last cap is below 40 always stops the loop. A full set ends empty iff the last cap is exactly 40. |
| SandboxProofs.SeccompOutcome | source-code/src/main.rs:245-261 | The filter stops iff `seccomp_init` is refused, after one call; otherwise it completes all six. In every case only ptrace, mount and kexec_load can become denied. |
| SandboxProofs.FilterStepsBounded | source-code/src/main.rs:252-258 | Rule adds, load and release never stop the run and add only listed syscalls to the denied set. |
| SandboxProofs.SeccompDeniesMount | source-code/src/main.rs:254-257 | When init, the mount rule and the load are accepted, mount is denied afterwards, whatever the other rules did. |
| SandboxProofs.SeccompDeniesList | source-code/src/main.rs:247-258 | When every call is accepted, exactly ptrace, mount and kexec_load are added to the denied set. |
| SandboxProofs.ChildPlanLayout | source-code/src/main.rs:133-163 | The child's plan is the pre-filter prefix, then the six filter calls, then the switch-and-exec tail. The prefix has 51 + shares calls, starts with the unshare, has `mkdir /proc` and the proc mount at 7 and 8, and ends with no_new_privs. |
| SandboxProofs.ChildPlanPositions | source-code/src/main.rs:145-163 | The load, the pivot and the exec each occur exactly once, at n+4, n+7 and n+11. no_new_privs is at n-1 and the `/usr` remount at n+9. |
| SandboxProofs.NoNewPrivsBeforeFilterLoad | source-code/src/main.rs:146-151 | In any run, every logged filter load comes five calls after an accepted no_new_privs. |
| SandboxProofs.ExecUnreachable | source-code/src/main.rs:151-163 | Once filter init, the mount rule and the load are accepted, the child never reaches the name conversion or the exec, whatever else the kernel does. A stop at the remount is EPERM. |
| SandboxProofs.SwitchStopsAtRemount | source-code/src/main.rs:154-159 | With mount denied, the tail stops at the root switch or at the `/usr` remount with EPERM. |
| SandboxFindings.SwitchStopsExactlyAtRemount | source-code/src/main.rs:154-159 | With only the listed syscalls denied and no faults, the tail stops exactly at the remount with EPERM. The pivot is accepted without `old_root` (see "## Left out"). |
| SandboxFindings.PrefixThenFilter | source-code/src/main.rs:134-151 | With no faults and no `/proc`, everything up to the filter completes and leaves exactly the listed syscalls denied. |
| SandboxFindings.FilterBlocksUsrRemount | source-code/src/main.rs:151-159 | As written, with no faults and no `/proc`, the child stops at the `/usr` remount with EPERM, on a kernel that waives the pivot and remount preconditions. |
| SandboxFindings.ProcMkdirFailsWhenPresent | source-code/src/main.rs:194 | As written, when `/proc` exists the child stops at `mkdir("/proc")` with EEXIST, eight calls in. |
| LaunchProofs.HostLaunchFailsAtProc | source-code/src/main.rs:127-140 | On a host with `/proc` and no faults (the id-map writes accepted), the child side fails at `mkdir("/proc")` while the parent side returns `Ok`. |
| SandboxFindings.CorrectedChildReachesExec | source-code/src/main.rs:133-163 | With no faults and an application name without NUL, the corrected order completes, including the exec, whether or not `/proc` exists, and leaves exactly the listed syscalls denied, on a kernel that waives the pivot and remount preconditions. |
| SandboxFindings.CorrectedFilterComesLast | source-code/src/main.rs:146-159 | In the corrected order the load is unique, comes after no_new_privs, and is followed by no mount, pivot or unmount. |
| LaunchProofs.CorrectedLaunchStartsApp | source-code/src/main.rs:99-169 | With the corrected order and no faults, the child is replaced by the application with the caller's environment plus the share display variables, on a kernel that waives the pivot and remount preconditions. |
| Runtime.SanitizeName | source-code/main.go:349-351 | Same length; each `/` and `:` becomes `_` and every other character is kept. |
| Runtime.SanitizeIdempotent | source-code/main.go:349-351 | Sanitising twice equals sanitising once. |
| Runtime.SanitizeFixesClean | source-code/main.go:349-351 | A name without `/` or `:` is unchanged. |
| Runtime.EncodeChildArgs | source-code/main.go:204-212 | The list is "child", the rootfs, then "--gpu" iff gpu and "--gui" iff gui, then the command list unchanged. "--gpu" comes right after the rootfs and "--gui" right before the command. |
| Runtime.DecodeChildArgs | source-code/main.go:237-254 | Fewer than two arguments panic. On success the arguments before the command are all flags, the command is the first non-flag, and gpu and gui are set iff their flag occurs among those arguments. An all-flag list indexes past its end. |
| Runtime.ParseChildArgs | source-code/main.go:237-254 | The loop as written computes exactly the decoding. |
| Runtime.ChildArgsRoundTrip | source-code/main.go:205-254 | Decoding what `runContainer` encodes recovers the rootfs, both flags, the command and its arguments, provided the command is not a flag. |
| Runtime.LeadingFlagCommandAbsorbed | source-code/main.go:244-253 | A command that is itself "--gui" is taken as the flag. |
| Runtime.AllFlagCommandPanics | source-code/main.go:253 | A command list of flags only indexes past the end. |
| Runtime.DispatchArgs | source-code/main.go:79-83 | A first argument is an unknown command iff it is not a flag, not a registered subcommand and not one of cobra's own commands (help, completion and the hidden completion commands). Help is shown iff there are no arguments or only "-h" or "--help". "child" runs only if registered. |
| Runtime.ReexecIsUnknownCommand | source-code/main.go:79 | Every re-exec argument list is rejected as the unknown command "child". |
| Runtime.CorrectedReexecReachesChild | source-code/main.go:205-216 | With "child" registered (flag parsing disabled, so the list passes unchanged), the re-exec reaches `child` with the parent's configuration. |
| Container.StartContainer | source-code/main.go:197-228 | The rootfs is missing iff its joined path does not exist. Otherwise the binary re-executes itself through `/proc/self/exe` as "child". For a command that is not a flag, `child` decodes from that list exactly the rootfs path, both flags, the command and its arguments. The six namespaces are those the Rust sandbox unshares, and uid and gid are mapped to 0. |
| Container.ContainerNeverStarts | source-code/main.go:197-235 | As written, every `run` ends with exit 1 and no child run. |
| Container.CorrectedContainerStartsCommand | source-code/main.go:256-312 | Corrected ("child" registered, `/dev/pts` created, devices bound from the old root), with an existing rootfs, a command that is not a flag, no faults and a fresh process: the command is started with its arguments and environment, and the exit status follows the command's. |
| Container.PresentDevices | source-code/main.go:272-277 | A device is kept iff it is in the list and present. |
| Container.PresentDevicesInOrder | source-code/main.go:272-277 | The kept devices keep the list's order. |
| Container.DeviceBindsSelect | source-code/main.go:270-279 | Corrected, a device is bound iff `--gpu` is given and it is listed and present on the host. Each bind comes right after the creation of its target file and binds the host's node from `/oldrootfs` onto the same path. The devices kept follow the list's order. |
| Container.GpuLookupAfterTmpfs | source-code/main.go:265-277 | As written, looked up after the tmpfs on `/dev`, no GPU device is ever bound, whatever the host has. |
| Container.ChildMountOrder | source-code/main.go:256-290 | The plan has 9 fixed calls as written and 10 corrected, then the device calls, then the X11 bind iff `--gui`. The pivot is call 3, the proc mount call 5 and the tmpfs on `/dev` call 7. As written devpts is call 8; corrected, call 8 creates `/dev/pts` and devpts is call 9. The X11 bind, when present, is last. |
| Container.ChildMountCalls | source-code/main.go:256-290 | The child issues only mounts, directory and file creations, the pivot and a chdir; none of its results is ignored. |
| Container.DisplayFor | source-code/main.go:285-288 | The value is the host's `DISPLAY` when that is set and non-empty, and ":0" otherwise. |
| Container.ChildEnvEffective | source-code/main.go:282-294 | Without `--gui` the environment is passed unchanged. With it, the effective `DISPLAY` is the host's or ":0", and every other variable is unchanged. |
| Container.MustRun | source-code/main.go:342-347 | A `must` sequence either stops at its own call, logged last with the error, or has every call accepted. |
| Container.MustStopsChild | source-code/main.go:342-347 | In both variants the command starts iff the child exits normally. A mount panic names a plan call, logged last. A started command follows an all-accepted plan. |
| Container.MountBelowFreshTmpfs | source-code/main.go:265-266 | Once a tmpfs mount is accepted, a following mount onto a path below it fails with ENOENT. |
| Container.DevPtsMountFails | source-code/main.go:256-266 | As written, for every argument list, host and kernel behaviour, `child` panics before it starts the command. |
| Container.ChildPanicsAtDevPts | source-code/main.go:256-266 | As written, with no faults and a fresh process, the first seven calls are accepted and `child` panics at the devpts mount with ENOENT. |
| Container.FreshDirsRun | source-code/main.go:265-267 | Corrected, with no faults, the tmpfs on `/dev`, the creation of `/dev/pts`, devpts and the tmpfs on `/run` are all accepted, leaving fresh tmpfs instances on exactly `/dev` and `/run`. |
| Container.HostDeviceBindsRun | source-code/main.go:270-279 | Corrected, below fresh `/dev` and `/run`, every device file creation and host bind is accepted. |
| Container.CorrectedMountsAccepted | source-code/main.go:256-290 | Corrected, with no faults and a fresh process, every call of the child's mount sequence is accepted. |
| Packages.ContainerName | source-code/main.py:28-30 | The name is "isolator-" followed by the package, character for character, with each `/` changed to `-`, so the name contains no `/`. |
| Packages.ContainerNameCollides | source-code/main.py:28-30 | Two packages share a container iff they differ only in `/` versus `-`. |
| Packages.ContainerNameNotInjective | source-code/main.py:28-30 | "a/b" and "a-b" map to the same container. |
| Packages.NoPrefixInRenamed | source-code/main.py:130 | For a package without `-` or "isolator/", the renamed package contains no "isolator-". |
| Packages.PackageOfContainerName | source-code/main.py:130 | The reverse mapping recovers every package that has no `-` and no "isolator/". |
| Packages.PackageOfDashed | source-code/main.py:130 | The reverse mapping turns "a-b" into "a/b". |
| Text.ReplaceAllAbsent | source-code/main.py:130 | `str.replace` leaves a string without the pattern unchanged. |
| Packages.IsolatorContainers | source-code/main.py:118-121 | A name is kept iff it was listed and starts with "isolator-". |
| Packages.IsolatorContainersInOrder | source-code/main.py:121 | The filter keeps listing order, and keeps everything when all names have the prefix. |
| Packages.UpdateCommands | source-code/main.py:89-114 | `update` issues `install`'s steps without the creation. |
| Packages.UpgradeEachLayout | source-code/main.py:129-151 | Container k is started, upgraded and stopped by commands 3k, 3k+1 and 3k+2. |
| Packages.UpdateAllTouchesIsolatorContainers | source-code/main.py:123-151 | Nothing is issued iff no prefixed container is listed, and every command targets a listed prefixed container. |
| Packages.RunCommands | source-code/main.py:32-38 | Commands issued are a prefix of the list. Every command before the last issued succeeded. A failure is the last issued, and nothing follows it. |
| Packages.RunEach | source-code/main.py:32-38 | The loop with early return issues exactly the prefix that `RunCommands` describes and reports its failure. |
| Packages.InstallFailStop | source-code/main.py:40-76 | `install` issues a prefix of create, start, upgrade, install, stop, in that order. A failed create stops everything. `pacman -S` is issued iff four steps were reached, and all five succeed iff no failure is reported. |
| Text.DecimalRoundTrip | source-code/src/main.rs:184 | The decimal text of a number parses back to it. |

## Left out

- The progress bars, spinners, colours, log output and the `inquire` prompt are not modelled. The prompt's answer is a parameter (`Answer`).
- `setup_rootfs` is modelled only by the directory it creates; fetching a real rootfs is not part of the code either.
- Kernel semantics are modelled only as far as the code depends on them: the kernel is a refusal function plus a fault oracle. Only a tmpfs mount removes paths, and only creations add them. `pivot_root` does not move the host's paths under the old root, and a creation does not need its parent directory.
- Three kernel preconditions of the Rust child are waived. `pivot_root(".", "old_root")` (src/main.rs:155) is accepted although nothing creates `old_root` in the application directory and that directory is not a mount point. The read-only remount of `/usr` (src/main.rs:159) is accepted although `/usr` is not a mount point. The `gid_map` write (src/main.rs:185-186) is accepted although it comes before `setgroups` is set to "deny". On a real kernel the child stops at the pivot at the latest, and the mounts made before it are not carried into the new root.
- SandboxFindings.SwitchStopsExactlyAtRemount: the stop at the remount holds only on a kernel that accepts the pivot without `old_root`; a real kernel refuses the pivot first.
- SandboxFindings.FilterBlocksUsrRemount: the EPERM at the remount is reached only on a kernel that waives the three preconditions above.
- SandboxFindings.CorrectedChildReachesExec: reaching the exec depends on the same waiver; the corrected order alone does not get a real child past the pivot.
- LaunchProofs.CorrectedLaunchStartsApp: inherits the waiver through `CorrectedChildReachesExec`.
- Runtime.DispatchArgs: an argument list that starts with a flag other than a lone "-h" or "--help" is classified as `LeadingFlag` and not resolved further. Cobra's search for a subcommand past leading flags, the help flags of a subcommand and cobra's flag errors are not modelled.
- Sandbox.UserNamespacePlan: each `writeln!` is modelled as one write of its whole line. On an unbuffered `File`, Rust's formatting hands "0 ", the uid and " 1\n" to the kernel as three writes, and the kernel accepts an id map only as complete lines in one write. The model does not show the error that follows.
- The X11 socket bind is modelled as a bind of `/tmp/.X11-unix` onto itself in both variants. Since `pivot_root` renames nothing in the model, whether that path is the host's socket directory is not modelled.
- The fork itself is not modelled; the parent and the child are two separate continuations.
- `getuid()` and the home directory are parameters of `Request`. The child's pid, and what `waitpid` returns beyond success or failure, are left out.
- The Go side's `pull`, `list` and `rm` subcommands are not modelled; image download (`pullImage`) and directory listing are I/O. `sanitizeName` is modelled on its own.
- `filepath.Join`'s lexical clean-up is not modelled. `Runtime.GoJoin` assumes a base without a trailing separator and an element without `..`.
- `os.Stat` on the rootfs and on the devices is modelled by sets of existing paths, given as parameters.
- Whether the Go command succeeds is a boolean parameter, and the one-second sleep is left out.
- The Python side's Podman and pacman effects are left out; whether a command succeeds is an oracle (`Succeeds`).
- The output of `podman ps` is the list of names. Decoding, `strip()` and `splitlines()` are not modelled.
- Python's exception handling in `main` is modelled as the fail-stop of `RunCommands`: a failure ends the operation. The message printed is left out.
- `how-working` prints text only and is not modelled.
- `remove` is modelled as its single command (`Packages.RemoveCommands`) and has no lemma: running it is one `run_command`.
- Packages.InstallCommands: its contract states only the length; the order of its steps and their fail-stop are stated by `InstallFailStop`.
- Packages.UpdateAllCommands: its contract states only the length; what the commands target is stated by `UpdateAllTouchesIsolatorContainers` and `UpgradeEachLayout`.

## Findings

| source | as written | input that shows it | evidently intended | confidence | as-written member | corrected member |
|---|---|---|---|---|---|---|
| source-code/src/main.rs:151-159 | The filter that denies `mount` is loaded before the `/usr` read-only remount, which is itself a mount. | Any request on a host without `/proc`, on a kernel that accepts every call, including the id-map writes, the pivot without `old_root` and the remount of a path that is not a mount point (see "## Left out"); a real kernel stops the child earlier. | The sandbox is built first and the filter is loaded last, just before the exec. Proved only on that same kernel: the corrected order does not create `old_root` or make the directories mount points. | high, not executed | SandboxFindings.FilterBlocksUsrRemount | SandboxFindings.CorrectedChildReachesExec |
| source-code/src/main.rs:194 | `mkdir("/proc")?` fails with EEXIST whenever `/proc` already exists. | Any request on a host where `/proc` exists (every Linux host), on a kernel that accepts the id-map writes. | An existing `/proc` is accepted (create-if-missing). | high, not executed | SandboxFindings.ProcMkdirFailsWhenPresent | SandboxFindings.CorrectedChildReachesExec |
| source-code/main.go:79 | `runContainer` re-executes the binary as `child ...`, but no "child" subcommand is registered. | `run r xterm` with an existing rootfs `r`, re-executed as `child /var/lib/isolator/rootfs/r xterm`. | A hidden "child" subcommand that calls `child(args)` and sets cobra's `DisableFlagParsing`, so that "--gpu", "--gui" and the command's dash arguments reach `child` unchanged. | high, not executed | Container.ContainerNeverStarts | Container.CorrectedContainerStartsCommand |
| source-code/main.go:265-266 | devpts is mounted on `/dev/pts` right after a fresh tmpfs has replaced `/dev`, so `/dev/pts` does not exist; the mount fails with ENOENT and `must` panics. | Any `child` run whose tmpfs mount on `/dev` succeeds, e.g. `run r xterm` once "child" is reachable. | `/dev/pts` is created in the new `/dev` before devpts is mounted on it. | high, not executed | Container.DevPtsMountFails | Container.CorrectedMountsAccepted |
| source-code/main.go:265-277 | GPU devices are looked up with `os.Stat` after a fresh tmpfs has been mounted on `/dev`, so none is found. | `run --gpu r cmd` on a host that has `/dev/nvidia0` (the devpts mount fails first; the lookup finds nothing even once that is fixed). | The host's devices are looked up through the old root and bound from `/oldrootfs` onto files created in the new `/dev`. | medium, not executed | Container.GpuLookupAfterTmpfs | Container.DeviceBindsSelect |
