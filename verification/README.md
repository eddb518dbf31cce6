# Verification of the hard core of tinfoil

This project models the parts of the repository that have to be right in every
case and cannot be seen to be right by reading one function: a compiler whose
output is jumps, protocols whose steps interleave, a transaction that unwinds
itself, scripts whose effect depends on order, and binary formats that two sides
have to read alike. `dafny verify dfyconfig.toml` checks all of it.

| file | models |
|---|---|
| `Seccomp.dfy` | the service seccomp policy compiled to a classic BPF program, and the machine that runs it |
| `Volume.dfy` | the activation of an encrypted storage volume as a transaction over the kernel, the disk and the seal register, at boot, at enrollment and on request |
| `Supervisor.dfy` | services started, restarted and drained by any number of goroutines under one mutex |
| `Readiness.dfy` | the fail-closed readiness gate, alone and over every run of the supervisor |
| `StopProcesses.dfy` | SIGTERM, a grace period, `cgroup.kill`, another grace period |
| `Reaper.dfy` | the one owner of `wait4`, with pid reuse, adopted children and a signal channel of one token |
| `Firewall.dfy`, `ForwardVerdict.dfy`, `InputVerdict.dfy` | container networks compiled to an nftables script, what the script leaves behind, and what the resulting chains decide |
| `Egress.dfy`, `Ipv4Ranges.dfy` | allow sets resolved, filtered and replaced, over every sequence of installs and refreshes |
| `AttestationCache.dfy` | the single-flight cache of attestation collateral |
| `Enrollment.dfy` | any number of concurrent enrollments of one sandbox |
| `Spdm.dfy`, `Topology.dfy`, `FabricBytes.dfy` | the opaque data of SPDM measurement reports, the check that GPUs and switches form a full mesh, and what it says of the bytes of the reports |
| `DmBuffer.dfy` | device-mapper ioctl buffers, written in place and read back |
| `Dcode.dfy`, `Base32.dfy` | byte payloads as numbered base32 DNS labels, and the encoding in terms of numbers |
| `YamlTree.dfy` | the explicit-stack walk that bounds a YAML tree |
| `Options.dfy`, `Bytes.dfy`, `Powers.dfy`, `Sequences.dfy`, `Names.dfy` | values that may be missing, little-endian integers, powers of two, sequences and permutations, the order of names |

The code changes state in place, so the model does: the objects of the source are
classes with its fields, their loops are loops, and a step that runs under a mutex
is one method. What the kernel and other programs answer is either an input, so that
outcomes are stated exactly (`Volume.dfy`, `Supervisor.dfy`, `Reaper.dfy`), or
recorded in a trace, so that every theorem holds for every answer
(`StopProcesses.dfy`). Theorems about interleavings are about every sequence of
steps. Where a method is proved equal to a function, what it promises is also stated
without that function: with the numbers of the source, on raw bytes, or on the chain
an install leaves.

## What the proofs found

- **Seccomp.** The distance of the jump over the socket domains is converted to a
  byte and wraps. The program is still correct for most lists longer than 126,
  because a jump that falls short lands on an "allow" inside the list. It is wrong
  on some call exactly when the list's length is 127 modulo 128 and the policy
  allows a call other than `socket` with a first argument that is not listed
  (`CompilerIsCorrectOnEveryCallExactlyWhen`); `WrappedJumpWitness` is such a call.
- **Volume, the seal.** An attempt extends the seal register and then fails exactly
  when everything works but the close of the register's file after the write
  (`OpenWorkspace`, `Handle`, `SealedButFailedExactly`; `SealedButFailed` is such a
  run). The comment that no fallible work follows a successful seal does not cover
  the close.
- **Volume, the superblock.** An initialization that fails inside
  `ActivateIntegrity` leaves a superblock on the blank disk exactly when it got as
  far as building the probe table (`ActivateIntegrity`, `ActivateWith`): the header
  is rolled back only for failures after `ActivateIntegrity` returned. A disk that
  is neither blank nor formatted is never opened by any later attempt (`EveryRun`);
  `StrandedDisk` is a boot that leaves one.
- **Firewall.** The verdict on a new flow does not depend on the other networks or
  on their order. The verdict on an established packet between two declared bridges
  does: it is accepted if the destination's name is listed before the source's, and
  otherwise the source's mode decides where it says something
  (`EstablishedIsDecidedByOrder`). The order of the names matters exactly when that
  mode says drop (`OrderMattersExactly`). The source renders the names ascending, so
  there it is the names that decide (`EstablishedIsDecidedByName`).
- **Egress.** The firewall's and the resolver's list of non-public ranges differ as
  lists (the firewall's also names 255.255.255.255/32) and denote the same
  addresses.
- **Reaper.** No wakeup is lost in a run whose waits fail only with EINTR or ECHILD
  (`EveryRun`). A collection ends with a forgotten zombie exactly when a wait failed
  otherwise while there was a zombie and nothing was ringing (`CollectOne`), and
  nothing collects it before something rings (`Turn`); `ForgottenZombie` is such a
  run.

## Model

| member | source | states |
|---|---|---|
| Seccomp.ServiceSeccompFilters | tinfoil/internal/pid1/hardening/seccomp_linux_amd64.go:48-94 | the loop of appends yields, for any lists, the program the verdict theorem below is about |
| Seccomp.RunIsExec | tinfoil/internal/pid1/hardening/seccomp_linux_amd64.go:48-94 | running a program from a position depends only on what follows it, so relative jumps compose |
| Seccomp.OddDomainInsnAllows | tinfoil/internal/pid1/hardening/seccomp_linux_amd64.go:83-91 | every second instruction of the domain list allows |
| Seccomp.ExecSocketJump | tinfoil/internal/pid1/hardening/seccomp_linux_amd64.go:83-91 | where the wrapped jump byte takes a call that is not socket, for every list length |
| Seccomp.CompiledVerdict | tinfoil/internal/pid1/hardening/seccomp_linux_amd64.go:48-94 | for every policy and every call, the emitted program returns the declared verdict, or the domain error if the wrapped jump falls through, and never faults |
| Seccomp.CompilerIsCorrectExactlyWhen | tinfoil/internal/pid1/hardening/seccomp_linux_amd64.go:48-94 | per call: program and policy agree if and only if the wrapped jump does not fall through on a call the policy allows |
| Seccomp.CompilerIsCorrectOnEveryCallExactlyWhen | tinfoil/internal/pid1/hardening/seccomp_linux_amd64.go:48-94 | for a policy: the program is correct on every call if and only if the length of the list is not 127 modulo 128 or no call with an unlisted argument is allowed but socket |
| Seccomp.WrappedJumpWitness | tinfoil/internal/pid1/hardening/seccomp_linux_amd64.go:83-91 | a concrete policy and call on which program and policy disagree |
| Seccomp.ProgramIsInBounds | tinfoil/internal/pid1/hardening/seccomp_linux_amd64.go:48-94 | for every policy every load is aligned and in range, every jump stays inside the program and the last instruction returns |
| Seccomp.ProgramIsInstallableExactlyWhen | tinfoil/internal/pid1/hardening/seccomp_linux_amd64.go:26-46 | the kernel is handed the whole program, through a 16-bit length, and installs it if and only if the lists keep it within 4096 instructions |
| Volume.Volume.BlockDeviceBlank | tinfoil/internal/volume/volume.go:472-501 | whatever a stale page cache holds, the answer is about the disk |
| Volume.Volume.RestoreBlank | tinfoil/internal/volume/volume.go:503-513 | asked for only when the integrity device is gone or could not be removed; the header is blank afterwards exactly as far as its calls work |
| Volume.Volume.ActivateIntegrity | tinfoil/internal/devicemapper/devicemapper.go:688-745 | succeeds exactly on a blank disk when initializing and on one with a superblock otherwise, if its calls work; leaves no mapping when it fails; leaves a superblock on a blank disk exactly if the probe table was built |
| Volume.Volume.LoadIntegrityTable | tinfoil/internal/devicemapper/devicemapper.go:747-765 | exactly when it succeeds and when it writes a superblock; removes the mapping it created if the table does not load |
| Volume.Volume.MountOverlays | tinfoil/internal/volume/volume.go:389-443 | reports exactly the layers it mounted, also when one fails after it was mounted |
| Volume.Volume.Unstack | tinfoil/internal/volume/volume.go:339-346 | undoes a run of layers newest first, each only when nothing is left above it |
| Volume.Volume.ExtendSeal | tinfoil/internal/volume/volume.go:372-385 | the register is extended exactly if it is there, opens and is written, and the call succeeds exactly if it also closes |
| Volume.Volume.ExportAndSealWith | tinfoil/internal/volume/workspace.go:113-133 | the inner transaction: exactly when it succeeds and when it extends the register; both exports, or neither |
| Volume.Volume.WithOverlays | tinfoil/internal/volume/volume.go:338-350 | on failure of an overlay or of the final step only the volume's own mount is left |
| Volume.Volume.WithCrypt | tinfoil/internal/volume/volume.go:299-350 | says whether the mount has to be undone, and asks for a blanked header if and only if it was initializing and the format did not finish |
| Volume.Volume.WithTags | tinfoil/internal/volume/volume.go:290-350 | the tags descriptor is closed on every path, and on failure only the integrity mapping is left |
| Volume.Volume.ActivateWith | tinfoil/internal/volume/volume.go:268-351 | the whole outcome as a function of the state before and of the calls that fail: all layers and the seal, or none of them; when the register is extended, the disk formatted, the header zeroed, and a superblock left behind; every undo is asked for only when everything stacked above is gone, the zeroing last |
| Volume.Volume.Prepare | tinfoil/internal/volume/volume.go:190-251 | tells a mounted volume from one with leftovers, and removes those |
| Volume.Volume.Mount | tinfoil/internal/volume/volume.go:114-132 | exactly when it opens the volume, and when it finds it mounted and does nothing; a disk that is not blank keeps its header and its filesystem and opens only under the key it was formatted with; when a blank disk is left with a bare superblock |
| Volume.Volume.OpenWorkspace | tinfoil/internal/volume/workspace.go:36-81 | exactly when it succeeds and when it extends the register; then both exports are in place |
| Volume.Volume.Handle | tinfoil/internal/volume/worker.go:116-150 | exactly when each of the four replies is given (rejected: too large, unreadable, unknown, a key that is not 64 bytes, or an initialization of a disk found not to be blank); exactly when the register is extended; only an explicit request on a blank disk formats; rejected and status requests change nothing |
| Volume.Volume.EveryRun | tinfoil/internal/volume/volume.go:114-132 | over every run of boots, enrollments, requests and restarts: once a format has finished the disk is never formatted or zeroed again, at most one format ever finishes, a boot is only marked with the key of the disk, and a disk neither blank nor formatted is never opened |
| Volume.Volume.Longer | tinfoil/internal/volume/volume.go:114-132 | one more attempt keeps a settled history settled |
| Volume.SealedButFailedExactly | tinfoil/internal/volume/volume.go:372-385 | the finish extends the register and fails if and only if only the close of the register's file fails |
| Volume.NothingFails | tinfoil/internal/volume/workspace.go:36-81 | a fresh disk with no failing call is formatted, mounted, exported and sealed |
| Volume.SealedButFailed | tinfoil/internal/volume/workspace.go:113-133 | a run that fails with the register extended and nothing left mounted |
| Volume.StrandedDisk | tinfoil/internal/devicemapper/devicemapper.go:702-719 | a run that leaves a superblock without a filesystem, and no later run opens that disk |
| Supervisor.NextDelay | tinfoil/internal/pid1/supervisor/supervisor.go:785-790 | is the smaller of twice the delay and the maximum, without exceeding a 64-bit duration |
| Supervisor.Supervisor.constructor | tinfoil/internal/pid1/supervisor/supervisor.go:531-553 | delays that are not given are two and thirty seconds, and the longest is never shorter than the first |
| Supervisor.Supervisor.Start | tinfoil/internal/pid1/supervisor/supervisor.go:555-592 | refused exactly while draining, under a taken name or for a launcher without a check; otherwise exactly what is registered, started, stopped and given up, from what starting, writing the pid file and stopping answer |
| Supervisor.Supervisor.StartLocked | tinfoil/internal/pid1/supervisor/supervisor.go:594-619 | starts a child exactly unless draining, if it can be started; one whose pid file cannot be written is stopped, and forgotten exactly if it stopped cleanly |
| Supervisor.Supervisor.CheckReady | tinfoil/internal/pid1/supervisor/supervisor.go:641-667 | an instance passes and is announced exactly if its service's own check, where it has one, answers so, and it has not exited or is a launcher that exited cleanly and left its cgroup populated; otherwise it is stopped, after a report where it is a replacement |
| Supervisor.Supervisor.Retire | tinfoil/internal/pid1/supervisor/supervisor.go:621-639 | the name is given up only once the process was passed to stopProcesses |
| Supervisor.Supervisor.ObserveExit | tinfoil/internal/pid1/supervisor/supervisor.go:669-683 | a monitor stops watching without a report exactly for a launcher that exited cleanly and whose wait for its cgroup failed under a cancelled context |
| Supervisor.Supervisor.ReadDraining | tinfoil/internal/pid1/supervisor/supervisor.go:685-699 | what an exited process left is stopped here exactly unless a drain will do it; the delay starts anew exactly after a stable run |
| Supervisor.Supervisor.Restart | tinfoil/internal/pid1/supervisor/supervisor.go:701-743 | nothing is started once draining or cancelled; otherwise the delay grows as above and exactly what can be started is |
| Supervisor.Supervisor.StopReplacement | tinfoil/internal/pid1/supervisor/supervisor.go:724-738 | a replacement that was not ready is passed to stopProcesses, its failure to stop is reported, and the next attempt waits |
| Supervisor.Supervisor.Snapshot | tinfoil/internal/pid1/supervisor/supervisor.go:827-837 | holds exactly the current processes of the registered services of the group |
| Supervisor.Supervisor.StepDrain | tinfoil/internal/pid1/supervisor/supervisor.go:800-825 | the groups are stopped in the order given, each from a snapshot, and a drain ends only after the stop of the services no group named |
| Supervisor.Supervisor.GroupsInOrder | tinfoil/internal/pid1/supervisor/supervisor.go:800-825 | while any drain stops a group, the current process of every service in the groups before it has been passed to stopProcesses, and while it stops the rest those of every group |
| Supervisor.Supervisor.RunService | tinfoil/internal/pid1/supervisor/supervisor.go:669-744 | every step of a service's goroutine keeps the invariant, starts nothing while draining, and passes only the instance it checked, with the answer of its service |
| Supervisor.Supervisor.DrainedMeansAllPassed | tinfoil/internal/pid1/supervisor/supervisor.go:800-837 | when a drain has returned every instance ever started has been passed to stopProcesses |
| Supervisor.Supervisor.EveryRun | tinfoil/internal/pid1/supervisor/supervisor.go:555-837 | in every interleaving nothing starts after draining began, after a drain every instance was passed to stopProcesses, every ready report is of an instance that passed its check, and every instance passed since had its service answer so in a step of its own goroutine |
| Readiness.LastReadyExactly | tinfoil/pid1/main.go:838-853 | a service counts as ready if and only if its last report exists and says so |
| Readiness.ReadyMeansUp | tinfoil/internal/pid1/supervisor/supervisor.go:669-744 | a ready last report is of an instance whose service answered that it is usable and whose exit was not reported |
| Readiness.ExitClosesUntilReplaced | tinfoil/internal/pid1/supervisor/supervisor.go:692-743 | after an exit report a service is ready again only by a newer instance that passed its check |
| Readiness.ReadinessState.Update | tinfoil/pid1/main.go:838-853 | keeps the last value set equal to the conjunction of the latest reports, and sets nothing before publishing or after failing |
| Readiness.ReadinessState.Publish | tinfoil/pid1/main.go:855-863 | sets true exactly if nothing failed and every required service was last reported ready |
| Readiness.ReadinessState.FailClosed | tinfoil/pid1/main.go:865-872 | sets false, for good |
| Readiness.Lifecycle.OpenMeansUp | tinfoil/pid1/main.go:822-881 | while the last value set is true every required service is up and no drain has begun |
| Readiness.Lifecycle.CloseGate | tinfoil/pid1/main.go:230-231 | the first step of the way down: the gate is shut, whatever the services do next |
| Readiness.Lifecycle.StartDraining | tinfoil/pid1/main.go:232-233 | the drain begins only behind a shut gate, and reports nothing itself |
| Readiness.Lifecycle.EveryRun | tinfoil/pid1/main.go:822-881 | over every interleaving of services, publishing, closing and the start of the drain: open only while all required services are up, and never true again once closed |
| StopProcesses.FailuresOfBoth | tinfoil/internal/pid1/supervisor/supervisor.go:854-874 | errors are collected in the order of what failed |
| StopProcesses.Stopper.Check | tinfoil/internal/pid1/supervisor/supervisor.go:879-896 | looks at every pending process; drops exactly those seen empty after trying to remove their cgroup, and keeps the unreadable |
| StopProcesses.Stopper.WaitCgroups | tinfoil/internal/pid1/supervisor/supervisor.go:877-917 | for any number of ticks, what it returns as pending was never seen empty and was looked at again, and the grace period is over |
| StopProcesses.Stopper.Escalate | tinfoil/internal/pid1/supervisor/supervisor.go:854-870 | whoever is pending at the end was killed and looked at since, with the five parts of the stop in order and both grace periods waited out |
| StopProcesses.Stopper.Stop | tinfoil/internal/pid1/supervisor/supervisor.go:839-875 | no error if and only if every cgroup was seen empty and removed and nothing failed; SIGTERM only to those never seen empty; a kill only after SIGTERM, another look and the end of the first grace period; exactly one error for each that remains, when the second one is over |
| StopProcesses.Stopper.SuccessExactly | tinfoil/internal/pid1/supervisor/supervisor.go:839-875 | the equivalence for success, from what the trace shows |
| Reaper.HappensLater | tinfoil/internal/pid1/supervisor/supervisor.go:156-173 | no fork, exit or delivery loses a child or a pending signal |
| Reaper.BooksLater | tinfoil/internal/pid1/supervisor/supervisor.go:186-252 | nothing the kernel does on its own makes the children map wrong |
| Reaper.Manager.Start | tinfoil/internal/pid1/supervisor/supervisor.go:190-211 | a child is registered before it can be collected, under a pid whose entry is free, however soon it exits |
| Reaper.Manager.Settle | tinfoil/internal/pid1/supervisor/supervisor.go:239-250 | a collected child completes with its own name, pid and status, or is dropped if it was adopted |
| Reaper.Manager.SettleBooks | tinfoil/internal/pid1/supervisor/supervisor.go:240-247 | completing a collected child keeps every other process registered or done |
| Reaper.Manager.CollectOne | tinfoil/internal/pid1/supervisor/supervisor.go:226-251 | ends the collection exactly on a broken wait or when there is no zombie; a zombie is forgotten exactly if the wait broke while there was one and nothing rang |
| Reaper.Manager.ReapChildren | tinfoil/internal/pid1/supervisor/supervisor.go:226-252 | no process completes twice; no zombie is left if no wait breaks, and it gives up exactly if its last wait broke |
| Reaper.Manager.EveryRun | tinfoil/internal/pid1/supervisor/supervisor.go:213-224 | in every run each process completes at most once with its own status and none is lost; if waits fail only with EINTR or ECHILD, an uncollected zombie implies a token or a signal on its way |
| Reaper.ForgottenZombie | tinfoil/internal/pid1/supervisor/supervisor.go:235-238 | a run that forgets a zombie after a wait failed otherwise |
| Firewall.RenderContainerNetworkScript | tinfoil/internal/firewall/containers.go:32-53 | writes the script of the declared networks, each once and in ascending order of their names |
| Firewall.OneRendering | tinfoil/internal/firewall/containers.go:32-53 | the script is determined by the configuration, however the map is iterated |
| Names.SortedSorts | tinfoil/internal/firewall/containers.go:33-37 | sorting gives the same names in ascending order |
| Names.SortedIsUnique | tinfoil/internal/firewall/containers.go:33-37 | distinct names have one ascending listing |
| Firewall.WriteBridgeRules | tinfoil/internal/firewall/containers.go:60-79 | appends exactly the commands of a bridge's mode; what they decide is stated for the forward chain and for the input chain by the verdict theorems |
| Firewall.BridgeEffect | tinfoil/internal/firewall/containers.go:60-79 | an allow set can be recreated because no rule of another network looks at it |
| Firewall.NetworksEffect | tinfoil/internal/firewall/containers.go:32-53 | the commands of any number of networks are accepted and look at no sets but their own |
| ForwardVerdict.InstallEffect | tinfoil/internal/firewall/containers.go:32-53 | whatever was there before, the whole script is accepted and leaves its rules and empty allow sets |
| InputVerdict.NewPacketsToTheHostAreDropped | tinfoil/internal/firewall/containers.go:32-79 | whatever the networks and their order, the input chain drops a new packet from a declared bridge, or from the shim's where the shim is used, and decides nothing else |
| ForwardVerdict.DecidesConcat | tinfoil/internal/firewall/containers.go:32-79 | the first deciding part of a script decides |
| ForwardVerdict.ChainDecidesByOwnMode | tinfoil/internal/firewall/containers.go:32-79 | on a new flow the chain decides as the mode of the packet's own bridge says, whatever the other networks and their order |
| ForwardVerdict.PublishedPortsAreClosed | tinfoil/internal/firewall/containers.go:32-58 | a DNATed packet is accepted only by the reserved debug rules |
| ForwardVerdict.RepliesAreAccepted | tinfoil/internal/firewall/containers.go:60-79 | replies from outside reach the bridge that asked |
| ForwardVerdict.EstablishedDependsOnOrder | tinfoil/internal/firewall/containers.go:32-79 | a concrete pair of networks and an established packet that two orders decide differently |
| ForwardVerdict.EstablishedIsDecidedByOrder | tinfoil/internal/firewall/containers.go:32-79 | for any networks, order and modes, the verdict on an established packet between two declared bridges: accept if the destination is listed first or the source's mode is silent, else that mode's verdict |
| ForwardVerdict.EstablishedIsDecidedByName | tinfoil/internal/firewall/containers.go:32-53 | as rendered, the destination is listed first exactly if its name sorts first |
| ForwardVerdict.OrderMattersExactly | tinfoil/internal/firewall/containers.go:32-79 | another order decides such a packet otherwise if and only if the source's mode says drop |
| Ipv4Ranges.SameAddresses | tinfoil/internal/egress/egress.go:168-176 | the two range lists denote the same addresses |
| Ipv4Ranges.NonPublicExactly | tinfoil/internal/egress/egress.go:168-176 | the addresses the prefixes cover, octet by octet |
| Egress.PublicIPv4 | tinfoil/internal/egress/egress.go:156-166 | true exactly for IPv4 addresses outside every listed prefix |
| Egress.Resolve | tinfoil/internal/egress/egress.go:130-154 | every public address offered, once, and nothing else; an error exactly when a lookup failed or nothing public was offered |
| Egress.Refresh | tinfoil/internal/egress/egress.go:70-100 | no script unless every allowlist resolved |
| Egress.RefreshReplaces | tinfoil/internal/egress/egress.go:70-100 | a refresh leaves in each set exactly what its name resolved to, and touches nothing else |
| Egress.MissingSetFails | tinfoil/internal/egress/egress.go:70-100 | a refresh before the sets exist changes nothing |
| Egress.EveryRunStaysPublic | tinfoil/internal/egress/egress.go:70-100 | after any sequence of installs and refreshes the allow sets hold public addresses only and the rules are those of the last install |
| Egress.NeverToNonPublic | tinfoil/internal/firewall/containers.go:60-79 | so no new flow from a declared bridge to another interface is ever accepted for a non-public destination |
| Egress.HostStaysClosed | tinfoil/internal/firewall/containers.go:60-79 | after any sequence of installs and refreshes the input chain drops new packets from the bridges of the last install, and decides nothing else |
| AttestationCache.Cache.Current | tinfoil/internal/attestationmaterial/cache.go:50-98 | one pass through the locked part: a fetch starts exactly if none runs and it is time, the unexpired response is served, the caller otherwise waits on the channel of the running fetch, and is turned away exactly if nothing runs and it is too early |
| AttestationCache.Cache.Refresh | tinfoil/internal/attestationmaterial/cache.go:100-119 | the commit of a fetch: what is held, and the next attempt in a minute after a failure, and half-way to expiry but at most a day before it after a success |
| AttestationCache.EnterStartsAndWaits | tinfoil/internal/attestationmaterial/cache.go:50-98 | in every interleaving a caller that finds no fetch running when one is due leaves exactly one running, on a new channel, and waits on it unless it was served |
| AttestationCache.EveryRunIsSingleFlight | tinfoil/internal/attestationmaterial/cache.go:50-119 | in every interleaving at most one fetch runs, each channel is closed exactly once and no caller waits for a fetch nobody runs |
| AttestationCache.StepsAreTimely | tinfoil/internal/attestationmaterial/cache.go:50-119 | fetches start no earlier than scheduled, nothing expired is served and a held response is only ever replaced by a fetched one |
| AttestationCache.CommitSchedules | tinfoil/internal/attestationmaterial/cache.go:107-118 | success schedules strictly after now and no later than expiry; failure keeps the response and retries in a minute |
| AttestationCache.ServedUntilExpiry | tinfoil/internal/attestationmaterial/cache.go:50-85 | until the next commit every caller before expiry is served the held response |
| Enrollment.Sandbox.Claim | tinfoil/cmd/sandbox/main.go:588-596 | names the owner once and refuses everyone after |
| Enrollment.Sandbox.Enroll | tinfoil/cmd/sandbox/main.go:381-415 | the locked part: which of 409, 403, 503 and 204 is answered, when the workspace is opened, sshd started and the owner named |
| Enrollment.OneOwner | tinfoil/cmd/sandbox/main.go:379-415 | however handlers interleave: one open, one start with the owner's line, one grant, and no conflict after an open |
| Enrollment.OwnerIsForever | tinfoil/cmd/sandbox/main.go:588-602 | an owner once named never changes |
| Enrollment.HandlerIsAtomic | tinfoil/cmd/sandbox/main.go:379-415 | every handler that takes the lock leaves the owner, status, opens and starts of one atomic attempt, whichever step makes it reply |
| Spdm.ParseSpdmOpaqueFields | tinfoil/boot/topology.go:64-102 | the offset loop computes the parse the two theorems below are about, without leaving its bounds |
| Spdm.ParseInvertsLayout | tinfoil/boot/topology.go:64-102 | every well-formed report parses to the last value of each type |
| Spdm.OnlyLayoutsParse | tinfoil/boot/topology.go:64-102 | every report that parses is a well-formed one with fewer than four bytes left over |
| Spdm.LastValuesAreLast | tinfoil/boot/topology.go:92-100 | the value kept of a type is that of its last field |
| Topology.ReadFieldAsLittleEndian | tinfoil/boot/topology.go:106-112 | the reversed bytes in hexadecimal |
| Topology.HexIsInjective | tinfoil/boot/topology.go:106-112 | different bytes give different text, so comparing text compares identifiers |
| Topology.ParsePdiSet | tinfoil/boot/topology.go:118-137 | exactly the identifiers of the first chunks that are not zero, or an error when there are too few bytes |
| Topology.SetsEqual | tinfoil/boot/topology.go:139-149 | comparing sizes and members decides equality |
| Topology.CheckGpus | tinfoil/boot/topology.go:169-191 | accepts exactly if all GPUs report one set of as many switches as there are |
| Topology.CheckSwitches | tinfoil/boot/topology.go:193-242 | accepts exactly if all switches are expected, distinct and report one set of GPUs |
| Topology.ValidateTopology | tinfoil/boot/topology.go:156-244 | accepts exactly the full meshes; which bytes of the reports that means is stated by the three theorems below |
| FabricBytes.AcceptedInBytes | tinfoil/boot/topology.go:156-244 | acceptance is equivalent to a full mesh of eight-byte identifiers as they stand in fields 22 and 26 of the raw reports |
| FabricBytes.EveryGpuSeesEverySwitch | tinfoil/boot/topology.go:156-244 | in accepted reports the reversed bytes of every switch's field 22 are a chunk of every GPU's field 22 |
| FabricBytes.GenuineFabricIsAccepted | tinfoil/boot/topology.go:156-244 | for any distinct nonzero identifiers: reports in which each GPU names the switches reversed in field 22, and each switch names itself in field 22 and the GPUs in field 26, are accepted |
| Topology.PigeonHole | tinfoil/boot/topology.go:193-242 | as many distinct members as a set has are all of it |
| Topology.AgreementIsMesh | tinfoil/boot/topology.go:156-244 | what the loops check is equivalent to a bijection of switch reports onto the common set |
| Topology.OrderDoesNotMatter | tinfoil/boot/topology.go:156-244 | acceptance is the same for any order of either list of reports |
| DmBuffer.WriteIsReadBack | tinfoil/internal/devicemapper/devicemapper.go:479-530 | a write is read back unless a later one overlaps it |
| DmBuffer.PutBytesCString | tinfoil/internal/devicemapper/devicemapper.go:590-596 | truncates to the window and terminates, touching no other byte |
| DmBuffer.BaseBuffer | tinfoil/internal/devicemapper/devicemapper.go:479-491 | refuses exactly the sizes that are too small, too large or not a multiple of eight |
| DmBuffer.TableLoadBufferBytes | tinfoil/internal/devicemapper/devicemapper.go:497-526 | refuses exactly what cannot be loaded, and builds in place the buffer the round trip is about |
| DmBuffer.CryptTableBuffer | tinfoil/internal/devicemapper/devicemapper.go:277-287 | the same for a crypt table under any flags, with the name checked first |
| DmBuffer.CryptFlagsExactly | tinfoil/internal/devicemapper/devicemapper.go:285-285 | bits 0x4 and 0x8000 are set and every other bit is the caller's |
| DmBuffer.TableRoundTrip | tinfoil/internal/devicemapper/devicemapper.go:497-584 | every buffer built passes the ioctl's own check and reads back version 4, its size, the start of its data, its name, type, parameters, length, count and flags |
| DmBuffer.FlagsAlone | tinfoil/internal/devicemapper/devicemapper.go:528-530 | rewriting the flags changes no other field |
| DmBuffer.CryptRoundTrip | tinfoil/internal/devicemapper/devicemapper.go:277-287 | the crypt table reads back likewise, with its own flags |
| Dcode.Encode | tinfoil/internal/dcode/dcode.go:12-36 | fails exactly when the suffix leaves no room or more than a hundred chunks are needed; otherwise the names carry the payload, and each fits a label of 63 and all but the last fill it |
| Dcode.Base32RoundTrip | tinfoil/internal/dcode/dcode.go:12-36 | unpadded lower-case base32 decodes to the content |
| Base32.EncodesTheNumber | tinfoil/internal/dcode/dcode.go:14-17 | for every payload the text is the payload as one number, filled with zero bits to whole symbols, in base 32 over a to z and 2 to 7 |
| Dcode.SortSorts | tinfoil/internal/dcode/dcode.go:12-36 | sorting by prefix orders and keeps the names |
| Dcode.AnyOrderDecodes | tinfoil/internal/dcode/dcode.go:12-36 | any permutation of the names, sorted and decoded, gives the content back |
| YamlTree.PushChildren | tinfoil/internal/config/bounds.go:324-327 | pushing the children from last to first keeps document order |
| YamlTree.ValidateYamlTree | tinfoil/internal/config/bounds.go:293-330 | terminates, reports the first limit broken in document order, and accepts exactly the trees within the limits |
| YamlTree.ReportsTheFirst | tinfoil/internal/config/bounds.go:304-328 | the error is the first limit broken, in the order of the checks, at the first visit in document order that breaks one |
| YamlTree.PreorderMeasures | tinfoil/internal/config/bounds.go:293-330 | the walk visits every node once, at its depth, and sums every byte |
| YamlTree.AcceptedMeansWithinLimits | tinfoil/internal/config/bounds.go:293-330 | no violation on the walk if and only if count, depth, bytes and aliases of the whole tree meet the limits |

## Left out

- HTTP serving and clients, TLS, Docker, the key server, DNS and NVML: what they answer is an input.
- Permit verification, key derivation, signatures and hashes: a permit is accepted or not, and the identity a key seals to stands for the key.
- The text of the nftables script: rules are data, and an nft transaction is an interpreter for the commands used here.
- The base nftables policy: a chain's verdict is accept, drop or none of its business.
- A filter program of more than 65535 instructions: it is cut short by the 16-bit length, and what the kernel then makes of it is not modelled.
- Copies of collateral handed to callers: the model's values cannot be aliased.
- A crash in the middle of a volume activation; restarts happen between attempts.
- Volume.Volume.Undo: once an undo has failed the model's kernel refuses every undo below it; the real one may allow some. Nothing is claimed of the stack then, only of the disk and the register.
- Volume.Volume.Mkfs: a format that fails leaves no filesystem, and mounting under a key other than the formatting one fails because tags do not authenticate.
- Volume.Volume.Prepare: the bind mount of the data directory on itself, which stays in place, and the making of directories.
- The cached bytes of a disk are its first mebibyte as one of blank, superblock or other.
- Supervisor.Supervisor.CheckReady: the service's own check and the look at its process are one step, and what the check looks at is its answer only.
- Supervisor.Supervisor.RunService: waiting inside stopProcesses for an instance is not a step of its own; an instance counts as passed from the call on, and what the call does is StopProcesses.Stopper.Stop.
- Pid files are only successes or failures of writing them, and timers are steps that may come at any time.
- StopProcesses.Stopper.Stop: the order in which the per-process stop mutexes are taken, and the order by pid of signals and errors.
- Readiness.ReadinessState.Update: errors of writing the ready file itself; the model is about the values passed to it.
- Reaper.Manager.ReapChildren: interruptions and kernel moves during one collection are finitely many.
- DmBuffer.TableLoadBufferBytes: the minor and patch version are zero as in the source, the erasing of key material after the ioctl and the answers of the kernel are not modelled.
- Topology.ValidateTopology: version checks that only log are not modelled.
- YamlTree.ValidateYamlTree: the structural pre-scan of the text before the parse, and nil content pointers, which the parser does not make.
- Dcode.Encode: content is bytes and the suffix is text of one byte a character.
