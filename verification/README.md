# A verified model of konlet

konlet is the startup agent of Container-Optimized OS. Given a container declaration it
pulls the image, deletes the containers of its earlier runs, unmounts the volumes it had
mounted, prepares the volumes of the declaration (host paths, tmpfs, persistent disks that
may have to be formatted), and creates and starts the container. systemd starts it again
after a failure.

This project models those steps as the code takes them and proves what they guarantee over
whole runs and over any number of runs, whatever the host answers, and what follows when the
host's answers are true.

## How the model is built

* **Histories and oracles** (`Host.dfy`). Everything konlet asks of the outside becomes an
  event: an operating-system command, a `Stat`, a Docker call, each with its reply. An
  `Oracle` is any function from the history so far to the next reply, so "for every oracle"
  means for every behaviour of the host, failures included. The order in which Go walks a
  map is part of the oracle.
* **Functions and methods.** `VolumeProtocol.dfy`, `Containers.dfy` and `RunProtocol.dfy`
  say as functions what konlet sends and returns. `Volumes.dfy` (class `Env`),
  `Containers.dfy` and `RunProtocol.dfy` (class `ContainerRunner`) hold the methods that
  drive a `Session` step by step, with the loops and early returns of the Go code; each is
  proved to produce exactly the history and outcome of its function. The theorems are about
  the functions and so hold for the methods.
* **Worlds** (`World.dfy`). A `World` has a mount table in the order of mounting, block
  devices with filesystem, children and contents, directories, images and containers.
  Mounts may be stacked at one path and nested in one another: a umount is possible only if
  nothing has been mounted since below the topmost mount at the path, which would keep it
  busy, or above it, which would hide it. `Faithful` says that every reply was true of the
  world at its time; any command may still fail, and then has no effect. `Obliging` says
  that a command fails only if it could not have succeeded.
* **Paths** (`Paths.dfy`). A mount enters the table at the place its mount point resolves to,
  with `.` and `..` followed and doubled slashes dropped, and in the form the kernel prints.
  konlet neither cleans nor checks the names it builds mount points from.
* **The mount table as text** (`MountTable.dfy`): the reader of `/proc/mounts`, including
  `bufio.Scanner`'s limit on lines, and the printer it has to undo.
* **Theorems.** `Discipline.dfy` (every oracle), `MountReader.dfy` (every text), `Wire.dfy`
  (every oracle, in the words of Linux and Docker), `DiskTheorems.dfy` and
  `BindingTheorems.dfy` (every oracle, per volume, declaration and run), `DockerSafety.dfy`
  and `HostSafety.dfy` (every moment of every sequence of runs on a truthful host),
  `MountStacks.dfy` (mount tables alone), `MountPoints.dfy` (where mounts land),
  `UnmountLoop.dfy`, `Readiness.dfy`, `Replacement.dfy`, `FlatHistories.dfy`, `Restart.dfy`
  (truthful hosts), `TruthfulHost.dfy` (a host that meets the assumptions, for every world
  whose filesystem names can be printed), `PathTheorems.dfy`, `CommandLines.dfy`.

The main results:

1. **Format safety and data safety.** `HostSafety.FormatSafety`, `HostSafety.SafeAtEveryMoment`.
2. **No double mount, the containers of others untouched, at most one klt container, and
   foreign mounts untouched but for those konlet itself adds where a name leads out of its
   directory**, at every moment of any sequence of complete or interrupted runs of any
   declarations. `HostSafety.SafeAtEveryMoment`, `DockerSafety.AttemptsSpareOthers`.
3. **Restart convergence.** After any sequence of interrupted runs, of any declarations, a
   run succeeds with the mounts of a first run if and only if the mount table it finds is
   readable and unwinds and no earlier mount has strayed (`Restart.RestartConvergesIff`). That
   is always so where every volume and disk name of the earlier declarations is one simple
   name, not empty, `.` or `..` and without slashes, and the managed directory is given as
   the kernel prints it (`Restart.RestartConverges`).
4. **Success if and only if ready.** `Readiness.PreparationSucceedsIffReady`,
   `TruthfulHost.RunSucceedsIffReady`.
5. **Exact cleanup** with stacked and nested mounts and failing umounts.
   `UnmountLoop.CleanupExact`, `UnmountLoop.CleanupComplete`, `MountStacks.SweepClears`.
6. **Parser and printer undo each other**, with the exact condition for a whole table.
   `MountTable.ParsePrintedTable`, `MountTable.VisibleIffReadable`.
7. **Bindings follow the declaration alone**, and three errors of the code cannot occur.
   `BindingTheorems.PreparedBindings`, `BindingTheorems.ConfigurationFollowsDeclaration`.
8. **What is sent is what was declared**, spelled out without the model's own constants:
   names, devices, mount options, restart policies and bindings. `Wire.RunCreatesDeclared`,
   `Wire.RunRemovesOwn`, `Wire.PreparedVolumesAreMounted`, `Wire.DeviceText`.

## What is not true of the code

Some statements one might expect fail, and the model keeps the code as it is:

* The cleanup need not remove every managed mount, even if the host refuses nothing it
  could do. It does exactly if the table is readable and unwinds
  (`UnmountLoop.CleanupComplete`). Readable: no managed mount has a device that starts with
  `#` or stands at or behind a line of more than 65535 bytes (`MountTable.VisibleIffReadable`,
  `MountTable.CommentDeviceIsLost`). konlet's own mounts always are, by the kernel's limit on
  paths (`HostSafety.TableStaysReadable`). Unwinds: the mounts are tried oldest first, but
  those inside one another can only be taken newest first, so along any two paths, one above
  the other, the managed mounts must read the same from both ends
  (`MountStacks.SweepClears`).
* A restarted run need not end like a first run; `Restart.RestartConvergesIff` says exactly
  when it does. With two tmpfs volumes of which one lands inside the other it does not
  (`Restart.NestedVolumesDiverge`, `TruthfulHost.NestedVolumesRunOnce`): `a` and `a/b`
  (`Restart.InnerNameNests`), but also `a` and `..`, which lands on the managed directory
  itself (`Restart.DotDotNests`, `MountPoints.DotDotLandsAbove`).
* A mount need not land in the managed directory: a name with enough `..` between slashes
  reaches any place (`MountPoints.EscapingName`). `MountPoints.InsideIff` is the exact
  condition, and names without `..` stay inside (`MountPoints.DownwardsIsInside`); of the
  names without slashes exactly the empty one, `.` and `..` do not land where their text says
  (`MountPoints.SlashFreeLanding`). A mount that lands where the code does not recognise it
  is never unmounted (`HostSafety.StrayStaysMounted`), and a second run stacks another on it or
  fails (`Restart.EscapingVolumePilesUp`, `TruthfulHost.EscapingVolumeRunsOnce`).
* konlet does not recognise its own mounts if the managed directory is not given as the
  kernel prints it, for example with a doubled slash. `MountPoints.OwnMountsRecognisedIff` is
  the exact condition.
* The test for managed mounts compares strings, not path components, so a mount at a sibling
  whose name extends the prefix is unmounted (`MountStacks.SiblingIsSwept`). The cleanup
  spares everything outside the managed directory exactly if there is no such sibling
  (`UnmountLoop.CleanupSparesOutside`), and then so does every run whose mounts land inside
  (`HostSafety.OutsideMountsKept`). "Foreign" means foreign by the code's test.
* A badly defined volume need not be rejected before anything happens: the handlers act
  before the definitions are counted. It is exactly if no emptyDir asks for memory and no
  disk passes the metadata checks (`DiskTheorems.RejectedVolumeHasActed`);
  `DiskTheorems.BadDeclarationIsRejected` is the condition for a whole declaration.
* Two disk volumes may denote one device, as partition 1 of `x` and the disk `x-part1` do
  (`PathTheorems.AliasExample`); `PathTheorems.DevicePathsAlias` says exactly when. The
  preparation of such a declaration fails (`Readiness.SharedDeviceFails`).
* Partitions of one disk share a mount point (`PathTheorems.PartitionsShareMountPoint`); the
  later one is stacked on the earlier, and both bindings show it
  (`Readiness.LaterPartitionIsServed`). `Readiness.VolumeIsServed` says exactly when a binding
  shows its own volume. The cleanup copes with stacked mounts.
* A bind string with a colon in a path is ambiguous (`BindingTheorems.ColonsAreAmbiguous`).
* Duplicate volume or container names are accepted, and the last one wins
  (`BindingTheorems.PreparedBindings` is stated with that rule).
* The comment on the mount reader speaks of any line that is a comment; the code also takes
  a real entry for one, as above. The model follows the code.

## Model

| member | source | states |
|---|---|---|
| HostSafety.FormatSafety | gce-containers-startup/volumes/volumes.go:337-347 | in any sequence of complete or cut runs against any host, an mkfs comes directly after a look at that block device and blank one-line MOUNTPOINT and FSTYPE reports for it; if the replies were true, the device has no filesystem, no children and no mount |
| HostSafety.SafeAtEveryMoment | gce-containers-startup/runtime/runtime.go:226-334 | at every moment of any such sequence on a host that was truthful so far: each device is unchanged or was blank and got formatted; the foreign mounts are those there were, in order, and then the mounts of konlet that landed where its test does not recognise them, of which there are none if all declared names land where it does; if they land in the managed directory and no mount point is a sibling that extends its name, all mounts outside it are unchanged; no persistent disk is mounted twice if none was; the containers recognised under none of the declarations are exactly as they were, in order; and at most one klt container exists if at most one did |
| HostSafety.FormatReadyIsBlank | gce-containers-startup/volumes/volumes.go:539-552 | two blank reports of at most one line, if true, mean no filesystem, no children, no mount |
| HostSafety.ReadReport | gce-containers-startup/volumes/volumes.go:543-551 | a true lsblk report has at most one newline exactly for childless devices, and trimming it then yields the property |
| Text.TrimSpaceExact | gce-containers-startup/volumes/volumes.go:551 | trimming takes only whitespace off both ends and leaves none there |
| Text.WhitespaceExact | gce-containers-startup/volumes/volumes.go:551 | the whitespace characters of Unicode |
| HostSafety.DataKept | gce-containers-startup/volumes/volumes.go:464-515 | under the discipline, no device that holds a filesystem or has children ever changes |
| HostSafety.ForeignMountsKept | gce-containers-startup/volumes/volumes.go:101-119 | after every history, the mounts that fail the code's prefix test are those there were, in order, and then the mounts konlet made that fail it, in order |
| HostSafety.StrayStaysMounted | gce-containers-startup/volumes/volumes.go:134-139 | a mount of konlet that fails the code's prefix test is never taken away |
| HostSafety.OutsideMountsKept | gce-containers-startup/volumes/volumes.go:134-139 | if no mount point extends the prefix without a slash and all declared mount points land in the managed directory, all mounts outside it survive every history, in order |
| HostSafety.NoDoubleMount | gce-containers-startup/volumes/volumes.go:518-529 | no persistent-disk device is ever mounted twice |
| HostSafety.TableStaysReadable | gce-containers-startup/volumes/volumes.go:130-141 | konlet never adds a mount its own table reader would miss |
| DockerSafety.AtMostOneKlt | gce-containers-startup/runtime/runtime.go:170-194 | at most one klt container in every reachable state |
| DockerSafety.KltLeftIsTrue | gce-containers-startup/runtime/runtime.go:184-192 | the klt containers left by the last listing and the removals since are all there are |
| DockerSafety.AttemptsSpareOthers | gce-containers-startup/runtime/runtime.go:196-224 | over any number of runs of any declarations, each complete or cut off anywhere, the containers that no declaration recognises are exactly as they were, in order |
| DockerSafety.RunSparesOthers | gce-containers-startup/runtime/runtime.go:196-224 | at every moment of a run that was truthful so far, the containers unrecognised under its declaration are exactly as they were, in order |
| DockerSafety.OthersStay | gce-containers-startup/runtime/runtime.go:184-192 | removing and starting only what a listing showed as own or what was just created leaves every other container as it was |
| DockerSafety.CreatedNameIsFree | gce-containers-startup/runtime/runtime.go:232-241 | every creation in any sequence of runs finds its name free, even if the suffix repeats |
| Discipline.RunIsDisciplined | gce-containers-startup/runtime/runtime.go:118-132 | every run against every host obeys the discipline: umount only of paths that start with the prefix, mkfs only after the three looks, mounts only at paths whose text continues the prefix after a slash and of tmpfs or of a disk that just before, with no more than a look at its filesystem, mkfs or fsck and the mkdir in between, was found to be an idle block device; creation only of klt names after all listed klt containers were removed; removal and start only of containers listed as its own or just created |
| Discipline.AttemptsAreDisciplined | scripts/konlet-startup.service:22 | the same for any number of runs, complete or cut off anywhere, each bounded by the names of its own declaration |
| Discipline.PrepareDeviceWork | gce-containers-startup/volumes/volumes.go:337-347 | after the device checks succeed the device is known to be free, and nothing was said to Docker |
| Discipline.DeleteOldWork | gce-containers-startup/runtime/runtime.go:170-194 | a successful delete phase leaves no klt container of its listing, in whatever order the map is walked |
| Restart.RestartConvergesIff | gce-containers-startup/runtime/runtime.go:226-334 | if a first run from a host without konlet mounts succeeds, then after any sequence of interrupted runs of any declarations a run on an obliging host succeeds with the same mount table if and only if the table it finds is readable and unwinds and no earlier mount landed where the code does not recognise it |
| Restart.RestartConverges | gce-containers-startup/runtime/runtime.go:226-334 | if the volumes and disks of the earlier declarations have simple names (not empty, . or .., no slash) and the prefix is written as the kernel prints it, up to a slash at the end, that run always succeeds, with the same mount table as the first run, the containers that none of the declarations recognises as they were at the start, and one running klt container with the declared bindings |
| Restart.SecondRunConvergesIff | scripts/konlet-startup.service:22 | a second run of the same declaration succeeds with the mounts of the first exactly if the foreign mounts with the planned ones, where they land, are readable and unwind and all planned ones are recognised |
| Restart.NestedVolumesDiverge | gce-containers-startup/volumes/volumes.go:288-304 | with two tmpfs volumes of which one lands inside the other, in either order, the second run fails or ends with other mounts |
| Restart.InnerNameNests | gce-containers-startup/volumes/volumes.go:405-406 | a name that continues another after a slash lands inside it |
| Restart.DotDotNests | gce-containers-startup/volumes/volumes.go:405-406 | every simple name lands inside the name .. |
| Restart.EscapingVolumePilesUp | gce-containers-startup/volumes/volumes.go:288-304 | a tmpfs volume that lands where the code does not recognise it leaves a stray mount, and the second run fails or ends with other mounts |
| Restart.ReadyRunSucceeds | gce-containers-startup/runtime/runtime.go:226-334 | an obliged run that is ready once the old mounts are swept succeeds and leaves what the sweep leaves, the planned mounts, the other containers and the new one |
| Restart.ObligedRunWasReady | gce-containers-startup/runtime/runtime.go:226-334 | conversely, an obliged run that succeeds was ready |
| Restart.SuccessfulRunReplaces | gce-containers-startup/runtime/runtime.go:323-333 | after any successful run the containers are the unrecognised ones, in order, and the new one, running with the declared configuration |
| Restart.InterruptedHost | scripts/konlet-startup.service:22 | what any interrupted history leaves of a host: its images, foreign mounts followed by strays (none if all declared names land recognised), the containers no declaration recognises, disks but for formatted blank ones, a table that fits the reader, and at most one klt container if there was at most one |
| UnmountLoop.CleanupOfCleanTable | gce-containers-startup/volumes/volumes.go:101-119 | cleanup changes nothing where nothing managed is mounted, whether or not the table can be read |
| Wire.UnreadTableIsAnError | gce-containers-startup/volumes/volumes.go:101-105 | if the table cannot be read, cleanup returns that error and sends no umount |
| Wire.RefusedUmountIsReported | gce-containers-startup/volumes/volumes.go:107-119 | the message for a refused umount names device, mount point and reason |
| TruthfulHost.RunSucceedsIffReady | gce-containers-startup/runtime/runtime.go:118-132 | for every world with unique container ids and printable filesystem names there is a truthful and obliging host on which a run succeeds exactly when the declaration can be run and everything is ready once the old mounts are swept |
| TruthfulHost.RestartSucceeds | scripts/konlet-startup.service:22 | on that host a declaration that can be run can be run after any interrupted history, with the same mounts, exactly if the table found is readable and unwinds and no mount strayed, and always if the earlier declarations have simple names and the prefix is plain |
| TruthfulHost.NestedVolumesNeverSettle | scripts/konlet-startup.service:22 | on that host two tmpfs volumes, one landing inside the other, in either order, that could be prepared once are not prepared alike by a second run |
| TruthfulHost.NestedVolumesRunOnce | gce-containers-startup/volumes/volumes.go:288-304 | on an empty host any two such volumes whose paths are short enough do run once, and then not alike |
| TruthfulHost.EscapingVolumeRunsOnce | gce-containers-startup/volumes/volumes.go:288-304 | on an empty host a tmpfs volume that lands outside what the code recognises does run once, strays, and then does not run alike |
| TruthfulHost.TrueOracleIsFaithful | gce-containers-startup/volumes/volumes.go:47-51 | the assumptions Faithful and Obliging can be met in every world whose filesystem names can be printed on a line and trimmed |
| TruthfulHost.TrueReportExistsIff | gce-containers-startup/volumes/volumes.go:543-551 | of a device lsblk can give a true report exactly if its filesystem name is of that kind |
| Readiness.PreparationSucceedsIffReady | gce-containers-startup/volumes/volumes.go:194-243 | on a truthful and obliging host preparation succeeds if and only if declaration, metadata and every volume in turn are ready |
| Readiness.PreparationWasReady | gce-containers-startup/volumes/volumes.go:245-286 | a successful preparation on any truthful host was ready, had exactly the planned effect and appended exactly the planned mounts |
| Readiness.DiskExact | gce-containers-startup/volumes/volumes.go:314-361 | the disk handler succeeds only if the device is present, childless, idle and of the right filesystem, has exactly the planned effect, and on an obliging host always succeeds then |
| Readiness.VolumesExact | gce-containers-startup/volumes/volumes.go:254-285 | the same for all volumes in turn |
| Readiness.SharedDeviceFails | gce-containers-startup/volumes/volumes.go:329-342 | two volumes on one device path never succeed on a truthful host |
| Readiness.VolumeIsServed | gce-containers-startup/volumes/volumes.go:254-285 | after a successful preparation on a truthful host, the topmost mount at the host path a volume is bound to is its own exactly if no later volume plans one there or the last that does plans the same |
| Readiness.LaterPartitionIsServed | gce-containers-startup/volumes/volumes.go:350 | of two partitions of one disk, both bindings show the later, if no third volume is mounted over it |
| Readiness.NoWorseIsReady | gce-containers-startup/volumes/volumes.go:493-513 | formatting blank devices never makes a ready declaration unready |
| UnmountLoop.CleanupExact | gce-containers-startup/volumes/volumes.go:101-119 | for every table that was read: after cleanup foreign mounts are intact, each managed path has lost from the top one mount for each of its mounts that the reader saw and whose umount did not fail, the error is nil exactly when none failed and otherwise joins the messages by newlines; if none failed, no managed mount is left exactly if the table was readable |
| UnmountLoop.CleanupComplete | gce-containers-startup/volumes/volumes.go:101-119 | on an obliging host cleanup leaves no managed mount if and only if the table is readable and unwinds (in a flat table: if and only if it is readable), and then it succeeds and leaves exactly the foreign mounts |
| UnmountLoop.CleanupSparesOutside | gce-containers-startup/volumes/volumes.go:134-139 | on an obliging host with a readable table in which no foreign mount hides a managed one, cleanup keeps every mount that is not in the managed directory if and only if every mount point that properly extends the prefix goes on with a slash |
| MountStacks.SweepClears | gce-containers-startup/volumes/volumes.go:106-113 | trying the managed mounts oldest first takes them all away exactly if the table is readable and, along any two paths one at or above the other, holds the foreign mounts first and then managed ones that read the same from both ends |
| MountStacks.SiblingIsSwept | gce-containers-startup/volumes/volumes.go:134-139 | a mount at the prefix followed by -backup is not in the managed directory and is unmounted |
| FlatHistories.AttemptsLeaveFlatTable | gce-containers-startup/volumes/volumes.go:405-406 | from a host without konlet mounts, any runs of declarations with simple names leave a table in which nothing is mounted above or below a managed mount after it, whatever the host answers |
| FlatHistories.SimplePointsApart | gce-containers-startup/volumes/volumes.go:405-406 | of two mount points of simple names, as the table shows them, none is inside the other |
| MountPoints.AttemptsMountDeclared | gce-containers-startup/volumes/volumes.go:350 | whatever the host answers, any runs ask for mounts only at mount points their declarations name |
| MountPoints.SlashFreeLanding | gce-containers-startup/volumes/volumes.go:405-406 | of the names without slashes exactly the empty one, . and .. do not resolve to the name in its family's directory |
| MountPoints.DotDotLandsAbove | gce-containers-startup/volumes/volumes.go:405-406 | the name .. lands on the managed directory itself |
| MountPoints.DotLandsAbove | gce-containers-startup/volumes/volumes.go:405-406 | the name . lands on the directory of its family |
| MountPoints.EscapingName | gce-containers-startup/volumes/volumes.go:405-406 | with one .. more than the managed directory has names, a name lands wherever its rest leads from the root directory |
| MountPoints.InsideIff | gce-containers-startup/volumes/volumes.go:405-406 | if the managed directory is written as the kernel prints it, a path lands in it exactly if its resolved names begin with the directory's |
| MountPoints.DownwardsIsInside | gce-containers-startup/volumes/volumes.go:405-406 | a name with no .. between its slashes lands in the managed directory |
| MountPoints.OwnMountsRecognisedIff | gce-containers-startup/volumes/volumes.go:134-139 | the prefix test recognises all konlet mounts of simple names exactly if the prefix is written as the kernel prints it, up to a slash at the end |
| UnmountLoop.UnmountAllAt | gce-containers-startup/volumes/volumes.go:107-113 | at each path the loop removes as many mounts, from the top, as umounts succeeded |
| UnmountLoop.UnmountAllTriesEach | gce-containers-startup/volumes/volumes.go:107-113 | for every host, each mount of the snapshot is tried once and in order, and the failures are exactly the refused mounts with their messages, in order |
| MountTable.ParsePrintedTable | gce-containers-startup/volumes/volumes.go:124-142 | for every table, reading its printed form yields exactly the visible managed mounts, field for field and in order |
| MountTable.VisibleIffReadable | gce-containers-startup/volumes/volumes.go:124-142 | all managed mounts are read exactly when none looks like a comment or stands at or behind an over-long line |
| MountTable.ParsePrintedEntry | gce-containers-startup/volumes/volumes.go:148-170 | parsing a printed entry yields the entry, or a comment exactly when the device starts with # |
| MountTable.UnescapeUndoesEscape | gce-containers-startup/volumes/volumes.go:156-169 | unescaping undoes escaping for every string |
| MountTable.EscapeUndoesUnescape | gce-containers-startup/volumes/volumes.go:156-169 | escaping restores a text exactly when every special character in it is inside an escape |
| MountTable.SinglePassMatters | gce-containers-startup/volumes/volumes.go:158-163 | an escaped backslash before 040 stays a backslash and digits |
| MountTable.CommentDeviceIsLost | gce-containers-startup/volumes/volumes.go:149-151 | a managed mount with a device starting with # is not read |
| MountTable.ReadTable | gce-containers-startup/volumes/volumes.go:124-142 | the loop over the scanner reads what the table parser says |
| MountTable.LineScanner.Scan | gce-containers-startup/volumes/volumes.go:130-132 | one step of the line scanner, which stops at an over-long line |
| MountReader.ScannedLinesExact | gce-containers-startup/volumes/volumes.go:129-131 | for every text, ended or not, the scanner passes on the parts between newlines, each without one final carriage return, up to the first of 64 KiB or more |
| MountReader.FinalNewlineDoesNotMatter | gce-containers-startup/volumes/volumes.go:129-139 | a text whose last line is not ended is read like the same text with a newline |
| MountReader.UnendedTableIsRead | gce-containers-startup/volumes/volumes.go:124-142 | for every table, its printed form without the last newline still yields exactly the visible managed mounts |
| MountReader.MalformedIff | gce-containers-startup/volumes/volumes.go:152-155 | a line that is no comment is malformed exactly if it has fewer than three spaces |
| MountReader.FirstFourFields | gce-containers-startup/volumes/volumes.go:152-169 | the first four fields make the entry, whatever follows |
| MountReader.EscapesAreOctal | gce-containers-startup/volumes/volumes.go:156-163 | space, tab, newline and backslash, and nothing else, are escaped, by the three octal digits of their code |
| MountReader.UndoesOctalEscapes | gce-containers-startup/volumes/volumes.go:156-163 | exactly these four octal escapes are undone |
| BindingTheorems.PreparedBindings | gce-containers-startup/volumes/volumes.go:194-243 | for every host a successful preparation means a consistent declaration and binds each mount in order to the last volume of its name with path and mode copied; the read-only and missing-demand errors never occur |
| BindingTheorems.ConfigurationFollowsDeclaration | gce-containers-startup/runtime/runtime.go:260-333 | the created configuration is the declared one, and the binding lookup never fails |
| Wire.RunCreatesDeclared | gce-containers-startup/runtime/runtime.go:232-333 | for every host, whatever container a run creates is called klt, dash, the declared name, dash, the suffix; has the declared image; the policy on-failure exactly for OnFailure, no exactly for Never, always exactly for Always or none, any other declared policy creating nothing; and one bind per mount, in order, of the last volume of that name by its kind, marked ro exactly if the mount is read-only |
| Wire.RunScript | gce-containers-startup/runtime/runtime.go:118-132 | a successful run begins with the pull and the listing and ends with the creation of the declared container and the start of what was created |
| Wire.EarlyFailures | gce-containers-startup/runtime/runtime.go:170-237 | a failed pull or listing ends the run with the reason |
| Wire.LaunchFailures | gce-containers-startup/runtime/runtime.go:118-132 | a refused container is not started, and one that does not start is an error |
| Wire.OneContainerOnly | gce-containers-startup/runtime/runtime.go:227-229 | a declaration of no or several containers is rejected before anything is sent |
| Wire.PolicySpelled | gce-containers-startup/runtime/runtime.go:283-293 | the three restart policies and the error for any other |
| BindingTheorems.ProcessVolumesResult | gce-containers-startup/volumes/volumes.go:254-285 | every name maps to the host path of the last volume of that name, and nothing served read-only is wanted read-write |
| BindingTheorems.AttachmentModesExact | gce-containers-startup/volumes/volumes.go:381-394 | metadata is accepted exactly when every record is well formed, and the last record of a disk decides |
| Wire.FirstBadRecord | gce-containers-startup/volumes/volumes.go:381-393 | the metadata error names the first record that is not well formed |
| BindingTheorems.RejectedBeforeAnyCommand | gce-containers-startup/volumes/volumes.go:205-225 | inconsistent references or bad metadata are rejected before any command |
| BindingTheorems.PreparationIgnoresOrder | gce-containers-startup/volumes/volumes.go:198-220 | two preparations that differ only in the order of walking Go's maps send the same, succeed alike and return the same bindings; only which of several reference errors is reported may differ |
| BindingTheorems.BindStringRoundTrip | gce-containers-startup/runtime/runtime.go:269-276 | a bind string gives its binding back exactly when neither path has a colon |
| BindingTheorems.BindStringsLoseNothing | gce-containers-startup/runtime/runtime.go:269-276 | lists of colon-free bindings are determined by their bind strings |
| BindingTheorems.ColonsAreAmbiguous | gce-containers-startup/runtime/runtime.go:271-274 | two different bindings with one bind string |
| References.CheckReferencesExact | gce-containers-startup/volumes/volumes.go:198-220 | in any map order the checks pass exactly for consistent declarations, and demand holds of a volume exactly if some mount of it in some container is not read-only |
| References.CheckReferencesInPlace | gce-containers-startup/volumes/volumes.go:194-220 | the loops over the two maps compute these checks, with the first error of the code |
| References.TallyContainer | gce-containers-startup/volumes/volumes.go:207-214 | counts and demand after the mounts of a container, or its first undeclared mount |
| References.UndeclaredIsFirst | gce-containers-startup/volumes/volumes.go:205-211 | the error about an undeclared volume names the first container, by name and index, with such a mount and the volume of its first |
| References.MountCountPositive | gce-containers-startup/volumes/volumes.go:216-220 | a reference count is zero exactly for volumes no mount names |
| DiskTheorems.ReadOnlyDiskIsNeverWritten | gce-containers-startup/volumes/volumes.go:322-361 | for any host, a run never formats, checks or mounts read-write any partition of a disk whose last record is READ_ONLY, unless another disk of the declaration that is the same device is not READ_ONLY |
| DiskTheorems.RunWritesOnlyWritable | gce-containers-startup/volumes/volumes.go:314-361 | a run writes a device only if a disk of the declaration attached read-write lives there |
| DiskTheorems.DiskMountIsVetted | gce-containers-startup/volumes/volumes.go:337-357 | for any host, a handler mounts only its own disk, read-write exactly on demand, only after its own look at the device and its own blank MOUNTPOINT report, and if attached read-write only right after a successful mkfs or fsck and the mkdir |
| DiskTheorems.DiskHandlerScript | gce-containers-startup/volumes/volumes.go:337-357 | the complete list of what a successful disk handler has sent |
| Wire.DiskMountScript | gce-containers-startup/volumes/volumes.go:349-361 | a successful disk handler ends by mounting its device as ext4 under gce-persistent-disks, rw on demand and ro otherwise, and reports that path and mode |
| Wire.DeviceText | gce-containers-startup/volumes/volumes.go:329-335 | a disk's device is /dev/disk/by-id/google- and its name and, for a positive partition, -part and the decimal digits of its number without leading zeros |
| Text.DecimalValue | gce-containers-startup/volumes/volumes.go:334 | the digits printed for a number have its value in base ten and no leading zero |
| Wire.DiskAcceptedIff | gce-containers-startup/volumes/volumes.go:315-328 | a disk volume is accepted exactly if its type is ext4 or open, its name is known to the metadata and it is not to be written while attached read-only |
| Wire.DiskRefusal | gce-containers-startup/volumes/volumes.go:315-328 | of several reasons to refuse a disk volume, which is reported |
| Wire.EmptyDirScript | gce-containers-startup/volumes/volumes.go:288-304 | any medium but Memory is refused without a command; a successful handler makes the directory under tmpfss and mounts a tmpfs on it with option rw, and nothing else |
| Wire.PreparedVolumesAreMounted | gce-containers-startup/volumes/volumes.go:245-286 | for every host, after a successful preparation every emptyDir has been mounted as tmpfs with rw, and every disk as ext4 with rw exactly if some mount of it in some container is not read-only |
| Wire.PlannedAsWanted | gce-containers-startup/volumes/volumes.go:194-243 | the mount a binding rests on, as it lands in the table, has option rw if the binding may be written |
| Wire.TmpfsIsWritable | gce-containers-startup/volumes/volumes.go:300 | in any runs of any declarations every tmpfs mount has device tmpfs and option rw |
| Wire.OnlyBlockDevices | gce-containers-startup/volumes/volumes.go:449-460 | for every host, a path that cannot be looked at or is no block device ends the handler with that error and nothing more is sent |
| Wire.MountedDeviceIsRefused | gce-containers-startup/volumes/volumes.go:518-529 | for every host, a device reported as mounted ends the handler with the place it is mounted at |
| Wire.FilesystemDecides | gce-containers-startup/volumes/volumes.go:488-513 | for every host, no filesystem means mkfs, ext4 means fsck, any other an error without a command |
| Wire.SeveralLinesAreRefused | gce-containers-startup/volumes/volumes.go:543-550 | for every host, a report of two newlines is refused after one plain lsblk, whose output the error shows |
| Wire.MountFailures | gce-containers-startup/volumes/volumes.go:405-442 | a failed mkdir or mount ends the handler with the paths concerned |
| DiskTheorems.HandlersRunInOrder | gce-containers-startup/volumes/volumes.go:254-285 | handlers run in declaration order up to and including the first that fails, and nothing else is sent |
| DiskTheorems.RejectedVolumeHasActed | gce-containers-startup/volumes/volumes.go:259-277 | for every host, a volume without exactly one definition is rejected with that error, and before anything is asked of the host exactly if it has no memory emptyDir and no disk that passes the metadata checks |
| DiskTheorems.BadDeclarationIsRejected | gce-containers-startup/volumes/volumes.go:254-285 | a declaration with such a volume is always rejected, and before anything is asked of the host exactly if references or metadata are bad or every volume up to the first that is no plain host path has silent handlers |
| Replacement.DeleteOldExact | gce-containers-startup/runtime/runtime.go:170-194 | the delete phase succeeds only by removing exactly the recognised containers, and always on an obliging host |
| Replacement.FailedPullChangesNothing | gce-containers-startup/runtime/runtime.go:235-237 | a failed pull ends the run and changes nothing |
| Replacement.LaunchExact | gce-containers-startup/runtime/runtime.go:323-341 | create and start succeed only if the name is free, add one running container, and on an obliging host always do then |
| Containers.StartedByKonletExact | gce-containers-startup/runtime/runtime.go:207-224 | exactly the ids of containers with a matching name are found, each with a matching name of such a container |
| Containers.ContainersStartedByKonlet | gce-containers-startup/runtime/runtime.go:207-224 | the nested loops with break compute that map |
| Containers.MatchesExact | gce-containers-startup/runtime/runtime.go:207-218 | a name is konlet's exactly if it is a slash and the raw name, or a slash and at least two parts between dashes of which the first is klt |
| Containers.FoundByName | gce-containers-startup/runtime/runtime.go:207-224 | exactly the ids of containers with such a name are found |
| Wire.DeletePhase | gce-containers-startup/runtime/runtime.go:170-194 | for every host, the delete phase lists the containers, removes only such as carry such a name, and if it succeeds has removed all of them |
| Wire.RunRemovesOwn | gce-containers-startup/runtime/runtime.go:170-194 | in any run, what is removed was listed before in the same run under such a name |
| Wire.RemovalsInOrder | gce-containers-startup/runtime/runtime.go:184-192 | removals go one after the other up to and including the first that fails |
| Containers.GeneratedNameRecognised | gce-containers-startup/runtime/runtime.go:211-232 | every generated name is recognised under every declaration |
| Containers.GenerateRandomSuffix | gce-containers-startup/runtime/runtime.go:80-87 | the suffix is filled in place from consecutive draws |
| Containers.SuffixShape | gce-containers-startup/runtime/runtime.go:80-87 | a suffix has the length asked for and only lowercase letters, each the one whose place in the alphabet was drawn |
| Containers.DeleteOldContainers | gce-containers-startup/runtime/runtime.go:170-194 | the removal loop sends what the delete function says and stops at the first failure |
| PathTheorems.MountPathsDistinct | gce-containers-startup/volumes/volumes.go:405-406 | mount paths are under the prefix and tell family and name apart |
| PathTheorems.DevicePathsAlias | gce-containers-startup/volumes/volumes.go:329-335 | exactly when two disk volumes have one device path |
| PathTheorems.DevicePathsDistinct | gce-containers-startup/volumes/volumes.go:397-400 | without names ending in a partition suffix, device paths identify disk and partition |
| PathTheorems.AliasExample | gce-containers-startup/volumes/volumes.go:333-335 | partition 1 of x and the disk x-part1 are one device path |
| PathTheorems.PartitionsShareMountPoint | gce-containers-startup/volumes/volumes.go:350 | partitions of one disk differ in device but share the mount point |
| CommandLines.CommandLineIsUnambiguous | gce-containers-startup/volumes/volumes.go:415-445 | a strict reader, which knows every word of every line and that only mkfs and fsck stay in konlet's own namespace, recovers each command from its line, with or without nsenter |
| Volumes.NewMount | gce-containers-startup/volumes/volumes.go:74-96 | options are appended in order, separated by commas |
| Volumes.MountDraft.ReadOnly | gce-containers-startup/volumes/volumes.go:82-96 | one option is appended through the reference |
| Volumes.Env.UnmountExistingVolumes | gce-containers-startup/volumes/volumes.go:101-119 | the method does and returns what the cleanup function says, with the buffer's last newline removed |
| Volumes.Env.UnmountEach | gce-containers-startup/volumes/volumes.go:106-113 | the loop and its buffer |
| Volumes.Env.PrepareVolumesAndGetBindings | gce-containers-startup/volumes/volumes.go:194-243 | the method does and returns what the preparation function says |
| Volumes.Env.BuildVolumeNameToHostPathMap | gce-containers-startup/volumes/volumes.go:245-286 | the loop over the volumes |
| Volumes.Env.ProcessOneVolume | gce-containers-startup/volumes/volumes.go:259-283 | the handlers of one volume and the count of definitions |
| Volumes.Env.ProcessGcePersistentDiskVolume | gce-containers-startup/volumes/volumes.go:314-361 | the disk handler |
| Volumes.Env.ProcessEmptyDirVolume | gce-containers-startup/volumes/volumes.go:288-304 | the tmpfs handler |
| Volumes.Env.BuildDiskMetadataReadOnlyMap | gce-containers-startup/volumes/volumes.go:363-395 | the loop over the metadata records |
| Volumes.Env.GetSinglePropertyFromDeviceWithLsblk | gce-containers-startup/volumes/volumes.go:539-552 | one lsblk property, an error for several lines |
| Volumes.Env.CheckFilesystemAndFormatIfNeeded | gce-containers-startup/volumes/volumes.go:464-515 | mkfs, fsck or an error by the filesystem found; an error for a filesystem type without checker |
| RunProtocol.ContainerRunner.Run | gce-containers-startup/runtime/runtime.go:118-132 | a run does what the run function says, with the suffix drawn from the generator |
| RunProtocol.ContainerRunner.CreateContainer | gce-containers-startup/runtime/runtime.go:226-334 | the creation half of a run, step by step |
| RunProtocol.ContainerRunner.HostPathBinds | gce-containers-startup/runtime/runtime.go:269-276 | the loop that builds the bind strings |

## Left out

- Metadata server, token server, YAML and JSON decoding: the model starts from a decoded declaration and decoded disk records, or the failure to get the records.
- iptables, the welcome script, logging and the warning about whitespace in commands.
- Command, arguments, environment, stdin, tty, privileged flag and log options of the container: copied into the configuration without a decision.
- Contexts, timeouts and the registry authentication encoding: the authentication token is passed on as it is.
- The seeding of the random generator: a suffix is any sequence of draws.
- Go's integer width: reference counts and partitions are unbounded here.
- Strings are sequences of code points; byte sequences that are not valid UTF-8 are not modelled.
- Symbolic links: a path is resolved by its text alone, from the root directory; a device is the path konlet uses for it.
- Bind mounts, mount propagation and namespaces: the table has one order, that of mounting, and a directory konlet makes is there for every mount.
- Busy mounts: in a `World`, nested mounts keep a mount busy but open files do not; a umount that fails because of open files is one that fails.
- Commands that fail half way: in a `World` a failing command has no effect, so a half-formatted disk is outside the truthful host (not outside the theorems over all oracles).
- Other processes that change the host during a run.
- CleanupSparesOutside: stated for a prefix that does not end in a slash; with one that does, a mount at the prefix itself could keep a sibling from being unmounted.
