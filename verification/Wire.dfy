// What konlet sends, spelled out in the words of Linux and Docker, for every host.
module Wire {
  import opened Wrappers
  import opened Text
  import opened MountTable
  import opened ApiTypes
  import opened Host
  import opened References
  import opened VolumeProtocol
  import opened Containers
  import opened RunProtocol
  import opened Discipline
  import opened BindingTheorems
  import opened DiskTheorems
  import opened World
  import opened Readiness

  // ---------------------------------------------------------------- single looks

  // A path that cannot be looked at or is no block device ends the handler; nothing more is
  // asked.
  lemma OnlyBlockDevices(a: Agent, h: History, disk: GcePersistentDisk, wants: bool, modes: map<string, bool>)
    requires DiskAttachment(disk, wants, modes).Ok?
    requires var mode := a.oracle.stat(h, DevicePath(disk.pdName, disk.partition));
      mode.Err? || !mode.value.device || mode.value.charDevice
    ensures var s, device := ProcessDisk(a, h, disk, wants, modes), DevicePath(disk.pdName, disk.partition);
      var mode := a.oracle.stat(h, device);
      && s.history == h + [Statted(device, mode)]
      && s.outcome == Err(if mode.Err? then DeviceAccess(device, mode.error) else NotBlockDevice(device))
  {
  }

  // A device that lsblk shows as mounted ends it as well, with the place it is mounted at.
  lemma MountedDeviceIsRefused(a: Agent, h: History, disk: GcePersistentDisk, wants: bool, modes: map<string, bool>)
    requires DiskAttachment(disk, wants, modes).Ok?
    requires var device := DevicePath(disk.pdName, disk.partition);
      var mode := a.oracle.stat(h, device);
      && mode.Ok? && mode.value.device && !mode.value.charDevice
      && var reply := a.oracle.run(h + [Statted(device, mode)], Lsblk(MOUNTPOINT, device));
      reply.Ok? && |Split(reply.value, '\n')| < 3 && !Blank(reply.value)
    ensures var s, device := ProcessDisk(a, h, disk, wants, modes), DevicePath(disk.pdName, disk.partition);
      var h1 := h + [Statted(device, a.oracle.stat(h, device))];
      && s.history == After(a.oracle, h1, Lsblk(MOUNTPOINT, device))
      && s.outcome == Err(AlreadyMounted(device, TrimSpace(a.oracle.run(h1, Lsblk(MOUNTPOINT, device)).value)))
  {
    var device := DevicePath(disk.pdName, disk.partition);
    var h1 := h + [Statted(device, a.oracle.stat(h, device))];
    var output := a.oracle.run(h1, Lsblk(MOUNTPOINT, device)).value;
    SplitCount(output, '\n');
    TrimSpaceEmpty(output);
    assert CheckDeviceNotMounted(a.oracle, h1, device).outcome.Err?;
  }

  // Two newlines in a report end the look with an error that shows the output of one plain
  // lsblk, if that succeeds.
  lemma SeveralLinesAreRefused(o: Oracle, h: History, property: Property, device: string)
    requires var reply := o.run(h, Lsblk(property, device)); reply.Ok? && |Split(reply.value, '\n')| >= 3
    ensures var s, h1 := LsblkProperty(o, h, property, device), After(o, h, Lsblk(property, device));
      var debug := o.run(h1, LsblkAll);
      && s.history == h1 + [Ran(LsblkAll, debug)]
      && s.outcome == Err(if debug.Ok? then MultilineOutput(debug.value) else MultilineOutputNoDebug(debug.error))
  {
    SplitCount(o.run(h, Lsblk(property, device)).value, '\n');
  }

  // A device with no filesystem is formatted, one with ext4 is checked, and any other is
  // refused without another command.
  lemma FilesystemDecides(o: Oracle, h: History, device: string)
    requires var reply := o.run(h, Lsblk(FSTYPE, device)); reply.Ok? && |Split(reply.value, '\n')| < 3
    ensures var s, h1 := CheckOrFormat(o, h, device), After(o, h, Lsblk(FSTYPE, device));
      var found := TrimSpace(o.run(h, Lsblk(FSTYPE, device)).value);
      var formatted, checked := o.run(h1, Mkfs(device)), o.run(h1, Fsck(device));
      if found == "" then
        && s.history == h1 + [Ran(Mkfs(device), formatted)]
        && s.outcome == (if formatted.Ok? then Ok(()) else Err(FormatFailed(formatted.error)))
      else if found == "ext4" then
        && s.history == h1 + [Ran(Fsck(device), checked)]
        && s.outcome == (if checked.Ok? then Ok(()) else Err(CheckFailed(checked.error)))
      else s.history == h1 && s.outcome == Err(WrongFsType(device, found, "ext4"))
  {
    SplitCount(o.run(h, Lsblk(FSTYPE, device)).value, '\n');
  }

  // A directory that cannot be made or a mount that is refused ends the handler with the
  // paths concerned.
  lemma MountFailures(o: Oracle, h: History, m: Mount)
    ensures var s, h1 := MountAt(o, h, m), After(o, h, MkdirAll(m.mountPoint));
      var made, mounted := o.run(h, MkdirAll(m.mountPoint)), o.run(h1, MountEntry(m));
      if made.Err? then s == Step(h1, Err(MkdirFailed(m.mountPoint, made.error)))
      else
        && s.history == h1 + [Ran(MountEntry(m), mounted)]
        && s.outcome == (if mounted.Ok? then Ok(()) else Err(MountFailed(m.device, m.mountPoint, mounted.error)))
  {
  }

  // ---------------------------------------------------------------- volume handlers

  // Of emptyDirs only the medium "Memory" is supported. Its handler makes a directory and
  // mounts a writable tmpfs on it.
  lemma EmptyDirScript(a: Agent, h: History, medium: string, name: string)
    ensures var s, path := ProcessEmptyDir(a, h, medium, name), a.prefix + "/tmpfss/" + name;
      && (medium != "Memory" ==> s.outcome.Err? && s.history == h)
      && (s.outcome.Ok? ==>
          && |s.history| == |h| + 2 && s.history[..|h|] == h
          && s.history[|h|].Ran? && s.history[|h|].command == MkdirAll(path) && s.history[|h|].reply.Ok?
          && s.history[|h| + 1].Ran? && s.history[|h| + 1].reply.Ok?
          && s.history[|h| + 1].command == MountEntry(Mount("tmpfs", path, "tmpfs", "rw"))
          && s.outcome.value == HostPathAndMode(path, false))
  {
    TmpfsMountText(a.prefix, name);
    if ProcessEmptyDir(a, h, medium, name).outcome.Ok? {
      MountAtScript(a.oracle, h, TmpfsMount(a.prefix, name));
    }
  }

  lemma TmpfsMountText(prefix: string, name: string)
    ensures TmpfsMount(prefix, name) == Mount("tmpfs", prefix + "/tmpfss/" + name, "tmpfs", "rw")
  {
    assert prefix + "/" + "tmpfs" + "s/" + name == prefix + "/tmpfss/" + name;
  }

  lemma DiskMountText(prefix: string, disk: GcePersistentDisk, readOnly: bool)
    ensures DiskMount(prefix, disk, readOnly) ==
      Mount(DevicePath(disk.pdName, disk.partition), prefix + "/gce-persistent-disks/" + disk.pdName, "ext4",
            if readOnly then "ro" else "rw")
  {
    assert prefix + "/" + "gce-persistent-disk" + "s/" + disk.pdName == prefix + "/gce-persistent-disks/" + disk.pdName;
  }

  // The device of a disk: its name behind the prefix for GCE disks and, for a positive
  // partition, "-part" and the number in decimal digits.
  lemma DeviceText(pdName: string, partition: int) returns (digits: string)
    ensures partition <= 0 ==> DevicePath(pdName, partition) == "/dev/disk/by-id/google-" + pdName
    ensures partition > 0 ==>
      && DevicePath(pdName, partition) == "/dev/disk/by-id/google-" + pdName + "-part" + digits
      && digits != "" && digits[0] != '0' && Value(digits) == partition
      && (forall i :: 0 <= i < |digits| ==> '0' <= digits[i] <= '9')
  {
    digits := "";
    if partition > 0 {
      digits := Decimal(partition);
      DecimalValue(partition);
    }
  }

  // A disk volume is accepted without a command exactly if its filesystem type is ext4 or
  // left open, it has a name the metadata knows, and it need not be written or may be.
  lemma DiskAcceptedIff(disk: GcePersistentDisk, wants: bool, modes: map<string, bool>)
    ensures DiskAttachment(disk, wants, modes).Ok? <==>
      && disk.fsType in {"", "ext4"} && disk.pdName != "" && disk.pdName in modes
      && (wants ==> !modes[disk.pdName])
  {
  }

  // Of several reasons to refuse it, the first in this order is reported.
  lemma DiskRefusal(disk: GcePersistentDisk, wants: bool, modes: map<string, bool>)
    requires DiskAttachment(disk, wants, modes).Err?
    ensures DiskAttachment(disk, wants, modes).error ==
      if disk.fsType !in {"", "ext4"} then UnsupportedFsType(disk.fsType)
      else if |disk.pdName| == 0 then EmptyDiskName
      else if disk.pdName !in modes.Keys then AttachmentUnknown(disk.pdName)
      else AttachedReadOnly(disk.pdName)
  {
  }

  // The error about the metadata names the first record that is not well formed.
  lemma {:induction false} FirstBadRecord(records: seq<DiskRecord>, modes: map<string, bool>) returns (i: nat)
    requires AttachmentModes(records, modes).Err?
    ensures i < |records| && AttachmentModes(records, modes).error ==
      if records[i].deviceName == "" then EmptyDeviceName
      else UnknownDeviceMode(records[i].deviceName, records[i].mode)
    ensures records[i].deviceName == "" || records[i].mode !in {"READ_WRITE", "READ_ONLY"}
    ensures forall k :: 0 <= k < i ==> records[k].deviceName != "" && records[k].mode in {"READ_WRITE", "READ_ONLY"}
  {
    if CheckRecord(records[0]).Some? {
      i := 0;
    } else {
      i := FirstBadRecord(records[1..], modes[records[0].deviceName := records[0].mode == "READ_ONLY"]);
      assert forall k :: 0 < k <= i + 1 && k < |records| ==> records[k] == records[1..][k - 1];
      i := i + 1;
    }
  }

  // What a disk handler that succeeds mounts, and what it reports.
  lemma DiskMountScript(a: Agent, h: History, disk: GcePersistentDisk, wants: bool, modes: map<string, bool>)
    requires ProcessDisk(a, h, disk, wants, modes).outcome.Ok?
    ensures var s, path := ProcessDisk(a, h, disk, wants, modes), a.prefix + "/gce-persistent-disks/" + disk.pdName;
      var device, last := DevicePath(disk.pdName, disk.partition), s.history[|s.history| - 1];
      && h < s.history && last.Ran? && last.reply.Ok?
      && last.command == MountEntry(Mount(device, path, "ext4", if wants then "rw" else "ro"))
      && s.outcome.value == HostPathAndMode(path, !wants)
  {
    DiskHandlerScript(a, h, disk, wants, modes);
    DiskMountText(a.prefix, disk, !wants);
  }

  // ---------------------------------------------------------------- mounts of a preparation

  // Some mount of some container names the volume and is not read-only.
  ghost predicate Writers(spec: ContainerSpec, name: string) {
    exists c, m :: c in spec.containers && m in c.volumeMounts && m.name == name && !m.readOnly
  }

  lemma {:induction false} InAllMountsIff(containers: seq<Container>, m: VolumeMount)
    ensures m in AllMounts(containers) <==> exists c :: c in containers && m in c.volumeMounts
  {
    if containers != [] {
      InAllMountsIff(containers[1..], m);
      assert containers == [containers[0]] + containers[1..];
    }
  }

  lemma WritersExact(spec: ContainerSpec, name: string)
    ensures WantsReadWrite(AllMounts(spec.containers), name) <==> Writers(spec, name)
  {
    if WantsReadWrite(AllMounts(spec.containers), name) {
      var m :| m in AllMounts(spec.containers) && m.name == name && !m.readOnly;
      InAllMountsIff(spec.containers, m);
    }
    if c, m :| c in spec.containers && m in c.volumeMounts && m.name == name && !m.readOnly {
      InAllMountsIff(spec.containers, m);
    }
  }

  // What stands in the history once the volume has been prepared.
  ghost predicate MountedAsWanted(a: Agent, spec: ContainerSpec, v: Volume, h: History) {
    && (v.emptyDirMedium.Some? ==>
        RanOk(h, MountEntry(Mount("tmpfs", a.prefix + "/tmpfss/" + v.name, "tmpfs", "rw"))))
    && (v.persistentDisk.Some? ==>
        var disk := v.persistentDisk.value;
        RanOk(h, MountEntry(Mount(DevicePath(disk.pdName, disk.partition),
          a.prefix + "/gce-persistent-disks/" + disk.pdName, "ext4", if Writers(spec, v.name) then "rw" else "ro"))))
  }

  ghost predicate RanOk(h: History, c: Command) {
    exists e :: e in h && e.Ran? && e.command == c && e.reply.Ok?
  }

  lemma RanOkLater(h: History, h': History, c: Command)
    requires RanOk(h, c) && h <= h'
    ensures RanOk(h', c)
  {
    var e :| e in h && e.Ran? && e.command == c && e.reply.Ok?;
    assert e in h';
  }

  lemma VolumeIsMounted(a: Agent, h: History, spec: ContainerSpec, v: Volume, modes: map<string, bool>)
    requires ProcessVolume(a, h, v, WantsReadWrite(AllMounts(spec.containers), v.name), modes).outcome.Ok?
    ensures MountedAsWanted(a, spec, v,
      ProcessVolume(a, h, v, WantsReadWrite(AllMounts(spec.containers), v.name), modes).history)
  {
    var wants := WantsReadWrite(AllMounts(spec.containers), v.name);
    WritersExact(spec, v.name);
    if v.emptyDirMedium.Some? {
      EmptyDirScript(a, h, v.emptyDirMedium.value, v.name);
      var end := ProcessEmptyDir(a, h, v.emptyDirMedium.value, v.name).history;
      assert end[|h| + 1] in end;
    }
    if v.persistentDisk.Some? {
      DiskMountScript(a, h, v.persistentDisk.value, wants, modes);
      var end := ProcessDisk(a, h, v.persistentDisk.value, wants, modes).history;
      assert end[|end| - 1] in end;
    }
  }

  lemma MountedLater(a: Agent, spec: ContainerSpec, v: Volume, h: History, h': History)
    requires MountedAsWanted(a, spec, v, h) && h <= h'
    ensures MountedAsWanted(a, spec, v, h')
  {
    if v.emptyDirMedium.Some? {
      RanOkLater(h, h', MountEntry(Mount("tmpfs", a.prefix + "/tmpfss/" + v.name, "tmpfs", "rw")));
    }
    if v.persistentDisk.Some? {
      var disk := v.persistentDisk.value;
      RanOkLater(h, h', MountEntry(Mount(DevicePath(disk.pdName, disk.partition),
        a.prefix + "/gce-persistent-disks/" + disk.pdName, "ext4", if Writers(spec, v.name) then "rw" else "ro")));
    }
  }

  lemma {:induction false} VolumesAreMounted(a: Agent, h: History, spec: ContainerSpec, volumes: seq<Volume>,
                                             modes: map<string, bool>, paths: map<string, HostPathAndMode>)
    requires forall v :: v in volumes ==> v.name in DemandOf(spec)
    requires ProcessVolumes(a, h, volumes, DemandOf(spec), modes, paths).outcome.Ok?
    ensures forall v :: v in volumes ==>
      MountedAsWanted(a, spec, v, ProcessVolumes(a, h, volumes, DemandOf(spec), modes, paths).history)
    decreases |volumes|
  {
    if volumes != [] {
      var v, demand := volumes[0], DemandOf(spec);
      var s := ProcessVolume(a, h, v, demand[v.name], modes);
      var next := paths[v.name := s.outcome.value];
      VolumeIsMounted(a, h, spec, v, modes);
      VolumesAreMounted(a, s.history, spec, volumes[1..], modes, next);
      ProcessVolumesWork(a, s.history, volumes[1..], demand, modes, next);
      MountedLater(a, spec, v, s.history, ProcessVolumes(a, h, volumes, demand, modes, paths).history);
      assert volumes == [v] + volumes[1..];
    }
  }

  // After a successful preparation, whatever the host: every emptyDir has been mounted as a
  // writable tmpfs, and every disk as ext4, writable exactly if some mount of it is.
  lemma PreparedVolumesAreMounted(a: Agent, h: History, spec: ContainerSpec)
    requires WalksMaps(a.oracle) && PrepareVolumes(a, h, spec).outcome.Ok?
    ensures forall v :: v in spec.volumes ==> MountedAsWanted(a, spec, v, PrepareVolumes(a, h, spec).history)
  {
    CheckReferencesExact(spec, a.oracle.order(h, DeclaredNames(spec.volumes)));
    assert forall v :: v in spec.volumes ==> v.name in DeclaredNames(spec.volumes);
    VolumesAreMounted(a, h, spec, spec.volumes, DiskModes(a.disks).value, map[]);
  }

  lemma {:induction false} DisksAreAccepted(a: Agent, h: History, spec: ContainerSpec, volumes: seq<Volume>,
                                            modes: map<string, bool>, paths: map<string, HostPathAndMode>)
    requires forall v :: v in volumes ==> v.name in DemandOf(spec)
    requires ProcessVolumes(a, h, volumes, DemandOf(spec), modes, paths).outcome.Ok?
    ensures forall v :: v in volumes && v.persistentDisk.Some? ==>
      DiskAttachment(v.persistentDisk.value, DemandOf(spec)[v.name], modes).Ok?
    decreases |volumes|
  {
    if volumes != [] {
      var v := volumes[0];
      var s := ProcessVolume(a, h, v, DemandOf(spec)[v.name], modes);
      DisksAreAccepted(a, s.history, spec, volumes[1..], modes, paths[v.name := s.outcome.value]);
      assert volumes == [v] + volumes[1..];
    }
  }

  // The mount planned for a volume of a declaration that could be prepared, where it lands:
  // an emptyDir is writable, and a disk exactly if some mount of it is. So no binding that
  // may be written rests on a mount that may not.
  lemma PlannedAsWanted(a: Agent, h: History, spec: ContainerSpec, v: Volume)
    requires WalksMaps(a.oracle) && PrepareVolumes(a, h, spec).outcome.Ok? && v in spec.volumes
    ensures DiskModes(a.disks).Ok?
    ensures OwnMount(a, spec, v) ==
      if v.persistentDisk.Some? then
        var disk := v.persistentDisk.value;
        Some(Landed(Mount(DevicePath(disk.pdName, disk.partition), a.prefix + "/gce-persistent-disks/" + disk.pdName,
                          "ext4", if Writers(spec, v.name) then "rw" else "ro")))
      else if v.emptyDirMedium.Some? then
        Some(Landed(Mount("tmpfs", a.prefix + "/tmpfss/" + v.name, "tmpfs", "rw")))
      else None
  {
    CheckReferencesExact(spec, a.oracle.order(h, DeclaredNames(spec.volumes)));
    assert forall x :: x in spec.volumes ==> x.name in DeclaredNames(spec.volumes);
    DisksAreAccepted(a, h, spec, spec.volumes, DiskModes(a.disks).value, map[]);
    WritersExact(spec, v.name);
    PlannedText(a, spec, v, Writers(spec, v.name));
  }

  lemma PlannedText(a: Agent, spec: ContainerSpec, v: Volume, wants: bool)
    requires DiskModes(a.disks).Ok? && v.name in DemandOf(spec) && DemandOf(spec)[v.name] == wants
    requires v.persistentDisk.Some? ==> DiskAttachment(v.persistentDisk.value, wants, DiskModes(a.disks).value).Ok?
    ensures OwnMount(a, spec, v) ==
      if v.persistentDisk.Some? then
        var disk := v.persistentDisk.value;
        Some(Landed(Mount(DevicePath(disk.pdName, disk.partition), a.prefix + "/gce-persistent-disks/" + disk.pdName,
                          "ext4", if wants then "rw" else "ro")))
      else if v.emptyDirMedium.Some? then
        Some(Landed(Mount("tmpfs", a.prefix + "/tmpfss/" + v.name, "tmpfs", "rw")))
      else None
  {
    if v.persistentDisk.Some? {
      DiskMountText(a.prefix, v.persistentDisk.value, !wants);
    } else {
      TmpfsMountText(a.prefix, v.name);
    }
  }

  // In any runs of any declarations, every tmpfs is mounted writable.
  lemma TmpfsIsWritable(o: Oracle, prefix: string, attempts: seq<Attempt>, i: nat)
    requires WalksMaps(o)
    requires var h := Attempts(o, prefix, attempts);
      i < |h| && h[i].Ran? && h[i].command.MountEntry? && h[i].command.mount.fsType == "tmpfs"
    ensures var m := Attempts(o, prefix, attempts)[i].command.mount; m.device == "tmpfs" && m.options == "rw"
  {
    var h := Attempts(o, prefix, attempts);
    AttemptsKeepDiscipline(o, prefix, attempts);
    assert Allowed(prefix, h[..i], h[i].command);
    assert "tmpfs"[0] != "ext4"[0];
  }

  // ---------------------------------------------------------------- cleanup

  // A table that cannot be read is an error, and then no umount is sent.
  lemma UnreadTableIsAnError(a: Agent, h: History)
    requires a.oracle.run(h, CatProcMounts).Err?
    ensures var s := UnmountExisting(a, h);
      && s.outcome == Err(UnmountFailed("failed to list existing volumes: " + a.oracle.run(h, CatProcMounts).error))
      && s.history == h + [Ran(CatProcMounts, a.oracle.run(h, CatProcMounts))]
  {
  }

  // What is reported if there is one mount and its umount is refused.
  lemma RefusedUmountIsReported(a: Agent, h: History, m: Mount)
    requires var text := a.oracle.run(h, CatProcMounts); text.Ok? && ParseTable(a.prefix, text.value) == [m]
    requires a.oracle.run(After(a.oracle, h, CatProcMounts), Umount(m.mountPoint)).Err?
    ensures var detail := a.oracle.run(After(a.oracle, h, CatProcMounts), Umount(m.mountPoint)).error;
      UnmountExisting(a, h).outcome ==
        Err(UnmountFailed("Failed to unmount " + m.device + " at " + m.mountPoint + ": " + detail))
  {
    var h1 := After(a.oracle, h, CatProcMounts);
    var failure := Failure(m, a.oracle.run(h1, Umount(m.mountPoint)).error);
    assert UnmountAll(a.oracle, After(a.oracle, h1, Umount(m.mountPoint)), []).failures == [];
    assert [m][1..] == [] && [failure][1..] == [];
    assert UnmountAll(a.oracle, h1, [m]).failures == [failure];
    assert Messages([failure]) == [failure.Message()];
  }

  // ---------------------------------------------------------------- containers

  // The removals go one after the other up to and including the first that fails.
  lemma {:induction false} RemovalsInOrder(o: Oracle, h: History, ids: seq<string>)
    ensures var s := RemoveAll(o, h, ids);
      var n := |s.history| - |h|;
      && h <= s.history && n <= |ids|
      && (forall i :: |h| <= i < |s.history| ==>
          s.history[i].Ran? && s.history[i].command == ContainerRemove(ids[i - |h|])
          && (s.history[i].reply.Err? ==> i == |s.history| - 1 && s.outcome.Err?))
      && (s.outcome.Ok? ==> n == |ids|)
      && (s.outcome.Err? ==> n > 0 && s.history[|s.history| - 1].reply.Err?)
    decreases |ids|
  {
    if ids != [] {
      var h1 := After(o, h, ContainerRemove(ids[0]));
      if o.run(h, ContainerRemove(ids[0])).Ok? {
        RemovalsInOrder(o, h1, ids[1..]);
        var end := RemoveAll(o, h1, ids[1..]).history;
        forall i | |h1| <= i < |end|
          ensures end[i].Ran? && end[i].command == ContainerRemove(ids[i - |h|])
        {
          assert ids[1..][i - |h1|] == ids[i - |h|];
        }
        assert end[|h|] == h1[|h|];
      }
    }
  }

  // Some listed container has this id and a name of konlet's.
  ghost predicate ListedOwn(listed: Event, rawName: string, id: string) {
    listed.Listed? && listed.containers.Ok? &&
    exists c, n :: c in listed.containers.value && c.id == id && n in c.names && KonletName(n, rawName)
  }

  // The delete phase lists the containers and then removes only such as carry a name of
  // konlet's; if it succeeds, it has removed all of those, each with success.
  lemma DeletePhase(o: Oracle, h: History, rawName: string)
    requires WalksMaps(o)
    ensures var s := DeleteOld(o, h, rawName);
      && h < s.history && s.history[|h|] == Listed(o.list(h))
      && (forall i :: |h| < i < |s.history| ==>
          s.history[i].Ran? && s.history[i].command.ContainerRemove?
          && ListedOwn(s.history[|h|], rawName, s.history[i].command.id))
      && (s.outcome.Ok? ==> o.list(h).Ok?)
      && (s.outcome.Ok? ==> forall id ::
          ListedOwn(s.history[|h|], rawName, id) ==> RanOkAfter(s.history, |h|, ContainerRemove(id)))
  {
    var s, h1 := DeleteOld(o, h, rawName), h + [Listed(o.list(h))];
    if o.list(h).Ok? {
      var listed := o.list(h).value;
      var ids := o.order(h1, StartedByKonlet(listed, rawName).Keys);
      RemovalsInOrder(o, h1, ids);
      forall i | |h| < i < |s.history|
        ensures s.history[i].Ran? && s.history[i].command.ContainerRemove?
        ensures ListedOwn(s.history[|h|], rawName, s.history[i].command.id)
      {
        assert s.history[i].command == ContainerRemove(ids[i - |h1|]) && ids[i - |h1|] in ids;
        FoundByName(listed, rawName, ids[i - |h1|]);
      }
      if s.outcome.Ok? {
        forall id | ListedOwn(s.history[|h|], rawName, id)
          ensures RanOkAfter(s.history, |h|, ContainerRemove(id))
        {
          FoundByName(listed, rawName, id);
          var k :| 0 <= k < |ids| && ids[k] == id;
          assert s.history[|h1| + k].Ran? && s.history[|h1| + k].command == ContainerRemove(ids[k]);
        }
      }
    }
  }

  ghost predicate RanOkAfter(h: History, from: nat, c: Command) {
    exists i :: from < i < |h| && h[i].Ran? && h[i].command == c && h[i].reply.Ok?
  }

  lemma ReplacingRemovesOwn(a: Agent, h: History, auth: string, c: Container, i: nat)
    requires WalksMaps(a.oracle)
    requires var end := ReplaceOld(a, h, auth, c).history;
      |h| <= i < |end| && end[i].Ran? && end[i].command.ContainerRemove?
    ensures var end := ReplaceOld(a, h, auth, c).history;
      |h| + 1 < i && ListedOwn(end[|h| + 1], c.name, end[i].command.id)
  {
    var pull := ImagePull(c.image, auth);
    if a.oracle.run(h, pull).Ok? {
      DeletePhase(a.oracle, After(a.oracle, h, pull), c.name);
    }
  }

  // Everything removed in a run is removed in its first phase.
  lemma RemovalsComeFirst(a: Agent, h: History, auth: string, spec: ContainerSpec, suffix: string, i: nat)
    requires var end := RunContainer(a, h, auth, spec, suffix).history;
      |h| <= i < |end| && end[i].Ran? && end[i].command.ContainerRemove?
    ensures |spec.containers| == 1
    ensures var end, first := RunContainer(a, h, auth, spec, suffix).history,
                              ReplaceOld(a, h, auth, spec.containers[0]).history;
      h <= first <= end && i < |first|
  {
    var s1, p := ReplaceOld(a, h, auth, spec.containers[0]), PrepareContainer(a, h, auth, spec, suffix);
    RunPhases(a, h, auth, spec, suffix);
    if s1.outcome.Ok? {
      CleanAndPrepareWork(a, s1.history, spec);
    }
    if p.outcome.Ok? {
      LaunchGrows(a, p.history, p.outcome.value);
    }
  }

  // In a whole run: what is removed was listed before, in this run, under a name of konlet's.
  lemma RunRemovesOwn(a: Agent, h: History, auth: string, spec: ContainerSpec, suffix: string, i: nat)
    requires WalksMaps(a.oracle)
    requires var end := RunContainer(a, h, auth, spec, suffix).history;
      |h| <= i < |end| && end[i].Ran? && end[i].command.ContainerRemove?
    ensures |spec.containers| == 1
    ensures var end := RunContainer(a, h, auth, spec, suffix).history;
      |h| + 1 < i && ListedOwn(end[|h| + 1], spec.containers[0].name, end[i].command.id)
  {
    RemovalsComeFirst(a, h, auth, spec, suffix, i);
    ReplacingRemovesOwn(a, h, auth, spec.containers[0], i);
  }

  // Where a volume is bound to, by its kind.
  ghost predicate BoundTo(prefix: string, v: Volume, path: string) {
    && Definitions(v) == 1
    && (v.hostPath.Some? ==> path == v.hostPath.value)
    && (v.emptyDirMedium.Some? ==> path == prefix + "/tmpfss/" + v.name)
    && (v.persistentDisk.Some? ==> path == prefix + "/gce-persistent-disks/" + v.persistentDisk.value.pdName)
  }

  // The last volume of this name is bound to the path.
  ghost predicate NameBoundTo(prefix: string, volumes: seq<Volume>, name: string, path: string) {
    exists k :: 0 <= k < |volumes| && volumes[k].name == name && BoundTo(prefix, volumes[k], path)
      && forall l :: k < l < |volumes| ==> volumes[l].name != name
  }

  lemma {:induction false} LastVolumeAt(volumes: seq<Volume>, name: string) returns (k: nat)
    requires LastVolume(volumes, name).Some?
    ensures k < |volumes| && volumes[k] == LastVolume(volumes, name).value && volumes[k].name == name
    ensures forall l :: k < l < |volumes| ==> volumes[l].name != name
  {
    if LastVolume(volumes[1..], name).Some? {
      k := LastVolumeAt(volumes[1..], name);
      k := k + 1;
      assert forall l :: k < l < |volumes| ==> volumes[l] == volumes[1..][l - 1];
    } else {
      k := 0;
      forall l | 0 < l < |volumes|
        ensures volumes[l].name != name
      {
        LastVolumeFound(volumes[1..], name);
        assert volumes[l] == volumes[1..][l - 1] && volumes[1..][l - 1] in volumes[1..];
      }
    }
  }

  lemma DeclaredPath(prefix: string, volumes: seq<Volume>, name: string)
    requires name in DeclaredNames(volumes) && forall v :: v in volumes ==> Definitions(v) == 1
    ensures LastVolume(volumes, name).Some?
    ensures NameBoundTo(prefix, volumes, name, HostPathOf(prefix, LastVolume(volumes, name).value))
  {
    LastVolumeFound(volumes, name);
    var k := LastVolumeAt(volumes, name);
    assert prefix + "/" + "tmpfs" + "s/" + volumes[k].name == prefix + "/tmpfss/" + volumes[k].name;
    if volumes[k].persistentDisk.Some? {
      var pdName := volumes[k].persistentDisk.value.pdName;
      assert prefix + "/" + "gce-persistent-disk" + "s/" + pdName == prefix + "/gce-persistent-disks/" + pdName;
    }
    assert BoundTo(prefix, volumes[k], HostPathOf(prefix, volumes[k]));
  }

  // A bind as Docker takes it: host path, container path and, if read-only, "ro".
  ghost predicate Binds(prefix: string, volumes: seq<Volume>, m: VolumeMount, bind: string) {
    exists path :: NameBoundTo(prefix, volumes, m.name, path)
      && bind == path + ":" + m.mountPath + (if m.readOnly then ":ro" else "")
  }

  lemma {:induction false} DeclaredBinds(prefix: string, volumes: seq<Volume>, mounts: seq<VolumeMount>, i: nat)
    requires i < |mounts| && mounts[i].name in DeclaredNames(volumes)
    requires forall v :: v in volumes ==> Definitions(v) == 1
    ensures Binds(prefix, volumes, mounts[i], BindStrings(DeclaredBindings(prefix, volumes, mounts))[i])
    decreases |mounts|
  {
    if i == 0 {
      DeclaredPath(prefix, volumes, mounts[0].name);
      var path := HostPathOf(prefix, LastVolume(volumes, mounts[0].name).value);
      assert NameBoundTo(prefix, volumes, mounts[0].name, path);
    } else {
      DeclaredBinds(prefix, volumes, mounts[1..], i - 1);
      assert DeclaredBindings(prefix, volumes, mounts)[i] == DeclaredBindings(prefix, volumes, mounts[1..])[i - 1];
    }
  }

  // The configuration a declaration asks for, spelled out.
  ghost predicate Configures(prefix: string, spec: ContainerSpec, suffix: string, config: ContainerConfig) {
    && |spec.containers| == 1
    && var c := spec.containers[0];
    && config.name == "klt-" + c.name + "-" + suffix && config.image == c.image
    && (config.restartPolicy == "always" <==> spec.restartPolicy in {None, Some("Always")})
    && (config.restartPolicy == "on-failure" <==> spec.restartPolicy == Some("OnFailure"))
    && (config.restartPolicy == "no" <==> spec.restartPolicy == Some("Never"))
    && spec.restartPolicy in {None, Some("Always"), Some("OnFailure"), Some("Never")}
    && |config.binds| == |c.volumeMounts|
    && forall i :: 0 <= i < |config.binds| ==> Binds(prefix, spec.volumes, c.volumeMounts[i], config.binds[i])
  }

  lemma DeclaredConfigSpelled(prefix: string, spec: ContainerSpec, suffix: string)
    requires |spec.containers| == 1 && RestartPolicyName(spec.restartPolicy).Ok?
    requires Consistent(spec) && forall v :: v in spec.volumes ==> Definitions(v) == 1
    ensures Configures(prefix, spec, suffix, DeclaredConfig(prefix, spec, suffix))
  {
    var c, config := spec.containers[0], DeclaredConfig(prefix, spec, suffix);
    PolicySpelled(spec.restartPolicy);
    forall i | 0 <= i < |config.binds|
      ensures Binds(prefix, spec.volumes, c.volumeMounts[i], config.binds[i])
    {
      assert c in spec.containers && c.volumeMounts[i] in c.volumeMounts;
      InAllMountsIff(spec.containers, c.volumeMounts[i]);
      DeclaredBinds(prefix, spec.volumes, c.volumeMounts, i);
    }
  }

  lemma PolicySpelled(policy: Option<string>)
    ensures RestartPolicyName(policy).Err? ==> policy.Some?
    ensures RestartPolicyName(policy).Ok? <==> policy in {None, Some("Always"), Some("OnFailure"), Some("Never")}
    ensures RestartPolicyName(policy).Err? ==>
      RestartPolicyName(policy).error == UnsupportedRestartPolicy(policy.value)
    ensures RestartPolicyName(policy).Ok? ==>
      var name := RestartPolicyName(policy).value;
      && (name == "always" <==> policy in {None, Some("Always")})
      && (name == "on-failure" <==> policy == Some("OnFailure"))
      && (name == "no" <==> policy == Some("Never"))
  {
    assert "always"[0] == 'a' && "on-failure"[1] == 'n' && |"no"| == 2 && |"on-failure"| > 2 && "no"[0] == 'n';
    assert "Always"[0] == 'A' && "OnFailure"[0] == 'O' && "Never"[0] == 'N';
  }

  // A preparation that succeeds had a consistent declaration of well defined volumes.
  lemma PreparedIsWellDefined(a: Agent, h: History, spec: ContainerSpec)
    requires WalksMaps(a.oracle) && PrepareVolumes(a, h, spec).outcome.Ok?
    ensures Consistent(spec) && forall v :: v in spec.volumes ==> Definitions(v) == 1
  {
    PreparedBindings(a, h, spec);
    if v :| v in spec.volumes && Definitions(v) != 1 {
      BadDeclarationIsRejected(a, h, spec);
    }
  }

  lemma PreparedConfigSpelled(a: Agent, h: History, auth: string, spec: ContainerSpec, suffix: string)
    requires WalksMaps(a.oracle) && PrepareContainer(a, h, auth, spec, suffix).outcome.Ok?
    ensures Configures(a.prefix, spec, suffix, PrepareContainer(a, h, auth, spec, suffix).outcome.value)
  {
    var s1 := ReplaceOld(a, h, auth, spec.containers[0]);
    ConfigurationFollowsDeclaration(a, h, auth, spec, suffix);
    PreparedIsWellDefined(a, UnmountExisting(a, s1.history).history, spec);
    DeclaredConfigSpelled(a.prefix, spec, suffix);
  }

  ghost predicate CreatesNothing(h: History, h': History) {
    h <= h' && forall i :: |h| <= i < |h'| && h'[i].Ran? ==> !h'[i].command.ContainerCreate?
  }

  lemma PreparingCreatesNothing(a: Agent, h: History, auth: string, spec: ContainerSpec, suffix: string)
    requires WalksMaps(a.oracle)
    ensures CreatesNothing(h, PrepareContainer(a, h, auth, spec, suffix).history)
  {
    if |spec.containers| == 1 {
      var s1 := ReplaceOld(a, h, auth, spec.containers[0]);
      RunPhases(a, h, auth, spec, suffix);
      ReplacingCreatesNothing(a, h, auth, spec.containers[0]);
      if s1.outcome.Ok? {
        CleanAndPrepareWork(a, s1.history, spec);
      }
    }
  }

  lemma LaunchCreates(a: Agent, h: History, config: ContainerConfig, i: nat)
    requires var end := Launch(a, h, config).history; |h| <= i < |end| && end[i].Ran? && end[i].command.ContainerCreate?
    ensures Launch(a, h, config).history[i].command.config == config
  {
  }

  // Whatever the host answers, a run creates no container but the declared one: under its
  // generated name, from its image, with its restart policy and, mount by mount, bound to
  // the last volume of each name. With another restart policy it creates none.
  lemma RunCreatesDeclared(a: Agent, h: History, auth: string, spec: ContainerSpec, suffix: string, i: nat)
    requires WalksMaps(a.oracle)
    requires var end := RunContainer(a, h, auth, spec, suffix).history;
      |h| <= i < |end| && end[i].Ran? && end[i].command.ContainerCreate?
    ensures Configures(a.prefix, spec, suffix, RunContainer(a, h, auth, spec, suffix).history[i].command.config)
  {
    var p := PrepareContainer(a, h, auth, spec, suffix);
    PreparingCreatesNothing(a, h, auth, spec, suffix);
    assert p.outcome.Ok?;
    PreparedConfigSpelled(a, h, auth, spec, suffix);
    LaunchGrows(a, p.history, p.outcome.value);
    LaunchCreates(a, p.history, p.outcome.value, i);
  }

  lemma ReplacingCreatesNothing(a: Agent, h: History, auth: string, c: Container)
    requires WalksMaps(a.oracle)
    ensures var end := ReplaceOld(a, h, auth, c).history;
      forall i :: |h| <= i < |end| && end[i].Ran? ==> end[i].command.ImagePull? || end[i].command.ContainerRemove?
  {
    var h1 := After(a.oracle, h, ImagePull(c.image, auth));
    if a.oracle.run(h, ImagePull(c.image, auth)).Ok? {
      DeletePhase(a.oracle, h1, c.name);
    }
  }

  // A declaration of no or several containers is rejected before anything is sent.
  lemma OneContainerOnly(a: Agent, h: History, auth: string, spec: ContainerSpec, suffix: string)
    requires |spec.containers| != 1
    ensures RunContainer(a, h, auth, spec, suffix) == Step(h, Err(NotOneContainer))
  {
  }

  // A pull or a listing that fails ends the run with the reason.
  lemma EarlyFailures(a: Agent, h: History, auth: string, spec: ContainerSpec, suffix: string)
    requires |spec.containers| == 1
    ensures var run, pull := RunContainer(a, h, auth, spec, suffix), ImagePull(spec.containers[0].image, auth);
      var pulled, h1 := a.oracle.run(h, pull), After(a.oracle, h, pull);
      var listed := a.oracle.list(h1);
      && (pulled.Err? ==> run == Step(h1, Err(CommandFailed(pulled.error))))
      && (pulled.Ok? && listed.Err? ==> run == Step(h1 + [Listed(listed)], Err(CommandFailed(listed.error))))
  {
  }

  // A container that is refused is not started, and one that does not start is an error.
  lemma LaunchFailures(a: Agent, h: History, config: ContainerConfig)
    ensures var s, h1 := Launch(a, h, config), After(a.oracle, h, ContainerCreate(config));
      var created := a.oracle.run(h, ContainerCreate(config));
      if created.Err? then s == Step(h1, Err(CommandFailed(created.error)))
      else
        var started := a.oracle.run(h1, ContainerStart(created.value));
        && s.history == h1 + [Ran(ContainerStart(created.value), started)]
        && s.outcome == (if started.Ok? then Ok(created.value) else Err(CommandFailed(started.error)))
  {
  }

  // How a run that succeeds begins and ends: it pulls the image and lists the containers;
  // it creates the declared container and starts what was created.
  lemma RunScript(a: Agent, h: History, auth: string, spec: ContainerSpec, suffix: string)
    requires WalksMaps(a.oracle) && RunContainer(a, h, auth, spec, suffix).outcome.Ok?
    ensures var s := RunContainer(a, h, auth, spec, suffix);
      var end, n := s.history, |s.history|;
      && |spec.containers| == 1 && h < end && n >= |h| + 4
      && end[|h|].Ran? && end[|h|].command == ImagePull(spec.containers[0].image, auth) && end[|h|].reply.Ok?
      && end[|h| + 1].Listed? && end[|h| + 1].containers.Ok?
      && end[n - 2].Ran? && end[n - 2].command.ContainerCreate? && end[n - 2].reply == Ok(s.outcome.value)
      && Configures(a.prefix, spec, suffix, end[n - 2].command.config)
      && end[n - 1].Ran? && end[n - 1].command == ContainerStart(s.outcome.value) && end[n - 1].reply.Ok?
  {
    var end := RunContainer(a, h, auth, spec, suffix).history;
    RunPhases(a, h, auth, spec, suffix);
    DeletePhase(a.oracle, After(a.oracle, h, ImagePull(spec.containers[0].image, auth)), spec.containers[0].name);
    RunCreatesDeclared(a, h, auth, spec, suffix, |end| - 2);
  }
}
