// The volume environment as konlet implements it: methods that drive the host step by
// step, each proved to compute the function of the same step in VolumeProtocol.
module Volumes {
  import opened Wrappers
  import opened Text
  import opened MountTable
  import opened ApiTypes
  import opened Host
  import opened References
  import opened VolumeProtocol

  // A mount under construction; options are appended to it through the reference.
  class MountDraft {
    const device: string
    const mountPoint: string
    const fsType: string
    var options: string

    constructor (device: string, mountPoint: string, fsType: string)
      ensures this.device == device && this.mountPoint == mountPoint && this.fsType == fsType
      ensures options == ""
    {
      this.device, this.mountPoint, this.fsType, options := device, mountPoint, fsType, "";
    }

    method ReadOnly(ro: bool)
      modifies this
      ensures options == if old(options) == "" then ModeOption(ro) else old(options) + "," + ModeOption(ro)
    {
      var opt := if ro then "ro" else "rw";
      if options == "" {
        options := opt;
        return;
      }
      options := options + "," + opt;
    }
  }

  // newMount with any number of read-only options applied in order.
  method NewMount(device: string, mountPoint: string, fsType: string, modes: seq<bool>) returns (m: Mount)
    ensures m == Mount(device, mountPoint, fsType,
                       Join(seq(|modes|, i requires 0 <= i < |modes| => ModeOption(modes[i])), ","))
  {
    var draft := new MountDraft(device, mountPoint, fsType);
    ghost var applied: seq<string> := [];
    for i := 0 to |modes|
      invariant applied == seq(i, j requires 0 <= j < i => ModeOption(modes[j]))
      invariant draft.options == Join(applied, ",")
      invariant draft.options == "" <==> i == 0
    {
      draft.ReadOnly(modes[i]);
      JoinSnoc(applied, ModeOption(modes[i]), ",");
      applied := applied + [ModeOption(modes[i])];
    }
    m := Mount(draft.device, draft.mountPoint, draft.fsType, draft.options);
  }

  lemma {:induction false} JoinSnoc(parts: seq<string>, part: string, separator: string)
    ensures Join(parts + [part], separator) ==
      if parts == [] then part else Join(parts, separator) + separator + part
  {
    if |parts| > 1 {
      assert (parts + [part])[1..] == parts[1..] + [part];
      JoinSnoc(parts[1..], part, separator);
    } else if |parts| == 1 {
      assert (parts + [part])[1..] == [part];
    }
  }

  class Env {
    const host: Session
    const prefix: string
    const disks: Result<seq<DiskRecord>, string>

    constructor (host: Session, prefix: string, disks: Result<seq<DiskRecord>, string>)
      ensures this.host == host && this.prefix == prefix && this.disks == disks
    {
      this.host, this.prefix, this.disks := host, prefix, disks;
    }

    function Agent(): Agent {
      VolumeProtocol.Agent(host.oracle, prefix, disks)
    }

    // ---------------------------------------------------------------- cleanup

    method UnmountDevice(m: Mount) returns (failure: Option<Failure>)
      modifies host
      ensures host.history == After(host.oracle, old(host.history), Umount(m.mountPoint))
      ensures failure == match host.oracle.run(old(host.history), Umount(m.mountPoint))
                         case Err(detail) => Some(Failure(m, detail))
                         case Ok(_) => None
    {
      var reply := host.Run(Umount(m.mountPoint));
      failure := if reply.Err? then Some(Failure(m, reply.error)) else None;
    }

    // The loop of UnmountExistingVolumes, writing one line per failure into the buffer.
    method UnmountEach(mounts: seq<Mount>) returns (buf: string, ghost failures: seq<Failure>)
      modifies host
      ensures Cleanup(host.history, failures) == UnmountAll(host.oracle, old(host.history), mounts)
      ensures buf == Terminated(Messages(failures), "\n")
    {
      ghost var done := UnmountAll(host.oracle, host.history, mounts);
      buf, failures := "", [];
      assert Resumed(host.oracle, host.history, mounts[0..], failures) == done;
      for i := 0 to |mounts|
        invariant Resumed(host.oracle, host.history, mounts[i..], failures) == done
        invariant buf == Terminated(Messages(failures), "\n")
      {
        ResumedStep(host.oracle, host.history, mounts, i, failures);
        var failure := UnmountDevice(mounts[i]);
        if failure.Some? {
          BufferSnoc(failures, failure.value);
          buf := buf + failure.value.Message() + "\n";
          failures := failures + [failure.value];
        }
      }
    }

    method UnmountExistingVolumes() returns (r: Result<(), Error>)
      modifies host
      ensures Step(host.history, r) == UnmountExisting(Agent(), old(host.history))
    {
      var text := host.Run(CatProcMounts);
      if text.Err? {
        return Err(UnmountFailed("failed to list existing volumes: " + text.error));
      }
      var mounts := ReadTable(prefix, text.value);
      var buf, failures := UnmountEach(mounts);
      if |buf| > 0 {
        JoinIsTerminatedWithoutLast(Messages(failures), "\n");
        return Err(UnmountFailed(buf[..|buf| - 1]));
      }
      assert failures == [];
      return Ok(());
    }

    // ---------------------------------------------------------------- single checks

    method GetSinglePropertyFromDeviceWithLsblk(device: string, property: Property)
      returns (r: Result<string, Error>)
      modifies host
      ensures Step(host.history, r) == LsblkProperty(host.oracle, old(host.history), property, device)
    {
      var output := host.Run(Lsblk(property, device));
      if output.Err? {
        return Err(CommandFailed(output.error));
      }
      if Count(output.value, '\n') > 1 {
        var debug := host.Run(LsblkAll);
        if debug.Err? {
          return Err(MultilineOutputNoDebug(debug.error));
        }
        return Err(MultilineOutput(debug.value));
      }
      return Ok(TrimSpace(output.value));
    }

    method CheckReadable(device: string) returns (r: Result<(), Error>)
      modifies host
      ensures Step(host.history, r) == CheckDeviceReadable(host.oracle, old(host.history), device)
    {
      var mode := host.Stat(device);
      if mode.Err? {
        return Err(DeviceAccess(device, mode.error));
      }
      if !mode.value.device || mode.value.charDevice {
        return Err(NotBlockDevice(device));
      }
      return Ok(());
    }

    method CheckNotMounted(device: string) returns (r: Result<(), Error>)
      modifies host
      ensures Step(host.history, r) == CheckDeviceNotMounted(host.oracle, old(host.history), device)
    {
      var mountPoint := GetSinglePropertyFromDeviceWithLsblk(device, MOUNTPOINT);
      match mountPoint {
        case Err(e) => return Err(e);
        case Ok(p) =>
          if p == "" {
            return Ok(());
          }
          return Err(AlreadyMounted(device, p));
      }
    }

    method CheckFilesystemAndFormatIfNeeded(device: string, fsType: string) returns (r: Result<(), Error>)
      modifies host
      ensures fsType == EXT4 ==> Step(host.history, r) == CheckOrFormat(host.oracle, old(host.history), device)
      ensures fsType != EXT4 ==> host.history == old(host.history) && r == Err(NoChecker(fsType))
    {
      var filesystemCheckerMap := map[EXT4 := ["fsck.ext4", "-p"]];
      var filesystemFormatterMap := map[EXT4 := ["mkfs.ext4"]];
      if fsType !in filesystemCheckerMap || fsType !in filesystemFormatterMap {
        return Err(NoChecker(fsType));
      }
      var found := GetSinglePropertyFromDeviceWithLsblk(device, FSTYPE);
      if found.Err? {
        return Err(found.error);
      }
      if found.value == "" {
        var output := host.Run(Mkfs(device));
        if output.Err? {
          return Err(FormatFailed(output.error));
        }
      } else if found.value == fsType {
        var output := host.Run(Fsck(device));
        if output.Err? {
          return Err(CheckFailed(output.error));
        }
      } else {
        return Err(WrongFsType(device, found.value, fsType));
      }
      return Ok(());
    }

    method CreateNewMountPath(family: string, name: string) returns (r: Result<string, Error>)
      modifies host
      ensures var path := MountPath(prefix, family, name);
        var s := MakeDirectory(host.oracle, old(host.history), path);
        host.history == s.history && r == if s.outcome.Err? then Err(s.outcome.error) else Ok(path)
    {
      var path := prefix + "/" + family + "s/" + name;
      var reply := host.Run(MkdirAll(path));
      if reply.Err? {
        return Err(MkdirFailed(path, reply.error));
      }
      return Ok(path);
    }

    method Mount(m: Mount) returns (r: Result<(), Error>)
      modifies host
      ensures Step(host.history, r) == MountDevice(host.oracle, old(host.history), m)
    {
      var reply := host.Run(MountEntry(m));
      if reply.Err? {
        return Err(MountFailed(m.device, m.mountPoint, reply.error));
      }
      return Ok(());
    }

    // ---------------------------------------------------------------- handlers

    method ProcessEmptyDirVolume(medium: string, name: string) returns (r: Result<HostPathAndMode, Error>)
      modifies host
      ensures Step(host.history, r) == ProcessEmptyDir(Agent(), old(host.history), medium, name)
    {
      if medium != "Memory" {
        return Err(UnsupportedMedium(medium));
      }
      var path := CreateNewMountPath("tmpfs", name);
      if path.Err? {
        return Err(path.error);
      }
      var m := NewMount("tmpfs", path.value, "tmpfs", [false]);
      assert m == TmpfsMount(prefix, name);
      var mounted := Mount(m);
      if mounted.Err? {
        return Err(mounted.error);
      }
      return Ok(HostPathAndMode(path.value, false));
    }

    method ProcessGcePersistentDiskVolume(disk: GcePersistentDisk, wantsReadWrite: bool, modes: map<string, bool>)
      returns (r: Result<HostPathAndMode, Error>)
      modifies host
      ensures Step(host.history, r) == ProcessDisk(Agent(), old(host.history), disk, wantsReadWrite, modes)
    {
      if disk.fsType != "" && disk.fsType != EXT4 {
        return Err(UnsupportedFsType(disk.fsType));
      }
      if disk.pdName == "" {
        return Err(EmptyDiskName);
      }
      if disk.pdName !in modes {
        return Err(AttachmentUnknown(disk.pdName));
      }
      var attachedReadOnly := modes[disk.pdName];
      if attachedReadOnly && wantsReadWrite {
        return Err(AttachedReadOnly(disk.pdName));
      }
      var device := DEVICE_PREFIX + disk.pdName;
      if disk.partition > 0 {
        device := device + "-part" + Decimal(disk.partition);
      }
      var checked := CheckReadable(device);
      if checked.Err? {
        return Err(checked.error);
      }
      checked := CheckNotMounted(device);
      if checked.Err? {
        return Err(checked.error);
      }
      if !attachedReadOnly {
        checked := CheckFilesystemAndFormatIfNeeded(device, EXT4);
        if checked.Err? {
          return Err(checked.error);
        }
      }
      var mountReadOnly := attachedReadOnly || !wantsReadWrite;
      var path := CreateNewMountPath(DISK_FAMILY, disk.pdName);
      if path.Err? {
        return Err(path.error);
      }
      var m := NewMount(device, path.value, EXT4, [mountReadOnly]);
      assert m == DiskMount(prefix, disk, mountReadOnly);
      var mounted := Mount(m);
      if mounted.Err? {
        return Err(mounted.error);
      }
      return Ok(HostPathAndMode(path.value, mountReadOnly));
    }

    method ProcessOneVolume(v: Volume, wantsReadWrite: bool, modes: map<string, bool>)
      returns (r: Result<HostPathAndMode, Error>)
      modifies host
      ensures Step(host.history, r) == ProcessVolume(Agent(), old(host.history), v, wantsReadWrite, modes)
    {
      var definitions := 0;
      r := Ok(HostPathAndMode("", false));
      if v.hostPath.Some? {
        definitions := definitions + 1;
        r := Ok(HostPathAndMode(v.hostPath.value, false));
      }
      if v.emptyDirMedium.Some? {
        definitions := definitions + 1;
        r := ProcessEmptyDirVolume(v.emptyDirMedium.value, v.name);
      }
      if v.persistentDisk.Some? {
        definitions := definitions + 1;
        r := ProcessGcePersistentDiskVolume(v.persistentDisk.value, wantsReadWrite, modes);
      }
      if definitions != 1 {
        return Err(DefinitionCount(v.name, definitions));
      }
      if r.Err? {
        return Err(InVolume(v.name, r.error));
      }
    }

    method BuildDiskMetadataReadOnlyMap() returns (r: Result<map<string, bool>, Error>)
      ensures r == DiskModes(disks)
    {
      if disks.Err? {
        return Err(MetadataUnavailable(disks.error));
      }
      var records := disks.value;
      var modes: map<string, bool> := map[];
      for i := 0 to |records|
        invariant AttachmentModes(records, map[]) == AttachmentModes(records[i..], modes)
      {
        var entry := records[i];
        assert records[i..][0] == entry && records[i..][1..] == records[i + 1..];
        if entry.deviceName == "" {
          return Err(EmptyDeviceName);
        }
        if entry.mode == "READ_WRITE" {
          modes := modes[entry.deviceName := false];
        } else if entry.mode == "READ_ONLY" {
          modes := modes[entry.deviceName := true];
        } else {
          return Err(UnknownDeviceMode(entry.deviceName, entry.mode));
        }
      }
      r := Ok(modes);
    }

    method BuildVolumeNameToHostPathMap(volumes: seq<Volume>, demand: map<string, bool>)
      returns (r: Result<map<string, HostPathAndMode>, Error>)
      modifies host
      ensures Step(host.history, r) ==
        match DiskModes(disks)
        case Err(e) => Step(old(host.history), Err(e))
        case Ok(modes) => ProcessVolumes(Agent(), old(host.history), volumes, demand, modes, map[])
    {
      var modes := BuildDiskMetadataReadOnlyMap();
      if modes.Err? {
        return Err(modes.error);
      }
      var paths: map<string, HostPathAndMode> := map[];
      for i := 0 to |volumes|
        invariant ProcessVolumes(Agent(), old(host.history), volumes, demand, modes.value, map[])
               == ProcessVolumes(Agent(), host.history, volumes[i..], demand, modes.value, paths)
      {
        var v := volumes[i];
        assert volumes[i..][0] == v && volumes[i..][1..] == volumes[i + 1..];
        if v.name !in demand {
          return Err(MissingFromDemand(v.name));
        }
        var p := ProcessOneVolume(v, demand[v.name], modes.value);
        if p.Err? {
          return Err(p.error);
        }
        paths := paths[v.name := p.value];
      }
      r := Ok(paths);
    }

    method BindOneContainer(c: Container, paths: map<string, HostPathAndMode>) returns (r: Result<seq<Binding>, Error>)
      ensures r == BindMounts(c.name, c.volumeMounts, paths)
    {
      var binds: seq<Binding> := [];
      for i := 0 to |c.volumeMounts|
        invariant var all := BindMounts(c.name, c.volumeMounts, paths);
          var rest := BindMounts(c.name, c.volumeMounts[i..], paths);
          && (rest.Err? ==> all == rest)
          && (rest.Ok? ==> all.Ok? && all.value == binds + rest.value)
      {
        var m := c.volumeMounts[i];
        assert c.volumeMounts[i..][0] == m && c.volumeMounts[i..][1..] == c.volumeMounts[i + 1..];
        var p := PathOf(paths, m.name);
        if p.readOnly && !m.readOnly {
          return Err(ReadOnlyVolume(c.name, m.name));
        }
        binds := binds + [Binding(p.hostPath, m.mountPath, m.readOnly)];
      }
      assert binds + [] == binds;
      r := Ok(binds);
    }

    method PrepareVolumesAndGetBindings(spec: ContainerSpec) returns (r: Result<Bindings, Error>)
      requires WalksMaps(host.oracle)
      modifies host
      ensures Step(host.history, r) == PrepareVolumes(Agent(), old(host.history), spec)
    {
      var demand := CheckReferencesInPlace(spec, host.oracle.order(host.history, DeclaredNames(spec.volumes)));
      if demand.Err? {
        return Err(demand.error);
      }
      var paths := BuildVolumeNameToHostPathMap(spec.volumes, demand.value);
      if paths.Err? {
        return Err(paths.error);
      }
      var bindings: Bindings := map[];
      for i := 0 to |spec.containers|
        invariant host.history == PrepareVolumes(Agent(), old(host.history), spec).history
        invariant PrepareVolumes(Agent(), old(host.history), spec).outcome
               == BindContainers(spec.containers[i..], paths.value, bindings)
      {
        var c := spec.containers[i];
        assert spec.containers[i..][0] == c && spec.containers[i..][1..] == spec.containers[i + 1..];
        var binds := BindOneContainer(c, paths.value);
        if binds.Err? {
          return Err(binds.error);
        }
        bindings := bindings[c.name := binds.value];
      }
      r := Ok(bindings);
    }
  }

  lemma {:induction false} MessagesSnoc(failures: seq<Failure>, failure: Failure)
    ensures Messages(failures + [failure]) == Messages(failures) + [failure.Message()]
  {
    if failures == [] {
      assert [failure][1..] == [];
    } else {
      assert (failures + [failure])[1..] == failures[1..] + [failure];
      MessagesSnoc(failures[1..], failure);
    }
  }

  lemma BufferSnoc(failures: seq<Failure>, failure: Failure)
    ensures Terminated(Messages(failures + [failure]), "\n") ==
      Terminated(Messages(failures), "\n") + failure.Message() + "\n"
  {
    MessagesSnoc(failures, failure);
    TerminatedSnoc(Messages(failures), failure.Message(), "\n");
  }

  // The cleanup after some failures, with these mounts still to try.
  ghost function Resumed(o: Oracle, h: History, mounts: seq<Mount>, failures: seq<Failure>): Cleanup {
    var rest := UnmountAll(o, h, mounts);
    Cleanup(rest.history, failures + rest.failures)
  }

  lemma ResumedStep(o: Oracle, h: History, mounts: seq<Mount>, i: nat, failures: seq<Failure>)
    requires i < |mounts|
    ensures var c := Umount(mounts[i].mountPoint);
      Resumed(o, h, mounts[i..], failures) == Resumed(o, After(o, h, c), mounts[i + 1..],
        match o.run(h, c)
        case Err(detail) => failures + [Failure(mounts[i], detail)]
        case Ok(_) => failures)
  {
    assert mounts[i..][0] == mounts[i] && mounts[i..][1..] == mounts[i + 1..];
  }
}
