// Volume preparation and cleanup as functions: given what a host answers, what konlet
// sends it, in which order, and what comes out. Module Volumes proves that the methods
// that really drive the host compute these functions; the theorems are about them.
module VolumeProtocol {
  import opened Wrappers
  import opened Text
  import opened MountTable
  import opened ApiTypes
  import opened Host
  import opened References

  // Everything outside the declaration that a run depends on: the host's answers, the
  // managed directory and the disk metadata (or the failure to get it).
  datatype Agent = Agent(oracle: Oracle, prefix: string, disks: Result<seq<DiskRecord>, string>)

  const DISK_FAMILY := "gce-persistent-disk"
  const DEVICE_PREFIX := "/dev/disk/by-id/google-"

  // ---------------------------------------------------------------- names

  function DevicePath(pdName: string, partition: int): string {
    if partition > 0 then DEVICE_PREFIX + pdName + "-part" + Decimal(partition)
    else DEVICE_PREFIX + pdName
  }

  function MountPath(prefix: string, family: string, name: string): string {
    prefix + "/" + family + "s/" + name
  }

  function ModeOption(readOnly: bool): string {
    if readOnly then "ro" else "rw"
  }

  function TmpfsMount(prefix: string, name: string): Mount {
    Mount(TMPFS, MountPath(prefix, TMPFS, name), TMPFS, ModeOption(false))
  }

  function DiskMount(prefix: string, disk: GcePersistentDisk, readOnly: bool): Mount {
    Mount(DevicePath(disk.pdName, disk.partition), MountPath(prefix, DISK_FAMILY, disk.pdName), EXT4,
          ModeOption(readOnly))
  }

  // ---------------------------------------------------------------- single checks

  function LsblkProperty(o: Oracle, h: History, property: Property, device: string): Step<string> {
    var h1 := After(o, h, Lsblk(property, device));
    match o.run(h, Lsblk(property, device))
    case Err(detail) => Step(h1, Err(CommandFailed(detail)))
    case Ok(output) =>
      if Count(output, '\n') > 1 then
        Step(After(o, h1, LsblkAll),
             match o.run(h1, LsblkAll)
             case Err(detail) => Err(MultilineOutputNoDebug(detail))
             case Ok(debugOutput) => Err(MultilineOutput(debugOutput)))
      else
        Step(h1, Ok(TrimSpace(output)))
  }

  function CheckDeviceReadable(o: Oracle, h: History, device: string): Step<()> {
    var mode := o.stat(h, device);
    Step(h + [Statted(device, mode)],
         match mode
         case Err(detail) => Err(DeviceAccess(device, detail))
         case Ok(m) => if m.BlockDevice() then Ok(()) else Err(NotBlockDevice(device)))
  }

  function CheckDeviceNotMounted(o: Oracle, h: History, device: string): Step<()> {
    var (h1, mountPoint) :- LsblkProperty(o, h, MOUNTPOINT, device);
    Step(h1, if mountPoint == "" then Ok(()) else Err(AlreadyMounted(device, mountPoint)))
  }

  function CheckOrFormat(o: Oracle, h: History, device: string): Step<()> {
    var (h1, fsType) :- LsblkProperty(o, h, FSTYPE, device);
    if fsType == "" then
      Step(After(o, h1, Mkfs(device)),
           match o.run(h1, Mkfs(device))
           case Err(detail) => Err(FormatFailed(detail))
           case Ok(_) => Ok(()))
    else if fsType == EXT4 then
      Step(After(o, h1, Fsck(device)),
           match o.run(h1, Fsck(device))
           case Err(detail) => Err(CheckFailed(detail))
           case Ok(_) => Ok(()))
    else
      Step(h1, Err(WrongFsType(device, fsType, EXT4)))
  }

  function MakeDirectory(o: Oracle, h: History, path: string): Step<()> {
    Step(After(o, h, MkdirAll(path)),
         match o.run(h, MkdirAll(path))
         case Err(detail) => Err(MkdirFailed(path, detail))
         case Ok(_) => Ok(()))
  }

  function MountDevice(o: Oracle, h: History, m: Mount): Step<()> {
    Step(After(o, h, MountEntry(m)),
         match o.run(h, MountEntry(m))
         case Err(detail) => Err(MountFailed(m.device, m.mountPoint, detail))
         case Ok(_) => Ok(()))
  }

  // ---------------------------------------------------------------- handlers

  function MountAt(o: Oracle, h: History, m: Mount): Step<()> {
    var (h1, _) :- MakeDirectory(o, h, m.mountPoint);
    MountDevice(o, h1, m)
  }

  function ProcessEmptyDir(a: Agent, h: History, medium: string, name: string): Step<HostPathAndMode> {
    if medium != "Memory" then Step(h, Err(UnsupportedMedium(medium)))
    else
      var m := TmpfsMount(a.prefix, name);
      var (h1, _) :- MountAt(a.oracle, h, m);
      Step(h1, Ok(HostPathAndMode(m.mountPoint, false)))
  }

  // The checks on a disk volume that need no command; the result tells whether the disk
  // is attached read-only.
  function DiskAttachment(disk: GcePersistentDisk, wantsReadWrite: bool, modes: map<string, bool>)
    : Result<bool, Error>
  {
    if disk.fsType != "" && disk.fsType != EXT4 then Err(UnsupportedFsType(disk.fsType))
    else if disk.pdName == "" then Err(EmptyDiskName)
    else if disk.pdName !in modes then Err(AttachmentUnknown(disk.pdName))
    else if modes[disk.pdName] && wantsReadWrite then Err(AttachedReadOnly(disk.pdName))
    else Ok(modes[disk.pdName])
  }

  // Stat, lsblk and, on a disk attached read-write, mkfs or fsck.
  function PrepareDevice(o: Oracle, h: History, device: string, attachedReadOnly: bool): Step<()> {
    var (h1, _) :- CheckDeviceReadable(o, h, device);
    var (h2, _) :- CheckDeviceNotMounted(o, h1, device);
    if attachedReadOnly then Step(h2, Ok(())) else CheckOrFormat(o, h2, device)
  }

  function ProcessDisk(a: Agent, h: History, disk: GcePersistentDisk, wantsReadWrite: bool,
                       modes: map<string, bool>): Step<HostPathAndMode>
  {
    match DiskAttachment(disk, wantsReadWrite, modes)
    case Err(e) => Step(h, Err(e))
    case Ok(attachedReadOnly) =>
      var m := DiskMount(a.prefix, disk, attachedReadOnly || !wantsReadWrite);
      var (h1, _) :- PrepareDevice(a.oracle, h, m.device, attachedReadOnly);
      var (h2, _) :- MountAt(a.oracle, h1, m);
      Step(h2, Ok(HostPathAndMode(m.mountPoint, attachedReadOnly || !wantsReadWrite)))
  }

  function Definitions(v: Volume): nat {
    (if v.hostPath.Some? then 1 else 0) + (if v.emptyDirMedium.Some? then 1 else 0)
    + (if v.persistentDisk.Some? then 1 else 0)
  }

  // Runs the handler of every kind the volume defines, and only then counts the kinds.
  function RunHandlers(a: Agent, h: History, v: Volume, wantsReadWrite: bool, modes: map<string, bool>)
    : Step<HostPathAndMode>
  {
    var r1 := Step(h, Ok(HostPathAndMode(if v.hostPath.Some? then v.hostPath.value else "", false)));
    var r2 := if v.emptyDirMedium.Some? then ProcessEmptyDir(a, r1.history, v.emptyDirMedium.value, v.name) else r1;
    if v.persistentDisk.Some? then ProcessDisk(a, r2.history, v.persistentDisk.value, wantsReadWrite, modes) else r2
  }

  function ProcessVolume(a: Agent, h: History, v: Volume, wantsReadWrite: bool, modes: map<string, bool>)
    : Step<HostPathAndMode>
  {
    var r := RunHandlers(a, h, v, wantsReadWrite, modes);
    Step(r.history,
         if Definitions(v) != 1 then Err(DefinitionCount(v.name, Definitions(v)))
         else match r.outcome
           case Err(e) => Err(InVolume(v.name, e))
           case Ok(p) => Ok(p))
  }

  function ProcessVolumes(a: Agent, h: History, volumes: seq<Volume>, demand: map<string, bool>,
                          modes: map<string, bool>, paths: map<string, HostPathAndMode>)
    : Step<map<string, HostPathAndMode>>
    decreases |volumes|
  {
    if volumes == [] then Step(h, Ok(paths))
    else
      var v := volumes[0];
      if v.name !in demand then Step(h, Err(MissingFromDemand(v.name)))
      else
        var (h1, p) :- ProcessVolume(a, h, v, demand[v.name], modes);
        ProcessVolumes(a, h1, volumes[1..], demand, modes, paths[v.name := p])
  }

  // ---------------------------------------------------------------- metadata and bindings

  function CheckRecord(record: DiskRecord): Option<Error> {
    if record.deviceName == "" then Some(EmptyDeviceName)
    else if record.mode == "READ_WRITE" || record.mode == "READ_ONLY" then None
    else Some(UnknownDeviceMode(record.deviceName, record.mode))
  }

  // Whether each disk is attached read-only, by its last record; or the first bad record.
  function AttachmentModes(records: seq<DiskRecord>, modes: map<string, bool>): Result<map<string, bool>, Error> {
    if records == [] then Ok(modes)
    else match CheckRecord(records[0])
      case Some(e) => Err(e)
      case None => AttachmentModes(records[1..], modes[records[0].deviceName := records[0].mode == "READ_ONLY"])
  }

  function DiskModes(disks: Result<seq<DiskRecord>, string>): Result<map<string, bool>, Error> {
    match disks
    case Err(detail) => Err(MetadataUnavailable(detail))
    case Ok(records) => AttachmentModes(records, map[])
  }

  // A volume missing from the map reads as Go's zero value.
  function PathOf(paths: map<string, HostPathAndMode>, name: string): HostPathAndMode {
    if name in paths then paths[name] else HostPathAndMode("", false)
  }

  function BindMounts(container: string, mounts: seq<VolumeMount>, paths: map<string, HostPathAndMode>)
    : Result<seq<Binding>, Error>
  {
    if mounts == [] then Ok([])
    else
      var m, p := mounts[0], PathOf(paths, mounts[0].name);
      if p.readOnly && !m.readOnly then Err(ReadOnlyVolume(container, m.name))
      else match BindMounts(container, mounts[1..], paths)
        case Err(e) => Err(e)
        case Ok(rest) => Ok([Binding(p.hostPath, m.mountPath, m.readOnly)] + rest)
  }

  function BindContainers(containers: seq<Container>, paths: map<string, HostPathAndMode>, bindings: Bindings)
    : Result<Bindings, Error>
  {
    if containers == [] then Ok(bindings)
    else match BindMounts(containers[0].name, containers[0].volumeMounts, paths)
      case Err(e) => Err(e)
      case Ok(b) => BindContainers(containers[1..], paths, bindings[containers[0].name := b])
  }

  function PrepareVolumes(a: Agent, h: History, spec: ContainerSpec): Step<Bindings> {
    match CheckReferences(spec, a.oracle.order(h, DeclaredNames(spec.volumes)))
    case Err(e) => Step(h, Err(e))
    case Ok(demand) =>
      match DiskModes(a.disks)
      case Err(e) => Step(h, Err(e))
      case Ok(modes) =>
        var (h1, paths) :- ProcessVolumes(a, h, spec.volumes, demand, modes, map[]);
        Step(h1, BindContainers(spec.containers, paths, map[]))
  }

  // ---------------------------------------------------------------- cleanup

  // An unmount that failed, with the message the host gave.
  datatype Failure = Failure(mount: Mount, detail: string) {
    function Message(): string {
      "Failed to unmount " + mount.device + " at " + mount.mountPoint + ": " + detail
    }
  }

  datatype Cleanup = Cleanup(history: History, failures: seq<Failure>)

  // One umount for every mount of the snapshot, whatever becomes of the others.
  function UnmountAll(o: Oracle, h: History, snapshot: seq<Mount>): Cleanup
    decreases |snapshot|
  {
    if snapshot == [] then Cleanup(h, [])
    else
      var c := Umount(snapshot[0].mountPoint);
      var rest := UnmountAll(o, After(o, h, c), snapshot[1..]);
      match o.run(h, c)
      case Err(detail) => Cleanup(rest.history, [Failure(snapshot[0], detail)] + rest.failures)
      case Ok(_) => rest
  }

  function Messages(failures: seq<Failure>): seq<string> {
    if failures == [] then [] else [failures[0].Message()] + Messages(failures[1..])
  }

  function UnmountExisting(a: Agent, h: History): Step<()> {
    var h1 := After(a.oracle, h, CatProcMounts);
    match a.oracle.run(h, CatProcMounts)
    case Err(detail) => Step(h1, Err(UnmountFailed("failed to list existing volumes: " + detail)))
    case Ok(text) =>
      var done := UnmountAll(a.oracle, h1, ParseTable(a.prefix, text));
      Step(done.history,
           if done.failures == [] then Ok(()) else Err(UnmountFailed(Join(Messages(done.failures), "\n"))))
  }
}
