// What konlet may do to a persistent disk, whatever the host answers, and in which order
// a preparation works through its volumes.
module DiskTheorems {
  import opened Wrappers
  import opened Text
  import opened MountTable
  import opened ApiTypes
  import opened Host
  import opened References
  import opened VolumeProtocol
  import opened RunProtocol
  import opened Discipline
  import opened BindingTheorems
  import opened PathTheorems

  // The commands that can change what is on a device.
  predicate Writes(e: Event, device: string) {
    e.Ran? &&
    match e.command
    case Mkfs(d) => d == device
    case Fsck(d) => d == device
    case MountEntry(m) => m.device == device && m.options != "ro"
    case _ => false
  }

  ghost predicate NeverWrites(h: History, h': History, device: string) {
    h <= h' && forall i :: |h| <= i < |h'| ==> !Writes(h'[i], device)
  }

  // ---------------------------------------------------------------- one disk volume

  lemma PrepareDeviceScript(o: Oracle, h: History, device: string, attachedReadOnly: bool)
    requires PrepareDevice(o, h, device, attachedReadOnly).outcome.Ok?
    ensures var end, n := PrepareDevice(o, h, device, attachedReadOnly).history, |h|;
      && h <= end
      && |end| == n + (if attachedReadOnly then 2 else 4)
      && end[n].Statted? && end[n].path == device
      && end[n + 1].Ran? && end[n + 1].command == Lsblk(MOUNTPOINT, device) && BlankReport(end[n + 1].reply)
      && (!attachedReadOnly ==>
          && end[n + 2].Ran? && end[n + 2].command == Lsblk(FSTYPE, device)
          && end[n + 3].Ran? && end[n + 3].reply.Ok?
          && (end[n + 3].command == Mkfs(device) || end[n + 3].command == Fsck(device)))
  {
    var h1 := CheckDeviceReadable(o, h, device).history;
    TrimSpaceEmpty(o.run(h1, Lsblk(MOUNTPOINT, device)).value);
  }

  lemma MountAtScript(o: Oracle, h: History, m: Mount)
    requires MountAt(o, h, m).outcome.Ok?
    ensures var end, n := MountAt(o, h, m).history, |h|;
      && h <= end && |end| == n + 2
      && end[n].Ran? && end[n].command == MkdirAll(m.mountPoint)
      && end[n + 1].Ran? && end[n + 1].command == MountEntry(m)
  {
  }

  // What a handler that succeeds has sent, in full: a look at the device and its mount
  // point; for a disk attached read-write its filesystem and then a successful mkfs or
  // fsck; the directory; and the mount, read-write exactly on demand.
  lemma DiskHandlerScript(a: Agent, h: History, disk: GcePersistentDisk, wants: bool, modes: map<string, bool>)
    requires ProcessDisk(a, h, disk, wants, modes).outcome.Ok?
    ensures var end, n := ProcessDisk(a, h, disk, wants, modes).history, |h|;
      && disk.pdName in modes
      && var m := DiskMount(a.prefix, disk, !wants);
      && h <= end
      && |end| == n + (if modes[disk.pdName] then 4 else 6)
      && end[n].Statted? && end[n].path == m.device
      && end[n + 1].Ran? && end[n + 1].command == Lsblk(MOUNTPOINT, m.device) && BlankReport(end[n + 1].reply)
      && end[|end| - 2].Ran? && end[|end| - 2].command == MkdirAll(m.mountPoint)
      && end[|end| - 1].Ran? && end[|end| - 1].command == MountEntry(m)
      && (!modes[disk.pdName] ==>
          && end[n + 2].Ran? && end[n + 2].command == Lsblk(FSTYPE, m.device)
          && end[n + 3].Ran? && end[n + 3].reply.Ok?
          && (end[n + 3].command == Mkfs(m.device) || end[n + 3].command == Fsck(m.device)))
  {
    var m := DiskMount(a.prefix, disk, !wants);
    var ro := DiskAttachment(disk, wants, modes).value;
    assert ro == modes[disk.pdName] && (ro || !wants) == !wants;
    var s := PrepareDevice(a.oracle, h, m.device, ro);
    PrepareDeviceScript(a.oracle, h, m.device, ro);
    MountAtScript(a.oracle, s.history, m);
  }

  lemma PrepareDeviceMountsNothing(o: Oracle, h: History, device: string, attachedReadOnly: bool)
    ensures var end := PrepareDevice(o, h, device, attachedReadOnly).history;
      h <= end && forall i :: |h| <= i < |end| && end[i].Ran? ==> !end[i].command.MountEntry?
  {
  }

  lemma MountAtExtends(o: Oracle, h: History, m: Mount)
    ensures h <= MountAt(o, h, m).history
  {
  }

  lemma MountAtMountsLast(o: Oracle, h: History, m: Mount, i: nat)
    requires var end := MountAt(o, h, m).history; |h| <= i < |end| && end[i].Ran? && end[i].command.MountEntry?
    ensures var end := MountAt(o, h, m).history; h <= end && i == |h| + 1 && end[i].command == MountEntry(m)
  {
  }

  // Whether or not it succeeds, a handler mounts nothing but its own disk, read-write
  // exactly on demand, and only after this handler looked at the device and got a blank
  // report of where it is mounted; on a disk attached read-write it does so right after a
  // successful mkfs or fsck of the device, with no more than the mkdir in between.
  lemma DiskMountIsVetted(a: Agent, h: History, disk: GcePersistentDisk, wants: bool, modes: map<string, bool>, i: nat)
    requires var end := ProcessDisk(a, h, disk, wants, modes).history;
      |h| <= i < |end| && end[i].Ran? && end[i].command.MountEntry?
    ensures var end, m := ProcessDisk(a, h, disk, wants, modes).history, DiskMount(a.prefix, disk, !wants);
      && disk.pdName in modes && end[i].command.mount == m
      && i == |h| + (if modes[disk.pdName] then 3 else 5)
      && end[|h|].Statted? && end[|h|].path == m.device
      && end[|h| + 1].Ran? && end[|h| + 1].command == Lsblk(MOUNTPOINT, m.device) && BlankReport(end[|h| + 1].reply)
      && (!modes[disk.pdName] ==>
          && end[i - 2].Ran? && end[i - 2].reply.Ok?
          && (end[i - 2].command == Mkfs(m.device) || end[i - 2].command == Fsck(m.device)))
  {
    var m := DiskMount(a.prefix, disk, !wants);
    var ro := DiskAttachment(disk, wants, modes).value;
    var s := PrepareDevice(a.oracle, h, m.device, ro);
    PrepareDeviceMountsNothing(a.oracle, h, m.device, ro);
    assert s.outcome.Ok?;
    PrepareDeviceScript(a.oracle, h, m.device, ro);
    var end := ProcessDisk(a, h, disk, wants, modes).history;
    MountAtExtends(a.oracle, s.history, m);
    assert forall j :: |h| <= j < |s.history| ==> end[j] == s.history[j];
    MountAtMountsLast(a.oracle, s.history, m, i);
  }

  lemma PrepareDeviceNeverWrites(o: Oracle, h: History, device: string, attachedReadOnly: bool, other: string)
    requires attachedReadOnly || other != device
    ensures NeverWrites(h, PrepareDevice(o, h, device, attachedReadOnly).history, other)
  {
  }

  lemma MountAtNeverWrites(o: Oracle, h: History, m: Mount, other: string)
    requires m.options == "ro" || other != m.device
    ensures NeverWrites(h, MountAt(o, h, m).history, other)
  {
  }

  // A disk attached read-only is never written by its handler, and no handler writes a
  // device other than its own.
  lemma DiskHandlerWrites(a: Agent, h: History, disk: GcePersistentDisk, wants: bool, modes: map<string, bool>,
                          device: string)
    requires (disk.pdName in modes && modes[disk.pdName]) || device != DevicePath(disk.pdName, disk.partition)
    ensures NeverWrites(h, ProcessDisk(a, h, disk, wants, modes).history, device)
  {
    var gate := DiskAttachment(disk, wants, modes);
    if gate.Ok? {
      var m := DiskMount(a.prefix, disk, gate.value || !wants);
      PrepareDeviceNeverWrites(a.oracle, h, m.device, gate.value, device);
      MountAtNeverWrites(a.oracle, PrepareDevice(a.oracle, h, m.device, gate.value).history, m, device);
    }
  }

  // ---------------------------------------------------------------- all volumes

  // The device of some disk of the declaration that is attached read-write.
  ghost predicate WritableDevice(volumes: seq<Volume>, modes: map<string, bool>, device: string) {
    exists v :: v in volumes && v.persistentDisk.Some?
      && device == DevicePath(v.persistentDisk.value.pdName, v.persistentDisk.value.partition)
      && !(v.persistentDisk.value.pdName in modes && modes[v.persistentDisk.value.pdName])
  }

  lemma VolumeWrites(a: Agent, h: History, v: Volume, wants: bool, modes: map<string, bool>, device: string)
    requires device != TMPFS && !WritableDevice([v], modes, device)
    ensures NeverWrites(h, ProcessVolume(a, h, v, wants, modes).history, device)
  {
    var h1 := h;
    if v.emptyDirMedium.Some? {
      MountAtNeverWrites(a.oracle, h, TmpfsMount(a.prefix, v.name), device);
      h1 := ProcessEmptyDir(a, h, v.emptyDirMedium.value, v.name).history;
    }
    if v.persistentDisk.Some? {
      assert v in [v];
      DiskHandlerWrites(a, h1, v.persistentDisk.value, wants, modes, device);
    }
  }

  lemma {:induction false} VolumesWrite(a: Agent, h: History, volumes: seq<Volume>, demand: map<string, bool>,
                                        modes: map<string, bool>, paths: map<string, HostPathAndMode>, device: string)
    requires device != TMPFS && !WritableDevice(volumes, modes, device)
    ensures NeverWrites(h, ProcessVolumes(a, h, volumes, demand, modes, paths).history, device)
    decreases |volumes|
  {
    if volumes != [] && volumes[0].name in demand {
      var v := volumes[0];
      assert forall x :: x in [v] || x in volumes[1..] ==> x in volumes;
      VolumeWrites(a, h, v, demand[v.name], modes, device);
      var s := ProcessVolume(a, h, v, demand[v.name], modes);
      if s.outcome.Ok? {
        VolumesWrite(a, s.history, volumes[1..], demand, modes, paths[v.name := s.outcome.value], device);
      }
    }
  }

  // A device is written during a preparation only if a disk of the declaration that is
  // attached read-write lives there.
  lemma OnlyWritableDevicesAreWritten(a: Agent, h: History, spec: ContainerSpec, device: string)
    requires device != TMPFS
    requires DiskModes(a.disks).Ok? ==> !WritableDevice(spec.volumes, DiskModes(a.disks).value, device)
    ensures NeverWrites(h, PrepareVolumes(a, h, spec).history, device)
  {
    var demand, modes := CheckReferences(spec, a.oracle.order(h, DeclaredNames(spec.volumes))), DiskModes(a.disks);
    if demand.Ok? && modes.Ok? {
      VolumesWrite(a, h, spec.volumes, demand.value, modes.value, map[], device);
    }
  }

  // The same for a whole run.
  lemma RunWritesOnlyWritable(a: Agent, h: History, auth: string, spec: ContainerSpec, suffix: string, device: string)
    requires device != TMPFS
    requires DiskModes(a.disks).Ok? ==> !WritableDevice(spec.volumes, DiskModes(a.disks).value, device)
    ensures NeverWrites(h, RunContainer(a, h, auth, spec, suffix).history, device)
  {
    var end := RunContainer(a, h, auth, spec, suffix).history;
    RunGrows(a, h, auth, spec, suffix);
    forall i | |h| <= i < |end|
      ensures !Writes(end[i], device)
    {
      if VolumeCommand(end[i]) {
        RunPreparation(a, h, auth, spec, suffix, i);
        OnlyWritableDevicesAreWritten(a, PreparationStart(a, h, auth, spec), spec, device);
      }
    }
  }

  // A disk whose last metadata record says READ_ONLY is never written by a run, through
  // any of its partitions, as long as no other disk of the declaration that is the same
  // device is attached read-write.
  lemma ReadOnlyDiskIsNeverWritten(a: Agent, h: History, auth: string, spec: ContainerSpec, suffix: string,
                                   pdName: string, partition: int)
    requires a.disks.Ok? && LastRecord(a.disks.value, pdName).Some?
    requires LastRecord(a.disks.value, pdName).value.mode == "READ_ONLY"
    requires forall v :: v in spec.volumes && v.persistentDisk.Some? ==>
      var disk := v.persistentDisk.value;
      disk.pdName != pdName && SameDevice(pdName, partition, disk.pdName, disk.partition) ==>
        LastRecord(a.disks.value, disk.pdName).Some? && LastRecord(a.disks.value, disk.pdName).value.mode == "READ_ONLY"
    ensures NeverWrites(h, RunContainer(a, h, auth, spec, suffix).history, DevicePath(pdName, partition))
  {
    var device := DevicePath(pdName, partition);
    DevicePathSplits(pdName, partition);
    assert device[0] == '/' && TMPFS[0] == 't';
    AttachmentModesExact(a.disks.value);
    var modes := DiskModes(a.disks);
    if modes.Ok? {
      forall v | v in spec.volumes && v.persistentDisk.Some?
        && device == DevicePath(v.persistentDisk.value.pdName, v.persistentDisk.value.partition)
        ensures v.persistentDisk.value.pdName in modes.value && modes.value[v.persistentDisk.value.pdName]
      {
        DevicePathsAlias(pdName, partition, v.persistentDisk.value.pdName, v.persistentDisk.value.partition);
      }
    }
    RunWritesOnlyWritable(a, h, auth, spec, suffix, device);
  }

  // ---------------------------------------------------------------- stages

  // The history once the handlers of the first n volumes have run, one after the other,
  // and the outcome of the one that runs next.
  function HandlersRun(a: Agent, h: History, volumes: seq<Volume>, demand: map<string, bool>, modes: map<string, bool>,
                       n: nat): History
    requires n <= |volumes| && DeclaredNames(volumes) <= demand.Keys
    decreases n, 0
  {
    if n == 0 then h else NthHandler(a, h, volumes, demand, modes, n - 1).history
  }

  function NthHandler(a: Agent, h: History, volumes: seq<Volume>, demand: map<string, bool>, modes: map<string, bool>,
                      n: nat): Step<HostPathAndMode>
    requires n < |volumes| && DeclaredNames(volumes) <= demand.Keys
    decreases n, 1
  {
    assert volumes[n] in volumes && volumes[n].name in DeclaredNames(volumes);
    ProcessVolume(a, HandlersRun(a, h, volumes, demand, modes, n), volumes[n], demand[volumes[n].name], modes)
  }

  lemma {:induction false} NthHandlerCons(a: Agent, h: History, volumes: seq<Volume>, demand: map<string, bool>,
                                          modes: map<string, bool>, n: nat)
    requires 0 < n < |volumes| && DeclaredNames(volumes) <= demand.Keys && DeclaredNames(volumes[1..]) <= demand.Keys
    ensures NthHandler(a, h, volumes, demand, modes, n)
         == NthHandler(a, NthHandler(a, h, volumes, demand, modes, 0).history, volumes[1..], demand, modes, n - 1)
  {
    if n > 1 {
      NthHandlerCons(a, h, volumes, demand, modes, n - 1);
    }
  }

  // The first n handlers have run, all of them successfully but for the last if the whole
  // failed; success means that there are no more volumes.
  ghost predicate RanInOrder(a: Agent, h: History, volumes: seq<Volume>, demand: map<string, bool>,
                             modes: map<string, bool>, s: Step<map<string, HostPathAndMode>>, n: nat)
    requires DeclaredNames(volumes) <= demand.Keys
  {
    && n <= |volumes|
    && s.history == HandlersRun(a, h, volumes, demand, modes, n)
    && (if s.outcome.Ok? then n == |volumes| else n > 0)
    && forall i :: 0 <= i < n ==>
      (NthHandler(a, h, volumes, demand, modes, i).outcome.Err? <==> s.outcome.Err? && i == n - 1)
  }

  lemma RanInOrderCons(a: Agent, h: History, volumes: seq<Volume>, demand: map<string, bool>, modes: map<string, bool>,
                       s: Step<map<string, HostPathAndMode>>, n: nat)
    requires volumes != [] && DeclaredNames(volumes) <= demand.Keys && DeclaredNames(volumes[1..]) <= demand.Keys
    requires NthHandler(a, h, volumes, demand, modes, 0).outcome.Ok?
    requires RanInOrder(a, NthHandler(a, h, volumes, demand, modes, 0).history, volumes[1..], demand, modes, s, n)
    ensures RanInOrder(a, h, volumes, demand, modes, s, n + 1)
  {
    var h1 := NthHandler(a, h, volumes, demand, modes, 0).history;
    forall i | 0 < i < n + 1
      ensures NthHandler(a, h, volumes, demand, modes, i) == NthHandler(a, h1, volumes[1..], demand, modes, i - 1)
    {
      NthHandlerCons(a, h, volumes, demand, modes, i);
    }
  }

  // The handlers run in declaration order up to and including the first that fails, and
  // nothing else is asked of the host.
  lemma {:induction false} HandlersRunInOrder(a: Agent, h: History, volumes: seq<Volume>, demand: map<string, bool>,
                                              modes: map<string, bool>, paths: map<string, HostPathAndMode>)
    requires DeclaredNames(volumes) <= demand.Keys
    ensures exists n: nat ::
      RanInOrder(a, h, volumes, demand, modes, ProcessVolumes(a, h, volumes, demand, modes, paths), n)
    decreases |volumes|
  {
    var all := ProcessVolumes(a, h, volumes, demand, modes, paths);
    if volumes == [] {
      assert RanInOrder(a, h, volumes, demand, modes, all, 0);
    } else {
      var v, rest := volumes[0], volumes[1..];
      assert v in volumes && v.name in DeclaredNames(volumes);
      assert forall x :: x in rest ==> x in volumes;
      assert DeclaredNames(rest) <= demand.Keys;
      var s := NthHandler(a, h, volumes, demand, modes, 0);
      if s.outcome.Ok? {
        HandlersRunInOrder(a, s.history, rest, demand, modes, paths[v.name := s.outcome.value]);
        var n: nat :| RanInOrder(a, s.history, rest, demand, modes, all, n);
        RanInOrderCons(a, h, volumes, demand, modes, all, n);
      } else {
        assert RanInOrder(a, h, volumes, demand, modes, all, 1);
      }
    }
  }

  // ---------------------------------------------------------------- badly defined volumes

  // The handlers of this volume ask nothing of the host: an emptyDir of another medium
  // than memory and a disk the metadata rules out are rejected without a command.
  predicate Silent(v: Volume, wants: bool, modes: map<string, bool>) {
    && (v.emptyDirMedium.Some? ==> v.emptyDirMedium.value != "Memory")
    && (v.persistentDisk.Some? ==> DiskAttachment(v.persistentDisk.value, wants, modes).Err?)
  }

  lemma HandlersAct(a: Agent, h: History, v: Volume, wants: bool, modes: map<string, bool>)
    ensures Silent(v, wants, modes) ==> ProcessVolume(a, h, v, wants, modes).history == h
    ensures !Silent(v, wants, modes) ==> |ProcessVolume(a, h, v, wants, modes).history| > |h|
  {
    if v.persistentDisk.Some? && DiskAttachment(v.persistentDisk.value, wants, modes).Ok? {
      var h1 := if v.emptyDirMedium.Some? then ProcessEmptyDir(a, h, v.emptyDirMedium.value, v.name).history else h;
      DiskHandlerActs(a, h1, v.persistentDisk.value, wants, modes);
    }
  }

  lemma DiskHandlerActs(a: Agent, h: History, disk: GcePersistentDisk, wants: bool, modes: map<string, bool>)
    requires DiskAttachment(disk, wants, modes).Ok?
    ensures |ProcessDisk(a, h, disk, wants, modes).history| > |h|
  {
    var ro := DiskAttachment(disk, wants, modes).value;
    var m := DiskMount(a.prefix, disk, ro || !wants);
    var s := PrepareDevice(a.oracle, h, m.device, ro);
    PrepareDeviceMountsNothing(a.oracle, h, m.device, ro);
    PrepareDeviceGrows(a.oracle, h, m.device, ro);
    MountAtExtends(a.oracle, s.history, m);
  }

  // The count of definitions is checked after the handlers have acted: for every host, a
  // volume without exactly one definition is rejected, and before anything is asked of the
  // host exactly if its handlers are silent.
  lemma RejectedVolumeHasActed(a: Agent, h: History, v: Volume, wants: bool, modes: map<string, bool>)
    requires Definitions(v) != 1
    ensures var s := ProcessVolume(a, h, v, wants, modes);
      && s.outcome == Err(DefinitionCount(v.name, Definitions(v)))
      && (s.history == h <==> Silent(v, wants, modes))
  {
    HandlersAct(a, h, v, wants, modes);
  }

  // A volume that is nothing but a host path.
  predicate PlainHostPath(v: Volume) {
    v.hostPath.Some? && Definitions(v) == 1
  }

  // Every volume up to the first that is no plain host path has silent handlers.
  predicate SilentUpToFirst(volumes: seq<Volume>, demand: map<string, bool>, modes: map<string, bool>) {
    volumes != [] && volumes[0].name in demand ==>
      && Silent(volumes[0], demand[volumes[0].name], modes)
      && (PlainHostPath(volumes[0]) ==> SilentUpToFirst(volumes[1..], demand, modes))
  }

  lemma {:induction false} VolumesAct(a: Agent, h: History, volumes: seq<Volume>, demand: map<string, bool>,
                                      modes: map<string, bool>, paths: map<string, HostPathAndMode>)
    ensures var end := ProcessVolumes(a, h, volumes, demand, modes, paths).history;
      if SilentUpToFirst(volumes, demand, modes) then end == h else |end| > |h|
    decreases |volumes|
  {
    if volumes != [] && volumes[0].name in demand {
      var v := volumes[0];
      var s := ProcessVolume(a, h, v, demand[v.name], modes);
      HandlersAct(a, h, v, demand[v.name], modes);
      SilentSucceedsIfPlain(a, h, v, demand[v.name], modes);
      if s.outcome.Ok? {
        VolumesAct(a, s.history, volumes[1..], demand, modes, paths[v.name := s.outcome.value]);
      }
    }
  }

  lemma SilentSucceedsIfPlain(a: Agent, h: History, v: Volume, wants: bool, modes: map<string, bool>)
    ensures Silent(v, wants, modes) ==> (ProcessVolume(a, h, v, wants, modes).outcome.Ok? <==> PlainHostPath(v))
  {
  }

  lemma {:induction false} BadVolumeFails(a: Agent, h: History, volumes: seq<Volume>, demand: map<string, bool>,
                                          modes: map<string, bool>, paths: map<string, HostPathAndMode>)
    requires exists v :: v in volumes && Definitions(v) != 1
    ensures ProcessVolumes(a, h, volumes, demand, modes, paths).outcome.Err?
    decreases |volumes|
  {
    var v := volumes[0];
    if v.name in demand {
      var s := ProcessVolume(a, h, v, demand[v.name], modes);
      if s.outcome.Ok? {
        assert volumes == [v] + volumes[1..];
        BadVolumeFails(a, s.history, volumes[1..], demand, modes, paths[v.name := s.outcome.value]);
      }
    }
  }

  // A declaration with a volume that has not exactly one definition is always rejected. It
  // is rejected before anything is asked of the host exactly if the references or the
  // metadata are bad or all volumes up to the first that is no plain host path are silent.
  lemma BadDeclarationIsRejected(a: Agent, h: History, spec: ContainerSpec)
    requires WalksMaps(a.oracle)
    requires exists v :: v in spec.volumes && Definitions(v) != 1
    ensures var s := PrepareVolumes(a, h, spec);
      && s.outcome.Err?
      && (s.history == h <==>
          (Consistent(spec) && DiskModes(a.disks).Ok? ==>
            SilentUpToFirst(spec.volumes, DemandOf(spec), DiskModes(a.disks).value)))
  {
    CheckReferencesExact(spec, a.oracle.order(h, DeclaredNames(spec.volumes)));
    if Consistent(spec) && DiskModes(a.disks).Ok? {
      BadVolumeFails(a, h, spec.volumes, DemandOf(spec), DiskModes(a.disks).value, map[]);
      VolumesAct(a, h, spec.volumes, DemandOf(spec), DiskModes(a.disks).value, map[]);
    }
  }
}
