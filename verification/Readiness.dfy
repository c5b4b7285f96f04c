// When the preparation of volumes succeeds on a truthful host, and exactly what it does
// to the host. Success needs readiness; on an obliging host readiness is enough.
module Readiness {
  import opened Wrappers
  import opened Text
  import opened Paths
  import opened MountTable
  import opened ApiTypes
  import opened Host
  import opened World
  import opened References
  import opened VolumeProtocol
  import opened Discipline
  import opened HostSafety
  import opened BindingTheorems
  import opened MountStacks
  import opened PathTheorems

  // ---------------------------------------------------------------- readiness

  // A device konlet may mount: present, idle and without children; with an ext4
  // filesystem that fsck accepts or, if it may be formatted, none at all.
  ghost predicate DeviceReady(w: World, device: string, attachedReadOnly: bool) {
    && device in w.devices && w.devices[device].children == [] && !Mounted(w.mounts, device)
    && (if attachedReadOnly then w.devices[device].fsType == EXT4
        else w.devices[device].fsType == "" || (w.devices[device].fsType == EXT4 && w.devices[device].sound))
  }

  // A disk volume konlet accepts: of no or the one supported filesystem type, with a name
  // the metadata knows, and not to be written if it is attached read-only.
  ghost predicate DiskReady(prefix: string, w: World, disk: GcePersistentDisk, wants: bool, modes: map<string, bool>) {
    && (disk.fsType == "" || disk.fsType == EXT4)
    && disk.pdName != "" && disk.pdName in modes && !(modes[disk.pdName] && wants)
    && FitsPathMax(DiskMount(prefix, disk, !wants))
    && DeviceReady(w, DevicePath(disk.pdName, disk.partition), modes[disk.pdName])
  }

  ghost predicate VolumeReady(prefix: string, w: World, v: Volume, wants: bool, modes: map<string, bool>) {
    && Definitions(v) == 1
    && (v.emptyDirMedium.Some? ==> v.emptyDirMedium.value == "Memory" && FitsPathMax(TmpfsMount(prefix, v.name)))
    && (v.persistentDisk.Some? ==> DiskReady(prefix, w, v.persistentDisk.value, wants, modes))
  }

  // ---------------------------------------------------------------- effects

  ghost function WithMount(w: World, m: Mount): World {
    w.(directories := w.directories + {Canonical(m.mountPoint)}, mounts := w.mounts + [Landed(m)])
  }

  ghost function DeviceUsed(w: World, device: string, attachedReadOnly: bool): World {
    if !attachedReadOnly && device in w.devices && w.devices[device].fsType == "" then
      w.(devices := Formatted(w.devices, device))
    else w
  }

  // The mount a volume asks for, if it is of a kind that is mounted.
  ghost function PlannedMount(prefix: string, v: Volume, wants: bool, modes: map<string, bool>): Option<Mount> {
    if v.persistentDisk.Some? then
      var disk := v.persistentDisk.value;
      Some(DiskMount(prefix, disk, (disk.pdName in modes && modes[disk.pdName]) || !wants))
    else if v.emptyDirMedium.Some? then Some(TmpfsMount(prefix, v.name))
    else None
  }

  ghost function VolumeEffect(prefix: string, w: World, v: Volume, wants: bool, modes: map<string, bool>): World {
    match PlannedMount(prefix, v, wants, modes)
    case None => w
    case Some(m) =>
      var used := if v.persistentDisk.Some? then
          DeviceUsed(w, m.device, v.persistentDisk.value.pdName in modes && modes[v.persistentDisk.value.pdName])
        else w;
      WithMount(used, m)
  }

  // Every volume is ready when its turn comes.
  ghost predicate AllReady(prefix: string, w: World, volumes: seq<Volume>, demand: map<string, bool>,
                           modes: map<string, bool>)
    decreases |volumes|
  {
    volumes != [] ==>
      && volumes[0].name in demand
      && var wants := demand[volumes[0].name];
      && VolumeReady(prefix, w, volumes[0], wants, modes)
      && AllReady(prefix, VolumeEffect(prefix, w, volumes[0], wants, modes), volumes[1..], demand, modes)
  }

  // What a volume adds to the table, and all volumes in turn.
  ghost function PlannedFor(prefix: string, v: Volume, demand: map<string, bool>, modes: map<string, bool>)
    : seq<Mount>
  {
    match PlannedMount(prefix, v, v.name in demand && demand[v.name], modes)
    case Some(m) => [Landed(m)]
    case None => []
  }

  ghost function PlannedMounts(prefix: string, volumes: seq<Volume>, demand: map<string, bool>,
                               modes: map<string, bool>): seq<Mount>
  {
    if volumes == [] then []
    else PlannedFor(prefix, volumes[0], demand, modes) + PlannedMounts(prefix, volumes[1..], demand, modes)
  }

  // ---------------------------------------------------------------- single steps

  // A step of the protocol from history h, measured on a truthful host: it succeeds only
  // if the host is ready for it, and then has the given effect; and on an obliging host
  // it succeeds whenever the host is ready.
  ghost predicate Exact<T>(origin: World, h: History, s: Step<T>, ready: bool, effect: World, from: nat) {
    && Faithful(origin, h) && |h| <= |s.history|
    && (s.outcome.Ok? ==> ready && Now(origin, s.history) == effect)
    && (Obliging(origin, s.history, from) ==> Obliging(origin, h, from) && (ready ==> s.outcome.Ok?))
  }

  // Two exact steps in a row, with the outcome of the second.
  lemma Chain<A, B, C>(origin: World, h: History, s1: Step<A>, ready1: bool, effect1: World,
                       s2: Step<B>, ready2: bool, effect2: World, s: Step<C>, from: nat)
    requires Exact(origin, h, s1, ready1, effect1, from)
    requires s1.outcome.Ok? ==>
      && Exact(origin, s1.history, s2, ready2, effect2, from)
      && s.history == s2.history && (s.outcome.Ok? <==> s2.outcome.Ok?)
    requires s1.outcome.Err? ==> s.history == s1.history && s.outcome.Err?
    ensures Exact(origin, h, s, ready1 && ready2, effect2, from)
  {
  }

  // One command: what its success says about the host, and when it must succeed.
  lemma OneCommand(origin: World, o: Oracle, h: History, c: Command, from: nat)
    requires from <= |h| && Faithful(origin, After(o, h, c))
    ensures var w, reply := Now(origin, h), o.run(h, c);
      && Faithful(origin, h)
      && (reply.Ok? ==> Possible(w, c) && TrueOutput(w, c, reply.value))
      && Now(origin, After(o, h, c)) == (if reply.Ok? then Effect(w, c, reply.value) else w)
      && (Obliging(origin, After(o, h, c), from) ==> Obliging(origin, h, from) && (Possible(w, c) ==> reply.Ok?))
  {
    var e := Ran(c, o.run(h, c));
    FaithfulSnoc(origin, h, e);
    ObligingSnoc(origin, h, e, from);
    NowSnoc(origin, h, e);
  }

  ghost predicate Childless(w: World, device: string) {
    device in w.devices && w.devices[device].children == []
  }

  lemma LsblkExact(origin: World, o: Oracle, h: History, property: Property, device: string, from: nat)
    requires from <= |h| && Faithful(origin, LsblkProperty(o, h, property, device).history)
    ensures var s, w := LsblkProperty(o, h, property, device), Now(origin, h);
      && Exact(origin, h, s, Childless(w, device), w, from)
      && (s.outcome.Ok? && property == FSTYPE ==> s.outcome.value == w.devices[device].fsType)
      && (s.outcome.Ok? && property == MOUNTPOINT ==> (s.outcome.value == "" <==> !Mounted(w.mounts, device)))
  {
    var c := Lsblk(property, device);
    var h1 := After(o, h, c);
    var reply := o.run(h, c);
    if reply.Ok? && Count(reply.value, '\n') > 1 {
      OneCommand(origin, o, h1, LsblkAll, from);
    }
    OneCommand(origin, o, h, c, from);
    if reply.Ok? {
      ReadReport(Now(origin, h), property, device, reply.value);
    }
  }

  lemma StatExact(origin: World, o: Oracle, h: History, device: string, from: nat)
    requires from <= |h| && Faithful(origin, CheckDeviceReadable(o, h, device).history)
    ensures var w := Now(origin, h);
      Exact(origin, h, CheckDeviceReadable(o, h, device), device in w.devices, w, from)
  {
    var e := Statted(device, o.stat(h, device));
    FaithfulSnoc(origin, h, e);
    ObligingSnoc(origin, h, e, from);
    NowSnoc(origin, h, e);
  }

  lemma NotMountedExact(origin: World, o: Oracle, h: History, device: string, from: nat)
    requires from <= |h| && Faithful(origin, CheckDeviceNotMounted(o, h, device).history)
    ensures var w := Now(origin, h);
      Exact(origin, h, CheckDeviceNotMounted(o, h, device), Childless(w, device) && !Mounted(w.mounts, device), w, from)
  {
    LsblkExact(origin, o, h, MOUNTPOINT, device, from);
  }

  // A childless device with a filesystem fsck accepts, or none.
  ghost predicate Writable(w: World, device: string) {
    && Childless(w, device) && !Mounted(w.mounts, device)
    && (w.devices[device].fsType == "" || (w.devices[device].fsType == EXT4 && w.devices[device].sound))
  }

  lemma CheckOrFormatExact(origin: World, o: Oracle, h: History, device: string, from: nat)
    requires from <= |h| && Faithful(origin, CheckOrFormat(o, h, device).history)
    ensures var w := Now(origin, h);
      Exact(origin, h, CheckOrFormat(o, h, device), Writable(w, device), DeviceUsed(w, device, false), from)
  {
    var s := LsblkProperty(o, h, FSTYPE, device);
    if s.outcome.Ok? && s.outcome.value == "" {
      OneCommand(origin, o, s.history, Mkfs(device), from);
    } else if s.outcome.Ok? && s.outcome.value == EXT4 {
      OneCommand(origin, o, s.history, Fsck(device), from);
    }
    LsblkExact(origin, o, h, FSTYPE, device, from);
  }

  // A device whose checks pass is ready but for the filesystem of a disk attached
  // read-only, which only mount looks at.
  ghost predicate ChecksPass(w: World, device: string, attachedReadOnly: bool) {
    Childless(w, device) && !Mounted(w.mounts, device) && (attachedReadOnly || Writable(w, device))
  }

  lemma StepsGrow(o: Oracle, h: History, device: string)
    ensures |h| < |CheckDeviceReadable(o, h, device).history|
    ensures |h| < |CheckDeviceNotMounted(o, h, device).history|
    ensures |h| < |CheckOrFormat(o, h, device).history|
  {
  }

  lemma PrepareDeviceExact(origin: World, o: Oracle, h: History, device: string, attachedReadOnly: bool, from: nat)
    requires from <= |h| && Faithful(origin, PrepareDevice(o, h, device, attachedReadOnly).history)
    ensures var w := Now(origin, h);
      Exact(origin, h, PrepareDevice(o, h, device, attachedReadOnly),
            ChecksPass(w, device, attachedReadOnly), DeviceUsed(w, device, attachedReadOnly), from)
  {
    var w := Now(origin, h);
    var s1 := CheckDeviceReadable(o, h, device);
    var h1 := s1.history;
    var s2 := CheckDeviceNotMounted(o, h1, device);
    var h2 := s2.history;
    var s3 := if attachedReadOnly then Step(h2, Ok(())) else CheckOrFormat(o, h2, device);
    var s23 := if s2.outcome.Ok? then s3 else s2;
    StepsGrow(o, h, device);
    StepsGrow(o, h1, device);
    if s1.outcome.Ok? {
      if s2.outcome.Ok? && !attachedReadOnly {
        CheckOrFormatExact(origin, o, h2, device, from);
      }
      NotMountedExact(origin, o, h1, device, from);
      StatExact(origin, o, h, device, from);
      Chain(origin, h1, s2, Childless(w, device) && !Mounted(w.mounts, device), w,
            s3, attachedReadOnly || Writable(w, device), DeviceUsed(w, device, attachedReadOnly), s23, from);
    } else {
      StatExact(origin, o, h, device, from);
    }
    Chain(origin, h, s1, device in w.devices, w,
          s23, ChecksPass(w, device, attachedReadOnly), DeviceUsed(w, device, attachedReadOnly),
          PrepareDevice(o, h, device, attachedReadOnly), from);
  }

  // Making the directory and mounting on it.
  ghost predicate Mountable(w: World, m: Mount) {
    && FitsPathMax(m)
    && (m.fsType == TMPFS || (m.device in w.devices && w.devices[m.device].fsType == m.fsType))
  }

  lemma MountAtExact(origin: World, o: Oracle, h: History, m: Mount, from: nat)
    requires from <= |h| && Faithful(origin, MountAt(o, h, m).history)
    ensures var w := Now(origin, h); Exact(origin, h, MountAt(o, h, m), Mountable(w, m), WithMount(w, m), from)
  {
    var c := MkdirAll(m.mountPoint);
    if o.run(h, c).Ok? {
      OneCommand(origin, o, After(o, h, c), MountEntry(m), from);
    }
    OneCommand(origin, o, h, c, from);
  }

  // ---------------------------------------------------------------- one volume

  lemma DiskReadyMeans(prefix: string, w: World, disk: GcePersistentDisk, wants: bool, modes: map<string, bool>)
    requires DiskAttachment(disk, wants, modes).Ok?
    ensures var ro := modes[disk.pdName];
      var m := DiskMount(prefix, disk, ro || !wants);
      DiskReady(prefix, w, disk, wants, modes) <==>
        ChecksPass(w, m.device, ro) && Mountable(DeviceUsed(w, m.device, ro), m)
  {
  }

  lemma DiskExact(origin: World, a: Agent, h: History, disk: GcePersistentDisk, wants: bool,
                  modes: map<string, bool>, from: nat)
    requires from <= |h| && Faithful(origin, ProcessDisk(a, h, disk, wants, modes).history)
    requires DiskAttachment(disk, wants, modes).Ok?
    ensures var w, ro := Now(origin, h), modes[disk.pdName];
      var m := DiskMount(a.prefix, disk, ro || !wants);
      Exact(origin, h, ProcessDisk(a, h, disk, wants, modes), DiskReady(a.prefix, w, disk, wants, modes),
            WithMount(DeviceUsed(w, m.device, ro), m), from)
  {
    var w, ro := Now(origin, h), modes[disk.pdName];
    var m := DiskMount(a.prefix, disk, ro || !wants);
    var used := DeviceUsed(w, m.device, ro);
    var s1 := PrepareDevice(a.oracle, h, m.device, ro);
    var s2 := MountAt(a.oracle, s1.history, m);
    PrepareDeviceGrows(a.oracle, h, m.device, ro);
    if s1.outcome.Ok? {
      MountAtExact(origin, a.oracle, s1.history, m, from);
    }
    PrepareDeviceExact(origin, a.oracle, h, m.device, ro, from);
    DiskReadyMeans(a.prefix, w, disk, wants, modes);
    Chain(origin, h, s1, ChecksPass(w, m.device, ro), used, s2, Mountable(used, m), WithMount(used, m),
          ProcessDisk(a, h, disk, wants, modes), from);
  }

  lemma EmptyDirExact(origin: World, a: Agent, h: History, medium: string, name: string, from: nat)
    requires from <= |h| && Faithful(origin, ProcessEmptyDir(a, h, medium, name).history) && medium == "Memory"
    ensures var w, m := Now(origin, h), TmpfsMount(a.prefix, name);
      Exact(origin, h, ProcessEmptyDir(a, h, medium, name), FitsPathMax(m), WithMount(w, m), from)
  {
    MountAtExact(origin, a.oracle, h, TmpfsMount(a.prefix, name), from);
  }

  lemma VolumeStartsTrue(origin: World, a: Agent, h: History, v: Volume, wants: bool, modes: map<string, bool>,
                         from: nat)
    requires from <= |h| && Faithful(origin, ProcessVolume(a, h, v, wants, modes).history)
    ensures Faithful(origin, h) && |h| <= |ProcessVolume(a, h, v, wants, modes).history|
    ensures Obliging(origin, ProcessVolume(a, h, v, wants, modes).history, from) ==> Obliging(origin, h, from)
  {
    var s := ProcessVolume(a, h, v, wants, modes);
    ProcessVolumeWork(a, h, v, wants, modes);
    FaithfulBefore(origin, h, s.history);
    if Obliging(origin, s.history, from) {
      ObligingBefore(origin, h, s.history, from);
    }
  }

  lemma VolumeExact(origin: World, a: Agent, h: History, v: Volume, wants: bool, modes: map<string, bool>, from: nat)
    requires from <= |h| && Faithful(origin, ProcessVolume(a, h, v, wants, modes).history)
    ensures var w := Now(origin, h);
      Exact(origin, h, ProcessVolume(a, h, v, wants, modes), VolumeReady(a.prefix, w, v, wants, modes),
            VolumeEffect(a.prefix, w, v, wants, modes), from)
  {
    VolumeStartsTrue(origin, a, h, v, wants, modes, from);
    if Definitions(v) == 1 {
      if v.persistentDisk.Some? {
        if DiskAttachment(v.persistentDisk.value, wants, modes).Ok? {
          DiskExact(origin, a, h, v.persistentDisk.value, wants, modes, from);
        }
      } else if v.emptyDirMedium.Some? && v.emptyDirMedium.value == "Memory" {
        EmptyDirExact(origin, a, h, v.emptyDirMedium.value, v.name, from);
      }
    }
  }

  // ---------------------------------------------------------------- all volumes

  // The host after all volumes have had their effect.
  ghost function AllEffects(prefix: string, w: World, volumes: seq<Volume>, demand: map<string, bool>,
                            modes: map<string, bool>): World
    decreases |volumes|
  {
    if volumes == [] || volumes[0].name !in demand then w
    else
      var w1 := VolumeEffect(prefix, w, volumes[0], demand[volumes[0].name], modes);
      AllEffects(prefix, w1, volumes[1..], demand, modes)
  }

  lemma VolumeAddsMount(prefix: string, w: World, v: Volume, demand: map<string, bool>, modes: map<string, bool>)
    requires v.name in demand
    ensures VolumeEffect(prefix, w, v, demand[v.name], modes).mounts == w.mounts + PlannedFor(prefix, v, demand, modes)
  {
  }

  lemma {:induction false} AllEffectsMount(prefix: string, w: World, volumes: seq<Volume>, demand: map<string, bool>,
                                           modes: map<string, bool>)
    requires forall v :: v in volumes ==> v.name in demand
    ensures AllEffects(prefix, w, volumes, demand, modes).mounts
         == w.mounts + PlannedMounts(prefix, volumes, demand, modes)
    decreases |volumes|
  {
    if volumes != [] {
      var w1 := VolumeEffect(prefix, w, volumes[0], demand[volumes[0].name], modes);
      VolumeAddsMount(prefix, w, volumes[0], demand, modes);
      AllEffectsMount(prefix, w1, volumes[1..], demand, modes);
      Regroup(w.mounts, [], PlannedFor(prefix, volumes[0], demand, modes),
              PlannedMounts(prefix, volumes[1..], demand, modes));
    }
  }

  lemma {:induction false} VolumesExact(origin: World, a: Agent, h: History, volumes: seq<Volume>,
                                        demand: map<string, bool>, modes: map<string, bool>,
                                        paths: map<string, HostPathAndMode>, from: nat)
    requires from <= |h| && Faithful(origin, ProcessVolumes(a, h, volumes, demand, modes, paths).history)
    ensures var w := Now(origin, h);
      Exact(origin, h, ProcessVolumes(a, h, volumes, demand, modes, paths),
            AllReady(a.prefix, w, volumes, demand, modes), AllEffects(a.prefix, w, volumes, demand, modes), from)
    decreases |volumes|
  {
    var s := ProcessVolumes(a, h, volumes, demand, modes, paths);
    if volumes != [] && volumes[0].name in demand {
      var w, v, wants := Now(origin, h), volumes[0], demand[volumes[0].name];
      var s1 := ProcessVolume(a, h, v, wants, modes);
      var w1 := VolumeEffect(a.prefix, w, v, wants, modes);
      ProcessVolumeWork(a, h, v, wants, modes);
      var s2 := if s1.outcome.Ok? then
          ProcessVolumes(a, s1.history, volumes[1..], demand, modes, paths[v.name := s1.outcome.value])
        else s;
      if s1.outcome.Ok? {
        VolumesExact(origin, a, s1.history, volumes[1..], demand, modes, paths[v.name := s1.outcome.value], from);
      }
      VolumeExact(origin, a, h, v, wants, modes, from);
      Chain(origin, h, s1, VolumeReady(a.prefix, w, v, wants, modes), w1,
            s2, AllReady(a.prefix, w1, volumes[1..], demand, modes),
            AllEffects(a.prefix, w1, volumes[1..], demand, modes), s, from);
    }
  }

  // ---------------------------------------------------------------- the preparation

  ghost predicate Ready(a: Agent, w: World, spec: ContainerSpec) {
    && Consistent(spec) && DiskModes(a.disks).Ok?
    && AllReady(a.prefix, w, spec.volumes, DemandOf(spec), DiskModes(a.disks).value)
  }

  ghost function PreparationEffect(a: Agent, w: World, spec: ContainerSpec): World
    requires DiskModes(a.disks).Ok?
  {
    AllEffects(a.prefix, w, spec.volumes, DemandOf(spec), DiskModes(a.disks).value)
  }

  ghost function PreparationMounts(a: Agent, spec: ContainerSpec): seq<Mount>
    requires DiskModes(a.disks).Ok?
  {
    PlannedMounts(a.prefix, spec.volumes, DemandOf(spec), DiskModes(a.disks).value)
  }

  // A successful preparation on a truthful host found everything ready, and has had
  // exactly the planned effect and added exactly the planned mounts.
  lemma PreparationWasReady(origin: World, a: Agent, h: History, spec: ContainerSpec)
    requires WalksMaps(a.oracle) && Faithful(origin, PrepareVolumes(a, h, spec).history)
    requires PrepareVolumes(a, h, spec).outcome.Ok?
    ensures var w, w' := Now(origin, h), Now(origin, PrepareVolumes(a, h, spec).history);
      Ready(a, w, spec) && w' == PreparationEffect(a, w, spec) && w'.mounts == w.mounts + PreparationMounts(a, spec)
  {
    var walk, w := a.oracle.order(h, DeclaredNames(spec.volumes)), Now(origin, h);
    CheckReferencesExact(spec, walk);
    var demand, modes := DemandOf(spec), DiskModes(a.disks).value;
    VolumesExact(origin, a, h, spec.volumes, demand, modes, map[], |h|);
    AllEffectsMount(a.prefix, w, spec.volumes, demand, modes);
  }

  // On an obliging host, being ready is enough.
  lemma ReadyPreparationSucceeds(origin: World, a: Agent, h: History, spec: ContainerSpec, from: nat)
    requires WalksMaps(a.oracle) && Faithful(origin, PrepareVolumes(a, h, spec).history)
    requires from <= |h| && Obliging(origin, PrepareVolumes(a, h, spec).history, from)
    requires Ready(a, Now(origin, h), spec)
    ensures PrepareVolumes(a, h, spec).outcome.Ok?
  {
    var walk := a.oracle.order(h, DeclaredNames(spec.volumes));
    CheckReferencesExact(spec, walk);
    VolumesExact(origin, a, h, spec.volumes, DemandOf(spec), DiskModes(a.disks).value, map[], from);
    PreparedBindings(a, h, spec);
    LateStageSucceeds(a, h, spec);
  }

  // Once all volumes are processed, nothing more can go wrong.
  lemma LateStageSucceeds(a: Agent, h: History, spec: ContainerSpec)
    requires WalksMaps(a.oracle) && Consistent(spec) && DiskModes(a.disks).Ok?
    requires ProcessVolumes(a, h, spec.volumes, DemandOf(spec), DiskModes(a.disks).value, map[]).outcome.Ok?
    ensures PrepareVolumes(a, h, spec).outcome.Ok?
  {
    CheckReferencesExact(spec, a.oracle.order(h, DeclaredNames(spec.volumes)));
    PreparedBindings(a, h, spec);
    BindingFailsOnlyLate(spec.containers,
      ProcessVolumes(a, h, spec.volumes, DemandOf(spec), DiskModes(a.disks).value, map[]).outcome.value, map[]);
  }

  lemma {:induction false} BindMountsFailsOnlyLate(container: string, mounts: seq<VolumeMount>,
                                                   paths: map<string, HostPathAndMode>)
    ensures var r := BindMounts(container, mounts, paths); r.Err? ==> r.error.ReadOnlyVolume?
  {
    if mounts != [] {
      BindMountsFailsOnlyLate(container, mounts[1..], paths);
    }
  }

  lemma {:induction false} BindingFailsOnlyLate(containers: seq<Container>, paths: map<string, HostPathAndMode>,
                                                bindings: Bindings)
    ensures var r := BindContainers(containers, paths, bindings); r.Err? ==> r.error.ReadOnlyVolume?
    decreases |containers|
  {
    if containers != [] {
      var b := BindMounts(containers[0].name, containers[0].volumeMounts, paths);
      BindMountsFailsOnlyLate(containers[0].name, containers[0].volumeMounts, paths);
      if b.Ok? {
        BindingFailsOnlyLate(containers[1..], paths, bindings[containers[0].name := b.value]);
      }
    }
  }

  // On a truthful and obliging host, the preparation succeeds if and only if the
  // declaration is consistent, the metadata well formed and every volume ready.
  lemma PreparationSucceedsIffReady(origin: World, a: Agent, h: History, spec: ContainerSpec)
    requires WalksMaps(a.oracle) && Faithful(origin, PrepareVolumes(a, h, spec).history)
    requires Obliging(origin, PrepareVolumes(a, h, spec).history, |h|)
    ensures PrepareVolumes(a, h, spec).outcome.Ok? <==> Ready(a, Now(origin, h), spec)
  {
    if PrepareVolumes(a, h, spec).outcome.Ok? {
      PreparationWasReady(origin, a, h, spec);
    }
    if Ready(a, Now(origin, h), spec) {
      ReadyPreparationSucceeds(origin, a, h, spec, |h|);
    }
  }

  // ---------------------------------------------------------------- what a binding shows

  function Topmost(table: seq<Mount>, path: string): Option<Mount> {
    var stack := At(table, path);
    if stack == [] then None else Some(stack[|stack| - 1])
  }

  lemma Regroup(t1: seq<Mount>, t2: seq<Mount>, t3: seq<Mount>, t4: seq<Mount>)
    ensures t1 + (t2 + t3 + t4) == (t1 + t2) + t3 + t4
    ensures [] + t3 + t4 == t3 + t4
  {
  }

  // The mounts planned before a volume, its own, and those planned after it.
  lemma {:induction false} PlannedAround(prefix: string, volumes: seq<Volume>, i: nat, demand: map<string, bool>,
                                         modes: map<string, bool>) returns (earlier: seq<Mount>)
    requires i < |volumes|
    ensures PlannedMounts(prefix, volumes, demand, modes) ==
      earlier + PlannedFor(prefix, volumes[i], demand, modes) + PlannedMounts(prefix, volumes[i + 1..], demand, modes)
  {
    var head, tail := PlannedFor(prefix, volumes[0], demand, modes), volumes[1..];
    if i == 0 {
      earlier := [];
      Regroup([], [], head, PlannedMounts(prefix, tail, demand, modes));
    } else {
      var rest := PlannedAround(prefix, tail, i - 1, demand, modes);
      assert tail[i - 1] == volumes[i] && tail[i..] == volumes[i + 1..];
      Regroup(head, rest, PlannedFor(prefix, volumes[i], demand, modes),
              PlannedMounts(prefix, volumes[i + 1..], demand, modes));
      earlier := head + rest;
    }
  }

  lemma TopmostOf(before: seq<Mount>, own: Mount, later: seq<Mount>)
    ensures Topmost(before + [own] + later, own.mountPoint) == Some(own) <==>
      Topmost(later, own.mountPoint) in {None, Some(own)}
  {
    var path := own.mountPoint;
    AtConcat(before + [own], later, path);
    AtConcat(before, [own], path);
    assert [own][..0] == [];
  }

  // The mount the volume gets, as the table shows it.
  ghost function OwnMount(a: Agent, spec: ContainerSpec, v: Volume): Option<Mount>
    requires DiskModes(a.disks).Ok?
  {
    var planned := PlannedFor(a.prefix, v, DemandOf(spec), DiskModes(a.disks).value);
    if planned == [] then None else Some(planned[0])
  }

  lemma OwnMountPoint(a: Agent, spec: ContainerSpec, v: Volume)
    requires DiskModes(a.disks).Ok? && (v.emptyDirMedium.Some? || v.persistentDisk.Some?)
    ensures OwnMount(a, spec, v).Some?
    ensures OwnMount(a, spec, v).value.mountPoint == Canonical(HostPathOf(a.prefix, v))
  {
  }

  lemma OwnIsTopmost(a: Agent, spec: ContainerSpec, i: nat, before: seq<Mount>)
    requires DiskModes(a.disks).Ok? && i < |spec.volumes| && OwnMount(a, spec, spec.volumes[i]).Some?
    ensures var own := OwnMount(a, spec, spec.volumes[i]);
      var later := PlannedMounts(a.prefix, spec.volumes[i + 1..], DemandOf(spec), DiskModes(a.disks).value);
      Topmost(before + PreparationMounts(a, spec), own.value.mountPoint) == own <==>
        Topmost(later, own.value.mountPoint) in {None, own}
  {
    var demand, modes := DemandOf(spec), DiskModes(a.disks).value;
    var own := OwnMount(a, spec, spec.volumes[i]).value;
    var later := PlannedMounts(a.prefix, spec.volumes[i + 1..], demand, modes);
    var earlier := PlannedAround(a.prefix, spec.volumes, i, demand, modes);
    Regroup(before, earlier, [own], later);
    TopmostOf(before + earlier, own, later);
  }

  // After a successful preparation on a truthful host, what stands at the host path a
  // volume is bound to is its own mount exactly if no later volume plans one there or the
  // last that does plans the same.
  lemma VolumeIsServed(origin: World, a: Agent, h: History, spec: ContainerSpec, i: nat)
    requires WalksMaps(a.oracle) && Faithful(origin, PrepareVolumes(a, h, spec).history)
    requires PrepareVolumes(a, h, spec).outcome.Ok?
    requires i < |spec.volumes| && (spec.volumes[i].emptyDirMedium.Some? || spec.volumes[i].persistentDisk.Some?)
    ensures DiskModes(a.disks).Ok? && OwnMount(a, spec, spec.volumes[i]).Some?
    ensures var path := Canonical(HostPathOf(a.prefix, spec.volumes[i]));
      var own, table := OwnMount(a, spec, spec.volumes[i]), Now(origin, PrepareVolumes(a, h, spec).history).mounts;
      var later := PlannedMounts(a.prefix, spec.volumes[i + 1..], DemandOf(spec), DiskModes(a.disks).value);
      && own.value.mountPoint == path
      && (Topmost(table, path) == own <==> Topmost(later, path) in {None, own})
  {
    PreparationWasReady(origin, a, h, spec);
    OwnMountPoint(a, spec, spec.volumes[i]);
    OwnIsTopmost(a, spec, i, Now(origin, h).mounts);
  }

  // Of two partitions of one disk, the later is what both bindings show.
  lemma LaterPartitionIsServed(origin: World, a: Agent, h: History, spec: ContainerSpec, i: nat, j: nat)
    requires WalksMaps(a.oracle) && Faithful(origin, PrepareVolumes(a, h, spec).history)
    requires PrepareVolumes(a, h, spec).outcome.Ok?
    requires i < j < |spec.volumes| && spec.volumes[i].persistentDisk.Some? && spec.volumes[j].persistentDisk.Some?
    requires var d1, d2 := spec.volumes[i].persistentDisk.value, spec.volumes[j].persistentDisk.value;
      d1.pdName == d2.pdName && d1.partition != d2.partition
    requires DiskModes(a.disks).Ok? ==>
      var later := PlannedMounts(a.prefix, spec.volumes[j + 1..], DemandOf(spec), DiskModes(a.disks).value);
      Topmost(later, Canonical(HostPathOf(a.prefix, spec.volumes[j]))) == None
    ensures DiskModes(a.disks).Ok?
    ensures var path := Canonical(HostPathOf(a.prefix, spec.volumes[i]));
      var table := Now(origin, PrepareVolumes(a, h, spec).history).mounts;
      && HostPathOf(a.prefix, spec.volumes[j]) == HostPathOf(a.prefix, spec.volumes[i])
      && Topmost(table, path) == OwnMount(a, spec, spec.volumes[j])
      && Topmost(table, path) != OwnMount(a, spec, spec.volumes[i])
  {
    VolumeIsServed(origin, a, h, spec, i);
    VolumeIsServed(origin, a, h, spec, j);
    var d1, d2 := spec.volumes[i].persistentDisk.value, spec.volumes[j].persistentDisk.value;
    DevicePathsAlias(d1.pdName, d1.partition, d2.pdName, d2.partition);
    if DevicePath(d1.pdName, d1.partition) == DevicePath(d2.pdName, d2.partition) {
      PreparationWasReady(origin, a, h, spec);
      SharedDeviceIsNotReady(a.prefix, Now(origin, h), spec.volumes, DemandOf(spec), DiskModes(a.disks).value, i, j);
    }
  }

  // ---------------------------------------------------------------- same device twice

  lemma {:induction false} UsedDeviceIsNotReady(prefix: string, w: World, volumes: seq<Volume>,
                                                demand: map<string, bool>, modes: map<string, bool>, i: nat)
    requires i < |volumes| && volumes[i].persistentDisk.Some?
    requires var disk := volumes[i].persistentDisk.value; Mounted(w.mounts, DevicePath(disk.pdName, disk.partition))
    ensures !AllReady(prefix, w, volumes, demand, modes)
    decreases |volumes|
  {
    if i > 0 && AllReady(prefix, w, volumes, demand, modes) {
      var w1 := VolumeEffect(prefix, w, volumes[0], demand[volumes[0].name], modes);
      assert forall m :: m in w.mounts ==> m in w1.mounts;
      UsedDeviceIsNotReady(prefix, w1, volumes[1..], demand, modes, i - 1);
    }
  }

  // A declaration in which two disk volumes resolve to one device is never ready.
  lemma {:induction false} SharedDeviceIsNotReady(prefix: string, w: World, volumes: seq<Volume>,
                                                  demand: map<string, bool>, modes: map<string, bool>, i: nat, j: nat)
    requires i < j < |volumes| && volumes[i].persistentDisk.Some? && volumes[j].persistentDisk.Some?
    requires DevicePath(volumes[i].persistentDisk.value.pdName, volumes[i].persistentDisk.value.partition)
          == DevicePath(volumes[j].persistentDisk.value.pdName, volumes[j].persistentDisk.value.partition)
    ensures !AllReady(prefix, w, volumes, demand, modes)
    decreases |volumes|
  {
    if AllReady(prefix, w, volumes, demand, modes) {
      var w1 := VolumeEffect(prefix, w, volumes[0], demand[volumes[0].name], modes);
      if i == 0 {
        var m := PlannedMount(prefix, volumes[0], demand[volumes[0].name], modes).value;
        assert Landed(m) in w1.mounts;
        UsedDeviceIsNotReady(prefix, w1, volumes[1..], demand, modes, j - 1);
      } else {
        SharedDeviceIsNotReady(prefix, w1, volumes[1..], demand, modes, i - 1, j - 1);
      }
    }
  }

  // Such a declaration never succeeds on a truthful host.
  lemma SharedDeviceFails(origin: World, a: Agent, h: History, spec: ContainerSpec, i: nat, j: nat)
    requires WalksMaps(a.oracle) && Faithful(origin, PrepareVolumes(a, h, spec).history)
    requires i < j < |spec.volumes| && spec.volumes[i].persistentDisk.Some? && spec.volumes[j].persistentDisk.Some?
    requires var d1, d2 := spec.volumes[i].persistentDisk.value, spec.volumes[j].persistentDisk.value;
      DevicePath(d1.pdName, d1.partition) == DevicePath(d2.pdName, d2.partition)
    ensures PrepareVolumes(a, h, spec).outcome.Err?
  {
    if PrepareVolumes(a, h, spec).outcome.Ok? {
      PreparationWasReady(origin, a, h, spec);
      SharedDeviceIsNotReady(a.prefix, Now(origin, h), spec.volumes, DemandOf(spec), DiskModes(a.disks).value, i, j);
    }
  }

  // ---------------------------------------------------------------- readiness survives

  // The second host is as the first, except that some blank devices have been formatted.
  ghost predicate NoWorse(w: World, w': World) {
    w'.mounts == w.mounts && OnlyBlankFormatted(w.devices, w'.devices)
  }

  lemma NoWorseStep(prefix: string, w: World, w': World, v: Volume, wants: bool, modes: map<string, bool>)
    requires NoWorse(w, w') && VolumeReady(prefix, w, v, wants, modes)
    ensures VolumeReady(prefix, w', v, wants, modes)
    ensures NoWorse(VolumeEffect(prefix, w, v, wants, modes), VolumeEffect(prefix, w', v, wants, modes))
  {
    if v.persistentDisk.Some? {
      var disk := v.persistentDisk.value;
      var device, ro := DevicePath(disk.pdName, disk.partition), modes[disk.pdName];
      NoWorseDevice(w, w', device, ro);
    }
  }

  lemma NoWorseDevice(w: World, w': World, device: string, attachedReadOnly: bool)
    requires NoWorse(w, w') && DeviceReady(w, device, attachedReadOnly)
    ensures DeviceReady(w', device, attachedReadOnly)
    ensures NoWorse(DeviceUsed(w, device, attachedReadOnly), DeviceUsed(w', device, attachedReadOnly))
  {
  }

  lemma {:induction false} NoWorseIsReady(prefix: string, w: World, w': World, volumes: seq<Volume>,
                                          demand: map<string, bool>, modes: map<string, bool>)
    requires NoWorse(w, w') && AllReady(prefix, w, volumes, demand, modes)
    ensures AllReady(prefix, w', volumes, demand, modes)
    decreases |volumes|
  {
    if volumes != [] {
      var v, wants := volumes[0], demand[volumes[0].name];
      NoWorseStep(prefix, w, w', v, wants, modes);
      NoWorseIsReady(prefix, VolumeEffect(prefix, w, v, wants, modes), VolumeEffect(prefix, w', v, wants, modes),
                     volumes[1..], demand, modes);
    }
  }
}
