// What konlet never does, whatever the host answers: a discipline on histories that
// every command of every run obeys, for every declaration and every oracle.
module Discipline {
  import opened Wrappers
  import opened Text
  import opened MountTable
  import opened ApiTypes
  import opened Host
  import opened References
  import opened VolumeProtocol
  import opened Containers
  import opened RunProtocol

  // ---------------------------------------------------------------- what a history shows

  ghost predicate BlankReport(reply: Result<string, string>) {
    reply.Ok? && Blank(reply.value) && Count(reply.value, '\n') <= 1
  }

  // The last three events are a look at a block device, a blank MOUNTPOINT report and a
  // blank FSTYPE report, all for this device.
  ghost predicate FormatReady(past: History, device: string) {
    var n := |past|;
    && n >= 3
    && past[n - 3].Statted? && past[n - 3].path == device
    && past[n - 3].mode.Ok? && past[n - 3].mode.value.BlockDevice()
    && past[n - 2].Ran? && past[n - 2].command == Lsblk(MOUNTPOINT, device) && BlankReport(past[n - 2].reply)
    && past[n - 1].Ran? && past[n - 1].command == Lsblk(FSTYPE, device) && BlankReport(past[n - 1].reply)
  }

  // The last two events are a look at a block device and its blank MOUNTPOINT report.
  ghost predicate FoundFree(past: History, device: string) {
    var n := |past|;
    && n >= 2
    && past[n - 2].Statted? && past[n - 2].path == device
    && past[n - 2].mode.Ok? && past[n - 2].mode.value.BlockDevice()
    && past[n - 1].Ran? && past[n - 1].command == Lsblk(MOUNTPOINT, device) && BlankReport(past[n - 1].reply)
  }

  // The device was found free just now, or was found free and then checked or formatted
  // after a look at its filesystem, with nothing else in between.
  ghost predicate Vetted(past: History, device: string) {
    var n := |past|;
    || FoundFree(past, device)
    || (&& n >= 2
        && past[n - 2].Ran? && past[n - 2].command == Lsblk(FSTYPE, device)
        && past[n - 1].Ran? && past[n - 1].command in {Mkfs(device), Fsck(device)} && past[n - 1].reply.Ok?
        && FoundFree(past[..n - 2], device))
  }

  // Nothing but the mkdir has happened since the device was vetted.
  ghost predicate MountReady(past: History, device: string) {
    var n := |past|;
    n >= 1 && past[n - 1].Ran? && past[n - 1].command.MkdirAll? && Vetted(past[..n - 1], device)
  }

  // The devices last reported as not mounted, and not mounted since.
  ghost function KnownFree(past: History): set<string> {
    if past == [] then {}
    else
      var before, e := KnownFree(past[..|past| - 1]), past[|past| - 1];
      if e.Ran? && e.command.Lsblk? && e.command.property == MOUNTPOINT && BlankReport(e.reply) then
        before + {e.command.device}
      else if e.Ran? && e.command.MountEntry? && e.reply.Ok? then
        before - {e.command.mount.device}
      else
        before
  }

  ghost function KltIds(containers: seq<ContainerInfo>): set<string> {
    set c | c in containers && IsKlt(c.names) :: c.id
  }

  // The ids of the klt containers that may still exist according to the last listing and
  // the removals since; nothing is known before a listing and after a creation.
  ghost function KltLeft(past: History): Option<set<string>> {
    if past == [] then None
    else
      var before, e := KltLeft(past[..|past| - 1]), past[|past| - 1];
      match e
      case Listed(Ok(containers)) => Some(KltIds(containers))
      case Ran(ContainerRemove(id), Ok(_)) => if before.Some? then Some(before.value - {id}) else None
      case Ran(ContainerCreate(_), Ok(_)) => None
      case _ => before
  }

  // ---------------------------------------------------------------- the discipline

  ghost predicate Allowed(prefix: string, past: History, c: Command) {
    match c
    case Umount(path) => HasPrefix(path, prefix)
    case Mkfs(device) => FormatReady(past, device)
    case MountEntry(m) => MountAllowed(prefix, KnownFree(past), m) && (m.fsType == EXT4 ==> MountReady(past, m.device))
    case ContainerCreate(config) => KltLeft(past) == Some({}) && HasPrefix("/" + config.name, KLT_PATTERN)
    case _ => true
  }

  ghost predicate MountAllowed(prefix: string, free: set<string>, m: Mount) {
    && Under(prefix, m.mountPoint)
    && (m.options == "ro" || m.options == "rw")
    && (|| (m.fsType == TMPFS && m.device == TMPFS && m.options == "rw")
        || (m.fsType == EXT4 && HasPrefix(m.device, DEVICE_PREFIX) && m.device in free))
  }

  ghost predicate Disciplined(prefix: string, h: History) {
    forall i :: 0 <= i < |h| && h[i].Ran? ==> Allowed(prefix, h[..i], h[i].command)
  }

  ghost function MineIds(containers: seq<ContainerInfo>, declared: set<string>): set<string> {
    set c | c in containers && Mine(c.names, declared) :: c.id
  }

  // What an event tells about the containers konlet may take for its own.
  ghost function OwnIdsAfter(before: set<string>, e: Event, declared: set<string>): set<string> {
    match e
    case Listed(Ok(containers)) => MineIds(containers, declared)
    case Ran(ContainerCreate(_), Ok(id)) => before + {id}
    case _ => before
  }

  // The ids of these containers, according to the last listing since the given event and
  // the creations after it.
  ghost function OwnIds(past: History, from: nat, declared: set<string>): set<string> {
    if |past| <= from then {}
    else OwnIdsAfter(OwnIds(past[..|past| - 1], from, declared), past[|past| - 1], declared)
  }

  predicate OwnCommand(own: set<string>, c: Command) {
    && (c.ContainerRemove? || c.ContainerStart? ==> c.id in own)
    && (c.ContainerCreate? ==> HasPrefix("/" + c.config.name, KLT_PATTERN))
  }

  // From the given event on, konlet removes and starts only containers it listed as its
  // own or created itself.
  ghost predicate TouchesOwn(declared: set<string>, from: nat, h: History) {
    forall i :: from <= i < |h| && h[i].Ran? ==> OwnCommand(OwnIds(h[..i], from, declared), h[i].command)
  }

  predicate Docker(e: Event) {
    e.Listed? || (e.Ran? && (e.command.ImagePull? || e.command.ContainerRemove? || e.command.ContainerCreate?
                             || e.command.ContainerStart?))
  }

  // The reply in the event is the one this host gives at this point.
  ghost predicate AnsweredBy(o: Oracle, past: History, e: Event) {
    match e
    case Ran(c, reply) => reply == o.run(past, c)
    case Statted(path, mode) => mode == o.stat(past, path)
    case Listed(containers) => containers == o.list(past)
  }

  // All replies are this host's.
  ghost predicate Answered(o: Oracle, h: History) {
    forall i :: 0 <= i < |h| ==> AnsweredBy(o, h[..i], h[i])
  }

  // The history went on with this host, without a word to Docker, and with discipline.
  ghost predicate VolumeWork(prefix: string, o: Oracle, h: History, h': History) {
    && h <= h'
    && (forall i :: |h| <= i < |h'| ==> !Docker(h'[i]))
    && (Disciplined(prefix, h) ==> Disciplined(prefix, h'))
    && (Answered(o, h) ==> Answered(o, h'))
  }

  lemma AnsweredSnoc(o: Oracle, h: History, e: Event)
    ensures Answered(o, h + [e]) <==> Answered(o, h) && AnsweredBy(o, h, e)
  {
    var h' := h + [e];
    assert h'[..|h|] == h && h'[|h|] == e;
    assert forall i :: 0 <= i < |h| ==> h'[..i] == h[..i] && h'[i] == h[i];
  }

  // One more answered and allowed event keeps both.
  lemma Say(prefix: string, o: Oracle, h: History, e: Event)
    requires AnsweredBy(o, h, e) && (e.Ran? ==> Allowed(prefix, h, e.command))
    ensures Disciplined(prefix, h) ==> Disciplined(prefix, h + [e])
    ensures Answered(o, h) ==> Answered(o, h + [e])
  {
    DisciplinedSnoc(prefix, h, e);
    AnsweredSnoc(o, h, e);
  }

  lemma DisciplinedSnoc(prefix: string, h: History, e: Event)
    ensures Disciplined(prefix, h + [e]) <==>
      Disciplined(prefix, h) && (e.Ran? ==> Allowed(prefix, h, e.command))
  {
    var h' := h + [e];
    assert h'[..|h|] == h && h'[|h|] == e;
    assert forall i :: 0 <= i < |h| ==> h'[..i] == h[..i] && h'[i] == h[i];
  }

  lemma DisciplinedPrefix(prefix: string, h: History, n: nat)
    requires Disciplined(prefix, h) && n <= |h|
    ensures Disciplined(prefix, h[..n])
  {
    assert forall i :: 0 <= i < n ==> h[..n][..i] == h[..i];
  }

  lemma Emit(prefix: string, o: Oracle, h: History, e: Event)
    requires !Docker(e) && AnsweredBy(o, h, e) && (e.Ran? ==> Allowed(prefix, h, e.command))
    ensures VolumeWork(prefix, o, h, h + [e])
  {
    Say(prefix, o, h, e);
  }

  lemma VolumeWorkTransitive(prefix: string, o: Oracle, h: History, h1: History, h2: History)
    requires VolumeWork(prefix, o, h, h1) && VolumeWork(prefix, o, h1, h2)
    ensures VolumeWork(prefix, o, h, h2)
  {
  }

  lemma KnownFreeSnoc(h: History, e: Event)
    ensures KnownFree(h + [e]) ==
      if e.Ran? && e.command.Lsblk? && e.command.property == MOUNTPOINT && BlankReport(e.reply) then
        KnownFree(h) + {e.command.device}
      else if e.Ran? && e.command.MountEntry? && e.reply.Ok? then
        KnownFree(h) - {e.command.mount.device}
      else
        KnownFree(h)
  {
    assert (h + [e])[..|h|] == h;
  }

  // ---------------------------------------------------------------- volume handlers

  lemma LsblkWork(prefix: string, o: Oracle, h: History, property: Property, device: string)
    ensures var s := LsblkProperty(o, h, property, device);
      && VolumeWork(prefix, o, h, s.history)
      && (s.outcome == Ok("") ==>
          exists reply :: s.history == h + [Ran(Lsblk(property, device), reply)] && BlankReport(reply))
      && (s.outcome.Ok? ==> |s.history| == |h| + 1)
  {
    var c := Lsblk(property, device);
    var reply := o.run(h, c);
    Emit(prefix, o, h, Ran(c, reply));
    if reply.Ok? {
      TrimSpaceEmpty(reply.value);
      var h1 := After(o, h, c);
      Emit(prefix, o, h1, Ran(LsblkAll, o.run(h1, LsblkAll)));
    }
  }

  lemma FoundFreeAfter(h: History, device: string, mode: Result<FileMode, string>, reply: Result<string, string>)
    requires mode.Ok? && mode.value.BlockDevice() && BlankReport(reply)
    ensures FoundFree(h + [Statted(device, mode)] + [Ran(Lsblk(MOUNTPOINT, device), reply)], device)
  {
  }

  lemma FormatReadyAfter(h: History, device: string, reply: Result<string, string>)
    requires FoundFree(h, device) && BlankReport(reply)
    ensures FormatReady(h + [Ran(Lsblk(FSTYPE, device), reply)], device)
  {
    var h' := h + [Ran(Lsblk(FSTYPE, device), reply)];
    assert h'[|h'| - 3] == h[|h| - 2] && h'[|h'| - 2] == h[|h| - 1];
  }

  lemma NotMountedWork(prefix: string, o: Oracle, h: History, device: string)
    ensures var s := CheckDeviceNotMounted(o, h, device);
      && VolumeWork(prefix, o, h, s.history)
      && (s.outcome.Ok? ==> device in KnownFree(s.history))
      && (s.outcome.Ok? ==>
          exists reply :: BlankReport(reply) && s.history == h + [Ran(Lsblk(MOUNTPOINT, device), reply)])
  {
    LsblkWork(prefix, o, h, MOUNTPOINT, device);
    var s := CheckDeviceNotMounted(o, h, device);
    if s.outcome.Ok? {
      var reply :| s.history == h + [Ran(Lsblk(MOUNTPOINT, device), reply)] && BlankReport(reply);
      KnownFreeSnoc(h, Ran(Lsblk(MOUNTPOINT, device), reply));
    }
  }

  lemma VettedAfter(h: History, device: string, reply: Result<string, string>, c: Command, done: Result<string, string>)
    requires FoundFree(h, device) && c in {Mkfs(device), Fsck(device)} && done.Ok?
    ensures Vetted(h + [Ran(Lsblk(FSTYPE, device), reply)] + [Ran(c, done)], device)
  {
    var h' := h + [Ran(Lsblk(FSTYPE, device), reply)] + [Ran(c, done)];
    assert h'[..|h'| - 2] == h;
  }

  lemma CheckOrFormatWork(prefix: string, o: Oracle, h: History, device: string)
    requires FoundFree(h, device) && device in KnownFree(h)
    ensures var s := CheckOrFormat(o, h, device);
      && VolumeWork(prefix, o, h, s.history)
      && (s.outcome.Ok? ==> device in KnownFree(s.history) && Vetted(s.history, device))
  {
    var s := LsblkProperty(o, h, FSTYPE, device);
    var h1, reply := s.history, o.run(h, Lsblk(FSTYPE, device));
    LsblkWork(prefix, o, h, FSTYPE, device);
    if s.outcome.Ok? {
      assert h1 == h + [Ran(Lsblk(FSTYPE, device), reply)];
      KnownFreeSnoc(h, Ran(Lsblk(FSTYPE, device), reply));
      if s.outcome.value == "" {
        FormatReadyAfter(h, device, reply);
        CheckedWork(prefix, o, h, reply, Mkfs(device), device);
      } else if s.outcome.value == EXT4 {
        CheckedWork(prefix, o, h, reply, Fsck(device), device);
      }
    }
  }

  lemma CheckedWork(prefix: string, o: Oracle, h: History, reply: Result<string, string>, c: Command, device: string)
    requires FoundFree(h, device) && c in {Mkfs(device), Fsck(device)}
    requires var h1 := h + [Ran(Lsblk(FSTYPE, device), reply)];
      VolumeWork(prefix, o, h, h1) && (c.Mkfs? ==> FormatReady(h1, device))
    ensures var h1 := h + [Ran(Lsblk(FSTYPE, device), reply)];
      && VolumeWork(prefix, o, h, After(o, h1, c)) && KnownFree(After(o, h1, c)) == KnownFree(h1)
      && (o.run(h1, c).Ok? ==> Vetted(After(o, h1, c), device))
  {
    var h1 := h + [Ran(Lsblk(FSTYPE, device), reply)];
    QuietWork(prefix, o, h1, c);
    VolumeWorkTransitive(prefix, o, h, h1, After(o, h1, c));
    if o.run(h1, c).Ok? {
      VettedAfter(h, device, reply, c, o.run(h1, c));
    }
  }

  lemma QuietWork(prefix: string, o: Oracle, h: History, c: Command)
    requires c.Mkfs? || c.Fsck? || c.MkdirAll?
    requires c.Mkfs? ==> FormatReady(h, c.device)
    ensures VolumeWork(prefix, o, h, After(o, h, c)) && KnownFree(After(o, h, c)) == KnownFree(h)
  {
    Emit(prefix, o, h, Ran(c, o.run(h, c)));
    KnownFreeSnoc(h, Ran(c, o.run(h, c)));
  }

  lemma PrepareDeviceWork(prefix: string, o: Oracle, h: History, device: string, attachedReadOnly: bool)
    ensures var s := PrepareDevice(o, h, device, attachedReadOnly);
      && VolumeWork(prefix, o, h, s.history)
      && (s.outcome.Ok? ==> device in KnownFree(s.history) && Vetted(s.history, device))
  {
    var s1 := CheckDeviceReadable(o, h, device);
    var h1 := s1.history;
    Emit(prefix, o, h, Statted(device, o.stat(h, device)));
    if s1.outcome.Ok? {
      var s2 := CheckDeviceNotMounted(o, h1, device);
      var h2 := s2.history;
      NotMountedWork(prefix, o, h1, device);
      VolumeWorkTransitive(prefix, o, h, h1, h2);
      if s2.outcome.Ok? {
        var reply :| BlankReport(reply) && h2 == h1 + [Ran(Lsblk(MOUNTPOINT, device), reply)];
        FoundFreeAfter(h, device, o.stat(h, device), reply);
        if !attachedReadOnly {
          CheckOrFormatWork(prefix, o, h2, device);
          VolumeWorkTransitive(prefix, o, h, h2, CheckOrFormat(o, h2, device).history);
        }
      }
    }
  }

  lemma PrepareDeviceGrows(o: Oracle, h: History, device: string, attachedReadOnly: bool)
    ensures |PrepareDevice(o, h, device, attachedReadOnly).history| > |h|
  {
  }

  lemma MountAtWork(prefix: string, o: Oracle, h: History, m: Mount)
    requires MountAllowed(prefix, KnownFree(h), m) && (m.fsType == EXT4 ==> Vetted(h, m.device))
    ensures VolumeWork(prefix, o, h, MountAt(o, h, m).history)
  {
    assert TMPFS != EXT4;
    var e := Ran(MkdirAll(m.mountPoint), o.run(h, MkdirAll(m.mountPoint)));
    Emit(prefix, o, h, e);
    KnownFreeSnoc(h, e);
    assert (h + [e])[..|h|] == h;
    Emit(prefix, o, h + [e], Ran(MountEntry(m), o.run(h + [e], MountEntry(m))));
  }

  lemma MountPathUnder(prefix: string, family: string, name: string)
    ensures Under(prefix, MountPath(prefix, family, name))
    ensures HasPrefix(MountPath(prefix, family, name), prefix)
  {
    assert MountPath(prefix, family, name) == prefix + "/" + (family + "s/" + name);
  }

  lemma DevicePathHasPrefix(pdName: string, partition: int)
    ensures HasPrefix(DevicePath(pdName, partition), DEVICE_PREFIX)
  {
    if partition > 0 {
      assert DevicePath(pdName, partition) == DEVICE_PREFIX + (pdName + "-part" + Decimal(partition));
    }
  }

  lemma ProcessEmptyDirWork(a: Agent, h: History, medium: string, name: string)
    ensures VolumeWork(a.prefix, a.oracle, h, ProcessEmptyDir(a, h, medium, name).history)
  {
    MountPathUnder(a.prefix, TMPFS, name);
    MountAtWork(a.prefix, a.oracle, h, TmpfsMount(a.prefix, name));
  }

  lemma ProcessDiskWork(a: Agent, h: History, disk: GcePersistentDisk, wants: bool, modes: map<string, bool>)
    ensures VolumeWork(a.prefix, a.oracle, h, ProcessDisk(a, h, disk, wants, modes).history)
  {
    var gate := DiskAttachment(disk, wants, modes);
    if gate.Ok? {
      var m := DiskMount(a.prefix, disk, gate.value || !wants);
      MountPathUnder(a.prefix, DISK_FAMILY, disk.pdName);
      DevicePathHasPrefix(disk.pdName, disk.partition);
      PrepareDeviceWork(a.prefix, a.oracle, h, m.device, gate.value);
      var s := PrepareDevice(a.oracle, h, m.device, gate.value);
      if s.outcome.Ok? {
        MountAtWork(a.prefix, a.oracle, s.history, m);
        VolumeWorkTransitive(a.prefix, a.oracle, h, s.history, MountAt(a.oracle, s.history, m).history);
      }
    }
  }

  lemma ProcessVolumeWork(a: Agent, h: History, v: Volume, wants: bool, modes: map<string, bool>)
    ensures VolumeWork(a.prefix, a.oracle, h, ProcessVolume(a, h, v, wants, modes).history)
  {
    var h1 := h;
    if v.emptyDirMedium.Some? {
      ProcessEmptyDirWork(a, h, v.emptyDirMedium.value, v.name);
      h1 := ProcessEmptyDir(a, h, v.emptyDirMedium.value, v.name).history;
    }
    if v.persistentDisk.Some? {
      ProcessDiskWork(a, h1, v.persistentDisk.value, wants, modes);
      VolumeWorkTransitive(a.prefix, a.oracle, h, h1, ProcessDisk(a, h1, v.persistentDisk.value, wants, modes).history);
    }
  }

  lemma {:induction false} ProcessVolumesWork(a: Agent, h: History, volumes: seq<Volume>, demand: map<string, bool>,
                                              modes: map<string, bool>, paths: map<string, HostPathAndMode>)
    ensures VolumeWork(a.prefix, a.oracle, h, ProcessVolumes(a, h, volumes, demand, modes, paths).history)
    decreases |volumes|
  {
    if volumes != [] && volumes[0].name in demand {
      var v := volumes[0];
      var s := ProcessVolume(a, h, v, demand[v.name], modes);
      ProcessVolumeWork(a, h, v, demand[v.name], modes);
      if s.outcome.Ok? {
        ProcessVolumesWork(a, s.history, volumes[1..], demand, modes, paths[v.name := s.outcome.value]);
        VolumeWorkTransitive(a.prefix, a.oracle, h, s.history,
          ProcessVolumes(a, s.history, volumes[1..], demand, modes, paths[v.name := s.outcome.value]).history);
      }
    }
  }

  lemma PrepareVolumesWork(a: Agent, h: History, spec: ContainerSpec)
    ensures VolumeWork(a.prefix, a.oracle, h, PrepareVolumes(a, h, spec).history)
  {
    var demand, modes := CheckReferences(spec, a.oracle.order(h, DeclaredNames(spec.volumes))), DiskModes(a.disks);
    if demand.Ok? && modes.Ok? {
      ProcessVolumesWork(a, h, spec.volumes, demand.value, modes.value, map[]);
    }
  }

  // ---------------------------------------------------------------- cleanup

  lemma {:induction false} KeptMountIsManaged(prefix: string, lines: seq<string>)
    ensures forall m :: m in KeepParsed(prefix, lines) ==> Managed(prefix, m)
  {
    if lines != [] {
      KeptMountIsManaged(prefix, lines[1..]);
    }
  }

  lemma {:induction false} UnmountAllWork(prefix: string, o: Oracle, h: History, snapshot: seq<Mount>)
    requires forall m :: m in snapshot ==> Managed(prefix, m)
    ensures VolumeWork(prefix, o, h, UnmountAll(o, h, snapshot).history)
    decreases |snapshot|
  {
    if snapshot != [] {
      var c := Umount(snapshot[0].mountPoint);
      assert snapshot[0] in snapshot;
      Emit(prefix, o, h, Ran(c, o.run(h, c)));
      UnmountAllWork(prefix, o, After(o, h, c), snapshot[1..]);
      VolumeWorkTransitive(prefix, o, h, After(o, h, c), UnmountAll(o, After(o, h, c), snapshot[1..]).history);
    }
  }

  lemma UnmountExistingWork(a: Agent, h: History)
    ensures VolumeWork(a.prefix, a.oracle, h, UnmountExisting(a, h).history)
  {
    var text := a.oracle.run(h, CatProcMounts);
    var h1 := After(a.oracle, h, CatProcMounts);
    Emit(a.prefix, a.oracle, h, Ran(CatProcMounts, text));
    if text.Ok? {
      KeptMountIsManaged(a.prefix, ScannedLines(text.value));
      var snapshot := ParseTable(a.prefix, text.value);
      UnmountAllWork(a.prefix, a.oracle, h1, snapshot);
      VolumeWorkTransitive(a.prefix, a.oracle, h, h1, UnmountAll(a.oracle, h1, snapshot).history);
    }
  }

  // ---------------------------------------------------------------- containers

  lemma KltLeftSnoc(h: History, e: Event)
    ensures KltLeft(h + [e]) ==
      match e
      case Listed(Ok(containers)) => Some(KltIds(containers))
      case Ran(ContainerRemove(id), Ok(_)) => if KltLeft(h).Some? then Some(KltLeft(h).value - {id}) else None
      case Ran(ContainerCreate(_), Ok(_)) => None
      case _ => KltLeft(h)
  {
    assert (h + [e])[..|h|] == h;
  }

  lemma {:induction false} VolumeWorkKeepsKltLeft(prefix: string, h: History, h': History)
    requires h <= h' && forall i :: |h| <= i < |h'| ==> !Docker(h'[i])
    ensures KltLeft(h') == KltLeft(h)
    decreases |h'|
  {
    if |h| < |h'| {
      var init, last := h'[..|h'| - 1], h'[|h'| - 1];
      VolumeWorkKeepsKltLeft(prefix, h, init);
      assert h' == init + [last];
      KltLeftSnoc(init, last);
    } else {
      assert h' == h;
    }
  }

  lemma {:induction false} RemoveAllWork(prefix: string, o: Oracle, h: History, ids: seq<string>)
    requires Disciplined(prefix, h) && KltLeft(h).Some?
    ensures var s := RemoveAll(o, h, ids);
      && h <= s.history && Disciplined(prefix, s.history) && (Answered(o, h) ==> Answered(o, s.history))
      && (s.outcome.Ok? ==> KltLeft(s.history) == Some(KltLeft(h).value - set id | id in ids))
    decreases |ids|
  {
    if ids == [] {
      assert KltLeft(h).value - (set id | id in ids) == KltLeft(h).value;
    } else {
      var c := ContainerRemove(ids[0]);
      var reply := o.run(h, c);
      Say(prefix, o, h, Ran(c, reply));
      KltLeftSnoc(h, Ran(c, reply));
      if reply.Ok? {
        RemoveAllWork(prefix, o, After(o, h, c), ids[1..]);
        assert ids == [ids[0]] + ids[1..];
        assert KltLeft(h).value - (set id | id in ids)
            == KltLeft(h).value - {ids[0]} - set id | id in ids[1..];
      }
    }
  }

  // Once the old containers are deleted, no klt container of the listing is left.
  lemma DeleteOldWork(prefix: string, o: Oracle, h: History, rawName: string)
    requires WalksMaps(o) && Disciplined(prefix, h)
    ensures var s := DeleteOld(o, h, rawName);
      && h <= s.history && Disciplined(prefix, s.history) && (Answered(o, h) ==> Answered(o, s.history))
      && (s.outcome.Ok? ==> KltLeft(s.history) == Some({}))
  {
    var listed := o.list(h);
    var h1 := h + [Listed(listed)];
    Say(prefix, o, h, Listed(listed));
    KltLeftSnoc(h, Listed(listed));
    if listed.Ok? {
      var keys := StartedByKonlet(listed.value, rawName).Keys;
      var ids := o.order(h1, keys);
      RemoveAllWork(prefix, o, h1, ids);
      StartedByKonletExact(listed.value, rawName);
      assert (set id | id in ids) == keys;
      forall id | id in KltIds(listed.value)
        ensures id in keys
      {
        var c :| c in listed.value && c.id == id && IsKlt(c.names);
        var n :| n in c.names && HasPrefix(n, KLT_PATTERN);
        assert Matches(n, rawName);
      }
      assert KltIds(listed.value) - keys == {};
    }
  }

  // ---------------------------------------------------------------- own containers

  lemma TouchesOwnSnoc(declared: set<string>, from: nat, h: History, e: Event)
    requires from <= |h|
    ensures TouchesOwn(declared, from, h + [e]) <==>
      TouchesOwn(declared, from, h) && (e.Ran? ==> OwnCommand(OwnIds(h, from, declared), e.command))
  {
    var h' := h + [e];
    assert h'[..|h|] == h && h'[|h|] == e;
    assert forall i :: 0 <= i < |h| ==> h'[..i] == h[..i] && h'[i] == h[i];
  }

  lemma OwnIdsSnoc(h: History, e: Event, from: nat, declared: set<string>)
    requires from <= |h|
    ensures OwnIds(h + [e], from, declared) == OwnIdsAfter(OwnIds(h, from, declared), e, declared)
  {
    assert (h + [e])[..|h|] == h;
  }

  lemma TouchesOwnPrefix(declared: set<string>, from: nat, h: History, n: nat)
    requires TouchesOwn(declared, from, h) && n <= |h|
    ensures TouchesOwn(declared, from, h[..n])
  {
    assert forall i :: 0 <= i < n ==> h[..n][..i] == h[..i];
  }

  lemma {:induction false} RemoveAllOwn(o: Oracle, h: History, ids: seq<string>, from: nat, declared: set<string>)
    requires from <= |h| && TouchesOwn(declared, from, h)
    requires forall id :: id in ids ==> id in OwnIds(h, from, declared)
    ensures TouchesOwn(declared, from, RemoveAll(o, h, ids).history)
    decreases |ids|
  {
    if ids != [] {
      var e := Ran(ContainerRemove(ids[0]), o.run(h, ContainerRemove(ids[0])));
      assert ids[0] in ids;
      TouchesOwnSnoc(declared, from, h, e);
      OwnIdsSnoc(h, e, from, declared);
      RemoveAllOwn(o, h + [e], ids[1..], from, declared);
    }
  }

  lemma DeleteOldOwn(o: Oracle, h: History, rawName: string, from: nat, declared: set<string>)
    requires WalksMaps(o) && from <= |h| && TouchesOwn(declared, from, h) && rawName in declared
    ensures TouchesOwn(declared, from, DeleteOld(o, h, rawName).history)
  {
    var e := Listed(o.list(h));
    var h1 := h + [e];
    TouchesOwnSnoc(declared, from, h, e);
    if e.containers.Ok? {
      var listed := e.containers.value;
      var ids := o.order(h1, StartedByKonlet(listed, rawName).Keys);
      OwnIdsSnoc(h, e, from, declared);
      StartedByKonletExact(listed, rawName);
      forall id | id in ids
        ensures id in OwnIds(h1, from, declared)
      {
        var c :| c in listed && c.id == id && Recognised(c.names, rawName);
        RecognisedIsMine(c.names, rawName, declared);
      }
      RemoveAllOwn(o, h1, ids, from, declared);
    }
  }

  lemma OthersWorkOwn(h: History, h': History, from: nat, declared: set<string>)
    requires h <= h' && from <= |h| && TouchesOwn(declared, from, h)
    requires forall i :: |h| <= i < |h'| ==> !Docker(h'[i])
    ensures TouchesOwn(declared, from, h')
  {
    assert forall i :: 0 <= i < |h| ==> h'[..i] == h[..i];
  }

  lemma LaunchOwn(a: Agent, h: History, config: ContainerConfig, from: nat, declared: set<string>)
    requires from <= |h| && TouchesOwn(declared, from, h) && HasPrefix("/" + config.name, KLT_PATTERN)
    ensures TouchesOwn(declared, from, Launch(a, h, config).history)
  {
    var create := Ran(ContainerCreate(config), a.oracle.run(h, ContainerCreate(config)));
    TouchesOwnSnoc(declared, from, h, create);
    if create.reply.Ok? {
      var start := ContainerStart(create.reply.value);
      OwnIdsSnoc(h, create, from, declared);
      TouchesOwnSnoc(declared, from, h + [create], Ran(start, a.oracle.run(h + [create], start)));
    }
  }

  function ContainerNames(spec: ContainerSpec): set<string> {
    set c | c in spec.containers :: c.name
  }

  lemma ReplaceOldOwn(a: Agent, h: History, auth: string, c: Container, from: nat, declared: set<string>)
    requires WalksMaps(a.oracle) && from <= |h| && TouchesOwn(declared, from, h) && c.name in declared
    ensures var h1 := ReplaceOld(a, h, auth, c).history; |h| <= |h1| && TouchesOwn(declared, from, h1)
  {
    var pull := Ran(ImagePull(c.image, auth), a.oracle.run(h, ImagePull(c.image, auth)));
    TouchesOwnSnoc(declared, from, h, pull);
    if pull.reply.Ok? {
      DeleteOldGrows(a.oracle, h + [pull], c.name);
      DeleteOldOwn(a.oracle, h + [pull], c.name, from, declared);
    }
  }

  lemma PreparedTouchesOwn(a: Agent, h: History, auth: string, spec: ContainerSpec, suffix: string,
                           from: nat, declared: set<string>)
    requires |spec.containers| == 1 && ReplaceOld(a, h, auth, spec.containers[0]).outcome.Ok?
    requires var h1 := ReplaceOld(a, h, auth, spec.containers[0]).history;
      from <= |h1| && TouchesOwn(declared, from, h1)
    ensures TouchesOwn(declared, from, RunContainer(a, h, auth, spec, suffix).history)
  {
    var h1, p := ReplaceOld(a, h, auth, spec.containers[0]).history, PrepareContainer(a, h, auth, spec, suffix);
    CleanAndPrepareWork(a, h1, spec);
    OthersWorkOwn(h1, CleanAndPrepare(a, h1, spec).history, from, declared);
    if p.outcome.Ok? {
      GeneratedNameRecognised(spec.containers[0].name, suffix, "");
      LaunchOwn(a, p.history, p.outcome.value, from, declared);
    }
  }

  lemma RunTouchesOwn(a: Agent, h: History, auth: string, spec: ContainerSpec, suffix: string,
                      from: nat, declared: set<string>)
    requires WalksMaps(a.oracle) && from <= |h| && TouchesOwn(declared, from, h) && ContainerNames(spec) <= declared
    ensures TouchesOwn(declared, from, RunContainer(a, h, auth, spec, suffix).history)
  {
    if |spec.containers| == 1 {
      var c := spec.containers[0];
      assert c in spec.containers && c.name in ContainerNames(spec);
      ReplaceOldOwn(a, h, auth, c, from, declared);
      if ReplaceOld(a, h, auth, c).outcome.Ok? {
        PreparedTouchesOwn(a, h, auth, spec, suffix, from, declared);
      }
    }
  }

  lemma {:induction false} RemoveAllGrows(o: Oracle, h: History, ids: seq<string>)
    ensures h <= RemoveAll(o, h, ids).history
    decreases |ids|
  {
    if ids != [] {
      RemoveAllGrows(o, After(o, h, ContainerRemove(ids[0])), ids[1..]);
    }
  }

  lemma DeleteOldGrows(o: Oracle, h: History, rawName: string)
    ensures h < DeleteOld(o, h, rawName).history
  {
    var listed := o.list(h);
    if listed.Ok? {
      var h1 := h + [Listed(listed)];
      RemoveAllGrows(o, h1, o.order(h1, StartedByKonlet(listed.value, rawName).Keys));
    }
  }

  // ---------------------------------------------------------------- whole runs

  lemma CleanAndPrepareWork(a: Agent, h: History, spec: ContainerSpec)
    ensures var end := CleanAndPrepare(a, h, spec).history;
      VolumeWork(a.prefix, a.oracle, h, end) && KltLeft(end) == KltLeft(h)
  {
    var h1 := UnmountExisting(a, h).history;
    var h2 := PrepareVolumes(a, h1, spec).history;
    UnmountExistingWork(a, h);
    PrepareVolumesWork(a, h1, spec);
    VolumeWorkTransitive(a.prefix, a.oracle, h, h1, h2);
    VolumeWorkKeepsKltLeft(a.prefix, h, h2);
  }

  lemma ReplaceOldWork(a: Agent, h: History, auth: string, c: Container)
    requires WalksMaps(a.oracle) && Disciplined(a.prefix, h)
    ensures var s := ReplaceOld(a, h, auth, c);
      && h <= s.history && Disciplined(a.prefix, s.history) && (Answered(a.oracle, h) ==> Answered(a.oracle, s.history))
      && (s.outcome.Ok? ==> KltLeft(s.history) == Some({}))
  {
    var s1 := Issue(a.oracle, h, ImagePull(c.image, auth));
    Say(a.prefix, a.oracle, h, Ran(ImagePull(c.image, auth), a.oracle.run(h, ImagePull(c.image, auth))));
    if s1.outcome.Ok? {
      DeleteOldWork(a.prefix, a.oracle, s1.history, c.name);
    }
  }

  lemma PrepareContainerWork(a: Agent, h: History, auth: string, spec: ContainerSpec, suffix: string)
    requires WalksMaps(a.oracle) && Disciplined(a.prefix, h)
    ensures var s := PrepareContainer(a, h, auth, spec, suffix);
      && h <= s.history && Disciplined(a.prefix, s.history) && (Answered(a.oracle, h) ==> Answered(a.oracle, s.history))
      && (s.outcome.Ok? ==> KltLeft(s.history) == Some({}))
      && (s.outcome.Ok? ==> s.outcome.value.name == GeneratedName(spec.containers[0].name, suffix))
  {
    if |spec.containers| == 1 {
      ReplaceOldWork(a, h, auth, spec.containers[0]);
      CleanAndPrepareWork(a, ReplaceOld(a, h, auth, spec.containers[0]).history, spec);
    }
  }

  lemma LaunchWork(a: Agent, h: History, config: ContainerConfig)
    requires Disciplined(a.prefix, h) && Allowed(a.prefix, h, ContainerCreate(config))
    ensures var s := Launch(a, h, config);
      h <= s.history && Disciplined(a.prefix, s.history) && (Answered(a.oracle, h) ==> Answered(a.oracle, s.history))
  {
    var s := Issue(a.oracle, h, ContainerCreate(config));
    Say(a.prefix, a.oracle, h, Ran(ContainerCreate(config), a.oracle.run(h, ContainerCreate(config))));
    if s.outcome.Ok? {
      var start := ContainerStart(s.outcome.value);
      Say(a.prefix, a.oracle, s.history, Ran(start, a.oracle.run(s.history, start)));
    }
  }

  // Every run, of any declaration, against any host, keeps the discipline, touches only
  // containers it lists as its own or creates, and records the replies of that host and
  // nothing else.
  lemma RunIsDisciplined(a: Agent, h: History, auth: string, spec: ContainerSpec, suffix: string)
    requires WalksMaps(a.oracle) && Disciplined(a.prefix, h)
    ensures var s := RunContainer(a, h, auth, spec, suffix);
      && h <= s.history && Disciplined(a.prefix, s.history)
      && TouchesOwn(ContainerNames(spec), |h|, s.history)
      && (Answered(a.oracle, h) ==> Answered(a.oracle, s.history))
  {
    RunTouchesOwn(a, h, auth, spec, suffix, |h|, ContainerNames(spec));
    var s := PrepareContainer(a, h, auth, spec, suffix);
    PrepareContainerWork(a, h, auth, spec, suffix);
    if s.outcome.Ok? {
      GeneratedNameRecognised(spec.containers[0].name, suffix, "");
      LaunchWork(a, s.history, s.outcome.value);
    }
  }

  lemma ReplaceOldGrows(a: Agent, h: History, auth: string, c: Container)
    ensures h <= ReplaceOld(a, h, auth, c).history
  {
    var s := Issue(a.oracle, h, ImagePull(c.image, auth));
    if s.outcome.Ok? {
      DeleteOldGrows(a.oracle, s.history, c.name);
    }
  }

  lemma LaunchGrows(a: Agent, h: History, config: ContainerConfig)
    ensures h <= Launch(a, h, config).history
  {
  }

  // The histories of the phases of a run follow one another.
  lemma RunPhases(a: Agent, h: History, auth: string, spec: ContainerSpec, suffix: string)
    requires |spec.containers| == 1
    ensures var end, s1 := RunContainer(a, h, auth, spec, suffix).history, ReplaceOld(a, h, auth, spec.containers[0]);
      var p := PrepareContainer(a, h, auth, spec, suffix);
      && h <= s1.history && s1.history <= p.history <= end
      && (s1.outcome.Ok? ==> p.history == CleanAndPrepare(a, s1.history, spec).history)
      && (s1.outcome.Err? ==> end == s1.history)
      && (p.outcome.Ok? ==>
          p.outcome.value.name == GeneratedName(spec.containers[0].name, suffix))
  {
    var s1 := ReplaceOld(a, h, auth, spec.containers[0]);
    ReplaceOldGrows(a, h, auth, spec.containers[0]);
    if s1.outcome.Ok? {
      CleanAndPrepareWork(a, s1.history, spec);
      var p := PrepareContainer(a, h, auth, spec, suffix);
      if p.outcome.Ok? {
        LaunchGrows(a, p.history, p.outcome.value);
      }
    }
  }

  // ---------------------------------------------------------------- where a run prepares

  predicate VolumeCommand(e: Event) {
    e.Ran? && (e.command.Mkfs? || e.command.Fsck? || e.command.MountEntry?)
  }

  ghost predicate NoVolumeCommand(h: History, h': History) {
    h <= h' && forall i :: |h| <= i < |h'| ==> !VolumeCommand(h'[i])
  }

  lemma {:induction false} RemoveAllPreparesNothing(o: Oracle, h: History, ids: seq<string>)
    ensures NoVolumeCommand(h, RemoveAll(o, h, ids).history)
    decreases |ids|
  {
    if ids != [] {
      RemoveAllPreparesNothing(o, After(o, h, ContainerRemove(ids[0])), ids[1..]);
    }
  }

  lemma ReplaceOldPreparesNothing(a: Agent, h: History, auth: string, c: Container)
    ensures NoVolumeCommand(h, ReplaceOld(a, h, auth, c).history)
  {
    var h1 := After(a.oracle, h, ImagePull(c.image, auth));
    var listed := a.oracle.list(h1);
    if listed.Ok? {
      var h2 := h1 + [Listed(listed)];
      RemoveAllPreparesNothing(a.oracle, h2, a.oracle.order(h2, StartedByKonlet(listed.value, c.name).Keys));
    }
  }

  lemma {:induction false} UnmountAllPreparesNothing(o: Oracle, h: History, snapshot: seq<Mount>)
    ensures NoVolumeCommand(h, UnmountAll(o, h, snapshot).history)
    decreases |snapshot|
  {
    if snapshot != [] {
      UnmountAllPreparesNothing(o, After(o, h, Umount(snapshot[0].mountPoint)), snapshot[1..]);
    }
  }

  lemma UnmountExistingPreparesNothing(a: Agent, h: History)
    ensures NoVolumeCommand(h, UnmountExisting(a, h).history)
  {
    var text := a.oracle.run(h, CatProcMounts);
    if text.Ok? {
      UnmountAllPreparesNothing(a.oracle, After(a.oracle, h, CatProcMounts), ParseTable(a.prefix, text.value));
    }
  }

  lemma LaunchPreparesNothing(a: Agent, h: History, config: ContainerConfig)
    ensures NoVolumeCommand(h, Launch(a, h, config).history)
  {
  }

  // The history when the preparation of volumes starts.
  function PreparationStart(a: Agent, h: History, auth: string, spec: ContainerSpec): History
    requires |spec.containers| == 1
  {
    UnmountExisting(a, ReplaceOld(a, h, auth, spec.containers[0]).history).history
  }

  lemma RunGrows(a: Agent, h: History, auth: string, spec: ContainerSpec, suffix: string)
    ensures h <= RunContainer(a, h, auth, spec, suffix).history
  {
    if |spec.containers| == 1 {
      RunPhases(a, h, auth, spec, suffix);
    }
  }

  // All a run does to volumes, it does in its preparation.
  lemma RunPreparation(a: Agent, h: History, auth: string, spec: ContainerSpec, suffix: string, i: nat)
    requires var end := RunContainer(a, h, auth, spec, suffix).history; |h| <= i < |end| && VolumeCommand(end[i])
    ensures |spec.containers| == 1
    ensures var start, end := PreparationStart(a, h, auth, spec), RunContainer(a, h, auth, spec, suffix).history;
      var prepared := PrepareVolumes(a, start, spec).history;
      h <= start <= prepared && |start| <= i < |prepared| && end[i] == prepared[i]
  {
    var s1, p := ReplaceOld(a, h, auth, spec.containers[0]), PrepareContainer(a, h, auth, spec, suffix);
    var start := PreparationStart(a, h, auth, spec);
    RunPhases(a, h, auth, spec, suffix);
    ReplaceOldPreparesNothing(a, h, auth, spec.containers[0]);
    UnmountExistingPreparesNothing(a, s1.history);
    PrepareVolumesWork(a, start, spec);
    if p.outcome.Ok? {
      LaunchPreparesNothing(a, p.history, p.outcome.value);
    }
  }

  // ---------------------------------------------------------------- any number of runs

  // A run that may be cut off after any of its events.
  datatype Attempt = Attempt(
    disks: Result<seq<DiskRecord>, string>, auth: string, spec: ContainerSpec, suffix: string, cut: nat)

  function Cut(h: History, length: nat): History {
    if length <= |h| then h[..length] else h
  }

  // The history when the attempt stops.
  ghost function Resume(o: Oracle, prefix: string, h: History, t: Attempt): History {
    Cut(RunContainer(Agent(o, prefix, t.disks), h, t.auth, t.spec, t.suffix).history, |h| + t.cut)
  }

  // One attempt after another on the same host, each from where the last one stopped.
  ghost function Attempts(o: Oracle, prefix: string, attempts: seq<Attempt>): History {
    if attempts == [] then []
    else Resume(o, prefix, Attempts(o, prefix, attempts[..|attempts| - 1]), attempts[|attempts| - 1])
  }

  // The container names of all the declarations.
  function DeclaredBy(attempts: seq<Attempt>): set<string> {
    set t, c | t in attempts && c in t.spec.containers :: c.name
  }

  lemma CutRunIsDisciplined(a: Agent, h: History, auth: string, spec: ContainerSpec, suffix: string, length: nat)
    requires WalksMaps(a.oracle) && Disciplined(a.prefix, h)
    ensures Disciplined(a.prefix, Cut(RunContainer(a, h, auth, spec, suffix).history, length))
  {
    var end := RunContainer(a, h, auth, spec, suffix).history;
    RunIsDisciplined(a, h, auth, spec, suffix);
    if length <= |end| {
      DisciplinedPrefix(a.prefix, end, length);
    }
  }

  lemma CutRunTouchesOwn(a: Agent, h: History, auth: string, spec: ContainerSpec, suffix: string, length: nat,
                         declared: set<string>)
    requires WalksMaps(a.oracle) && TouchesOwn(declared, 0, h) && ContainerNames(spec) <= declared
    ensures TouchesOwn(declared, 0, Cut(RunContainer(a, h, auth, spec, suffix).history, length))
  {
    var end := RunContainer(a, h, auth, spec, suffix).history;
    RunTouchesOwn(a, h, auth, spec, suffix, 0, declared);
    if length <= |end| {
      TouchesOwnPrefix(declared, 0, end, length);
    }
  }

  lemma {:induction false} AttemptsTouchOwn(o: Oracle, prefix: string, attempts: seq<Attempt>, declared: set<string>)
    requires WalksMaps(o) && DeclaredBy(attempts) <= declared
    ensures TouchesOwn(declared, 0, Attempts(o, prefix, attempts))
  {
    if attempts != [] {
      var init, t := attempts[..|attempts| - 1], attempts[|attempts| - 1];
      var h := Attempts(o, prefix, init);
      assert t in attempts && forall x :: x in init ==> x in attempts;
      assert DeclaredBy(init) <= DeclaredBy(attempts) && ContainerNames(t.spec) <= DeclaredBy(attempts);
      AttemptsTouchOwn(o, prefix, init, declared);
      CutRunTouchesOwn(Agent(o, prefix, t.disks), h, t.auth, t.spec, t.suffix, |h| + t.cut, declared);
    }
  }

  lemma {:induction false} AttemptsKeepDiscipline(o: Oracle, prefix: string, attempts: seq<Attempt>)
    requires WalksMaps(o)
    ensures Disciplined(prefix, Attempts(o, prefix, attempts))
  {
    if attempts != [] {
      var init, t := attempts[..|attempts| - 1], attempts[|attempts| - 1];
      var h := Attempts(o, prefix, init);
      AttemptsKeepDiscipline(o, prefix, init);
      CutRunIsDisciplined(Agent(o, prefix, t.disks), h, t.auth, t.spec, t.suffix, |h| + t.cut);
    }
  }

  // Any number of runs of any declarations, each complete or cut off anywhere: all of them
  // keep the discipline, and each touches only what is its own by its own declaration.
  lemma AttemptsAreDisciplined(o: Oracle, prefix: string, attempts: seq<Attempt>)
    requires WalksMaps(o)
    ensures Disciplined(prefix, Attempts(o, prefix, attempts))
    ensures TouchesOwn(DeclaredBy(attempts), 0, Attempts(o, prefix, attempts))
    ensures forall k {:trigger attempts[k]} :: 0 <= k < |attempts| ==>
      TouchesOwn(ContainerNames(attempts[k].spec), |Attempts(o, prefix, attempts[..k])|,
                 Attempts(o, prefix, attempts[..k + 1]))
  {
    AttemptsKeepDiscipline(o, prefix, attempts);
    AttemptsTouchOwn(o, prefix, attempts, DeclaredBy(attempts));
    forall k | 0 <= k < |attempts|
      ensures TouchesOwn(ContainerNames(attempts[k].spec), |Attempts(o, prefix, attempts[..k])|,
                         Attempts(o, prefix, attempts[..k + 1]))
    {
      AttemptTouchesOwn(o, prefix, attempts, k);
    }
  }

  lemma CutRunStaysOwn(a: Agent, h: History, auth: string, spec: ContainerSpec, suffix: string, length: nat)
    requires WalksMaps(a.oracle)
    ensures TouchesOwn(ContainerNames(spec), |h|, Cut(RunContainer(a, h, auth, spec, suffix).history, length))
  {
    var end := RunContainer(a, h, auth, spec, suffix).history;
    RunTouchesOwn(a, h, auth, spec, suffix, |h|, ContainerNames(spec));
    if length <= |end| {
      TouchesOwnPrefix(ContainerNames(spec), |h|, end, length);
    }
  }

  lemma AttemptTouchesOwn(o: Oracle, prefix: string, attempts: seq<Attempt>, k: nat)
    requires WalksMaps(o) && k < |attempts|
    ensures TouchesOwn(ContainerNames(attempts[k].spec), |Attempts(o, prefix, attempts[..k])|,
                       Attempts(o, prefix, attempts[..k + 1]))
  {
    var t, h := attempts[k], Attempts(o, prefix, attempts[..k]);
    CutRunStaysOwn(Agent(o, prefix, t.disks), h, t.auth, t.spec, t.suffix, |h| + t.cut);
    assert attempts[..k + 1][..k] == attempts[..k];
  }
}
