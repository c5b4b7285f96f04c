// What a successful preparation returns, for every host: the bindings follow from the
// declaration alone, and three of the errors in the code can never be returned.
module BindingTheorems {
  import opened Wrappers
  import opened Text
  import opened MountTable
  import opened ApiTypes
  import opened Host
  import opened References
  import opened VolumeProtocol
  import opened Containers
  import opened RunProtocol

  // ---------------------------------------------------------------- disk metadata

  function LastRecord(records: seq<DiskRecord>, name: string): Option<DiskRecord> {
    if records == [] then None
    else if records[|records| - 1].deviceName == name then Some(records[|records| - 1])
    else LastRecord(records[..|records| - 1], name)
  }

  lemma {:induction false} AttachmentModesSnoc(records: seq<DiskRecord>, r: DiskRecord, modes: map<string, bool>)
    ensures AttachmentModes(records + [r], modes) ==
      match AttachmentModes(records, modes)
      case Err(e) => Err(e)
      case Ok(m) =>
        match CheckRecord(r)
        case Some(e) => Err(e)
        case None => Ok(m[r.deviceName := r.mode == "READ_ONLY"])
  {
    if records == [] {
      assert [r][1..] == [];
    } else {
      assert (records + [r])[1..] == records[1..] + [r];
      if CheckRecord(records[0]) == None {
        AttachmentModesSnoc(records[1..], r, modes[records[0].deviceName := records[0].mode == "READ_ONLY"]);
      }
    }
  }

  // The metadata is accepted exactly when every record is well formed, and then the last
  // record of a disk decides how it is attached.
  lemma {:induction false} AttachmentModesExact(records: seq<DiskRecord>)
    ensures AttachmentModes(records, map[]).Ok? <==>
      forall r :: r in records ==> r.deviceName != "" && r.mode in {"READ_WRITE", "READ_ONLY"}
    ensures AttachmentModes(records, map[]).Ok? ==> forall name ::
      && (name in AttachmentModes(records, map[]).value <==> LastRecord(records, name).Some?)
      && (LastRecord(records, name).Some? ==>
          (AttachmentModes(records, map[]).value[name] <==> LastRecord(records, name).value.mode == "READ_ONLY"))
  {
    if records != [] {
      var init, last := records[..|records| - 1], records[|records| - 1];
      assert records == init + [last];
      AttachmentModesExact(init);
      AttachmentModesSnoc(init, last, map[]);
      assert last in records;
    }
  }

  // ---------------------------------------------------------------- one volume

  // Where a volume of exactly one kind lives on the host.
  function HostPathOf(prefix: string, v: Volume): string {
    if v.persistentDisk.Some? then MountPath(prefix, DISK_FAMILY, v.persistentDisk.value.pdName)
    else if v.emptyDirMedium.Some? then MountPath(prefix, TMPFS, v.name)
    else if v.hostPath.Some? then v.hostPath.value
    else ""
  }

  lemma ProcessVolumeResult(a: Agent, h: History, v: Volume, wants: bool, modes: map<string, bool>)
    ensures var r := ProcessVolume(a, h, v, wants, modes).outcome;
      r.Ok? ==>
        && Definitions(v) == 1
        && r.value.hostPath == HostPathOf(a.prefix, v)
        && (r.value.readOnly ==> !wants)
  {
  }

  function LastVolume(volumes: seq<Volume>, name: string): Option<Volume> {
    if volumes == [] then None
    else match LastVolume(volumes[1..], name)
      case Some(v) => Some(v)
      case None => if volumes[0].name == name then Some(volumes[0]) else None
  }

  lemma {:induction false} LastVolumeFound(volumes: seq<Volume>, name: string)
    ensures LastVolume(volumes, name).Some? <==> name in DeclaredNames(volumes)
    ensures match LastVolume(volumes, name)
            case Some(v) => v.name == name && v in volumes
            case None => true
  {
    if volumes != [] {
      LastVolumeFound(volumes[1..], name);
      assert volumes == [volumes[0]] + volumes[1..];
    }
  }

  // ---------------------------------------------------------------- all volumes

  // No volume that is served read-only has a mount that wants to write.
  ghost predicate DemandMet(demand: map<string, bool>, paths: map<string, HostPathAndMode>) {
    forall n :: n in paths ==> n in demand && (paths[n].readOnly ==> !demand[n])
  }

  // Each name stands for the last volume of that name.
  ghost predicate PathsFollow(prefix: string, volumes: seq<Volume>, before: map<string, HostPathAndMode>,
                              after: map<string, HostPathAndMode>)
  {
    && after.Keys == before.Keys + DeclaredNames(volumes)
    && forall n :: n in after ==>
      after[n].hostPath == match LastVolume(volumes, n)
        case Some(v) => HostPathOf(prefix, v)
        case None => if n in before then before[n].hostPath else ""
  }

  lemma PathsFollowCons(prefix: string, v: Volume, rest: seq<Volume>, p: HostPathAndMode,
                        before: map<string, HostPathAndMode>, after: map<string, HostPathAndMode>)
    requires p.hostPath == HostPathOf(prefix, v) && PathsFollow(prefix, rest, before[v.name := p], after)
    ensures PathsFollow(prefix, [v] + rest, before, after)
  {
    var volumes := [v] + rest;
    assert volumes[1..] == rest;
    assert DeclaredNames(volumes) == {v.name} + DeclaredNames(rest);
    forall n | n in after
      ensures LastVolume(rest, n) == None && n != v.name ==> LastVolume(volumes, n) == None
    {
    }
  }

  lemma {:induction false} ProcessVolumesResult(a: Agent, h: History, volumes: seq<Volume>, demand: map<string, bool>,
                                                modes: map<string, bool>, paths: map<string, HostPathAndMode>)
    requires DeclaredNames(volumes) <= demand.Keys && DemandMet(demand, paths)
    ensures var r := ProcessVolumes(a, h, volumes, demand, modes, paths).outcome;
      && (r.Err? ==> r.error.InVolume? || r.error.DefinitionCount?)
      && (r.Ok? ==> DemandMet(demand, r.value) && PathsFollow(a.prefix, volumes, paths, r.value))
    decreases |volumes|
  {
    if volumes != [] {
      var v, rest := volumes[0], volumes[1..];
      assert v in volumes && v.name in DeclaredNames(volumes);
      var s := ProcessVolume(a, h, v, demand[v.name], modes);
      ProcessVolumeResult(a, h, v, demand[v.name], modes);
      assert volumes == [v] + rest;
      assert DeclaredNames(rest) <= DeclaredNames(volumes);
      if s.outcome.Ok? {
        var next := ProcessVolumes(a, s.history, rest, demand, modes, paths[v.name := s.outcome.value]);
        ProcessVolumesResult(a, s.history, rest, demand, modes, paths[v.name := s.outcome.value]);
        if next.outcome.Ok? {
          PathsFollowCons(a.prefix, v, rest, s.outcome.value, paths, next.outcome.value);
        }
      }
    }
  }

  // ---------------------------------------------------------------- binding

  // What the declaration says the mounts of a container are bound to.
  function DeclaredBindings(prefix: string, volumes: seq<Volume>, mounts: seq<VolumeMount>): (b: seq<Binding>)
    ensures |b| == |mounts|
  {
    if mounts == [] then []
    else
      var hostPath := match LastVolume(volumes, mounts[0].name)
        case Some(v) => HostPathOf(prefix, v)
        case None => "";
      [Binding(hostPath, mounts[0].mountPath, mounts[0].readOnly)] + DeclaredBindings(prefix, volumes, mounts[1..])
  }

  lemma {:induction false} BindMountsResult(prefix: string, volumes: seq<Volume>, container: string,
                                            mounts: seq<VolumeMount>, paths: map<string, HostPathAndMode>)
    requires forall m :: m in mounts ==> m.name in DeclaredNames(volumes) && m.name in paths
    requires forall m :: m in mounts ==> paths[m.name].readOnly ==> m.readOnly
    requires forall n :: n in paths && LastVolume(volumes, n).Some? ==>
      paths[n].hostPath == HostPathOf(prefix, LastVolume(volumes, n).value)
    ensures BindMounts(container, mounts, paths) == Ok(DeclaredBindings(prefix, volumes, mounts))
  {
    if mounts != [] {
      assert mounts[0] in mounts;
      LastVolumeFound(volumes, mounts[0].name);
      BindMountsResult(prefix, volumes, container, mounts[1..], paths);
    }
  }

  function LastContainer(containers: seq<Container>, name: string): Option<Container> {
    if containers == [] then None
    else match LastContainer(containers[1..], name)
      case Some(c) => Some(c)
      case None => if containers[0].name == name then Some(containers[0]) else None
  }

  lemma {:induction false} BindContainersResult(prefix: string, spec: ContainerSpec, containers: seq<Container>,
                                                paths: map<string, HostPathAndMode>, bindings: Bindings)
    requires forall c :: c in containers ==>
      BindMounts(c.name, c.volumeMounts, paths) == Ok(DeclaredBindings(prefix, spec.volumes, c.volumeMounts))
    ensures var r := BindContainers(containers, paths, bindings);
      && r.Ok?
      && (forall n :: n in r.value <==> n in bindings || LastContainer(containers, n).Some?)
      && (forall n :: n in r.value ==>
          r.value[n] == match LastContainer(containers, n)
            case Some(c) => DeclaredBindings(prefix, spec.volumes, c.volumeMounts)
            case None => if n in bindings then bindings[n] else [])
    decreases |containers|
  {
    if containers != [] {
      var c := containers[0];
      assert c in containers;
      BindContainersResult(prefix, spec, containers[1..], paths,
        bindings[c.name := DeclaredBindings(prefix, spec.volumes, c.volumeMounts)]);
    }
  }

  // ---------------------------------------------------------------- the whole preparation

  lemma DemandCoversMounts(spec: ContainerSpec, walk: seq<string>, c: Container, m: VolumeMount)
    requires Enumerates(walk, DeclaredNames(spec.volumes)) && CheckReferences(spec, walk).Ok?
    requires c in spec.containers && m in c.volumeMounts
    ensures m.name in DeclaredNames(spec.volumes)
    ensures !CheckReferences(spec, walk).value[m.name] ==> m.readOnly
  {
    CheckReferencesExact(spec, walk);
    InAllMounts(spec.containers, m);
  }

  // The errors a preparation can end with. The late read-only error and the error for a
  // volume without demand are not among them.
  predicate PreparationError(e: Error) {
    || e.UndeclaredVolume? || e.UnreferencedVolume?
    || e.MetadataUnavailable? || e.EmptyDeviceName? || e.UnknownDeviceMode?
    || e.InVolume? || e.DefinitionCount?
  }

  // Whatever the host answers: a successful preparation implies a consistent declaration,
  // binds every mount of every container, in order, to the last volume of its name, and
  // copies container path and mode. The late read-only check never fires, and neither
  // does the check for a volume without demand.
  lemma PreparedBindings(a: Agent, h: History, spec: ContainerSpec)
    requires WalksMaps(a.oracle)
    ensures var r := PrepareVolumes(a, h, spec).outcome;
      && (r.Err? ==> PreparationError(r.error))
      && (r.Ok? ==>
          && Consistent(spec)
          && (forall n :: n in r.value <==> LastContainer(spec.containers, n).Some?)
          && (forall n :: n in r.value ==>
              var mounts := LastContainer(spec.containers, n).value.volumeMounts;
              r.value[n] == DeclaredBindings(a.prefix, spec.volumes, mounts)))
  {
    var walk := a.oracle.order(h, DeclaredNames(spec.volumes));
    CheckReferencesExact(spec, walk);
    var checked, modes := CheckReferences(spec, walk), DiskModes(a.disks);
    if checked.Err? {
      CheckReferencesErrors(spec, walk);
    } else if modes.Err? {
      DiskModesErrors(a.disks);
    } else {
      var demand := checked.value;
      ProcessVolumesResult(a, h, spec.volumes, demand, modes.value, map[]);
      var r := ProcessVolumes(a, h, spec.volumes, demand, modes.value, map[]).outcome;
      if r.Ok? {
        forall c | c in spec.containers
          ensures BindMounts(c.name, c.volumeMounts, r.value)
               == Ok(DeclaredBindings(a.prefix, spec.volumes, c.volumeMounts))
        {
          forall m | m in c.volumeMounts
            ensures m.name in DeclaredNames(spec.volumes) && (!demand[m.name] ==> m.readOnly)
          {
            DemandCoversMounts(spec, walk, c, m);
          }
          BindMountsResult(a.prefix, spec.volumes, c.name, c.volumeMounts, r.value);
        }
        BindContainersResult(a.prefix, spec, spec.containers, r.value, map[]);
      }
    }
  }

  lemma {:induction false} CheckDeclaredErrors(containers: seq<Container>, index: nat, declared: set<string>)
    ensures var r := CheckDeclared(containers, index, declared); r.Some? ==> r.value.UndeclaredVolume?
  {
    if containers != [] {
      CheckDeclaredErrors(containers[1..], index + 1, declared);
    }
  }

  lemma CheckReferencesErrors(spec: ContainerSpec, walk: seq<string>)
    ensures var r := CheckReferences(spec, walk); r.Err? ==> r.error.UndeclaredVolume? || r.error.UnreferencedVolume?
  {
    CheckDeclaredErrors(spec.containers, 0, DeclaredNames(spec.volumes));
  }

  lemma {:induction false} AttachmentModesErrors(records: seq<DiskRecord>, modes: map<string, bool>)
    ensures var r := AttachmentModes(records, modes); r.Err? ==> r.error.EmptyDeviceName? || r.error.UnknownDeviceMode?
  {
    if records != [] && CheckRecord(records[0]) == None {
      AttachmentModesErrors(records[1..], modes[records[0].deviceName := records[0].mode == "READ_ONLY"]);
    }
  }

  lemma DiskModesErrors(disks: Result<seq<DiskRecord>, string>)
    ensures var r := DiskModes(disks);
      r.Err? ==> r.error.MetadataUnavailable? || r.error.EmptyDeviceName? || r.error.UnknownDeviceMode?
  {
    if disks.Ok? {
      AttachmentModesErrors(disks.value, map[]);
    }
  }

  // The two agents differ at most in the order in which they walk maps.
  ghost predicate SameButOrder(a1: Agent, a2: Agent) {
    && a1.prefix == a2.prefix && a1.disks == a2.disks
    && a1.oracle == a2.oracle.(order := a1.oracle.order)
  }

  lemma LookIgnoresOrder(a1: Agent, a2: Agent, h: History, device: string, attachedReadOnly: bool)
    requires SameButOrder(a1, a2)
    ensures PrepareDevice(a1.oracle, h, device, attachedReadOnly)
         == PrepareDevice(a2.oracle, h, device, attachedReadOnly)
  {
  }

  lemma MountIgnoresOrder(a1: Agent, a2: Agent, h: History, m: Mount)
    requires SameButOrder(a1, a2)
    ensures MountAt(a1.oracle, h, m) == MountAt(a2.oracle, h, m)
  {
  }

  lemma DiskIgnoresOrder(a1: Agent, a2: Agent, h: History, disk: GcePersistentDisk, wants: bool,
                         modes: map<string, bool>)
    requires SameButOrder(a1, a2)
    ensures ProcessDisk(a1, h, disk, wants, modes) == ProcessDisk(a2, h, disk, wants, modes)
  {
    var gate := DiskAttachment(disk, wants, modes);
    if gate.Ok? {
      var m := DiskMount(a1.prefix, disk, gate.value || !wants);
      LookIgnoresOrder(a1, a2, h, m.device, gate.value);
      MountIgnoresOrder(a1, a2, PrepareDevice(a1.oracle, h, m.device, gate.value).history, m);
    }
  }

  lemma EmptyDirIgnoresOrder(a1: Agent, a2: Agent, h: History, medium: string, name: string)
    requires SameButOrder(a1, a2)
    ensures ProcessEmptyDir(a1, h, medium, name) == ProcessEmptyDir(a2, h, medium, name)
  {
    MountIgnoresOrder(a1, a2, h, TmpfsMount(a1.prefix, name));
  }

  lemma VolumeIgnoresOrder(a1: Agent, a2: Agent, h: History, v: Volume, wants: bool, modes: map<string, bool>)
    requires SameButOrder(a1, a2)
    ensures ProcessVolume(a1, h, v, wants, modes) == ProcessVolume(a2, h, v, wants, modes)
  {
    var h1 := h;
    if v.emptyDirMedium.Some? {
      EmptyDirIgnoresOrder(a1, a2, h, v.emptyDirMedium.value, v.name);
      h1 := ProcessEmptyDir(a1, h, v.emptyDirMedium.value, v.name).history;
    }
    if v.persistentDisk.Some? {
      DiskIgnoresOrder(a1, a2, h1, v.persistentDisk.value, wants, modes);
    }
  }

  lemma {:induction false} VolumesIgnoreOrder(a1: Agent, a2: Agent, h: History, volumes: seq<Volume>,
                                              demand: map<string, bool>, modes: map<string, bool>,
                                              paths: map<string, HostPathAndMode>)
    requires SameButOrder(a1, a2)
    ensures ProcessVolumes(a1, h, volumes, demand, modes, paths) == ProcessVolumes(a2, h, volumes, demand, modes, paths)
    decreases |volumes|
  {
    if volumes != [] && volumes[0].name in demand {
      var v := volumes[0];
      VolumeIgnoresOrder(a1, a2, h, v, demand[v.name], modes);
      var s := ProcessVolume(a1, h, v, demand[v.name], modes);
      if s.outcome.Ok? {
        VolumesIgnoreOrder(a1, a2, s.history, volumes[1..], demand, modes, paths[v.name := s.outcome.value]);
      }
    }
  }

  // The order in which Go walks its maps decides at most which of several errors in the
  // references is reported: what is sent, whether the preparation succeeds, and what it
  // then returns do not depend on it.
  lemma PreparationIgnoresOrder(a1: Agent, a2: Agent, h: History, spec: ContainerSpec)
    requires SameButOrder(a1, a2) && WalksMaps(a1.oracle) && WalksMaps(a2.oracle)
    ensures var s1, s2 := PrepareVolumes(a1, h, spec), PrepareVolumes(a2, h, spec);
      && s1.history == s2.history
      && (s1.outcome.Ok? <==> s2.outcome.Ok?)
      && (s1.outcome.Ok? || Consistent(spec) ==> s1.outcome == s2.outcome)
  {
    CheckReferencesExact(spec, a1.oracle.order(h, DeclaredNames(spec.volumes)));
    CheckReferencesExact(spec, a2.oracle.order(h, DeclaredNames(spec.volumes)));
    if Consistent(spec) && DiskModes(a1.disks).Ok? {
      VolumesIgnoreOrder(a1, a2, h, spec.volumes, DemandOf(spec), DiskModes(a1.disks).value, map[]);
    }
  }

  // Nothing is asked of the host before references and metadata have been accepted.
  lemma RejectedBeforeAnyCommand(a: Agent, h: History, spec: ContainerSpec)
    requires WalksMaps(a.oracle)
    requires !Consistent(spec) || a.disks.Err?
      || exists r :: r in a.disks.value && (r.deviceName == "" || r.mode !in {"READ_WRITE", "READ_ONLY"})
    ensures var s := PrepareVolumes(a, h, spec); s.history == h && s.outcome.Err?
  {
    CheckReferencesExact(spec, a.oracle.order(h, DeclaredNames(spec.volumes)));
    if a.disks.Ok? {
      AttachmentModesExact(a.disks.value);
    }
  }

  // The configuration a declaration asks for.
  function DeclaredConfig(prefix: string, spec: ContainerSpec, suffix: string): ContainerConfig
    requires |spec.containers| == 1 && RestartPolicyName(spec.restartPolicy).Ok?
  {
    var c := spec.containers[0];
    ContainerConfig(GeneratedName(c.name, suffix), c.image,
      BindStrings(DeclaredBindings(prefix, spec.volumes, c.volumeMounts)), RestartPolicyName(spec.restartPolicy).value)
  }

  lemma ConfigureDeclared(a: Agent, h: History, spec: ContainerSpec, suffix: string)
    requires WalksMaps(a.oracle) && |spec.containers| == 1 && PrepareVolumes(a, h, spec).outcome.Ok?
    ensures Configure(spec, suffix, PrepareVolumes(a, h, spec).outcome.value) ==
      match RestartPolicyName(spec.restartPolicy)
      case Err(e) => Err(e)
      case Ok(_) => Ok(DeclaredConfig(a.prefix, spec, suffix))
  {
    PreparedBindings(a, h, spec);
    assert spec.containers[1..] == [];
    assert LastContainer(spec.containers, spec.containers[0].name) == Some(spec.containers[0]);
  }

  // The container's name is always a key of the bindings, so the configuration that is
  // created carries exactly the declared bindings.
  lemma ConfigurationFollowsDeclaration(a: Agent, h: History, auth: string, spec: ContainerSpec, suffix: string)
    requires WalksMaps(a.oracle)
    ensures var r := PrepareContainer(a, h, auth, spec, suffix).outcome;
      && (r.Err? ==> !r.error.BindingMissing?)
      && (r.Ok? ==>
          && |spec.containers| == 1 && RestartPolicyName(spec.restartPolicy).Ok?
          && r.value == DeclaredConfig(a.prefix, spec, suffix))
  {
    if |spec.containers| == 1 {
      var s := ReplaceOld(a, h, auth, spec.containers[0]);
      ReplaceOldErrors(a, h, auth, spec.containers[0]);
      if s.outcome.Ok? {
        var h1 := UnmountExisting(a, s.history).history;
        if PrepareVolumes(a, h1, spec).outcome.Ok? {
          ConfigureDeclared(a, h1, spec, suffix);
        } else {
          PreparedBindings(a, h1, spec);
        }
      }
    }
  }

  lemma {:induction false} RemoveAllErrors(o: Oracle, h: History, ids: seq<string>)
    ensures var r := RemoveAll(o, h, ids).outcome; r.Err? ==> r.error.CommandFailed?
    decreases |ids|
  {
    if ids != [] {
      RemoveAllErrors(o, After(o, h, ContainerRemove(ids[0])), ids[1..]);
    }
  }

  lemma ReplaceOldErrors(a: Agent, h: History, auth: string, c: Container)
    ensures var r := ReplaceOld(a, h, auth, c).outcome; r.Err? ==> r.error.CommandFailed?
  {
    var h1 := After(a.oracle, h, ImagePull(c.image, auth));
    var listed := a.oracle.list(h1);
    if listed.Ok? {
      var h2 := h1 + [Listed(listed)];
      RemoveAllErrors(a.oracle, h2, a.oracle.order(h2, StartedByKonlet(listed.value, c.name).Keys));
    }
  }

  // ---------------------------------------------------------------- bind strings

  // Docker's reading of host:container[:ro].
  function ParseBind(s: string): Option<Binding> {
    var parts := Split(s, ':');
    if |parts| == 2 then Some(Binding(parts[0], parts[1], false))
    else if |parts| == 3 && parts[2] == "ro" then Some(Binding(parts[0], parts[1], true))
    else None
  }

  lemma BindStringColons(b: Binding)
    ensures Count(BindString(b), ':') ==
      Count(b.hostPath, ':') + Count(b.containerPath, ':') + if b.readOnly then 2 else 1
  {
    var mode := if b.readOnly then ":ro" else "";
    CountConcat(b.hostPath + ":" + b.containerPath, mode, ':');
    CountConcat(b.hostPath + ":", b.containerPath, ':');
    CountConcat(b.hostPath, ":", ':');
    assert Count(":", ':') == 1;
    assert Count(":ro", ':') == 1 by {
      assert ":ro"[1..] == "ro" && "ro"[1..] == "o" && "o"[1..] == "";
    }
  }

  // A bind string gives its binding back exactly when neither path has a colon.
  lemma BindStringRoundTrip(b: Binding)
    ensures ParseBind(BindString(b)) == Some(b) <==> ':' !in b.hostPath && ':' !in b.containerPath
  {
    BindStringColons(b);
    SplitCount(BindString(b), ':');
    CountZero(b.hostPath, ':');
    CountZero(b.containerPath, ':');
    if ':' !in b.hostPath && ':' !in b.containerPath {
      if b.readOnly {
        assert BindString(b) == b.hostPath + [':'] + (b.containerPath + [':'] + "ro");
        SplitAtFirst(b.hostPath, b.containerPath + [':'] + "ro", ':');
        SplitAtFirst(b.containerPath, "ro", ':');
        SplitSingle("ro", ':');
      } else {
        assert BindString(b) == b.hostPath + [':'] + b.containerPath;
        SplitAtFirst(b.hostPath, b.containerPath, ':');
        SplitSingle(b.containerPath, ':');
      }
    }
  }

  // A colon makes two different bindings look the same to Docker.
  lemma ColonsAreAmbiguous()
    ensures BindString(Binding("a", "b:ro", false)) == BindString(Binding("a", "b", true))
  {
    assert "a" + ":" + "b:ro" == "a" + ":" + "b" + ":ro";
  }

  // Lists of colon-free bindings are told apart by their bind strings.
  lemma BindStringsLoseNothing(b1: seq<Binding>, b2: seq<Binding>)
    requires forall b :: b in b1 || b in b2 ==> ':' !in b.hostPath && ':' !in b.containerPath
    requires BindStrings(b1) == BindStrings(b2)
    ensures b1 == b2
  {
    assert |BindStrings(b1)| == |b1| && |BindStrings(b2)| == |b2|;
    forall i | 0 <= i < |b1|
      ensures b1[i] == b2[i]
    {
      assert b1[i] in b1 && b2[i] in b2;
      BindStringRoundTrip(b1[i]);
      BindStringRoundTrip(b2[i]);
      assert BindStrings(b1)[i] == BindStrings(b2)[i];
    }
  }
}
