// A truthful and obliging host for every state of the world. It shows that the
// assumptions of the theorems can be met, and lets them speak about runs outright.
module TruthfulHost {
  import opened Wrappers
  import opened Text
  import opened MountTable
  import opened ApiTypes
  import opened Host
  import opened World
  import opened VolumeProtocol
  import opened RunProtocol
  import opened Discipline
  import opened MountStacks
  import opened MountPoints
  import opened References
  import opened Readiness
  import opened DockerSafety
  import opened HostSafety
  import opened Restart

  // ---------------------------------------------------------------- answers

  // A filesystem name that survives being printed on a line and trimmed.
  ghost predicate Printable(fsType: string) {
    TrimSpace(fsType) == fsType && '\n' !in fsType
  }

  ghost predicate PrintableTypes(devices: map<string, Device>) {
    forall d :: d in devices ==> Printable(devices[d].fsType)
  }

  function BlankLines(n: nat): seq<string> {
    seq(n, _ => "")
  }

  function Report(w: World, property: Property, device: string): string
    requires device in w.devices
  {
    var first := if property == FSTYPE then w.devices[device].fsType
                 else if Mounted(w.mounts, device) then "/" else "";
    Terminated([first] + BlankLines(|w.devices[device].children|), "\n")
  }

  // Longer than the id of any container.
  function FreshId(containers: seq<DockerContainer>): string {
    if containers == [] then "0" else containers[0].id + FreshId(containers[1..])
  }

  function Output(w: World, c: Command): string {
    match c
    case CatProcMounts => PrintTable(w.mounts)
    case Lsblk(property, device) => if device in w.devices then Report(w, property, device) else ""
    case ContainerCreate(_) => FreshId(w.containers)
    case _ => ""
  }

  lemma {:induction false} FreshIdIsLonger(containers: seq<DockerContainer>)
    ensures forall c :: c in containers ==> |c.id| < |FreshId(containers)|
    ensures FreshId(containers) != ""
  {
    if containers != [] {
      FreshIdIsLonger(containers[1..]);
      assert containers == [containers[0]] + containers[1..];
    }
  }

  lemma ReportIsTrue(w: World, property: Property, device: string)
    requires device in w.devices && Printable(w.devices[device].fsType)
    ensures TrueReport(w, property, device, Report(w, property, device))
  {
    var first := if property == FSTYPE then w.devices[device].fsType
                 else if Mounted(w.mounts, device) then "/" else "";
    var lines := [first] + BlankLines(|w.devices[device].children|);
    assert lines[0] == first;
    assert forall i :: 0 <= i < |lines| ==> '\n' !in lines[i];
    assert TrimSpace("/") == "/" && TrimSpace("") == "";
  }

  // Of a device whose filesystem has another name, lsblk can give no true report.
  lemma TrueReportExistsIff(w: World, device: string)
    requires device in w.devices
    ensures (exists output :: TrueReport(w, FSTYPE, device, output)) <==> Printable(w.devices[device].fsType)
  {
    var fsType := w.devices[device].fsType;
    if Printable(fsType) {
      ReportIsTrue(w, FSTYPE, device);
    }
    if output :| TrueReport(w, FSTYPE, device, output) {
      var lines: seq<string> :| |lines| == 1 + |w.devices[device].children| && output == Terminated(lines, "\n")
        && (forall i :: 0 <= i < |lines| ==> '\n' !in lines[i]) && TrimSpace(lines[0]) == fsType;
      TrimSpaceIsFixed(lines[0]);
    }
  }

  lemma OutputIsTrue(w: World, c: Command)
    requires Possible(w, c) && PrintableTypes(w.devices)
    ensures TrueOutput(w, c, Output(w, c))
  {
    match c
    case Lsblk(property, device) => ReportIsTrue(w, property, device);
    case ContainerCreate(_) => FreshIdIsLonger(w.containers);
    case _ =>
  }

  ghost function Reply(w: World, c: Command): Result<string, string> {
    if Possible(w, c) then Ok(Output(w, c)) else Err("refused")
  }

  // ---------------------------------------------------------------- the host

  ghost function Walk(keys: set<string>): (walk: seq<string>)
    ensures Enumerates(walk, keys)
  {
    if keys == {} then []
    else
      var k :| k in keys;
      assert keys == {k} + (keys - {k});
      [k] + Walk(keys - {k})
  }

  ghost function TrueOracle(origin: World): Oracle {
    Oracle(
      (h: History, c: Command) => Reply(Now(origin, h), c),
      (h: History, path: string) =>
        if path in Now(origin, h).devices then Ok(FileMode(true, false)) else Err("no such file"),
      (h: History) => Ok(Listing(Now(origin, h).containers)),
      (h: History, keys: set<string>) => Walk(keys))
  }

  lemma NextKeepsTypesPrintable(w: World, e: Event)
    requires PrintableTypes(w.devices)
    ensures PrintableTypes(Next(w, e).devices)
  {
    assert TrimSpace("ext4") == "ext4" && TrimSpace("") == "";
  }

  lemma {:induction false} TypesStayPrintable(origin: World, h: History)
    requires PrintableTypes(origin.devices)
    ensures PrintableTypes(Now(origin, h).devices)
  {
    if h != [] {
      TypesStayPrintable(origin, h[..|h| - 1]);
      NextKeepsTypesPrintable(Now(origin, h[..|h| - 1]), h[|h| - 1]);
    }
  }

  lemma TrueOracleAnswer(origin: World, h: History, e: Event)
    requires PrintableTypes(origin.devices) && AnsweredBy(TrueOracle(origin), h, e)
    ensures Truthful(Now(origin, h), e) && Willing(Now(origin, h), e)
  {
    TypesStayPrintable(origin, h);
    if e.Ran? && Possible(Now(origin, h), e.command) {
      OutputIsTrue(Now(origin, h), e.command);
    }
  }

  // Whatever this host is asked, its answers are true and obliging.
  lemma TrueOracleIsFaithful(origin: World, h: History)
    requires PrintableTypes(origin.devices) && Answered(TrueOracle(origin), h)
    ensures Faithful(origin, h) && Obliging(origin, h, 0)
  {
    forall i | 0 <= i < |h|
      ensures Truthful(Now(origin, h[..i]), h[i]) && Willing(Now(origin, h[..i]), h[i])
    {
      TrueOracleAnswer(origin, h[..i], h[i]);
    }
  }

  // ---------------------------------------------------------------- a run outright

  // On this host a run of a declaration succeeds if and only if the declaration can be
  // run and everything is ready once the old mounts are swept.
  lemma RunSucceedsIffReady(origin: World, prefix: string, disks: Result<seq<DiskRecord>, string>,
                            auth: string, spec: ContainerSpec, suffix: string)
    requires PrintableTypes(origin.devices) && UniqueIds(origin.containers)
    ensures var a := Agent(TrueOracle(origin), prefix, disks);
      RunContainer(a, [], auth, spec, suffix).outcome.Ok? <==> ReadyToRun(a, origin, spec)
  {
    var a := Agent(TrueOracle(origin), prefix, disks);
    var s := RunContainer(a, [], auth, spec, suffix);
    RunIsDisciplined(a, [], auth, spec, suffix);
    TrueOracleIsFaithful(origin, s.history);
    if ReadyToRun(a, origin, spec) {
      ReadyRunSucceeds(origin, a, [], auth, spec, suffix);
    }
    if s.outcome.Ok? {
      ObligedRunWasReady(origin, a, [], auth, spec, suffix);
    }
  }

  lemma CutIsAnswered(o: Oracle, h: History, length: nat)
    requires Answered(o, h)
    ensures Answered(o, Cut(h, length))
  {
    if length <= |h| {
      assert forall i :: 0 <= i < length ==> h[..length][..i] == h[..i];
    }
  }

  lemma CutRunIsAnswered(a: Agent, h: History, auth: string, spec: ContainerSpec, suffix: string, length: nat)
    requires WalksMaps(a.oracle) && Disciplined(a.prefix, h) && Answered(a.oracle, h)
    ensures Answered(a.oracle, Cut(RunContainer(a, h, auth, spec, suffix).history, length))
  {
    RunIsDisciplined(a, h, auth, spec, suffix);
    CutIsAnswered(a.oracle, RunContainer(a, h, auth, spec, suffix).history, length);
  }

  lemma {:induction false} AttemptsAreAnswered(o: Oracle, prefix: string, attempts: seq<Attempt>)
    requires WalksMaps(o)
    ensures Answered(o, Attempts(o, prefix, attempts))
  {
    if attempts != [] {
      var init, t := attempts[..|attempts| - 1], attempts[|attempts| - 1];
      var h := Attempts(o, prefix, init);
      AttemptsAreAnswered(o, prefix, init);
      AttemptsKeepDiscipline(o, prefix, init);
      CutRunIsAnswered(Agent(o, prefix, t.disks), h, t.auth, t.spec, t.suffix, |h| + t.cut);
    }
  }

  // On this host, a declaration that can be run at all can be run after any number of runs
  // of any declarations, each complete or cut off anywhere, with the same mounts, exactly
  // if the table found is readable and unwinds and no mount has strayed; it always does if
  // the earlier declarations have simple names and the prefix is plain.
  lemma RestartSucceeds(origin: World, prefix: string, disks: Result<seq<DiskRecord>, string>, auth: string,
                        spec: ContainerSpec, suffix1: string, before: seq<Attempt>, suffix2: string)
    requires PrintableTypes(origin.devices) && UniqueIds(origin.containers) && OnlyManaged(prefix, origin.mounts) == []
    requires RunContainer(Agent(TrueOracle(origin), prefix, disks), [], auth, spec, suffix1).outcome.Ok?
    ensures var o := TrueOracle(origin);
      var run1 := RunContainer(Agent(o, prefix, disks), [], auth, spec, suffix1);
      var run2 := RunContainer(Agent(o, prefix, disks), Attempts(o, prefix, before), auth, spec, suffix2);
      var h := Attempts(o, prefix, before);
      var table := Now(origin, h).mounts;
      var converges := run2.outcome.Ok? && Now(origin, run2.history).mounts == Now(origin, run1.history).mounts;
      && (converges <==> Readable(prefix, table) && Unwinds(prefix, table) && Strays(prefix, h) == [])
      && (TableFits(prefix, origin.mounts) && PlainPrefix(prefix) && SimpleVolumes(VolumesOf(before)) ==> converges)
  {
    var o := TrueOracle(origin);
    var a, h := Agent(o, prefix, disks), Attempts(o, prefix, before);
    AttemptsKeepDiscipline(o, prefix, before);
    AttemptsAreAnswered(o, prefix, before);
    RunIsDisciplined(a, [], auth, spec, suffix1);
    RunIsDisciplined(a, h, auth, spec, suffix2);
    TrueOracleIsFaithful(origin, RunContainer(a, [], auth, spec, suffix1).history);
    TrueOracleIsFaithful(origin, RunContainer(a, h, auth, spec, suffix2).history);
    RestartConvergesIff(origin, prefix, disks, auth, spec, o, suffix1, o, before, suffix2);
    if TableFits(prefix, origin.mounts) && PlainPrefix(prefix) && SimpleVolumes(VolumesOf(before)) {
      RestartConverges(origin, prefix, disks, auth, spec, o, suffix1, o, before, suffix2);
    }
  }

  // On this host, two tmpfs volumes of which one lands inside the other do not settle: if
  // they could be prepared once, the second run fails or ends with other mounts.
  lemma NestedVolumesNeverSettle(origin: World, prefix: string, disks: Result<seq<DiskRecord>, string>, auth: string,
                                 spec: ContainerSpec, suffix1: string, suffix2: string, name1: string, name2: string)
    requires PrintableTypes(origin.devices) && UniqueIds(origin.containers) && OnlyManaged(prefix, origin.mounts) == []
    requires Nested(TmpfsLanding(prefix, name1), TmpfsLanding(prefix, name2))
    requires spec.volumes == [MemoryVolume(name1), MemoryVolume(name2)]
    requires RunContainer(Agent(TrueOracle(origin), prefix, disks), [], auth, spec, suffix1).outcome.Ok?
    ensures !SecondRunConverges(origin, Agent(TrueOracle(origin), prefix, disks), auth, spec, suffix1, suffix2)
  {
    var a := Agent(TrueOracle(origin), prefix, disks);
    var h := RunContainer(a, [], auth, spec, suffix1).history;
    RunIsDisciplined(a, [], auth, spec, suffix1);
    RunIsDisciplined(a, h, auth, spec, suffix2);
    TrueOracleIsFaithful(origin, RunContainer(a, h, auth, spec, suffix2).history);
    NestedVolumesDiverge(origin, a, auth, spec, suffix1, suffix2, name1, name2);
  }

  // ---------------------------------------------------------------- an empty host

  function EmptyHost(image: string): World {
    World([], map[], {}, {image}, [])
  }

  // One container that mounts two tmpfs volumes.
  function TwoTmpfs(image: string, name1: string, name2: string): ContainerSpec {
    var mounts := [VolumeMount(name1, "/one", false), VolumeMount(name2, "/two", false)];
    ContainerSpec([Container("c", image, mounts)], [MemoryVolume(name1), MemoryVolume(name2)], None)
  }

  lemma TwoTmpfsConsistent(image: string, name1: string, name2: string)
    ensures Consistent(TwoTmpfs(image, name1, name2))
  {
    var spec := TwoTmpfs(image, name1, name2);
    var c := spec.containers[0];
    assert c in spec.containers && c.volumeMounts[0] in c.volumeMounts && c.volumeMounts[1] in c.volumeMounts;
    assert spec.volumes[0] in spec.volumes && spec.volumes[1] in spec.volumes;
    assert spec.containers[1..] == [];
    assert AllMounts(spec.containers) == c.volumeMounts + [];
  }

  lemma TwoTmpfsReady(prefix: string, w: World, name1: string, name2: string, demand: map<string, bool>)
    requires FitsPathMax(TmpfsMount(prefix, name1)) && FitsPathMax(TmpfsMount(prefix, name2))
    requires name1 in demand && name2 in demand
    ensures AllReady(prefix, w, [MemoryVolume(name1), MemoryVolume(name2)], demand, map[])
  {
    var v1, v2 := MemoryVolume(name1), MemoryVolume(name2);
    var w1 := VolumeEffect(prefix, w, v1, demand[name1], map[]);
    assert [v1, v2][1..] == [v2] && [v2][1..] == [];
    assert VolumeReady(prefix, w, v1, demand[name1], map[]);
    assert VolumeReady(prefix, w1, v2, demand[name2], map[]);
    assert AllReady(prefix, w1, [v2], demand, map[]);
  }

  // Any two names short enough for the kernel can be prepared once.
  lemma TwoTmpfsRunOnce(prefix: string, auth: string, image: string, suffix: string, name1: string, name2: string)
    requires FitsPathMax(TmpfsMount(prefix, name1)) && FitsPathMax(TmpfsMount(prefix, name2))
    ensures var a := Agent(TrueOracle(EmptyHost(image)), prefix, Ok([]));
      RunContainer(a, [], auth, TwoTmpfs(image, name1, name2), suffix).outcome.Ok?
  {
    var a, spec := Agent(TrueOracle(EmptyHost(image)), prefix, Ok([])), TwoTmpfs(image, name1, name2);
    var v1, v2 := MemoryVolume(name1), MemoryVolume(name2);
    TwoTmpfsConsistent(image, name1, name2);
    assert Swept(prefix, EmptyHost(image)) == EmptyHost(image);
    assert v1 in spec.volumes && v2 in spec.volumes && v1.name in DemandOf(spec) && v2.name in DemandOf(spec);
    TwoTmpfsReady(prefix, EmptyHost(image), name1, name2, DemandOf(spec));
    assert Ready(a, EmptyHost(image), spec);
    RunSucceedsIffReady(EmptyHost(image), prefix, Ok([]), auth, spec, suffix);
  }

  // So the declarations that never settle exist, in either order of the volumes.
  lemma NestedVolumesRunOnce(prefix: string, auth: string, image: string, suffix1: string, suffix2: string,
                             name1: string, name2: string)
    requires FitsPathMax(TmpfsMount(prefix, name1)) && FitsPathMax(TmpfsMount(prefix, name2))
    requires Nested(TmpfsLanding(prefix, name1), TmpfsLanding(prefix, name2))
    ensures var a, spec := Agent(TrueOracle(EmptyHost(image)), prefix, Ok([])), TwoTmpfs(image, name1, name2);
      && RunContainer(a, [], auth, spec, suffix1).outcome.Ok?
      && !SecondRunConverges(EmptyHost(image), a, auth, spec, suffix1, suffix2)
  {
    TwoTmpfsRunOnce(prefix, auth, image, suffix1, name1, name2);
    NestedVolumesNeverSettle(EmptyHost(image), prefix, Ok([]), auth, TwoTmpfs(image, name1, name2), suffix1, suffix2,
                             name1, name2);
  }

  // A volume whose name leads out of the managed directory runs as well. Its mount strays,
  // and the second run does not end like the first.
  lemma EscapingVolumeRunsOnce(prefix: string, auth: string, image: string, suffix1: string, suffix2: string,
                               name: string, other: string)
    requires FitsPathMax(TmpfsMount(prefix, name)) && FitsPathMax(TmpfsMount(prefix, other))
    requires !HasPrefix(TmpfsLanding(prefix, name), prefix)
    ensures var a, spec := Agent(TrueOracle(EmptyHost(image)), prefix, Ok([])), TwoTmpfs(image, name, other);
      && RunContainer(a, [], auth, spec, suffix1).outcome.Ok?
      && Landed(TmpfsMount(prefix, name)) in Strays(prefix, RunContainer(a, [], auth, spec, suffix1).history)
      && !SecondRunConverges(EmptyHost(image), a, auth, spec, suffix1, suffix2)
  {
    var a, spec := Agent(TrueOracle(EmptyHost(image)), prefix, Ok([])), TwoTmpfs(image, name, other);
    TwoTmpfsRunOnce(prefix, auth, image, suffix1, name, other);
    var h := RunContainer(a, [], auth, spec, suffix1).history;
    RunIsDisciplined(a, [], auth, spec, suffix1);
    RunIsDisciplined(a, h, auth, spec, suffix2);
    TrueOracleIsFaithful(EmptyHost(image), RunContainer(a, h, auth, spec, suffix2).history);
    assert spec.volumes[0] in spec.volumes;
    EscapingVolumePilesUp(EmptyHost(image), a, auth, spec, suffix1, suffix2, name);
  }
}
