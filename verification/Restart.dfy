// Runs and restarts on a truthful host: what a successful run leaves, when a run succeeds,
// and when a restart after an interrupted history arrives where a first run would.
module Restart {
  import opened Wrappers
  import opened Text
  import opened MountTable
  import opened ApiTypes
  import opened Host
  import opened World
  import opened MountStacks
  import opened Paths
  import opened VolumeProtocol
  import opened Containers
  import opened References
  import opened RunProtocol
  import opened Discipline
  import opened DockerSafety
  import opened HostSafety
  import opened UnmountLoop
  import opened BindingTheorems
  import opened Readiness
  import opened Replacement
  import opened MountPoints
  import opened FlatHistories

  // ---------------------------------------------------------------- readiness and its frame

  // Readiness looks at mounts and devices only.
  lemma ReadyFrame(a: Agent, w: World, w': World, spec: ContainerSpec)
    requires Ready(a, w, spec) && NoWorse(w, w')
    ensures Ready(a, w', spec)
  {
    NoWorseIsReady(a.prefix, w, w', spec.volumes, DemandOf(spec), DiskModes(a.disks).value);
  }

  lemma {:induction false} AllEffectsFrame(prefix: string, w: World, volumes: seq<Volume>, demand: map<string, bool>,
                                           modes: map<string, bool>)
    ensures AllEffects(prefix, w, volumes, demand, modes).containers == w.containers
    ensures AllEffects(prefix, w, volumes, demand, modes).images == w.images
    decreases |volumes|
  {
    if volumes != [] && volumes[0].name in demand {
      var w1 := VolumeEffect(prefix, w, volumes[0], demand[volumes[0].name], modes);
      AllEffectsFrame(prefix, w1, volumes[1..], demand, modes);
    }
  }

  // ---------------------------------------------------------------- the phases together

  // The phases of a run that succeeds: every one of them did.
  lemma SuccessfulPhases(a: Agent, h: History, auth: string, spec: ContainerSpec, suffix: string)
    requires WalksMaps(a.oracle) && RunContainer(a, h, auth, spec, suffix).outcome.Ok?
    ensures |spec.containers| == 1 && RestartPolicyName(spec.restartPolicy).Ok?
    ensures var s := ReplaceOld(a, h, auth, spec.containers[0]);
      var p := CleanAndPrepare(a, s.history, spec);
      var run := RunContainer(a, h, auth, spec, suffix);
      && s.outcome.Ok? && p.outcome.Ok?
      && h <= s.history && s.history <= p.history && p.history <= run.history
      && run == Launch(a, p.history, DeclaredConfig(a.prefix, spec, suffix))
  {
    ConfigurationFollowsDeclaration(a, h, auth, spec, suffix);
    RunPhases(a, h, auth, spec, suffix);
  }

  // What the first phase of a successful run has done.
  lemma SuccessfulReplacement(origin: World, a: Agent, h: History, auth: string, spec: ContainerSpec, suffix: string)
    requires WalksMaps(a.oracle) && UniqueIds(Now(origin, h).containers)
    requires Faithful(origin, RunContainer(a, h, auth, spec, suffix).history)
    requires RunContainer(a, h, auth, spec, suffix).outcome.Ok?
    ensures |spec.containers| == 1
    ensures var w, c := Now(origin, h), spec.containers[0];
      && c.image in w.images
      && Now(origin, ReplaceOld(a, h, auth, c).history) == w.(containers := Others(w.containers, {c.name}))
  {
    SuccessfulPhases(a, h, auth, spec, suffix);
    var c := spec.containers[0];
    FaithfulBefore(origin, ReplaceOld(a, h, auth, c).history, RunContainer(a, h, auth, spec, suffix).history);
    ReplaceOldExact(origin, a, h, auth, c, |h|);
  }

  // A preparation that succeeds where nothing of konlet's was mounted: everything was ready.
  lemma FirstPreparationWasReady(origin: World, a: Agent, h: History, spec: ContainerSpec, end: History)
    requires WalksMaps(a.oracle) && OnlyManaged(a.prefix, Now(origin, h).mounts) == []
    requires CleanAndPrepare(a, h, spec).history <= end && Faithful(origin, end)
    requires CleanAndPrepare(a, h, spec).outcome.Ok?
    ensures var w, w' := Now(origin, h), Now(origin, CleanAndPrepare(a, h, spec).history);
      Ready(a, w, spec) && w'.mounts == w.mounts + PreparationMounts(a, spec)
  {
    var h1 := UnmountExisting(a, h).history;
    var h2 := PrepareVolumes(a, h1, spec).history;
    FaithfulBefore(origin, h2, end);
    PrepareVolumesWork(a, h1, spec);
    FaithfulBefore(origin, h1, h2);
    CleanupOfCleanTable(origin, a, h);
    PreparationWasReady(origin, a, h1, spec);
  }

  // A first run, from a host without konlet mounts, that succeeds: everything was ready.
  lemma FirstRunWasReady(origin: World, a: Agent, h: History, auth: string, spec: ContainerSpec, suffix: string)
    requires WalksMaps(a.oracle) && UniqueIds(Now(origin, h).containers)
    requires OnlyManaged(a.prefix, Now(origin, h).mounts) == []
    requires Faithful(origin, RunContainer(a, h, auth, spec, suffix).history)
    requires RunContainer(a, h, auth, spec, suffix).outcome.Ok?
    ensures var w, w' := Now(origin, h), Now(origin, RunContainer(a, h, auth, spec, suffix).history);
      && |spec.containers| == 1 && RestartPolicyName(spec.restartPolicy).Ok?
      && spec.containers[0].image in w.images
      && Ready(a, w, spec)
      && w'.mounts == w.mounts + PreparationMounts(a, spec)
  {
    SuccessfulPhases(a, h, auth, spec, suffix);
    SuccessfulReplacement(origin, a, h, auth, spec, suffix);
    var w, end := Now(origin, h), RunContainer(a, h, auth, spec, suffix).history;
    var s := ReplaceOld(a, h, auth, spec.containers[0]);
    FirstPreparationWasReady(origin, a, s.history, spec, end);
    ReadyFrame(a, Now(origin, s.history), w, spec);
    LaunchExact(origin, a, CleanAndPrepare(a, s.history, spec).history, DeclaredConfig(a.prefix, spec, suffix), |h|);
  }

  ghost function Swept(prefix: string, w: World): World {
    w.(mounts := Sweep(prefix, w.mounts))
  }

  // The declaration can be run, and everything is ready once the old mounts are swept.
  ghost predicate ReadyToRun(a: Agent, w: World, spec: ContainerSpec) {
    && |spec.containers| == 1 && RestartPolicyName(spec.restartPolicy).Ok?
    && spec.containers[0].image in w.images
    && Ready(a, Swept(a.prefix, w), spec)
  }

  // On an obliging host such a run gets to the point of launching the declared container.
  lemma ReadyRunLaunches(origin: World, a: Agent, h: History, auth: string, spec: ContainerSpec, suffix: string)
    requires WalksMaps(a.oracle) && UniqueIds(Now(origin, h).containers) && ReadyToRun(a, Now(origin, h), spec)
    requires var end := RunContainer(a, h, auth, spec, suffix).history;
      Faithful(origin, end) && Obliging(origin, end, |h|)
    ensures var w, c := Now(origin, h), spec.containers[0];
      var h2 := CleanAndPrepare(a, ReplaceOld(a, h, auth, c).history, spec).history;
      && |h| <= |h2|
      && Now(origin, h2).mounts == Sweep(a.prefix, w.mounts) + PreparationMounts(a, spec)
      && Now(origin, h2).containers == Others(w.containers, {c.name})
      && RunContainer(a, h, auth, spec, suffix) == Launch(a, h2, DeclaredConfig(a.prefix, spec, suffix))
  {
    var w, c := Now(origin, h), spec.containers[0];
    var end := RunContainer(a, h, auth, spec, suffix).history;
    var s := ReplaceOld(a, h, auth, c);
    RunPhases(a, h, auth, spec, suffix);
    FaithfulBefore(origin, s.history, end);
    ObligingBefore(origin, s.history, end, |h|);
    ReplaceOldExact(origin, a, h, auth, c, |h|);
    var w1 := Now(origin, s.history);
    assert w1 == w.(containers := Others(w.containers, {c.name}));
    ReadyFrame(a, Swept(a.prefix, w), Swept(a.prefix, w1), spec);
    CleanAndPrepareSucceeds(origin, a, s.history, spec, end, |h|);
    PreparedConfiguration(a, h, auth, spec, suffix);
  }

  // It succeeds, and this is all it leaves.
  lemma ReadyRunSucceeds(origin: World, a: Agent, h: History, auth: string, spec: ContainerSpec, suffix: string)
    requires WalksMaps(a.oracle) && UniqueIds(Now(origin, h).containers) && ReadyToRun(a, Now(origin, h), spec)
    requires var end := RunContainer(a, h, auth, spec, suffix).history;
      Faithful(origin, end) && Obliging(origin, end, |h|)
    ensures var s, w := RunContainer(a, h, auth, spec, suffix), Now(origin, h);
      && s.outcome.Ok?
      && var w', c := Now(origin, s.history), spec.containers[0];
      && w'.mounts == Sweep(a.prefix, w.mounts) + PreparationMounts(a, spec)
      && w'.containers == Others(w.containers, {c.name})
         + [RunningContainer(DeclaredConfig(a.prefix, spec, suffix), s.outcome.value)]
  {
    var c, config := spec.containers[0], DeclaredConfig(a.prefix, spec, suffix);
    var h2 := CleanAndPrepare(a, ReplaceOld(a, h, auth, c).history, spec).history;
    ReadyRunLaunches(origin, a, h, auth, spec, suffix);
    NewNameIsFree(Now(origin, h2), Now(origin, h).containers, c.name, suffix);
    LaunchExact(origin, a, h2, config, |h|);
  }

  function RunningContainer(config: ContainerConfig, id: string): DockerContainer {
    DockerContainer(id, ["/" + config.name], config, true)
  }

  // Once the volumes are prepared, the container is launched with the declared configuration.
  lemma PreparedConfiguration(a: Agent, h: History, auth: string, spec: ContainerSpec, suffix: string)
    requires WalksMaps(a.oracle) && |spec.containers| == 1 && RestartPolicyName(spec.restartPolicy).Ok?
    requires var s := ReplaceOld(a, h, auth, spec.containers[0]);
      s.outcome.Ok? && CleanAndPrepare(a, s.history, spec).outcome.Ok?
    ensures var s, config := ReplaceOld(a, h, auth, spec.containers[0]), DeclaredConfig(a.prefix, spec, suffix);
      && PrepareContainer(a, h, auth, spec, suffix) == Step(CleanAndPrepare(a, s.history, spec).history, Ok(config))
      && RunContainer(a, h, auth, spec, suffix) == Launch(a, CleanAndPrepare(a, s.history, spec).history, config)
  {
    var h1 := ReplaceOld(a, h, auth, spec.containers[0]).history;
    ConfigureDeclared(a, UnmountExisting(a, h1).history, spec, suffix);
  }

  // The cleanup and preparation of a longer run, on an obliging host.
  lemma CleanAndPrepareSweeps(origin: World, a: Agent, h: History, spec: ContainerSpec, end: History, from: nat)
    requires from <= |h| && CleanAndPrepare(a, h, spec).history <= end
    requires Faithful(origin, end) && Obliging(origin, end, from)
    ensures var h1 := UnmountExisting(a, h).history;
      var h2 := PrepareVolumes(a, h1, spec).history;
      && h <= h1 <= h2 && Faithful(origin, h2) && Obliging(origin, h2, from)
      && Now(origin, h1) == Swept(a.prefix, Now(origin, h))
  {
    var h1 := UnmountExisting(a, h).history;
    var h2 := PrepareVolumes(a, h1, spec).history;
    UnmountExistingWork(a, h);
    PrepareVolumesWork(a, h1, spec);
    FaithfulBefore(origin, h2, end);
    ObligingBefore(origin, h2, end, from);
    FaithfulBefore(origin, h1, h2);
    ObligingBefore(origin, h1, h2, from);
    CleanupSweeps(origin, a, h, from);
  }

  lemma ObligedPreparationWasReady(origin: World, a: Agent, h: History, spec: ContainerSpec, end: History, from: nat)
    requires WalksMaps(a.oracle) && from <= |h| && CleanAndPrepare(a, h, spec).history <= end
    requires Faithful(origin, end) && Obliging(origin, end, from)
    requires CleanAndPrepare(a, h, spec).outcome.Ok?
    ensures Ready(a, Swept(a.prefix, Now(origin, h)), spec)
  {
    CleanAndPrepareSweeps(origin, a, h, spec, end, from);
    PreparationWasReady(origin, a, UnmountExisting(a, h).history, spec);
  }

  lemma CleanAndPrepareSucceeds(origin: World, a: Agent, h: History, spec: ContainerSpec, end: History, from: nat)
    requires WalksMaps(a.oracle) && from <= |h| && CleanAndPrepare(a, h, spec).history <= end
    requires Faithful(origin, end) && Obliging(origin, end, from)
    requires Ready(a, Swept(a.prefix, Now(origin, h)), spec)
    ensures var s, w := CleanAndPrepare(a, h, spec), Now(origin, h);
      && s.outcome.Ok? && h <= s.history
      && var w' := Now(origin, s.history);
      && w'.mounts == Sweep(a.prefix, w.mounts) + PreparationMounts(a, spec)
      && w'.containers == w.containers
  {
    var h1 := UnmountExisting(a, h).history;
    CleanAndPrepareSweeps(origin, a, h, spec, end, from);
    ReadyPreparationSucceeds(origin, a, h1, spec, from);
    PreparationWasReady(origin, a, h1, spec);
    AllEffectsFrame(a.prefix, Now(origin, h1), spec.volumes, DemandOf(spec), DiskModes(a.disks).value);
  }

  // Volume work leaves the containers alone.
  lemma {:induction false} VolumeWorkKeepsContainers(origin: World, h: History, h': History)
    requires h <= h' && forall i :: |h| <= i < |h'| ==> !Docker(h'[i])
    ensures Now(origin, h').containers == Now(origin, h).containers
    decreases |h'|
  {
    if |h| < |h'| {
      var init, last := h'[..|h'| - 1], h'[|h'| - 1];
      VolumeWorkKeepsContainers(origin, h, init);
      assert h' == init + [last];
      NowSnoc(origin, init, last);
    } else {
      assert h' == h;
    }
  }

  // A successful run on a truthful host, obliging or not, has replaced konlet's containers
  // by the one it created and started, and left all others as they were.
  lemma SuccessfulRunReplaces(origin: World, a: Agent, h: History, auth: string, spec: ContainerSpec, suffix: string)
    requires WalksMaps(a.oracle) && UniqueIds(Now(origin, h).containers)
    requires Faithful(origin, RunContainer(a, h, auth, spec, suffix).history)
    requires RunContainer(a, h, auth, spec, suffix).outcome.Ok?
    ensures var s, w := RunContainer(a, h, auth, spec, suffix), Now(origin, h);
      && |spec.containers| == 1 && RestartPolicyName(spec.restartPolicy).Ok?
      && var created := RunningContainer(DeclaredConfig(a.prefix, spec, suffix), s.outcome.value);
      && Now(origin, s.history).containers == Others(w.containers, {spec.containers[0].name}) + [created]
      && KltContainers(Now(origin, s.history).containers) == [created]
  {
    SuccessfulPhases(a, h, auth, spec, suffix);
    var c, end := spec.containers[0], RunContainer(a, h, auth, spec, suffix);
    var s, config := ReplaceOld(a, h, auth, c), DeclaredConfig(a.prefix, spec, suffix);
    var p := CleanAndPrepare(a, s.history, spec);
    SuccessfulReplacement(origin, a, h, auth, spec, suffix);
    CleanAndPrepareWork(a, s.history, spec);
    VolumeWorkKeepsContainers(origin, s.history, p.history);
    LaunchExact(origin, a, p.history, config, |h|);
    OneKlt(Now(origin, h).containers, c.name, config, end.outcome.value, suffix);
  }

  // Conversely to ReadyRunSucceeds: a run that succeeds on an obliging host was ready.
  lemma ObligedRunWasReady(origin: World, a: Agent, h: History, auth: string, spec: ContainerSpec, suffix: string)
    requires WalksMaps(a.oracle) && UniqueIds(Now(origin, h).containers)
    requires var end := RunContainer(a, h, auth, spec, suffix).history;
      Faithful(origin, end) && Obliging(origin, end, |h|)
    requires RunContainer(a, h, auth, spec, suffix).outcome.Ok?
    ensures ReadyToRun(a, Now(origin, h), spec)
  {
    SuccessfulPhases(a, h, auth, spec, suffix);
    SuccessfulReplacement(origin, a, h, auth, spec, suffix);
    var w, end := Now(origin, h), RunContainer(a, h, auth, spec, suffix).history;
    var s := ReplaceOld(a, h, auth, spec.containers[0]);
    ObligedPreparationWasReady(origin, a, s.history, spec, end, |h|);
    ReadyFrame(a, Swept(a.prefix, Now(origin, s.history)), Swept(a.prefix, w), spec);
  }

  lemma OneKlt(containers: seq<DockerContainer>, rawName: string, config: ContainerConfig, id: string, suffix: string)
    requires config.name == GeneratedName(rawName, suffix)
    ensures var created := RunningContainer(config, id);
      KltContainers(Others(containers, {rawName}) + [created]) == [created]
  {
    var created := RunningContainer(config, id);
    OthersHaveNoKlt(containers, {rawName});
    KltContainersConcat(Others(containers, {rawName}), [created]);
    GeneratedNameRecognised(rawName, suffix, "");
    assert created.names[0] in created.names;
    assert [created][1..] == [];
  }

  // ---------------------------------------------------------------- restart

  // What any interrupted history leaves of the host.
  lemma InterruptedHost(origin: World, o: Oracle, prefix: string, before: seq<Attempt>)
    requires WalksMaps(o) && Faithful(origin, Attempts(o, prefix, before))
    ensures var w := Now(origin, Attempts(o, prefix, before));
      && w.images == origin.images
      && OnlyBlankFormatted(origin.devices, w.devices)
      && Unmanaged(prefix, w.mounts)
         == Unmanaged(prefix, origin.mounts) + Strays(prefix, Attempts(o, prefix, before))
      && (LandManaged(prefix, VolumesOf(before)) ==> Unmanaged(prefix, w.mounts) == Unmanaged(prefix, origin.mounts))
      && (TableFits(prefix, origin.mounts) ==> TableFits(prefix, w.mounts))
      && (|KltContainers(origin.containers)| <= 1 ==> |KltContainers(w.containers)| <= 1)
      && (UniqueIds(origin.containers) ==>
          UniqueIds(w.containers)
          && Others(w.containers, DeclaredBy(before)) == Others(origin.containers, DeclaredBy(before)))
  {
    var h := Attempts(o, prefix, before);
    AttemptsKeepDiscipline(o, prefix, before);
    ForeignMountsKept(origin, prefix, h);
    DataKept(origin, prefix, h);
    if LandManaged(prefix, VolumesOf(before)) {
      AttemptsMountDeclared(o, prefix, before);
      NoStrays(prefix, VolumesOf(before), h);
    }
    if TableFits(prefix, origin.mounts) {
      TableStaysReadable(origin, prefix, h);
    }
    if |KltContainers(origin.containers)| <= 1 {
      AtMostOneKlt(origin, prefix, h);
    }
    if UniqueIds(origin.containers) {
      assert h[..|h|] == h;
      AttemptsSpareOthers(origin, o, prefix, before, DeclaredBy(before), |h|);
    }
  }

  // A sweep brings a table back to one without managed mounts exactly if it is readable and
  // unwinds and its foreign mounts are those of that table.
  lemma SweptTable(prefix: string, origin: seq<Mount>, table: seq<Mount>)
    requires OnlyManaged(prefix, origin) == []
    ensures Sweep(prefix, table) == origin <==>
      Readable(prefix, table) && Unwinds(prefix, table) && Unmanaged(prefix, table) == origin
  {
    TwoSides(prefix, origin);
    SweepBounds(prefix, table);
    SweepClears(prefix, table);
  }

  // Take a host without konlet mounts on which a first run of the declaration succeeds.
  // Let any number of runs, of this or other declarations, go before instead, each complete
  // or cut off after any command, with any commands failing. Then a run of the declaration
  // on a host that refuses nothing it could do succeeds with the same mount table as the
  // first run if and only if the table it finds is readable and unwinds and none of the
  // earlier mounts has strayed from where the code looks for them.
  lemma RestartConvergesIff(origin: World, prefix: string, disks: Result<seq<DiskRecord>, string>,
                            auth: string, spec: ContainerSpec,
                            first: Oracle, suffix1: string,
                            later: Oracle, before: seq<Attempt>, suffix2: string)
    requires WalksMaps(first) && WalksMaps(later)
    requires UniqueIds(origin.containers) && OnlyManaged(prefix, origin.mounts) == []
    requires var run := RunContainer(Agent(first, prefix, disks), [], auth, spec, suffix1);
      Faithful(origin, run.history) && run.outcome.Ok?
    requires var h := Attempts(later, prefix, before);
      var run := RunContainer(Agent(later, prefix, disks), h, auth, spec, suffix2);
      Faithful(origin, run.history) && Obliging(origin, run.history, |h|)
    ensures var h := Attempts(later, prefix, before);
      var run1 := RunContainer(Agent(first, prefix, disks), [], auth, spec, suffix1);
      var run2 := RunContainer(Agent(later, prefix, disks), h, auth, spec, suffix2);
      var table := Now(origin, h).mounts;
      run2.outcome.Ok? && Now(origin, run2.history).mounts == Now(origin, run1.history).mounts
      <==> Readable(prefix, table) && Unwinds(prefix, table) && Strays(prefix, h) == []
  {
    var h, a1, a2 := Attempts(later, prefix, before), Agent(first, prefix, disks), Agent(later, prefix, disks);
    var w, run2 := Now(origin, h), RunContainer(a2, h, auth, spec, suffix2);
    FirstRunWasReady(origin, a1, [], auth, spec, suffix1);
    RunGrows(a2, h, auth, spec, suffix2);
    FaithfulBefore(origin, h, run2.history);
    InterruptedHost(origin, later, prefix, before);
    TwoSides(prefix, origin.mounts);
    SweptTable(prefix, origin.mounts, w.mounts);
    assert Unmanaged(prefix, w.mounts) == origin.mounts <==> Strays(prefix, h) == [];
    if Sweep(prefix, w.mounts) == origin.mounts {
      NoWorseIsReady(prefix, origin, Swept(prefix, w), spec.volumes, DemandOf(spec), DiskModes(disks).value);
      ReadyRunSucceeds(origin, a2, h, auth, spec, suffix2);
    } else if run2.outcome.Ok? {
      ObligedRunWasReady(origin, a2, h, auth, spec, suffix2);
      ReadyRunSucceeds(origin, a2, h, auth, spec, suffix2);
      SameEnding(Sweep(prefix, w.mounts), origin.mounts, PreparationMounts(a1, spec));
    }
  }

  lemma SameEnding(t1: seq<Mount>, t2: seq<Mount>, ending: seq<Mount>)
    ensures t1 + ending == t2 + ending ==> t1 == t2
  {
    if t1 + ending == t2 + ending {
      assert |t1| == |t2|;
      assert (t1 + ending)[..|t1|] == t1 && (t2 + ending)[..|t2|] == t2;
    }
  }

  // If the volumes and disks of the earlier declarations have simple names, and the managed
  // directory is given as the kernel prints it, the restarted run always converges: it
  // succeeds and leaves the same mount table as the first run would have, all containers
  // that are not konlet's under any of the declarations as they were at the very start, and
  // one klt container: the new one, running, with the declared bindings.
  lemma RestartConverges(origin: World, prefix: string, disks: Result<seq<DiskRecord>, string>,
                         auth: string, spec: ContainerSpec,
                         first: Oracle, suffix1: string,
                         later: Oracle, before: seq<Attempt>, suffix2: string)
    requires WalksMaps(first) && WalksMaps(later) && PlainPrefix(prefix) && SimpleVolumes(VolumesOf(before))
    requires TableFits(prefix, origin.mounts) && OnlyManaged(prefix, origin.mounts) == []
    requires UniqueIds(origin.containers)
    requires var run := RunContainer(Agent(first, prefix, disks), [], auth, spec, suffix1);
      Faithful(origin, run.history) && run.outcome.Ok?
    requires var h := Attempts(later, prefix, before);
      var run := RunContainer(Agent(later, prefix, disks), h, auth, spec, suffix2);
      Faithful(origin, run.history) && Obliging(origin, run.history, |h|)
    ensures var h := Attempts(later, prefix, before);
      var run1 := RunContainer(Agent(first, prefix, disks), [], auth, spec, suffix1);
      var run2 := RunContainer(Agent(later, prefix, disks), h, auth, spec, suffix2);
      var w1, w2 := Now(origin, run1.history), Now(origin, run2.history);
      var declared := DeclaredBy(before) + ContainerNames(spec);
      && run2.outcome.Ok?
      && w2.mounts == w1.mounts
      && Others(w2.containers, declared) == Others(origin.containers, declared)
      && |spec.containers| == 1 && RestartPolicyName(spec.restartPolicy).Ok?
      && var created := RunningContainer(DeclaredConfig(prefix, spec, suffix2), run2.outcome.value);
      && w2.containers == Others(Now(origin, h).containers, {spec.containers[0].name}) + [created]
      && KltContainers(w2.containers) == [created]
  {
    var h, a2 := Attempts(later, prefix, before), Agent(later, prefix, disks);
    var run2 := RunContainer(a2, h, auth, spec, suffix2);
    RunGrows(a2, h, auth, spec, suffix2);
    FaithfulBefore(origin, h, run2.history);
    InterruptedHost(origin, later, prefix, before);
    FittingTableIsReadable(prefix, Now(origin, h).mounts);
    AttemptsLeaveFlatTable(origin, later, prefix, before);
    FlatUnwinds(prefix, Now(origin, h).mounts);
    SimpleVolumesLand(prefix, VolumesOf(before));
    AttemptsMountDeclared(later, prefix, before);
    NoStrays(prefix, VolumesOf(before), h);
    RestartConvergesIff(origin, prefix, disks, auth, spec, first, suffix1, later, before, suffix2);
    SuccessfulRunReplaces(origin, a2, h, auth, spec, suffix2);
    RestartSparesOthers(origin, a2, before, auth, spec, suffix2);
  }

  // One more run after any number of runs leaves the containers of others alone.
  lemma RestartSparesOthers(origin: World, a: Agent, before: seq<Attempt>, auth: string, spec: ContainerSpec,
                            suffix: string)
    requires WalksMaps(a.oracle) && UniqueIds(origin.containers)
    requires Faithful(origin, RunContainer(a, Attempts(a.oracle, a.prefix, before), auth, spec, suffix).history)
    ensures var end := RunContainer(a, Attempts(a.oracle, a.prefix, before), auth, spec, suffix).history;
      var declared := DeclaredBy(before) + ContainerNames(spec);
      Others(Now(origin, end).containers, declared) == Others(origin.containers, declared)
  {
    var h, declared := Attempts(a.oracle, a.prefix, before), DeclaredBy(before) + ContainerNames(spec);
    AttemptsTouchOwn(a.oracle, a.prefix, before, declared);
    RunTouchesOwn(a, h, auth, spec, suffix, 0, declared);
    OthersStay(origin, [], RunContainer(a, h, auth, spec, suffix).history, declared);
  }

  // ---------------------------------------------------------------- names that are not simple

  // After a complete run of the same declaration, the question is whether its own mounts
  // are found again and unwind.
  lemma SecondRunConvergesIff(origin: World, a: Agent, auth: string, spec: ContainerSpec, suffix1: string,
                              suffix2: string)
    requires WalksMaps(a.oracle)
    requires UniqueIds(origin.containers) && OnlyManaged(a.prefix, origin.mounts) == []
    requires RunContainer(a, [], auth, spec, suffix1).outcome.Ok?
    requires var h := RunContainer(a, [], auth, spec, suffix1).history;
      var run := RunContainer(a, h, auth, spec, suffix2);
      Faithful(origin, run.history) && Obliging(origin, run.history, |h|)
    ensures DiskModes(a.disks).Ok?
    ensures SecondRunConverges(origin, a, auth, spec, suffix1, suffix2) <==>
      var table := origin.mounts + PreparationMounts(a, spec);
      && Readable(a.prefix, table) && Unwinds(a.prefix, table)
      && AllManaged(a.prefix, PreparationMounts(a, spec))
  {
    var h := RunContainer(a, [], auth, spec, suffix1).history;
    var before := [Attempt(a.disks, auth, spec, suffix1, |h|)];
    OneAttempt(a, before[0], h);
    RunGrows(a, h, auth, spec, suffix2);
    FaithfulBefore(origin, h, RunContainer(a, h, auth, spec, suffix2).history);
    FirstRunWasReady(origin, a, [], auth, spec, suffix1);
    InterruptedHost(origin, a.oracle, a.prefix, before);
    AddedAreManagedIff(a.prefix, origin.mounts, PreparationMounts(a, spec));
    TwoSides(a.prefix, origin.mounts);
    RestartConvergesIff(origin, a.prefix, a.disks, auth, spec, a.oracle, suffix1, a.oracle, before, suffix2);
  }

  // The second of two complete runs succeeds and ends with the mounts of the first.
  ghost predicate SecondRunConverges(origin: World, a: Agent, auth: string, spec: ContainerSpec, suffix1: string,
                                     suffix2: string)
  {
    var run1 := RunContainer(a, [], auth, spec, suffix1);
    var run2 := RunContainer(a, run1.history, auth, spec, suffix2);
    run2.outcome.Ok? && Now(origin, run2.history).mounts == Now(origin, run1.history).mounts
  }

  lemma AddedAreManagedIff(prefix: string, foreign: seq<Mount>, added: seq<Mount>)
    requires OnlyManaged(prefix, foreign) == []
    ensures Unmanaged(prefix, foreign + added) == foreign <==> AllManaged(prefix, added)
  {
    TwoSides(prefix, foreign);
    TwoSides(prefix, added);
    UnmanagedConcat(prefix, foreign, added);
    if Unmanaged(prefix, added) != [] {
      assert Unmanaged(prefix, added)[0] in Unmanaged(prefix, added);
    } else {
      assert foreign + [] == foreign;
    }
  }

  lemma OneAttempt(a: Agent, t: Attempt, h: History)
    requires t.disks == a.disks && h == RunContainer(a, [], t.auth, t.spec, t.suffix).history && t.cut == |h|
    ensures Attempts(a.oracle, a.prefix, [t]) == h
  {
    assert [t][..0] == [];
    assert Attempts(a.oracle, a.prefix, []) == [];
    assert Agent(a.oracle, a.prefix, t.disks) == a;
    assert h[..|h|] == h;
  }

  function MemoryVolume(name: string): Volume {
    Volume(name, None, Some("Memory"), None)
  }

  // Where a tmpfs volume of this name is mounted, as the table shows it.
  function TmpfsLanding(prefix: string, name: string): string {
    Canonical(MountPath(prefix, TMPFS, name))
  }

  // A declaration of two tmpfs volumes of which one lands inside the other, in either
  // order, may run once but not twice: the second run cannot unmount the one that came
  // first, and fails or stacks another mount on it.
  lemma NestedVolumesDiverge(origin: World, a: Agent, auth: string, spec: ContainerSpec, suffix1: string,
                             suffix2: string, name1: string, name2: string)
    requires WalksMaps(a.oracle)
    requires UniqueIds(origin.containers) && OnlyManaged(a.prefix, origin.mounts) == []
    requires spec.volumes == [MemoryVolume(name1), MemoryVolume(name2)]
    requires Nested(TmpfsLanding(a.prefix, name1), TmpfsLanding(a.prefix, name2))
    requires RunContainer(a, [], auth, spec, suffix1).outcome.Ok?
    requires var h := RunContainer(a, [], auth, spec, suffix1).history;
      var run := RunContainer(a, h, auth, spec, suffix2);
      Faithful(origin, run.history) && Obliging(origin, run.history, |h|)
    ensures !SecondRunConverges(origin, a, auth, spec, suffix1, suffix2)
  {
    SecondRunConvergesIff(origin, a, auth, spec, suffix1, suffix2);
    var m1, m2 := Landed(TmpfsMount(a.prefix, name1)), Landed(TmpfsMount(a.prefix, name2));
    TwoPlanned(a, spec, name1, name2);
    assert m1 in [m1, m2] && m2 in [m1, m2];
    if Managed(a.prefix, m1) && Managed(a.prefix, m2) {
      NestedPairDoesNotUnwind(a.prefix, origin.mounts, m1, m2);
    }
  }

  lemma TwoPlanned(a: Agent, spec: ContainerSpec, name1: string, name2: string)
    requires DiskModes(a.disks).Ok? && spec.volumes == [MemoryVolume(name1), MemoryVolume(name2)]
    ensures PreparationMounts(a, spec) == [Landed(TmpfsMount(a.prefix, name1)), Landed(TmpfsMount(a.prefix, name2))]
  {
    var v1, v2, demand, modes := MemoryVolume(name1), MemoryVolume(name2), DemandOf(spec), DiskModes(a.disks).value;
    assert [v1, v2][1..] == [v2] && [v2][1..] == [];
    assert PlannedMounts(a.prefix, [v2], demand, modes) == [Landed(TmpfsMount(a.prefix, name2))];
  }

  // A name that continues another after a slash lands inside it.
  lemma InnerNameNests(prefix: string, name: string, inner: string)
    requires SimpleName(inner)
    ensures Nested(TmpfsLanding(prefix, name), TmpfsLanding(prefix, name + "/" + inner))
  {
    var outer := MountPath(prefix, TMPFS, name);
    assert MountPath(prefix, TMPFS, name + "/" + inner) == outer + "/" + inner;
    StepIsNested(outer, inner);
  }

  // Every simple name lands inside the name "..", although neither has a slash.
  lemma DotDotNests(prefix: string, name: string)
    requires SimpleName(name)
    ensures Nested(TmpfsLanding(prefix, ".."), TmpfsLanding(prefix, name))
  {
    DotDotLandsAbove(prefix, TMPFS);
    SimpleLanding(prefix, TMPFS, name);
    CanonicalDirectory(prefix);
    MountPathIsBelow(Canonical(prefix), Stem(prefix), TMPFS, name);
  }

  lemma MountPathIsBelow(dir: string, stem: string, family: string, name: string)
    requires DirectoryOf(dir) == stem + "/"
    ensures Below(dir, MountPath(stem, family, name))
  {
    assert MountPath(stem, family, name) == stem + "/" + (family + "s/" + name);
  }

  lemma StepIsNested(outer: string, inner: string)
    requires SimpleName(inner)
    ensures Nested(Canonical(outer), Canonical(outer + "/" + inner))
  {
    ResolveSimple(outer, inner);
    PathTextSnoc(Resolve(outer), inner);
    CanonicalDirectory(outer);
  }

  // What everything inside a directory starts with, when the kernel prints it.
  lemma CanonicalDirectory(path: string)
    ensures DirectoryOf(Canonical(path)) == PathText(Resolve(path)) + "/"
  {
    var names := Resolve(path);
    ResolvedIsSimple(path);
    if names != [] {
      var last := names[|names| - 1];
      assert last in names && last != "";
      assert PathText(names)[|PathText(names)| - 1] == last[|last| - 1];
    }
  }

  // ---------------------------------------------------------------- names that escape

  lemma {:induction false} PlannedAmong(prefix: string, volumes: seq<Volume>, demand: map<string, bool>,
                                      modes: map<string, bool>, v: Volume)
    requires v in volumes && v.emptyDirMedium.Some? && v.persistentDisk.None?
    ensures Landed(TmpfsMount(prefix, v.name)) in PlannedMounts(prefix, volumes, demand, modes)
  {
    if volumes[0] != v {
      PlannedAmong(prefix, volumes[1..], demand, modes, v);
    }
  }

  // A tmpfs volume whose name leads out of the managed directory leaves a mount there that
  // no later run of any declaration takes away, and a second run of its own declaration
  // never ends like the first.
  lemma EscapingVolumePilesUp(origin: World, a: Agent, auth: string, spec: ContainerSpec, suffix1: string,
                              suffix2: string, name: string)
    requires WalksMaps(a.oracle)
    requires UniqueIds(origin.containers) && OnlyManaged(a.prefix, origin.mounts) == []
    requires MemoryVolume(name) in spec.volumes && !HasPrefix(TmpfsLanding(a.prefix, name), a.prefix)
    requires RunContainer(a, [], auth, spec, suffix1).outcome.Ok?
    requires var h := RunContainer(a, [], auth, spec, suffix1).history;
      var run := RunContainer(a, h, auth, spec, suffix2);
      Faithful(origin, run.history) && Obliging(origin, run.history, |h|)
    ensures !SecondRunConverges(origin, a, auth, spec, suffix1, suffix2)
    ensures Landed(TmpfsMount(a.prefix, name)) in Strays(a.prefix, RunContainer(a, [], auth, spec, suffix1).history)
  {
    var h, m := RunContainer(a, [], auth, spec, suffix1).history, Landed(TmpfsMount(a.prefix, name));
    SecondRunConvergesIff(origin, a, auth, spec, suffix1, suffix2);
    PlannedAmong(a.prefix, spec.volumes, DemandOf(spec), DiskModes(a.disks).value, MemoryVolume(name));
    RunGrows(a, h, auth, spec, suffix2);
    FaithfulBefore(origin, h, RunContainer(a, h, auth, spec, suffix2).history);
    FirstRunWasReady(origin, a, [], auth, spec, suffix1);
    RunIsDisciplined(a, [], auth, spec, suffix1);
    ForeignMountsKept(origin, a.prefix, h);
    StrayAmongAdded(a.prefix, origin.mounts, PreparationMounts(a, spec), Strays(a.prefix, h), m);
  }

  lemma StrayAmongAdded(prefix: string, foreign: seq<Mount>, added: seq<Mount>, strays: seq<Mount>, m: Mount)
    requires OnlyManaged(prefix, foreign) == [] && m in added && !Managed(prefix, m)
    requires Unmanaged(prefix, foreign + added) == Unmanaged(prefix, foreign) + strays
    ensures m in strays
  {
    TwoSides(prefix, added);
    UnmanagedConcat(prefix, foreign, added);
    var n, all := |Unmanaged(prefix, foreign)|, Unmanaged(prefix, foreign + added);
    assert Unmanaged(prefix, added) == all[n..] && strays == all[n..];
  }
}
