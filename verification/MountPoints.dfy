// Where the mounts of a declaration land, and that a history mounts nowhere else.
module MountPoints {
  import opened Text
  import opened Paths
  import opened MountTable
  import opened ApiTypes
  import opened Host
  import opened References
  import opened VolumeProtocol
  import opened RunProtocol
  import opened Discipline
  import opened DiskTheorems

  // ---------------------------------------------------------------- where one mount lands

  // The managed directory as the kernel prints it, but for the root, which is empty.
  function Stem(prefix: string): string {
    PathText(Resolve(prefix))
  }

  predicate Family(family: string) {
    family == TMPFS || family == DISK_FAMILY
  }

  lemma ResolveMountPath(prefix: string, family: string, name: string)
    requires Family(family)
    ensures Resolve(MountPath(prefix, family, name)) == Walk(Resolve(prefix) + [family + "s"], Split(name, '/'))
  {
    assert MountPath(prefix, family, name) == prefix + "/" + (family + "s") + "/" + name;
    ResolveSimple(prefix, family + "s");
    ResolveOn(prefix + "/" + (family + "s"), name);
  }

  // A simple name lands where its text says, under the managed directory as printed.
  lemma SimpleLanding(prefix: string, family: string, name: string)
    requires Family(family) && SimpleName(name)
    ensures Resolve(MountPath(prefix, family, name)) == Resolve(prefix) + [family + "s", name]
    ensures Canonical(MountPath(prefix, family, name)) == MountPath(Stem(prefix), family, name)
  {
    ResolveMountPath(prefix, family, name);
    SplitSingle(name, '/');
    assert [name][1..] == [];
    assert Resolve(prefix) + [family + "s", name] == Resolve(prefix) + [family + "s"] + [name];
    MountPathText(Resolve(prefix), family, name);
  }

  lemma MountPathText(names: seq<string>, family: string, name: string)
    ensures PathText(names + [family + "s"] + [name]) == MountPath(PathText(names), family, name)
  {
    PathTextSnoc(names, family + "s");
    PathTextSnoc(names + [family + "s"], name);
    var stem := PathText(names);
    assert stem + "/" + (family + "s") + "/" + name == stem + "/" + family + "s/" + name;
  }

  // Of the names without slashes, exactly the empty one, "." and ".." do not land there.
  lemma SlashFreeLanding(prefix: string, family: string, name: string)
    requires Family(family) && '/' !in name
    ensures Resolve(MountPath(prefix, family, name)) == Resolve(prefix) + [family + "s", name] <==> SimpleName(name)
  {
    if SimpleName(name) {
      SimpleLanding(prefix, family, name);
    } else {
      ResolveMountPath(prefix, family, name);
      SplitSingle(name, '/');
      assert [name][1..] == [];
    }
  }

  // ".." lands on the managed directory itself, above the mounts of all other names.
  lemma DotDotLandsAbove(prefix: string, family: string)
    requires Family(family)
    ensures Canonical(MountPath(prefix, family, "..")) == Canonical(prefix)
  {
    ResolveMountPath(prefix, family, "..");
    SplitSingle("..", '/');
    assert [".."][1..] == [];
    assert Parent(Resolve(prefix) + [family + "s"]) == Resolve(prefix);
  }

  // "." lands on the directory of its family, above the other mounts of that family.
  lemma DotLandsAbove(prefix: string, family: string)
    requires Family(family)
    ensures Canonical(MountPath(prefix, family, ".")) == Stem(prefix) + "/" + (family + "s")
  {
    ResolveMountPath(prefix, family, ".");
    SplitSingle(".", '/');
    assert ["."][1..] == [];
    PathTextSnoc(Resolve(prefix), family + "s");
  }

  function Up(n: nat): string {
    if n == 0 then "" else ".." + "/" + Up(n - 1)
  }

  lemma {:induction false} WalkUp(from: seq<string>, n: nat, rest: string)
    requires n <= |from|
    ensures Walk(from, Split(Up(n) + rest, '/')) == Walk(from[..|from| - n], Split(rest, '/'))
    decreases n
  {
    if n == 0 {
      assert from[..|from|] == from && Up(0) + rest == rest;
    } else {
      var tail := Up(n - 1) + rest;
      assert Up(n) + rest == ".." + ['/'] + tail;
      SplitAtFirst("..", tail, '/');
      assert ([".."] + Split(tail, '/'))[1..] == Split(tail, '/');
      WalkUp(Parent(from), n - 1, rest);
      assert Parent(from)[..|Parent(from)| - (n - 1)] == from[..|from| - n];
    }
  }

  // With enough ".." a name reaches any place: for the default directory
  // /mnt/disks/gce-containers-mounts, "../../../../home" lands on /home.
  lemma EscapingName(prefix: string, family: string, target: string)
    requires Family(family)
    ensures Canonical(MountPath(prefix, family, Up(|Resolve(prefix)| + 1) + target)) == Canonical(target)
  {
    var from := Resolve(prefix) + [family + "s"];
    ResolveMountPath(prefix, family, Up(|from|) + target);
    WalkUp(from, |from|, target);
    assert from[..0] == [];
  }

  // ---------------------------------------------------------------- inside the managed directory

  lemma ExtensionIsUnder(names: seq<string>, rest: seq<string>)
    ensures Under(PathText(names), PathText(names + rest))
  {
    PathTextConcat(names, rest);
    if rest == [] {
      assert names + rest == names;
    } else {
      PathTextConcat([rest[0]], rest[1..]);
      PathTextSnoc([], rest[0]);
      assert [rest[0]] + rest[1..] == rest && [] + [rest[0]] == [rest[0]];
      assert PathText(rest)[0] == '/';
    }
  }

  lemma UnderIsExtension(names: seq<string>, more: seq<string>)
    requires AllSimpleNames(names) && AllSimpleNames(more) && Under(PathText(names), PathText(more))
    ensures names <= more
  {
    if PathText(names) == PathText(more) {
      ResolvePathText(names);
      ResolvePathText(more);
    } else {
      var rest := PathText(more)[|PathText(names)| + 1..];
      assert PathText(more) == PathText(names) + ['/'] + rest;
      SplitAtSeparator(PathText(names), rest, '/');
      SplitPathText(names);
      SplitPathText(more);
      BehindTheRoot(names, more, Split(rest, '/'));
    }
  }

  lemma BehindTheRoot(names: seq<string>, more: seq<string>, rest: seq<string>)
    requires [""] + more == [""] + names + rest
    ensures names <= more
  {
    assert more == ([""] + more)[1..] && ([""] + names + rest)[1..] == names + rest;
  }

  // The prefix is written as the kernel prints it.
  predicate PrintedPrefix(prefix: string) {
    prefix == Stem(prefix)
  }

  // A path lands inside such a directory exactly if its names begin with the directory's.
  lemma InsideIff(prefix: string, path: string)
    requires PrintedPrefix(prefix)
    ensures Under(prefix, Canonical(path)) <==> Resolve(prefix) <= Resolve(path)
  {
    var names, more := Resolve(prefix), Resolve(path);
    ResolvedIsSimple(prefix);
    ResolvedIsSimple(path);
    if names <= more {
      assert more == names + more[|names|..];
      ExtensionIsUnder(names, more[|names|..]);
      assert more == [] ==> prefix == "" && HasPrefix("/", prefix + "/");
    }
    if Under(prefix, Canonical(path)) {
      if more == [] {
        RootResolves();
      } else {
        UnderIsExtension(names, more);
      }
    }
  }

  lemma {:induction false} WalkDown(from: seq<string>, steps: seq<string>)
    requires ".." !in steps
    ensures from <= Walk(from, steps)
    decreases |steps|
  {
    if steps != [] {
      var next := if steps[0] == "" || steps[0] == "." then from else from + [steps[0]];
      assert steps[0] in steps;
      WalkDown(next, steps[1..]);
    }
  }

  // Names without a ".." between their slashes stay inside.
  lemma DownwardsIsInside(prefix: string, family: string, name: string)
    requires PrintedPrefix(prefix) && Family(family) && ".." !in Split(name, '/')
    ensures Under(prefix, Canonical(MountPath(prefix, family, name)))
  {
    ResolveMountPath(prefix, family, name);
    WalkDown(Resolve(prefix) + [family + "s"], Split(name, '/'));
    InsideIff(prefix, MountPath(prefix, family, name));
  }

  // ---------------------------------------------------------------- recognising one's own mounts

  // The prefix is written as the kernel prints it, up to a slash at the end.
  predicate PlainPrefix(prefix: string) {
    prefix == Stem(prefix) || prefix == Stem(prefix) + "/"
  }

  ghost predicate RecognisesOwn(prefix: string) {
    forall family, name :: Family(family) && SimpleName(name) ==>
      HasPrefix(Canonical(MountPath(prefix, family, name)), prefix)
  }

  lemma PlainPrefixRecognises(prefix: string, family: string, name: string)
    requires PlainPrefix(prefix) && Family(family) && SimpleName(name)
    ensures HasPrefix(Canonical(MountPath(prefix, family, name)), prefix)
  {
    SimpleLanding(prefix, family, name);
    var stem := Stem(prefix);
    assert MountPath(stem, family, name) == stem + "/" + (family + "s/" + name);
  }

  lemma BehindTheStem(names: seq<string>, rest: string)
    requires AllSimpleNames(names) && rest != "" && rest <= "tmpfss/a"
    ensures Resolve(PathText(names) + "/" + rest) != names
  {
    var stem := PathText(names);
    ResolvePathText(names);
    if |rest| <= 6 {
      assert rest <= "tmpfss" && rest[0] == 't';
      ResolveSimple(stem, rest);
    } else if |rest| == 7 {
      assert rest == "tmpfss" + ['/'] + "";
      ResolveOn(stem, rest);
      SplitAtFirst("tmpfss", "", '/');
      assert ["tmpfss", ""][1..] == [""] && [""][1..] == [];
    } else {
      assert stem + "/" + rest == stem + "/" + "tmpfss" + "/" + "a";
      ResolveSimple(stem, "tmpfss");
      ResolveSimple(stem + "/" + "tmpfss", "a");
    }
  }

  lemma RecognisedPrefixIsPlain(prefix: string)
    requires HasPrefix(MountPath(Stem(prefix), TMPFS, "a"), prefix)
    ensures PlainPrefix(prefix)
  {
    var stem := Stem(prefix);
    assert MountPath(stem, TMPFS, "a") == stem + "/" + "tmpfss/a";
    PathTextIsAbsolute(Resolve(prefix));
    if |prefix| <= |stem| {
      ShortestText(prefix);
    } else {
      var rest := prefix[|stem| + 1..];
      assert prefix == stem + "/" + rest;
      ResolvedIsSimple(prefix);
      if rest != "" {
        BehindTheStem(Resolve(prefix), rest);
      }
    }
  }

  // konlet recognises all its own mounts of simple names exactly if the prefix is plain.
  lemma OwnMountsRecognisedIff(prefix: string)
    ensures RecognisesOwn(prefix) <==> PlainPrefix(prefix)
  {
    if PlainPrefix(prefix) {
      forall family, name | Family(family) && SimpleName(name)
        ensures HasPrefix(Canonical(MountPath(prefix, family, name)), prefix)
      {
        PlainPrefixRecognises(prefix, family, name);
      }
    }
    if RecognisesOwn(prefix) {
      assert Family(TMPFS) && SimpleName("a");
      SimpleLanding(prefix, TMPFS, "a");
      RecognisedPrefixIsPlain(prefix);
    }
  }

  // ---------------------------------------------------------------- mount points of a history

  // The mount point of some volume, before it is resolved.
  ghost predicate Declares(prefix: string, volumes: seq<Volume>, path: string) {
    exists v :: v in volumes && VolumePoint(prefix, v, path)
  }

  predicate VolumePoint(prefix: string, v: Volume, path: string) {
    || (v.emptyDirMedium.Some? && path == MountPath(prefix, TMPFS, v.name))
    || (v.persistentDisk.Some? && path == MountPath(prefix, DISK_FAMILY, v.persistentDisk.value.pdName))
  }

  // From the given event on, mounts are asked for at declared mount points only.
  ghost predicate MountsDeclared(prefix: string, volumes: seq<Volume>, from: nat, h: History) {
    forall i :: from <= i < |h| && h[i].Ran? && h[i].command.MountEntry? ==>
      Declares(prefix, volumes, h[i].command.mount.mountPoint)
  }

  lemma EmptyDirMountsDeclared(a: Agent, h: History, v: Volume)
    requires v.emptyDirMedium.Some?
    ensures var end := ProcessEmptyDir(a, h, v.emptyDirMedium.value, v.name).history;
      h <= end && MountsDeclared(a.prefix, [v], |h|, end)
  {
    var m := TmpfsMount(a.prefix, v.name);
    var end := MountAt(a.oracle, h, m).history;
    assert v in [v] && Declares(a.prefix, [v], m.mountPoint);
    MountAtExtends(a.oracle, h, m);
    forall i | |h| <= i < |end| && end[i].Ran? && end[i].command.MountEntry?
      ensures end[i].command == MountEntry(m)
    {
      MountAtMountsLast(a.oracle, h, m, i);
    }
  }

  lemma DiskMountsDeclared(a: Agent, h: History, v: Volume, wants: bool, modes: map<string, bool>)
    requires v.persistentDisk.Some?
    ensures MountsDeclared(a.prefix, [v], |h|, ProcessDisk(a, h, v.persistentDisk.value, wants, modes).history)
  {
    var disk := v.persistentDisk.value;
    var end := ProcessDisk(a, h, disk, wants, modes).history;
    assert v in [v] && Declares(a.prefix, [v], DiskMount(a.prefix, disk, !wants).mountPoint);
    forall i | |h| <= i < |end| && end[i].Ran? && end[i].command.MountEntry?
      ensures end[i].command.mount == DiskMount(a.prefix, disk, !wants)
    {
      DiskMountIsVetted(a, h, disk, wants, modes, i);
    }
  }

  lemma VolumeMountsDeclared(a: Agent, h: History, v: Volume, wants: bool, modes: map<string, bool>)
    ensures MountsDeclared(a.prefix, [v], |h|, ProcessVolume(a, h, v, wants, modes).history)
  {
    var h1 := h;
    if v.emptyDirMedium.Some? {
      EmptyDirMountsDeclared(a, h, v);
      h1 := ProcessEmptyDir(a, h, v.emptyDirMedium.value, v.name).history;
    }
    if v.persistentDisk.Some? {
      ProcessDiskWork(a, h1, v.persistentDisk.value, wants, modes);
      DiskMountsDeclared(a, h1, v, wants, modes);
    }
  }

  lemma DeclaresMore(prefix: string, volumes: seq<Volume>, more: seq<Volume>, from: nat, h: History)
    requires MountsDeclared(prefix, volumes, from, h) && forall v :: v in volumes ==> v in more
    ensures MountsDeclared(prefix, more, from, h)
  {
  }

  lemma {:induction false} VolumesMountDeclared(a: Agent, h: History, volumes: seq<Volume>, demand: map<string, bool>,
                                                modes: map<string, bool>, paths: map<string, HostPathAndMode>)
    ensures MountsDeclared(a.prefix, volumes, |h|, ProcessVolumes(a, h, volumes, demand, modes, paths).history)
    decreases |volumes|
  {
    if volumes != [] && volumes[0].name in demand {
      var v := volumes[0];
      var s := ProcessVolume(a, h, v, demand[v.name], modes);
      VolumeMountsDeclared(a, h, v, demand[v.name], modes);
      DeclaresMore(a.prefix, [v], volumes, |h|, s.history);
      if s.outcome.Ok? {
        var next := paths[v.name := s.outcome.value];
        VolumesMountDeclared(a, s.history, volumes[1..], demand, modes, next);
        ProcessVolumesWork(a, s.history, volumes[1..], demand, modes, next);
        DeclaresMore(a.prefix, volumes[1..], volumes, |s.history|,
                     ProcessVolumes(a, s.history, volumes[1..], demand, modes, next).history);
      }
    }
  }

  lemma PreparationMountsDeclared(a: Agent, h: History, spec: ContainerSpec)
    ensures MountsDeclared(a.prefix, spec.volumes, |h|, PrepareVolumes(a, h, spec).history)
  {
    var demand, modes := CheckReferences(spec, a.oracle.order(h, DeclaredNames(spec.volumes))), DiskModes(a.disks);
    if demand.Ok? && modes.Ok? {
      VolumesMountDeclared(a, h, spec.volumes, demand.value, modes.value, map[]);
    }
  }

  lemma RunMountsDeclared(a: Agent, h: History, auth: string, spec: ContainerSpec, suffix: string)
    ensures MountsDeclared(a.prefix, spec.volumes, |h|, RunContainer(a, h, auth, spec, suffix).history)
  {
    var end := RunContainer(a, h, auth, spec, suffix).history;
    forall i | |h| <= i < |end| && end[i].Ran? && end[i].command.MountEntry?
      ensures Declares(a.prefix, spec.volumes, end[i].command.mount.mountPoint)
    {
      RunPreparation(a, h, auth, spec, suffix, i);
      PreparationMountsDeclared(a, PreparationStart(a, h, auth, spec), spec);
    }
  }

  // The volumes of all the declarations.
  function VolumesOf(attempts: seq<Attempt>): seq<Volume> {
    if attempts == [] then [] else VolumesOf(attempts[..|attempts| - 1]) + attempts[|attempts| - 1].spec.volumes
  }

  // Whatever the host answers, any runs of any declarations, complete or cut off anywhere,
  // ask for mounts only at mount points their declarations name.
  lemma {:induction false} AttemptsMountDeclared(o: Oracle, prefix: string, attempts: seq<Attempt>)
    ensures MountsDeclared(prefix, VolumesOf(attempts), 0, Attempts(o, prefix, attempts))
  {
    if attempts != [] {
      var init, t := attempts[..|attempts| - 1], attempts[|attempts| - 1];
      var h, all := Attempts(o, prefix, init), VolumesOf(attempts);
      var end := RunContainer(Agent(o, prefix, t.disks), h, t.auth, t.spec, t.suffix).history;
      AttemptsMountDeclared(o, prefix, init);
      DeclaresMore(prefix, VolumesOf(init), all, 0, h);
      RunMountsDeclared(Agent(o, prefix, t.disks), h, t.auth, t.spec, t.suffix);
      DeclaresMore(prefix, t.spec.volumes, all, |h|, end);
      RunGrows(Agent(o, prefix, t.disks), h, t.auth, t.spec, t.suffix);
    }
  }

  // ---------------------------------------------------------------- where a declaration lands

  // All mounts of these volumes land where the code will recognise them.
  ghost predicate LandManaged(prefix: string, volumes: seq<Volume>) {
    forall path :: Declares(prefix, volumes, path) ==> HasPrefix(Canonical(path), prefix)
  }

  // All mounts of these volumes land in the managed directory.
  ghost predicate LandInside(prefix: string, volumes: seq<Volume>) {
    forall path :: Declares(prefix, volumes, path) ==> Under(prefix, Canonical(path))
  }

  // The names that end up in mount points lead one directory down.
  ghost predicate SimpleVolumes(volumes: seq<Volume>) {
    forall v :: v in volumes ==>
      && (v.emptyDirMedium.Some? ==> SimpleName(v.name))
      && (v.persistentDisk.Some? ==> SimpleName(v.persistentDisk.value.pdName))
  }

  lemma SimpleVolumesLand(prefix: string, volumes: seq<Volume>)
    requires PlainPrefix(prefix) && SimpleVolumes(volumes)
    ensures LandManaged(prefix, volumes)
    ensures PrintedPrefix(prefix) ==> LandInside(prefix, volumes)
  {
    forall path | Declares(prefix, volumes, path)
      ensures HasPrefix(Canonical(path), prefix) && (PrintedPrefix(prefix) ==> Under(prefix, Canonical(path)))
    {
      var v :| v in volumes && VolumePoint(prefix, v, path);
      var family, name := PointShape(prefix, v, path);
      PlainPrefixRecognises(prefix, family, name);
      SimpleLanding(prefix, family, name);
      MountPathUnder(Stem(prefix), family, name);
    }
  }

  lemma PointShape(prefix: string, v: Volume, path: string) returns (family: string, name: string)
    requires VolumePoint(prefix, v, path)
    ensures Family(family) && path == MountPath(prefix, family, name)
    ensures SimpleVolumes([v]) ==> SimpleName(name)
  {
    assert v in [v];
    if v.emptyDirMedium.Some? && path == MountPath(prefix, TMPFS, v.name) {
      family, name := TMPFS, v.name;
    } else {
      family, name := DISK_FAMILY, v.persistentDisk.value.pdName;
    }
  }
}
