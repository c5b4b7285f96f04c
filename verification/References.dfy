// The two consistency checks over a declaration and the demand for write access.
module References {
  import opened Wrappers
  import opened ApiTypes
  import opened Host

  // All volume mounts of all containers, in declaration order.
  function AllMounts(containers: seq<Container>): seq<VolumeMount> {
    if containers == [] then [] else containers[0].volumeMounts + AllMounts(containers[1..])
  }

  lemma {:induction false} AllMountsSnoc(containers: seq<Container>, c: Container)
    ensures AllMounts(containers + [c]) == AllMounts(containers) + c.volumeMounts
  {
    if containers == [] {
      assert [c][1..] == [];
    } else {
      assert (containers + [c])[1..] == containers[1..] + [c];
      AllMountsSnoc(containers[1..], c);
    }
  }

  function DeclaredNames(volumes: seq<Volume>): set<string> {
    set v | v in volumes :: v.name
  }

  function MountCount(mounts: seq<VolumeMount>, name: string): nat {
    if mounts == [] then 0
    else MountCount(mounts[..|mounts| - 1], name) + if mounts[|mounts| - 1].name == name then 1 else 0
  }

  ghost predicate Mounts(mounts: seq<VolumeMount>, name: string) {
    exists m :: m in mounts && m.name == name
  }

  lemma {:induction false} MountCountPositive(mounts: seq<VolumeMount>, name: string)
    ensures MountCount(mounts, name) > 0 <==> Mounts(mounts, name)
  {
    if mounts != [] {
      var init, last := mounts[..|mounts| - 1], mounts[|mounts| - 1];
      MountCountPositive(init, name);
      assert mounts == init + [last];
      if Mounts(init, name) {
        var m :| m in init && m.name == name;
        assert m in mounts;
      }
      if last.name == name {
        assert last in mounts;
      }
    }
  }

  // Some mount of the volume in some container is not read-only.
  predicate WantsReadWrite(mounts: seq<VolumeMount>, name: string) {
    exists m :: m in mounts && m.name == name && !m.readOnly
  }

  // The first mount, in declaration order, that names no declared volume.
  function FirstUndeclared(mounts: seq<VolumeMount>, declared: set<string>): Option<VolumeMount> {
    if mounts == [] then None
    else if mounts[0].name !in declared then Some(mounts[0])
    else FirstUndeclared(mounts[1..], declared)
  }

  function CheckDeclared(containers: seq<Container>, index: nat, declared: set<string>): Option<Error> {
    if containers == [] then None
    else match FirstUndeclared(containers[0].volumeMounts, declared)
      case Some(m) => Some(UndeclaredVolume(m.name, containers[0].name, index))
      case None => CheckDeclared(containers[1..], index + 1, declared)
  }

  function FirstUnreferenced(walk: seq<string>, mounts: seq<VolumeMount>): Option<string> {
    if walk == [] then None
    else if MountCount(mounts, walk[0]) == 0 then Some(walk[0])
    else FirstUnreferenced(walk[1..], mounts)
  }

  // Demand of every declared volume, or the first inconsistency konlet runs into. Which
  // of several unreferenced volumes that is depends on the walk over Go's map.
  function CheckReferences(spec: ContainerSpec, walk: seq<string>): Result<map<string, bool>, Error> {
    var declared := DeclaredNames(spec.volumes);
    var mounts := AllMounts(spec.containers);
    match CheckDeclared(spec.containers, 0, declared)
    case Some(e) => Err(e)
    case None =>
      match FirstUnreferenced(walk, mounts)
      case Some(name) => Err(UnreferencedVolume(name))
      case None => Ok(map n | n in declared :: WantsReadWrite(mounts, n))
  }

  // The two rules themselves.
  ghost predicate Consistent(spec: ContainerSpec) {
    && (forall m :: m in AllMounts(spec.containers) ==> m.name in DeclaredNames(spec.volumes))
    && (forall v :: v in spec.volumes ==> Mounts(AllMounts(spec.containers), v.name))
  }

  // What the checks find out: the volumes some mount wants to write to.
  function DemandOf(spec: ContainerSpec): map<string, bool> {
    map n | n in DeclaredNames(spec.volumes) :: WantsReadWrite(AllMounts(spec.containers), n)
  }

  lemma {:induction false} FirstUndeclaredNone(mounts: seq<VolumeMount>, declared: set<string>)
    ensures FirstUndeclared(mounts, declared) == None <==> forall m :: m in mounts ==> m.name in declared
  {
    if mounts != [] {
      FirstUndeclaredNone(mounts[1..], declared);
      assert mounts == [mounts[0]] + mounts[1..];
    }
  }

  lemma {:induction false} CheckDeclaredNone(containers: seq<Container>, index: nat, declared: set<string>)
    ensures CheckDeclared(containers, index, declared) == None <==>
      forall m :: m in AllMounts(containers) ==> m.name in declared
  {
    if containers != [] {
      FirstUndeclaredNone(containers[0].volumeMounts, declared);
      CheckDeclaredNone(containers[1..], index + 1, declared);
    }
  }

  // What the error about an undeclared volume names: the first container, by name and
  // place, with a mount of no declared volume, and the volume of its first such mount.
  lemma {:induction false} UndeclaredIsFirst(containers: seq<Container>, index: nat, declared: set<string>)
    returns (i: nat, j: nat)
    requires CheckDeclared(containers, index, declared).Some?
    ensures i < |containers| && j < |containers[i].volumeMounts|
    ensures var m := containers[i].volumeMounts[j];
      && m.name !in declared
      && CheckDeclared(containers, index, declared) == Some(UndeclaredVolume(m.name, containers[i].name, index + i))
    ensures forall l :: 0 <= l < j ==> containers[i].volumeMounts[l].name in declared
    ensures forall k :: 0 <= k < i ==> forall m :: m in containers[k].volumeMounts ==> m.name in declared
    decreases |containers|
  {
    FirstUndeclaredNone(containers[0].volumeMounts, declared);
    if FirstUndeclared(containers[0].volumeMounts, declared).Some? {
      i := 0;
      j := FirstUndeclaredAt(containers[0].volumeMounts, declared);
    } else {
      i, j := UndeclaredIsFirst(containers[1..], index + 1, declared);
      assert forall k :: 0 < k <= i ==> containers[k] == containers[1..][k - 1];
      i := i + 1;
    }
  }

  lemma {:induction false} FirstUndeclaredAt(mounts: seq<VolumeMount>, declared: set<string>) returns (j: nat)
    requires FirstUndeclared(mounts, declared).Some?
    ensures j < |mounts| && FirstUndeclared(mounts, declared) == Some(mounts[j]) && mounts[j].name !in declared
    ensures forall l :: 0 <= l < j ==> mounts[l].name in declared
  {
    if mounts[0].name !in declared {
      j := 0;
    } else {
      j := FirstUndeclaredAt(mounts[1..], declared);
      assert forall l :: 0 < l <= j ==> mounts[l] == mounts[1..][l - 1];
      j := j + 1;
    }
  }

  lemma {:induction false} FirstUnreferencedNone(walk: seq<string>, mounts: seq<VolumeMount>)
    ensures FirstUnreferenced(walk, mounts) == None <==> forall n :: n in walk ==> Mounts(mounts, n)
  {
    if walk != [] {
      MountCountPositive(mounts, walk[0]);
      FirstUnreferencedNone(walk[1..], mounts);
      assert walk == [walk[0]] + walk[1..];
    }
  }

  // Whatever order Go walks its map in, the check passes exactly for consistent
  // declarations, and then the demand of every volume is exact.
  lemma CheckReferencesExact(spec: ContainerSpec, walk: seq<string>)
    requires Enumerates(walk, DeclaredNames(spec.volumes))
    ensures CheckReferences(spec, walk).Ok? <==> Consistent(spec)
    ensures CheckReferences(spec, walk).Ok? ==>
      && var demand := CheckReferences(spec, walk).value;
      && demand.Keys == DeclaredNames(spec.volumes)
      && forall n :: n in demand ==>
        (demand[n] <==> exists c, m :: c in spec.containers && m in c.volumeMounts && m.name == n && !m.readOnly)
  {
    var declared, mounts := DeclaredNames(spec.volumes), AllMounts(spec.containers);
    CheckDeclaredNone(spec.containers, 0, declared);
    FirstUnreferencedNone(walk, mounts);
    assert forall v :: v in spec.volumes ==> v.name in declared;
    forall m ensures m in mounts <==> exists c :: c in spec.containers && m in c.volumeMounts {
      InAllMounts(spec.containers, m);
    }
  }

  lemma {:induction false} InAllMounts(containers: seq<Container>, m: VolumeMount)
    ensures m in AllMounts(containers) <==> exists c :: c in containers && m in c.volumeMounts
  {
    if containers != [] {
      InAllMounts(containers[1..], m);
      assert containers == [containers[0]] + containers[1..];
      if m in containers[0].volumeMounts {
        assert containers[0] in containers;
      }
      if c :| c in containers[1..] && m in c.volumeMounts {
        assert c in containers;
      }
    }
  }

  // The two maps after the given mounts have been looked at.
  ghost predicate Tallied(counts: map<string, nat>, demand: map<string, bool>, declared: set<string>,
                          mounts: seq<VolumeMount>)
  {
    && counts.Keys == demand.Keys == declared
    && forall n :: n in declared ==>
      counts[n] == MountCount(mounts, n) && demand[n] == WantsReadWrite(mounts, n)
  }

  lemma TallyStep(counts: map<string, nat>, demand: map<string, bool>, declared: set<string>,
                  mounts: seq<VolumeMount>, m: VolumeMount)
    requires Tallied(counts, demand, declared, mounts) && m.name in declared
    ensures Tallied(counts[m.name := counts[m.name] + 1], demand[m.name := demand[m.name] || !m.readOnly],
                    declared, mounts + [m])
  {
    assert (mounts + [m])[..|mounts|] == mounts;
    forall n | n in declared
      ensures WantsReadWrite(mounts + [m], n) <==> WantsReadWrite(mounts, n) || (m.name == n && !m.readOnly)
    {
      if WantsReadWrite(mounts, n) {
        var x :| x in mounts && x.name == n && !x.readOnly;
        assert x in mounts + [m];
      }
      if m.name == n && !m.readOnly {
        assert m in mounts + [m];
      }
    }
  }

  // The loop over the mounts of one container.
  method TallyContainer(c: Container, index: nat, counts0: map<string, nat>, demand0: map<string, bool>,
                        ghost declared: set<string>, ghost before: seq<VolumeMount>)
    returns (counts: map<string, nat>, demand: map<string, bool>, error: Option<Error>)
    requires Tallied(counts0, demand0, declared, before)
    ensures error == match FirstUndeclared(c.volumeMounts, declared)
                     case Some(m) => Some(UndeclaredVolume(m.name, c.name, index))
                     case None => None
    ensures error == None ==> Tallied(counts, demand, declared, before + c.volumeMounts)
  {
    counts, demand := counts0, demand0;
    ghost var seen := before;
    for j := 0 to |c.volumeMounts|
      invariant seen == before + c.volumeMounts[..j]
      invariant Tallied(counts, demand, declared, seen)
      invariant FirstUndeclared(c.volumeMounts, declared) == FirstUndeclared(c.volumeMounts[j..], declared)
    {
      var m := c.volumeMounts[j];
      assert c.volumeMounts[j..][0] == m && c.volumeMounts[j..][1..] == c.volumeMounts[j + 1..];
      if m.name !in counts {
        return counts, demand, Some(UndeclaredVolume(m.name, c.name, index));
      }
      TallyStep(counts, demand, declared, seen, m);
      counts, demand := counts[m.name := counts[m.name] + 1], demand[m.name := demand[m.name] || !m.readOnly];
      seen := seen + [m];
    }
    assert c.volumeMounts[..|c.volumeMounts|] == c.volumeMounts;
    error := None;
  }

  // The loop that gives every declared volume an entry in both maps.
  method ZeroTally(volumes: seq<Volume>) returns (counts: map<string, nat>, demand: map<string, bool>)
    ensures Tallied(counts, demand, DeclaredNames(volumes), [])
  {
    counts, demand := map[], map[];
    for i := 0 to |volumes|
      invariant counts.Keys == demand.Keys == set v | v in volumes[..i] :: v.name
      invariant forall n :: n in counts ==> counts[n] == 0 && !demand[n]
    {
      assert volumes[..i + 1] == volumes[..i] + [volumes[i]];
      counts, demand := counts[volumes[i].name := 0], demand[volumes[i].name := false];
    }
    assert volumes[..|volumes|] == volumes;
  }

  // The loop over the containers.
  method TallyAll(containers: seq<Container>, counts0: map<string, nat>, demand0: map<string, bool>,
                  ghost declared: set<string>)
    returns (counts: map<string, nat>, demand: map<string, bool>, error: Option<Error>)
    requires Tallied(counts0, demand0, declared, [])
    ensures error == CheckDeclared(containers, 0, declared)
    ensures error == None ==> Tallied(counts, demand, declared, AllMounts(containers))
  {
    counts, demand := counts0, demand0;
    for i := 0 to |containers|
      invariant Tallied(counts, demand, declared, AllMounts(containers[..i]))
      invariant CheckDeclared(containers, 0, declared) == CheckDeclared(containers[i..], i, declared)
    {
      var c := containers[i];
      ghost var before := containers[..i];
      assert containers[i..][0] == c && containers[i..][1..] == containers[i + 1..];
      counts, demand, error := TallyContainer(c, i, counts, demand, declared, AllMounts(before));
      if error.Some? {
        return;
      }
      assert containers[..i + 1] == before + [c];
      AllMountsSnoc(before, c);
    }
    assert containers[..|containers|] == containers;
    error := None;
  }

  // The checks as the Go code runs them: two maps filled over the volumes, updated over
  // the mounts, and a walk over one of them.
  method CheckReferencesInPlace(spec: ContainerSpec, walk: seq<string>)
    returns (r: Result<map<string, bool>, Error>)
    requires Enumerates(walk, DeclaredNames(spec.volumes))
    ensures r == CheckReferences(spec, walk)
  {
    ghost var declared, mounts := DeclaredNames(spec.volumes), AllMounts(spec.containers);
    var counts, demand := ZeroTally(spec.volumes);
    var error;
    counts, demand, error := TallyAll(spec.containers, counts, demand, declared);
    if error.Some? {
      return Err(error.value);
    }
    r := ReportUnreferenced(walk, counts, demand, mounts);
    assert demand == map n | n in declared :: WantsReadWrite(mounts, n);
  }

  // The walk over the reference counts.
  method ReportUnreferenced(walk: seq<string>, counts: map<string, nat>, demand: map<string, bool>,
                            ghost mounts: seq<VolumeMount>)
    returns (r: Result<map<string, bool>, Error>)
    requires forall n :: n in walk ==> n in counts && counts[n] == MountCount(mounts, n)
    ensures r == match FirstUnreferenced(walk, mounts)
                 case Some(name) => Err(UnreferencedVolume(name))
                 case None => Ok(demand)
  {
    for k := 0 to |walk|
      invariant FirstUnreferenced(walk, mounts) == FirstUnreferenced(walk[k..], mounts)
    {
      assert walk[k] in walk;
      assert walk[k..][0] == walk[k] && walk[k..][1..] == walk[k + 1..];
      if counts[walk[k]] == 0 {
        return Err(UnreferencedVolume(walk[k]));
      }
    }
    r := Ok(demand);
  }
}
