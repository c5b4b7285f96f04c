// What a run does to the containers of a truthful Docker.
module Replacement {
  import opened Wrappers
  import opened Text
  import opened ApiTypes
  import opened Host
  import opened World
  import opened VolumeProtocol
  import opened Containers
  import opened RunProtocol
  import opened Discipline
  import opened DockerSafety
  import opened Readiness

  // ---------------------------------------------------------------- filters over containers

  function WithoutAll(containers: seq<DockerContainer>, ids: set<string>): seq<DockerContainer> {
    if containers == [] then []
    else if containers[0].id in ids then WithoutAll(containers[1..], ids)
    else [containers[0]] + WithoutAll(containers[1..], ids)
  }

  lemma {:induction false} WithoutAllUnion(containers: seq<DockerContainer>, id: string, ids: set<string>)
    ensures WithoutAll(WithoutContainer(containers, id), ids) == WithoutAll(containers, {id} + ids)
  {
    if containers != [] {
      WithoutAllUnion(containers[1..], id, ids);
      if containers[0].id != id {
        assert WithoutContainer(containers, id)[1..] == WithoutContainer(containers[1..], id);
      }
    }
  }

  lemma {:induction false} WithoutNone(containers: seq<DockerContainer>)
    ensures WithoutAll(containers, {}) == containers
  {
    if containers != [] {
      WithoutNone(containers[1..]);
    }
  }

  lemma {:induction false} WithoutAllIsOthers(containers: seq<DockerContainer>, ids: set<string>, rawName: string)
    requires forall c :: c in containers ==> (c.id in ids <==> Mine(c.names, {rawName}))
    ensures WithoutAll(containers, ids) == Others(containers, {rawName})
  {
    if containers != [] {
      assert containers[0] in containers;
      WithoutAllIsOthers(containers[1..], ids, rawName);
    }
  }

  lemma ListedId(containers: seq<DockerContainer>, rawName: string, id: string)
    requires id in StartedByKonlet(Listing(containers), rawName)
    ensures exists c :: c in containers && c.id == id && Mine(c.names, {rawName})
  {
    ListingIsComplete(containers);
    StartedByKonletExact(Listing(containers), rawName);
    var i :| i in Listing(containers) && i.id == id && Recognised(i.names, rawName);
    var c :| c in containers && i == ContainerInfo(c.id, c.names);
    RecognisedIsMine(c.names, rawName, {rawName});
  }

  // In a true listing with unique ids, an id is konlet's exactly when its container is.
  lemma ListedKeys(containers: seq<DockerContainer>, rawName: string, c: DockerContainer)
    requires UniqueIds(containers) && c in containers
    ensures c.id in StartedByKonlet(Listing(containers), rawName) <==> Mine(c.names, {rawName})
  {
    if c.id in StartedByKonlet(Listing(containers), rawName) {
      ListedId(containers, rawName, c.id);
      var c' :| c' in containers && c'.id == c.id && Mine(c'.names, {rawName});
      UniqueIdsIdentify(containers, c, c');
    } else {
      ListingIsComplete(containers);
      StartedByKonletExact(Listing(containers), rawName);
      RecognisedIsMine(c.names, rawName, {rawName});
      assert ContainerInfo(c.id, c.names) in Listing(containers);
    }
  }

  lemma OthersHaveNoKlt(containers: seq<DockerContainer>, declared: set<string>)
    ensures KltContainers(Others(containers, declared)) == []
  {
    OthersMembers(containers, declared);
    forall c | c in Others(containers, declared)
      ensures !IsKlt(c.names)
    {
      assert forall n :: n in c.names && HasPrefix(n, KLT_PATTERN) ==> Mine(c.names, declared);
    }
    KltContainersEmpty(Others(containers, declared));
  }

  // ---------------------------------------------------------------- the delete phase

  ghost predicate AllExist(w: World, ids: seq<string>) {
    forall id :: id in ids ==> ContainerExists(w, id)
  }

  ghost predicate Distinct(ids: seq<string>) {
    forall i, j :: 0 <= i < j < |ids| ==> ids[i] != ids[j]
  }

  lemma RemovalKeepsRest(w: World, id: string, ids: seq<string>)
    requires Distinct([id] + ids)
    ensures AllExist(w.(containers := WithoutContainer(w.containers, id)), ids) <==> AllExist(w, ids)
  {
    RemovalAddsNone(w.containers, id);
    assert forall x :: x in ids ==> x != id by {
      forall x | x in ids
        ensures x != id
      {
        var i :| 0 <= i < |ids| && ids[i] == x;
        assert ([id] + ids)[i + 1] == x && ([id] + ids)[0] == id;
      }
    }
    var w' := w.(containers := WithoutContainer(w.containers, id));
    forall x | x in ids
      ensures ContainerExists(w', x) <==> ContainerExists(w, x)
    {
      if ContainerExists(w, x) {
        var c :| c in w.containers && c.id == x;
        assert c in w'.containers;
      }
    }
  }

  lemma RemoveExact(origin: World, o: Oracle, h: History, id: string, from: nat)
    requires from <= |h| && Faithful(origin, After(o, h, ContainerRemove(id)))
    ensures var w := Now(origin, h);
      Exact(origin, h, Issue(o, h, ContainerRemove(id)), ContainerExists(w, id),
            w.(containers := WithoutContainer(w.containers, id)), from)
  {
    OneCommand(origin, o, h, ContainerRemove(id), from);
  }

  lemma {:induction false} RemoveAllExact(origin: World, o: Oracle, h: History, ids: seq<string>, from: nat)
    requires from <= |h| && Faithful(origin, RemoveAll(o, h, ids).history) && Distinct(ids)
    ensures var w := Now(origin, h);
      Exact(origin, h, RemoveAll(o, h, ids), AllExist(w, ids),
            w.(containers := WithoutAll(w.containers, set id | id in ids)), from)
    decreases |ids|
  {
    var w := Now(origin, h);
    if ids == [] {
      assert (set id | id in ids) == {};
      WithoutNone(w.containers);
    } else {
      var id, tail := ids[0], ids[1..];
      var rest := set x | x in tail;
      var s1 := Issue(o, h, ContainerRemove(id));
      var s2 := RemoveAll(o, s1.history, tail);
      assert ids == [id] + tail;
      assert (set x | x in ids) == {id} + rest;
      var w1 := w.(containers := WithoutContainer(w.containers, id));
      if s1.outcome.Ok? {
        RemoveAllGrows(o, s1.history, tail);
        FaithfulBefore(origin, s1.history, s2.history);
      }
      RemoveExact(origin, o, h, id, from);
      if s1.outcome.Ok? {
        RemoveAllExact(origin, o, s1.history, tail, from);
      }
      RemovalKeepsRest(w, id, tail);
      WithoutAllUnion(w.containers, id, rest);
      Chain(origin, h, s1, ContainerExists(w, id), w1,
            s2, AllExist(w1, tail), w1.(containers := WithoutAll(w1.containers, rest)), RemoveAll(o, h, ids), from);
    }
  }

  // Removing what a true listing shows as konlet's leaves the others.
  lemma RemovalsLeaveOthers(w: World, rawName: string, ids: seq<string>)
    requires UniqueIds(w.containers)
    requires Enumerates(ids, StartedByKonlet(Listing(w.containers), rawName).Keys)
    ensures AllExist(w, ids) && Distinct(ids)
    ensures WithoutAll(w.containers, set id | id in ids) == Others(w.containers, {rawName})
  {
    forall id | id in ids
      ensures ContainerExists(w, id)
    {
      ListedId(w.containers, rawName, id);
    }
    var removed := set id | id in ids;
    forall c | c in w.containers
      ensures c.id in removed <==> Mine(c.names, {rawName})
    {
      ListedKeys(w.containers, rawName, c);
    }
    WithoutAllIsOthers(w.containers, removed, rawName);
  }

  function List(o: Oracle, h: History): Step<seq<ContainerInfo>> {
    Step(h + [Listed(o.list(h))],
         match o.list(h)
         case Err(detail) => Err(CommandFailed(detail))
         case Ok(containers) => Ok(containers))
  }

  lemma ListExact(origin: World, o: Oracle, h: History, from: nat)
    requires from <= |h| && Faithful(origin, List(o, h).history)
    ensures var w := Now(origin, h);
      && Exact(origin, h, List(o, h), true, w, from)
      && (o.list(h).Ok? ==> o.list(h).value == Listing(w.containers))
  {
    var e := Listed(o.list(h));
    FaithfulSnoc(origin, h, e);
    NowSnoc(origin, h, e);
    ObligingSnoc(origin, h, e, from);
  }

  // On a truthful Docker the delete phase succeeds only by removing exactly the recognised
  // containers, and on an obliging one it always succeeds.
  lemma DeleteOldExact(origin: World, o: Oracle, h: History, rawName: string, from: nat)
    requires WalksMaps(o) && from <= |h| && Faithful(origin, DeleteOld(o, h, rawName).history)
    requires UniqueIds(Now(origin, h).containers)
    ensures var w := Now(origin, h);
      Exact(origin, h, DeleteOld(o, h, rawName), true, w.(containers := Others(w.containers, {rawName})), from)
  {
    var w, s1 := Now(origin, h), List(o, h);
    var left := w.(containers := Others(w.containers, {rawName}));
    if s1.outcome.Ok? {
      var ids := o.order(s1.history, StartedByKonlet(s1.outcome.value, rawName).Keys);
      var s2 := RemoveAll(o, s1.history, ids);
      RemoveAllGrows(o, s1.history, ids);
      FaithfulBefore(origin, s1.history, s2.history);
      ListExact(origin, o, h, from);
      RemovalsLeaveOthers(w, rawName, ids);
      RemoveAllExact(origin, o, s1.history, ids, from);
      Chain(origin, h, s1, true, w, s2, true, left, DeleteOld(o, h, rawName), from);
    } else {
      ListExact(origin, o, h, from);
    }
  }

  lemma PullExact(origin: World, o: Oracle, h: History, image: string, auth: string, from: nat)
    requires from <= |h| && Faithful(origin, After(o, h, ImagePull(image, auth)))
    ensures var w := Now(origin, h);
      Exact(origin, h, Issue(o, h, ImagePull(image, auth)), image in w.images, w, from)
  {
    OneCommand(origin, o, h, ImagePull(image, auth), from);
  }

  lemma ReplaceOldExact(origin: World, a: Agent, h: History, auth: string, c: Container, from: nat)
    requires WalksMaps(a.oracle) && from <= |h| && Faithful(origin, ReplaceOld(a, h, auth, c).history)
    requires UniqueIds(Now(origin, h).containers)
    ensures var w := Now(origin, h);
      Exact(origin, h, ReplaceOld(a, h, auth, c), c.image in w.images,
            w.(containers := Others(w.containers, {c.name})), from)
  {
    var w := Now(origin, h);
    var s1 := Issue(a.oracle, h, ImagePull(c.image, auth));
    var s2 := DeleteOld(a.oracle, s1.history, c.name);
    if s1.outcome.Ok? {
      DeleteOldGrows(a.oracle, s1.history, c.name);
      FaithfulBefore(origin, s1.history, s2.history);
    }
    PullExact(origin, a.oracle, h, c.image, auth, from);
    if s1.outcome.Ok? {
      DeleteOldExact(origin, a.oracle, s1.history, c.name, from);
    }
    Chain(origin, h, s1, c.image in w.images, w, s2, true, w.(containers := Others(w.containers, {c.name})),
          ReplaceOld(a, h, auth, c), from);
  }

  // ---------------------------------------------------------------- the launch

  lemma StartNew(containers: seq<DockerContainer>, c: DockerContainer)
    requires forall b :: b in containers ==> b.id != c.id
    ensures Started(containers + [c], c.id) == containers + [c.(running := true)]
  {
    StartedSameIds(containers + [c], c.id);
    assert forall i :: 0 <= i < |containers| ==> containers[i] in containers;
  }

  lemma CreateExact(origin: World, o: Oracle, h: History, config: ContainerConfig, from: nat)
    requires from <= |h| && Faithful(origin, After(o, h, ContainerCreate(config)))
    ensures var s, w := Issue(o, h, ContainerCreate(config)), Now(origin, h);
      && Exact(origin, h, s, !NameTaken(w, "/" + config.name),
               w.(containers := w.containers + [Created(config, s)]), from)
      && (s.outcome.Ok? ==> !ContainerExists(w, s.outcome.value))
  {
    OneCommand(origin, o, h, ContainerCreate(config), from);
  }

  lemma StartExact(origin: World, o: Oracle, h: History, id: string, from: nat)
    requires from <= |h| && Faithful(origin, After(o, h, ContainerStart(id)))
    ensures var w := Now(origin, h);
      Exact(origin, h, Issue(o, h, ContainerStart(id)), ContainerExists(w, id),
            w.(containers := Started(w.containers, id)), from)
  {
    OneCommand(origin, o, h, ContainerStart(id), from);
  }

  function Created(config: ContainerConfig, s: Step<string>): DockerContainer {
    DockerContainer(if s.outcome.Ok? then s.outcome.value else "", ["/" + config.name], config, false)
  }

  lemma LaunchExact(origin: World, a: Agent, h: History, config: ContainerConfig, from: nat)
    requires from <= |h| && Faithful(origin, Launch(a, h, config).history)
    ensures var s, w := Launch(a, h, config), Now(origin, h);
      Exact(origin, h, s, !NameTaken(w, "/" + config.name),
            w.(containers := w.containers + [Created(config, s).(running := true)]), from)
  {
    var w := Now(origin, h);
    var s1 := Issue(a.oracle, h, ContainerCreate(config));
    var created := Created(config, s1);
    var w1 := w.(containers := w.containers + [created]);
    var w2 := w.(containers := w.containers + [created.(running := true)]);
    var s2 := if s1.outcome.Ok? then Issue(a.oracle, s1.history, ContainerStart(s1.outcome.value)) else s1;
    if s1.outcome.Ok? {
      FaithfulBefore(origin, s1.history, s2.history);
      CreateExact(origin, a.oracle, h, config, from);
      StartExact(origin, a.oracle, s1.history, s1.outcome.value, from);
      assert created in w1.containers;
      StartNew(w.containers, created);
    } else {
      CreateExact(origin, a.oracle, h, config, from);
    }
    Chain(origin, h, s1, !NameTaken(w, "/" + config.name), w1, s2, true, w2, Launch(a, h, config), from);
  }

  // The name of the new container is free once no klt container is left, even when the
  // same suffix was drawn before.
  lemma NewNameIsFree(w: World, containers: seq<DockerContainer>, rawName: string, suffix: string)
    requires w.containers == Others(containers, {rawName})
    ensures !NameTaken(w, "/" + GeneratedName(rawName, suffix))
  {
    GeneratedNameRecognised(rawName, suffix, rawName);
    OthersMembers(containers, {rawName});
  }

  // A pull that fails ends the run and leaves the host as it was.
  lemma FailedPullChangesNothing(origin: World, a: Agent, h: History, auth: string, spec: ContainerSpec, suffix: string)
    requires |spec.containers| == 1 && a.oracle.run(h, ImagePull(spec.containers[0].image, auth)).Err?
    ensures var s := RunContainer(a, h, auth, spec, suffix);
      s.outcome.Err? && Now(origin, s.history) == Now(origin, h)
  {
    var pull := ImagePull(spec.containers[0].image, auth);
    NowSnoc(origin, h, Ran(pull, a.oracle.run(h, pull)));
  }
}
