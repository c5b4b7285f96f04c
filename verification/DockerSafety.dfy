// What the discipline means for the containers of a truthful Docker: at most one container
// of konlet's exists, every new name is free, and the containers of others are left alone.
module DockerSafety {
  import opened Text
  import opened ApiTypes
  import opened Host
  import opened World
  import opened VolumeProtocol
  import opened Containers
  import opened RunProtocol
  import opened Discipline

  // ---------------------------------------------------------------- containers

  ghost function KltContainers(containers: seq<DockerContainer>): seq<DockerContainer> {
    if containers == [] then []
    else if IsKlt(containers[0].names) then [containers[0]] + KltContainers(containers[1..])
    else KltContainers(containers[1..])
  }

  lemma {:induction false} KltContainersConcat(cs1: seq<DockerContainer>, cs2: seq<DockerContainer>)
    ensures KltContainers(cs1 + cs2) == KltContainers(cs1) + KltContainers(cs2)
  {
    if cs1 == [] {
      assert cs1 + cs2 == cs2;
    } else {
      assert (cs1 + cs2)[1..] == cs1[1..] + cs2;
      KltContainersConcat(cs1[1..], cs2);
    }
  }

  lemma {:induction false} KltContainersEmpty(containers: seq<DockerContainer>)
    ensures KltContainers(containers) == [] <==> forall c :: c in containers ==> !IsKlt(c.names)
  {
    if containers != [] {
      KltContainersEmpty(containers[1..]);
      assert containers == [containers[0]] + containers[1..];
    }
  }

  lemma {:induction false} RemovalAddsNone(containers: seq<DockerContainer>, id: string)
    ensures |KltContainers(WithoutContainer(containers, id))| <= |KltContainers(containers)|
    ensures forall c :: c in WithoutContainer(containers, id) <==> c in containers && c.id != id
  {
    if containers != [] {
      RemovalAddsNone(containers[1..], id);
      assert containers == [containers[0]] + containers[1..];
      if containers[0].id != id {
        assert WithoutContainer(containers, id)[1..] == WithoutContainer(containers[1..], id);
      }
    }
  }

  lemma {:induction false} StartAddsNone(containers: seq<DockerContainer>, id: string)
    ensures |KltContainers(Started(containers, id))| == |KltContainers(containers)|
    ensures forall c :: c in Started(containers, id) ==>
      exists b :: b in containers && b.id == c.id && b.names == c.names
  {
    if containers != [] {
      StartAddsNone(containers[1..], id);
      assert containers == [containers[0]] + containers[1..];
      assert Started(containers, id)[1..] == Started(containers[1..], id);
      forall c | c in Started(containers, id)
        ensures exists b :: b in containers && b.id == c.id && b.names == c.names
      {
        if c in Started(containers[1..], id) {
          var b :| b in containers[1..] && b.id == c.id && b.names == c.names;
          assert b in containers;
        } else {
          assert containers[0] in containers;
        }
      }
    }
  }

  lemma {:induction false} ListingIsComplete(containers: seq<DockerContainer>)
    ensures forall c :: c in containers ==> ContainerInfo(c.id, c.names) in Listing(containers)
    ensures forall i :: i in Listing(containers) ==>
      exists c :: c in containers && i == ContainerInfo(c.id, c.names)
  {
    if containers != [] {
      ListingIsComplete(containers[1..]);
      assert containers == [containers[0]] + containers[1..];
      forall i | i in Listing(containers)
        ensures exists c :: c in containers && i == ContainerInfo(c.id, c.names)
      {
        if i in Listing(containers[1..]) {
          var c :| c in containers[1..] && i == ContainerInfo(c.id, c.names);
          assert c in containers;
        } else {
          assert containers[0] in containers;
        }
      }
    }
  }

  // The klt containers the history leaves possible are all there are.
  lemma {:induction false} KltLeftIsTrue(origin: World, h: History)
    requires Faithful(origin, h)
    ensures KltLeft(h).Some? ==>
      forall c :: c in Now(origin, h).containers && IsKlt(c.names) ==> c.id in KltLeft(h).value
  {
    if h != [] {
      var init, e := h[..|h| - 1], h[|h| - 1];
      assert h == init + [e];
      FaithfulSnoc(origin, init, e);
      NowSnoc(origin, init, e);
      KltLeftSnoc(init, e);
      KltLeftIsTrue(origin, init);
      var containers := Now(origin, init).containers;
      match e
      case Listed(Ok(_)) => ListingIsComplete(containers);
      case Ran(ContainerRemove(id), Ok(_)) => RemovalAddsNone(containers, id);
      case Ran(ContainerStart(id), Ok(_)) => StartAddsNone(containers, id);
      case _ =>
    }
  }

  lemma {:induction false} AtMostOneKlt(origin: World, prefix: string, h: History)
    requires Faithful(origin, h) && Disciplined(prefix, h) && |KltContainers(origin.containers)| <= 1
    ensures |KltContainers(Now(origin, h).containers)| <= 1
  {
    if h != [] {
      var init, e := h[..|h| - 1], h[|h| - 1];
      assert h == init + [e];
      FaithfulSnoc(origin, init, e);
      DisciplinedSnoc(prefix, init, e);
      NowSnoc(origin, init, e);
      AtMostOneKlt(origin, prefix, init);
      var containers := Now(origin, init).containers;
      match e
      case Ran(ContainerRemove(id), Ok(_)) => RemovalAddsNone(containers, id);
      case Ran(ContainerStart(id), Ok(_)) => StartAddsNone(containers, id);
      case Ran(ContainerCreate(config), Ok(id)) =>
        KltLeftIsTrue(origin, init);
        KltContainersEmpty(containers);
        var created := [DockerContainer(id, ["/" + config.name], config, false)];
        KltContainersConcat(containers, created);
        assert created[1..] == [];
      case _ =>
    }
  }

  // Whenever konlet creates a container, its name is free, even if the suffix was drawn before.
  lemma CreatedNameIsFree(origin: World, o: Oracle, prefix: string, attempts: seq<Attempt>, i: nat)
    requires WalksMaps(o)
    requires var h := Attempts(o, prefix, attempts);
      i < |h| && h[i].Ran? && h[i].command.ContainerCreate? && Faithful(origin, h[..i])
    ensures var h := Attempts(o, prefix, attempts);
      !NameTaken(Now(origin, h[..i]), "/" + h[i].command.config.name)
  {
    var h := Attempts(o, prefix, attempts);
    AttemptsKeepDiscipline(o, prefix, attempts);
    assert Allowed(prefix, h[..i], h[i].command);
    KltLeftIsTrue(origin, h[..i]);
  }

  // ---------------------------------------------------------------- containers of others

  ghost predicate UniqueIds(containers: seq<DockerContainer>) {
    forall i, j :: 0 <= i < j < |containers| ==> containers[i].id != containers[j].id
  }

  // The containers konlet does not take for its own under any of the declared names.
  ghost function Others(containers: seq<DockerContainer>, declared: set<string>): seq<DockerContainer> {
    if containers == [] then []
    else if Mine(containers[0].names, declared) then Others(containers[1..], declared)
    else [containers[0]] + Others(containers[1..], declared)
  }

  // An id of the set, if it is that of a container, is konlet's own.
  ghost predicate OnlyMine(containers: seq<DockerContainer>, ids: set<string>, declared: set<string>) {
    forall c :: c in containers && c.id in ids ==> Mine(c.names, declared)
  }

  lemma {:induction false} OthersConcat(cs1: seq<DockerContainer>, cs2: seq<DockerContainer>, declared: set<string>)
    ensures Others(cs1 + cs2, declared) == Others(cs1, declared) + Others(cs2, declared)
  {
    if cs1 == [] {
      assert cs1 + cs2 == cs2;
    } else {
      assert (cs1 + cs2)[1..] == cs1[1..] + cs2;
      OthersConcat(cs1[1..], cs2, declared);
    }
  }

  lemma {:induction false} OthersMembers(containers: seq<DockerContainer>, declared: set<string>)
    ensures forall c :: c in Others(containers, declared) <==> c in containers && !Mine(c.names, declared)
  {
    if containers != [] {
      OthersMembers(containers[1..], declared);
      assert containers == [containers[0]] + containers[1..];
    }
  }

  lemma UniqueIdsIdentify(containers: seq<DockerContainer>, c1: DockerContainer, c2: DockerContainer)
    requires UniqueIds(containers) && c1 in containers && c2 in containers && c1.id == c2.id
    ensures c1 == c2
  {
    var i :| 0 <= i < |containers| && containers[i] == c1;
    var j :| 0 <= j < |containers| && containers[j] == c2;
  }

  lemma UniqueIdsTail(containers: seq<DockerContainer>)
    requires UniqueIds(containers) && containers != []
    ensures UniqueIds(containers[1..])
    ensures forall c :: c in containers[1..] ==> c.id != containers[0].id
  {
    var rest := containers[1..];
    forall i, j | 0 <= i < j < |rest|
      ensures rest[i].id != rest[j].id
    {
      assert rest[i] == containers[i + 1] && rest[j] == containers[j + 1];
    }
    forall c | c in rest
      ensures c.id != containers[0].id
    {
      var i :| 0 <= i < |rest| && rest[i] == c;
      assert containers[i + 1] == c;
    }
  }

  lemma UniqueIdsCons(c: DockerContainer, rest: seq<DockerContainer>)
    requires UniqueIds(rest) && forall b :: b in rest ==> b.id != c.id
    ensures UniqueIds([c] + rest)
  {
    var all := [c] + rest;
    forall i, j | 0 <= i < j < |all|
      ensures all[i].id != all[j].id
    {
      assert all[j] == rest[j - 1] && rest[j - 1] in rest;
      assert i > 0 ==> all[i] == rest[i - 1];
    }
  }

  lemma {:induction false} WithoutContainerUnique(containers: seq<DockerContainer>, id: string)
    requires UniqueIds(containers)
    ensures UniqueIds(WithoutContainer(containers, id))
  {
    if containers != [] {
      UniqueIdsTail(containers);
      WithoutContainerUnique(containers[1..], id);
      RemovalAddsNone(containers[1..], id);
      if containers[0].id != id {
        UniqueIdsCons(containers[0], WithoutContainer(containers[1..], id));
      }
    }
  }

  lemma {:induction false} StartedSameIds(containers: seq<DockerContainer>, id: string)
    ensures |Started(containers, id)| == |containers|
    ensures forall i :: 0 <= i < |containers| ==>
      Started(containers, id)[i] == if containers[i].id == id then containers[i].(running := true) else containers[i]
  {
    if containers != [] {
      StartedSameIds(containers[1..], id);
    }
  }

  lemma {:induction false} OthersWithout(containers: seq<DockerContainer>, id: string, declared: set<string>)
    requires OnlyMine(containers, {id}, declared)
    ensures Others(WithoutContainer(containers, id), declared) == Others(containers, declared)
  {
    if containers != [] {
      assert containers[0] in containers;
      OthersWithout(containers[1..], id, declared);
      if containers[0].id != id {
        assert WithoutContainer(containers, id)[1..] == WithoutContainer(containers[1..], id);
      }
    }
  }

  lemma {:induction false} OthersStarted(containers: seq<DockerContainer>, id: string, declared: set<string>)
    requires OnlyMine(containers, {id}, declared)
    ensures Others(Started(containers, id), declared) == Others(containers, declared)
  {
    if containers != [] {
      assert containers[0] in containers;
      OthersStarted(containers[1..], id, declared);
      assert Started(containers, id)[1..] == Started(containers[1..], id);
    }
  }

  lemma OthersCreated(containers: seq<DockerContainer>, c: DockerContainer, declared: set<string>)
    requires |c.names| == 1 && HasPrefix(c.names[0], KLT_PATTERN)
    ensures Others(containers + [c], declared) == Others(containers, declared) && Mine(c.names, declared)
  {
    OthersConcat(containers, [c], declared);
    assert c.names[0] in c.names;
    assert [c][1..] == [];
  }

  lemma RemovalSparesOthers(containers: seq<DockerContainer>, id: string, own: set<string>, declared: set<string>)
    requires UniqueIds(containers) && OnlyMine(containers, own, declared) && id in own
    ensures var cs := WithoutContainer(containers, id);
      UniqueIds(cs) && Others(cs, declared) == Others(containers, declared) && OnlyMine(cs, own, declared)
  {
    WithoutContainerUnique(containers, id);
    RemovalAddsNone(containers, id);
    OthersWithout(containers, id, declared);
  }

  lemma StartSparesOthers(containers: seq<DockerContainer>, id: string, own: set<string>, declared: set<string>)
    requires UniqueIds(containers) && OnlyMine(containers, own, declared) && id in own
    ensures var cs := Started(containers, id);
      UniqueIds(cs) && Others(cs, declared) == Others(containers, declared) && OnlyMine(cs, own, declared)
  {
    StartedSameIds(containers, id);
    StartAddsNone(containers, id);
    OthersStarted(containers, id, declared);
  }

  lemma CreationSparesOthers(containers: seq<DockerContainer>, c: DockerContainer, own: set<string>,
                             declared: set<string>)
    requires UniqueIds(containers) && OnlyMine(containers, own, declared)
    requires |c.names| == 1 && HasPrefix(c.names[0], KLT_PATTERN) && forall b :: b in containers ==> b.id != c.id
    ensures var cs := containers + [c];
      && UniqueIds(cs) && Others(cs, declared) == Others(containers, declared)
      && OnlyMine(cs, own + {c.id}, declared)
  {
    OthersCreated(containers, c, declared);
    assert forall i :: 0 <= i < |containers| ==> containers[i] in containers;
  }

  // What one command does to the others.
  lemma CommandSparesOthers(w: World, c: Command, output: string, own: set<string>, declared: set<string>)
    requires UniqueIds(w.containers) && OnlyMine(w.containers, own, declared) && OwnCommand(own, c)
    requires Possible(w, c) && TrueOutput(w, c, output)
    ensures var cs := Effect(w, c, output).containers;
      && UniqueIds(cs) && Others(cs, declared) == Others(w.containers, declared)
      && OnlyMine(cs, if c.ContainerCreate? then own + {output} else own, declared)
  {
    match c
    case ContainerRemove(id) => RemovalSparesOthers(w.containers, id, own, declared);
    case ContainerStart(id) => StartSparesOthers(w.containers, id, own, declared);
    case ContainerCreate(config) =>
      CreationSparesOthers(w.containers, DockerContainer(output, ["/" + config.name], config, false), own, declared);
    case _ =>
  }

  // A listing that is true tells konlet's containers from the others.
  lemma ListedAreMine(containers: seq<DockerContainer>, declared: set<string>)
    requires UniqueIds(containers)
    ensures OnlyMine(containers, MineIds(Listing(containers), declared), declared)
  {
    ListingIsComplete(containers);
    forall c | c in containers && c.id in MineIds(Listing(containers), declared)
      ensures Mine(c.names, declared)
    {
      var i :| i in Listing(containers) && i.id == c.id && Mine(i.names, declared);
      var c' :| c' in containers && i == ContainerInfo(c'.id, c'.names);
      UniqueIdsIdentify(containers, c, c');
    }
  }

  // Whatever konlet does to its own leaves the containers of others as they were, in order.
  lemma {:induction false} OthersStay(origin: World, h: History, h': History, declared: set<string>)
    requires h <= h' && Faithful(origin, h') && UniqueIds(Now(origin, h).containers)
    requires TouchesOwn(declared, |h|, h')
    ensures var cs := Now(origin, h').containers;
      && UniqueIds(cs) && Others(cs, declared) == Others(Now(origin, h).containers, declared)
      && OnlyMine(cs, OwnIds(h', |h|, declared), declared)
    decreases |h'|
  {
    if |h'| == |h| {
      assert h' == h;
    } else {
      var init, e := h'[..|h'| - 1], h'[|h'| - 1];
      assert h' == init + [e];
      FaithfulSnoc(origin, init, e);
      NowSnoc(origin, init, e);
      TouchesOwnSnoc(declared, |h|, init, e);
      OwnIdsSnoc(init, e, |h|, declared);
      OthersStay(origin, h, init, declared);
      var w := Now(origin, init);
      match e
      case Ran(c, Ok(output)) => CommandSparesOthers(w, c, output, OwnIds(init, |h|, declared), declared);
      case Listed(Ok(_)) => ListedAreMine(w.containers, declared);
      case _ =>
    }
  }

  // At every moment of a run on a truthful Docker, the containers that carry neither a klt
  // name nor the declared one are exactly as they were, in order.
  lemma RunSparesOthers(origin: World, a: Agent, h: History, auth: string, spec: ContainerSpec, suffix: string,
                        moment: nat)
    requires WalksMaps(a.oracle)
    requires var end := RunContainer(a, h, auth, spec, suffix).history;
      |h| <= moment <= |end| && Faithful(origin, end[..moment])
    requires UniqueIds(Now(origin, h).containers)
    ensures var w, w' := Now(origin, h), Now(origin, RunContainer(a, h, auth, spec, suffix).history[..moment]);
      && UniqueIds(w'.containers)
      && Others(w'.containers, ContainerNames(spec)) == Others(w.containers, ContainerNames(spec))
  {
    var end := RunContainer(a, h, auth, spec, suffix).history;
    RunGrows(a, h, auth, spec, suffix);
    RunTouchesOwn(a, h, auth, spec, suffix, |h|, ContainerNames(spec));
    TouchesOwnPrefix(ContainerNames(spec), |h|, end, moment);
    OthersStay(origin, h, end[..moment], ContainerNames(spec));
  }

  // The same for any number of runs of any declarations, each complete or cut off anywhere.
  lemma AttemptsSpareOthers(origin: World, o: Oracle, prefix: string, attempts: seq<Attempt>,
                            declared: set<string>, moment: nat)
    requires WalksMaps(o) && UniqueIds(origin.containers) && DeclaredBy(attempts) <= declared
    requires moment <= |Attempts(o, prefix, attempts)| && Faithful(origin, Attempts(o, prefix, attempts)[..moment])
    ensures var cs := Now(origin, Attempts(o, prefix, attempts)[..moment]).containers;
      UniqueIds(cs) && Others(cs, declared) == Others(origin.containers, declared)
  {
    var all := Attempts(o, prefix, attempts);
    AttemptsTouchOwn(o, prefix, attempts, declared);
    TouchesOwnPrefix(declared, 0, all, moment);
    OthersStay(origin, [], all[..moment], declared);
  }
}
