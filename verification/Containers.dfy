// Which containers konlet takes for its own, how it names new ones, and how it removes
// the old ones.
module Containers {
  import opened Wrappers
  import opened Text
  import opened ApiTypes
  import opened Host

  const KLT_PATTERN := "/klt-"

  // ---------------------------------------------------------------- recognition

  predicate Matches(name: string, rawName: string) {
    HasPrefix(name, KLT_PATTERN) || name == "/" + rawName
  }

  predicate Recognised(names: seq<string>, rawName: string) {
    exists n :: n in names && Matches(n, rawName)
  }

  // A container that carries a name konlet generates.
  ghost predicate IsKlt(names: seq<string>) {
    exists n :: n in names && HasPrefix(n, KLT_PATTERN)
  }

  // Recognised under one of these declared names; klt containers are under any.
  ghost predicate Mine(names: seq<string>, declared: set<string>) {
    exists n :: n in names && (HasPrefix(n, KLT_PATTERN) || (HasPrefix(n, "/") && n[1..] in declared))
  }

  lemma RecognisedIsMine(names: seq<string>, rawName: string, declared: set<string>)
    requires rawName in declared
    ensures Recognised(names, rawName) ==> Mine(names, declared)
    ensures Mine(names, {rawName}) ==> Recognised(names, rawName)
  {
    forall n
      ensures Matches(n, rawName) <==> HasPrefix(n, KLT_PATTERN) || (HasPrefix(n, "/") && n[1..] == rawName)
    {
      assert HasPrefix(n, "/") ==> n == "/" + n[1..];
      assert ("/" + rawName)[1..] == rawName;
    }
  }

  function FirstMatch(names: seq<string>, rawName: string): Option<string> {
    if names == [] then None
    else if Matches(names[0], rawName) then Some(names[0])
    else FirstMatch(names[1..], rawName)
  }

  // From the id of every recognised container to the first of its names that matches.
  function StartedByKonlet(containers: seq<ContainerInfo>, rawName: string): map<string, string> {
    if containers == [] then map[]
    else
      var init, last := containers[..|containers| - 1], containers[|containers| - 1];
      match FirstMatch(last.names, rawName)
      case Some(name) => StartedByKonlet(init, rawName)[last.id := name]
      case None => StartedByKonlet(init, rawName)
  }

  lemma {:induction false} FirstMatchExact(names: seq<string>, rawName: string)
    ensures FirstMatch(names, rawName).Some? <==> Recognised(names, rawName)
    ensures FirstMatch(names, rawName).Some? ==>
      FirstMatch(names, rawName).value in names && Matches(FirstMatch(names, rawName).value, rawName)
  {
    if names != [] {
      FirstMatchExact(names[1..], rawName);
      assert names == [names[0]] + names[1..];
      assert Recognised(names, rawName) <==> Matches(names[0], rawName) || Recognised(names[1..], rawName);
    }
  }

  // Exactly the containers with a matching name are found, and each under a matching name of its own.
  lemma {:induction false} StartedByKonletExact(containers: seq<ContainerInfo>, rawName: string)
    ensures forall id :: id in StartedByKonlet(containers, rawName) <==>
      exists c :: c in containers && c.id == id && Recognised(c.names, rawName)
    ensures forall id :: id in StartedByKonlet(containers, rawName) ==>
      exists c :: c in containers && c.id == id
        && StartedByKonlet(containers, rawName)[id] in c.names
        && Matches(StartedByKonlet(containers, rawName)[id], rawName)
  {
    if containers != [] {
      var init, last := containers[..|containers| - 1], containers[|containers| - 1];
      assert containers == init + [last];
      StartedByKonletExact(init, rawName);
      FirstMatchExact(last.names, rawName);
      forall c | c in init ensures c in containers {
      }
      assert last in containers;
    }
  }

  // The names konlet gives, and the one it gave before it had a pattern: a slash, then
  // "klt" as the first of at least two parts between dashes; or a slash and the raw name.
  predicate KonletName(name: string, rawName: string) {
    || name == "/" + rawName
    || (name != "" && name[0] == '/' && |Split(name[1..], '-')| >= 2 && Split(name[1..], '-')[0] == "klt")
  }

  lemma MatchesExact(name: string, rawName: string)
    ensures Matches(name, rawName) <==> KonletName(name, rawName)
  {
    if HasPrefix(name, KLT_PATTERN) {
      var rest := name[5..];
      assert name[1..] == "klt" + ['-'] + rest;
      SplitAtFirst("klt", rest, '-');
    }
    if name != "" {
      SplitHead(name[1..], '-');
      assert name == [name[0]] + name[1..];
    }
  }

  // Exactly the ids of containers with such a name are found.
  lemma FoundByName(containers: seq<ContainerInfo>, rawName: string, id: string)
    ensures id in StartedByKonlet(containers, rawName) <==>
      exists c, n :: c in containers && c.id == id && n in c.names && KonletName(n, rawName)
  {
    StartedByKonletExact(containers, rawName);
    if id in StartedByKonlet(containers, rawName) {
      var c :| c in containers && c.id == id && Recognised(c.names, rawName);
      var n :| n in c.names && Matches(n, rawName);
      MatchesExact(n, rawName);
    }
    if c, n :| c in containers && c.id == id && n in c.names && KonletName(n, rawName) {
      MatchesExact(n, rawName);
      assert Recognised(c.names, rawName);
    }
  }

  // The nested loops of the Go code, leaving the inner one at the first match.
  method ContainersStartedByKonlet(containers: seq<ContainerInfo>, rawName: string)
    returns (idsNames: map<string, string>)
    ensures idsNames == StartedByKonlet(containers, rawName)
  {
    var namePattern1 := "/klt-";
    var namePattern2 := "/" + rawName;
    idsNames := map[];
    for i := 0 to |containers|
      invariant idsNames == StartedByKonlet(containers[..i], rawName)
    {
      var c := containers[i];
      ghost var before := idsNames;
      assert containers[..i + 1][..i] == containers[..i] && containers[..i + 1][i] == c;
      for j := 0 to |c.names|
        invariant idsNames == before
        invariant FirstMatch(c.names, rawName) == FirstMatch(c.names[j..], rawName)
      {
        var name := c.names[j];
        assert c.names[j..][0] == name && c.names[j..][1..] == c.names[j + 1..];
        if HasPrefix(name, namePattern1) || name == namePattern2 {
          idsNames := idsNames[c.id := name];
          break;
        }
      }
    }
    assert containers[..|containers|] == containers;
  }

  // ---------------------------------------------------------------- names

  // The draws of a random generator, in order.
  type Draws = (nat, nat) -> nat

  function Letter(k: nat): char
    requires k < 26
  {
    ('a' as int + k) as char
  }

  function Suffix(draws: Draws, from: nat, length: nat): string {
    seq(length, i requires 0 <= i < length => Letter(draws(from + i, 26) % 26))
  }

  class Rand {
    const draws: Draws
    var drawn: nat

    constructor (draws: Draws)
      ensures this.draws == draws && drawn == 0
    {
      this.draws, drawn := draws, 0;
    }

    method Intn(n: nat) returns (k: nat)
      requires n > 0
      modifies this
      ensures k == draws(old(drawn), n) % n && drawn == old(drawn) + 1
    {
      k := draws(drawn, n) % n;
      drawn := drawn + 1;
    }
  }

  method GenerateRandomSuffix(length: nat, randEnv: Rand) returns (suffix: string)
    modifies randEnv
    ensures suffix == Suffix(randEnv.draws, old(randEnv.drawn), length)
    ensures randEnv.drawn == old(randEnv.drawn) + length
  {
    var letters := "abcdefghijklmnopqrstuvwxyz";
    var generated := new char[length](_ => 'a');
    for i := 0 to length
      invariant randEnv.drawn == old(randEnv.drawn) + i
      invariant forall j :: 0 <= j < i ==> generated[j] == Letter(randEnv.draws(old(randEnv.drawn) + j, 26) % 26)
    {
      var k := randEnv.Intn(|letters|);
      assert letters[k] == Letter(k);
      generated[i] := letters[k];
    }
    suffix := generated[..];
  }

  // A suffix is of the length asked for and made of lowercase letters, one for each draw.
  lemma SuffixShape(draws: Draws, from: nat, length: nat)
    ensures var s := Suffix(draws, from, length);
      |s| == length && forall i :: 0 <= i < |s| ==>
        'a' <= s[i] <= 'z' && s[i] as int - 'a' as int == draws(from + i, 26) % 26
  {
    forall i | 0 <= i < length
      ensures var c := Suffix(draws, from, length)[i];
        'a' <= c <= 'z' && c as int - 'a' as int == draws(from + i, 26) % 26
    {
      assert Suffix(draws, from, length)[i] == Letter(draws(from + i, 26) % 26);
    }
  }

  function GeneratedName(name: string, suffix: string): string {
    "klt-" + name + "-" + suffix
  }

  // Whatever the container is called and whatever letters are drawn, konlet will know
  // the container again, under any declaration.
  lemma GeneratedNameRecognised(name: string, suffix: string, rawName: string)
    ensures HasPrefix("/" + GeneratedName(name, suffix), KLT_PATTERN)
    ensures Matches("/" + GeneratedName(name, suffix), rawName)
  {
    assert "/" + GeneratedName(name, suffix) == KLT_PATTERN + (name + "-" + suffix);
  }

  // ---------------------------------------------------------------- removal

  function RemoveAll(o: Oracle, h: History, ids: seq<string>): Step<()>
    decreases |ids|
  {
    if ids == [] then Step(h, Ok(()))
    else
      var h1 := After(o, h, ContainerRemove(ids[0]));
      match o.run(h, ContainerRemove(ids[0]))
      case Err(detail) => Step(h1, Err(CommandFailed(detail)))
      case Ok(_) => RemoveAll(o, h1, ids[1..])
  }

  function DeleteOld(o: Oracle, h: History, rawName: string): Step<()> {
    var listed := o.list(h);
    var h1 := h + [Listed(listed)];
    match listed
    case Err(detail) => Step(h1, Err(CommandFailed(detail)))
    case Ok(containers) => RemoveAll(o, h1, o.order(h1, StartedByKonlet(containers, rawName).Keys))
  }

  method DeleteOldContainers(client: Session, rawName: string) returns (r: Result<(), Error>)
    requires WalksMaps(client.oracle)
    modifies client
    ensures Step(client.history, r) == DeleteOld(client.oracle, old(client.history), rawName)
  {
    var containers := client.ContainerList();
    if containers.Err? {
      return Err(CommandFailed(containers.error));
    }
    var idsNames := ContainersStartedByKonlet(containers.value, rawName);
    ghost var h1 := client.history;
    var ids := client.oracle.order(client.history, idsNames.Keys);
    if |idsNames| == 0 {
      NothingToWalk(ids, idsNames.Keys);
      return Ok(());
    }
    for i := 0 to |ids|
      invariant RemoveAll(client.oracle, h1, ids) == RemoveAll(client.oracle, client.history, ids[i..])
    {
      assert ids[i..][0] == ids[i] && ids[i..][1..] == ids[i + 1..];
      var reply := client.Run(ContainerRemove(ids[i]));
      if reply.Err? {
        return Err(CommandFailed(reply.error));
      }
    }
    return Ok(());
  }
}
