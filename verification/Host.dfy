// The host as konlet sees it: commands go out, replies come back. Nothing is assumed
// about the replies. Module World says which replies a truthful host may give.
module Host {
  import opened Wrappers
  import opened ApiTypes
  import opened MountTable

  const EXT4 := "ext4"
  const TMPFS := "tmpfs"

  datatype Property = MOUNTPOINT | FSTYPE

  datatype ContainerConfig = ContainerConfig(
    name: string, image: string, binds: seq<string>, restartPolicy: string)

  datatype Command =
    | CatProcMounts
    | Umount(mountPoint: string)
    | Lsblk(property: Property, device: string)
    | LsblkAll
    | Mkfs(device: string)
    | Fsck(device: string)
    | MkdirAll(path: string)
    | MountEntry(mount: Mount)
    | ImagePull(image: string, auth: string)
    | ContainerRemove(id: string)
    | ContainerCreate(config: ContainerConfig)
    | ContainerStart(id: string)

  // The two bits of os.FileMode that konlet looks at.
  datatype FileMode = FileMode(device: bool, charDevice: bool) {
    predicate BlockDevice() {
      device && !charDevice
    }
  }

  datatype ContainerInfo = ContainerInfo(id: string, names: seq<string>)

  datatype Event =
    | Ran(command: Command, reply: Result<string, string>)
    | Statted(path: string, mode: Result<FileMode, string>)
    | Listed(containers: Result<seq<ContainerInfo>, string>)

  type History = seq<Event>

  // How a host answers, whatever has happened so far. The order in which Go walks a map
  // is also the host's choice.
  datatype Oracle = Oracle(
    run: (History, Command) -> Result<string, string>,
    stat: (History, string) -> Result<FileMode, string>,
    list: History -> Result<seq<ContainerInfo>, string>,
    order: (History, set<string>) -> seq<string>)

  ghost predicate Enumerates(walk: seq<string>, keys: set<string>) {
    && (forall k :: k in keys <==> k in walk)
    && (forall i, j :: 0 <= i < j < |walk| ==> walk[i] != walk[j])
  }

  lemma NothingToWalk(walk: seq<string>, keys: set<string>)
    requires Enumerates(walk, keys)
    ensures keys == {} <==> walk == []
  {
    if walk != [] {
      assert walk[0] in keys;
    }
  }

  // A walk over a map visits every key once; this is all konlet may rely on.
  ghost predicate WalksMaps(o: Oracle) {
    forall h: History, keys: set<string> :: Enumerates(o.order(h, keys), keys)
  }

  // The outcome of a piece of the protocol, with everything that has happened by then.
  datatype Step<+T> = Step(history: History, outcome: Result<T, Error>) {
    predicate IsFailure() {
      outcome.Err?
    }

    function PropagateFailure<U>(): Step<U>
      requires IsFailure()
    {
      Step(history, Err(outcome.error))
    }

    function Extract(): (History, T)
      requires !IsFailure()
    {
      (history, outcome.value)
    }
  }

  function After(o: Oracle, h: History, c: Command): History {
    h + [Ran(c, o.run(h, c))]
  }

  // The connection to one host, with the record of all that went over it.
  class Session {
    const oracle: Oracle
    var history: History

    constructor (oracle: Oracle)
      ensures this.oracle == oracle && history == []
    {
      this.oracle, history := oracle, [];
    }

    method Run(c: Command) returns (reply: Result<string, string>)
      modifies this
      ensures reply == oracle.run(old(history), c)
      ensures history == After(oracle, old(history), c)
    {
      reply := oracle.run(history, c);
      history := history + [Ran(c, reply)];
    }

    method Stat(path: string) returns (mode: Result<FileMode, string>)
      modifies this
      ensures mode == oracle.stat(old(history), path)
      ensures history == old(history) + [Statted(path, mode)]
    {
      mode := oracle.stat(history, path);
      history := history + [Statted(path, mode)];
    }

    method ContainerList() returns (containers: Result<seq<ContainerInfo>, string>)
      modifies this
      ensures containers == oracle.list(old(history))
      ensures history == old(history) + [Listed(containers)]
    {
      containers := oracle.list(history);
      history := history + [Listed(containers)];
    }
  }
}
