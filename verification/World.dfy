// The state of a host and what a truthful host may answer. A command may always fail, and
// then changes nothing. A command that succeeds did what it says, and its output is true.
module World {
  import opened Text
  import opened Paths
  import opened MountTable
  import opened Host

  // Linux refuses path arguments of this many bytes and more.
  const PATH_MAX: nat := 4096

  // A block device: its filesystem ("" for none) and whether fsck accepts it, the devices
  // below it, and what is stored on it. Other files are no devices.
  datatype Device = Device(fsType: string, sound: bool, children: seq<string>, contents: string)

  datatype DockerContainer = DockerContainer(id: string, names: seq<string>, config: ContainerConfig, running: bool)

  datatype World = World(
    mounts: seq<Mount>,
    devices: map<string, Device>,
    directories: set<string>,
    images: set<string>,
    containers: seq<DockerContainer>)

  // ---------------------------------------------------------------- the mount table

  predicate Mounted(table: seq<Mount>, device: string) {
    exists m :: m in table && m.device == device
  }

  // The mounts stacked at one path, bottom first.
  function At(table: seq<Mount>, path: string): seq<Mount> {
    if table == [] then []
    else
      var init, last := table[..|table| - 1], table[|table| - 1];
      if last.mountPoint == path then At(init, path) + [last] else At(init, path)
  }

  // umount takes away the topmost mount at the path.
  function PopTop(table: seq<Mount>, path: string): seq<Mount> {
    if table == [] then []
    else
      var init, last := table[..|table| - 1], table[|table| - 1];
      if last.mountPoint == path then init else PopTop(init, path) + [last]
  }

  // What the path of everything inside a directory starts with.
  function DirectoryOf(path: string): string {
    if path != "" && path[|path| - 1] == '/' then path else path + "/"
  }

  // The second path is inside the directory at the first.
  predicate Below(path: string, other: string) {
    DirectoryOf(path) < other
  }

  predicate Nested(path: string, other: string) {
    Below(path, other) || Below(other, path)
  }

  // The topmost mount at the path can be taken away: nothing has been mounted since below
  // it, which would keep it busy, or above it, which would hide it.
  predicate Detachable(table: seq<Mount>, path: string) {
    table != [] &&
    var init, last := table[..|table| - 1], table[|table| - 1];
    last.mountPoint == path || (!Nested(path, last.mountPoint) && Detachable(init, path))
  }

  // A mount as the table shows it: at the place its mount point resolves to.
  function Landed(m: Mount): Mount {
    m.(mountPoint := Canonical(m.mountPoint))
  }

  // ---------------------------------------------------------------- lsblk

  // One line for the device and one for each of its children. The first tells the
  // filesystem type, or is blank exactly when the device is not mounted.
  ghost predicate TrueReport(w: World, property: Property, device: string, output: string)
    requires device in w.devices
  {
    exists lines: seq<string> ::
      && |lines| == 1 + |w.devices[device].children|
      && output == Terminated(lines, "\n")
      && (forall i :: 0 <= i < |lines| ==> '\n' !in lines[i])
      && (property == FSTYPE ==> TrimSpace(lines[0]) == w.devices[device].fsType)
      && (property == MOUNTPOINT ==> (TrimSpace(lines[0]) == "" <==> !Mounted(w.mounts, device)))
  }

  // ---------------------------------------------------------------- commands

  ghost predicate ContainerExists(w: World, id: string) {
    exists c :: c in w.containers && c.id == id
  }

  ghost predicate NameTaken(w: World, name: string) {
    exists c :: c in w.containers && name in c.names
  }

  ghost predicate FitsPathMax(m: Mount) {
    ByteLength(m.device) < PATH_MAX && ByteLength(m.mountPoint) < PATH_MAX
  }

  // What must be so for the command to be able to succeed. A umount names its mount point
  // as the table shows it.
  ghost predicate Possible(w: World, c: Command) {
    match c
    case CatProcMounts => true
    case Umount(path) => Detachable(w.mounts, path)
    case Lsblk(_, device) => device in w.devices
    case LsblkAll => true
    case Mkfs(device) => device in w.devices && !Mounted(w.mounts, device)
    case Fsck(device) =>
      device in w.devices && !Mounted(w.mounts, device)
      && w.devices[device].fsType == EXT4 && w.devices[device].sound
    case MkdirAll(_) => true
    case MountEntry(m) =>
      && FitsPathMax(m) && Canonical(m.mountPoint) in w.directories
      && (m.fsType == TMPFS || (m.device in w.devices && w.devices[m.device].fsType == m.fsType))
    case ImagePull(image, _) => image in w.images
    case ContainerRemove(id) => ContainerExists(w, id)
    case ContainerCreate(config) => !NameTaken(w, "/" + config.name)
    case ContainerStart(id) => ContainerExists(w, id)
  }

  // What the output of a command that succeeds says about the host.
  ghost predicate TrueOutput(w: World, c: Command, output: string) {
    match c
    case CatProcMounts => output == PrintTable(w.mounts)
    case Lsblk(property, device) => device in w.devices && TrueReport(w, property, device, output)
    case ContainerCreate(_) => !ContainerExists(w, output)
    case _ => true
  }

  // mkfs makes a new filesystem and destroys what was on the device and on its children.
  function Formatted(devices: map<string, Device>, device: string): map<string, Device>
    requires device in devices
  {
    map d | d in devices ::
      if d == device then Device(EXT4, true, [], "")
      else if d in devices[device].children then devices[d].(fsType := "", contents := "")
      else devices[d]
  }

  function WithoutContainer(containers: seq<DockerContainer>, id: string): seq<DockerContainer> {
    if containers == [] then []
    else if containers[0].id == id then WithoutContainer(containers[1..], id)
    else [containers[0]] + WithoutContainer(containers[1..], id)
  }

  function Started(containers: seq<DockerContainer>, id: string): seq<DockerContainer> {
    if containers == [] then []
    else
      [if containers[0].id == id then containers[0].(running := true) else containers[0]]
      + Started(containers[1..], id)
  }

  // The effect of a command that succeeds.
  function Effect(w: World, c: Command, output: string): World {
    match c
    case Umount(path) => w.(mounts := PopTop(w.mounts, path))
    case Mkfs(device) => if device in w.devices then w.(devices := Formatted(w.devices, device)) else w
    case MkdirAll(path) => w.(directories := w.directories + {Canonical(path)})
    case MountEntry(m) => w.(mounts := w.mounts + [Landed(m)])
    case ContainerRemove(id) => w.(containers := WithoutContainer(w.containers, id))
    case ContainerCreate(config) =>
      w.(containers := w.containers + [DockerContainer(output, ["/" + config.name], config, false)])
    case ContainerStart(id) => w.(containers := Started(w.containers, id))
    case _ => w
  }

  function Listing(containers: seq<DockerContainer>): seq<ContainerInfo> {
    if containers == [] then []
    else [ContainerInfo(containers[0].id, containers[0].names)] + Listing(containers[1..])
  }

  // ---------------------------------------------------------------- histories

  function Next(w: World, e: Event): World {
    match e
    case Ran(c, Ok(output)) => Effect(w, c, output)
    case _ => w
  }

  function Now(origin: World, h: History): World {
    if h == [] then origin else Next(Now(origin, h[..|h| - 1]), h[|h| - 1])
  }

  ghost predicate Truthful(w: World, e: Event) {
    match e
    case Ran(c, Ok(output)) => Possible(w, c) && TrueOutput(w, c, output)
    case Ran(_, Err(_)) => true
    case Statted(path, Ok(mode)) => mode.BlockDevice() <==> path in w.devices
    case Statted(_, Err(_)) => true
    case Listed(Ok(containers)) => containers == Listing(w.containers)
    case Listed(Err(_)) => true
  }

  // Every reply so far was true of the host at its time.
  ghost predicate Faithful(origin: World, h: History) {
    forall i :: 0 <= i < |h| ==> Truthful(Now(origin, h[..i]), h[i])
  }

  // No command failed that could have succeeded.
  ghost predicate Willing(w: World, e: Event) {
    match e
    case Ran(c, reply) => Possible(w, c) ==> reply.Ok?
    case Statted(path, mode) => path in w.devices ==> mode.Ok?
    case Listed(containers) => containers.Ok?
  }

  ghost predicate Obliging(origin: World, h: History, from: nat) {
    forall i :: from <= i < |h| ==> Willing(Now(origin, h[..i]), h[i])
  }

  lemma NowSnoc(origin: World, h: History, e: Event)
    ensures Now(origin, h + [e]) == Next(Now(origin, h), e)
  {
    assert (h + [e])[..|h|] == h;
  }

  lemma FaithfulSnoc(origin: World, h: History, e: Event)
    ensures Faithful(origin, h + [e]) <==> Faithful(origin, h) && Truthful(Now(origin, h), e)
  {
    var h' := h + [e];
    assert h'[..|h|] == h && h'[|h|] == e;
    assert forall i :: 0 <= i < |h| ==> h'[..i] == h[..i] && h'[i] == h[i];
  }

  lemma ObligingSnoc(origin: World, h: History, e: Event, from: nat)
    requires from <= |h|
    ensures Obliging(origin, h + [e], from) <==> Obliging(origin, h, from) && Willing(Now(origin, h), e)
  {
    var h' := h + [e];
    assert h'[..|h|] == h && h'[|h|] == e;
    assert forall i :: 0 <= i < |h| ==> h'[..i] == h[..i] && h'[i] == h[i];
  }

  lemma FaithfulPrefix(origin: World, h: History, n: nat)
    requires Faithful(origin, h) && n <= |h|
    ensures Faithful(origin, h[..n])
  {
    assert forall i :: 0 <= i < n ==> h[..n][..i] == h[..i];
  }

  lemma FaithfulBefore(origin: World, h: History, h': History)
    requires h <= h' && Faithful(origin, h')
    ensures Faithful(origin, h)
  {
    FaithfulPrefix(origin, h', |h|);
    assert h'[..|h|] == h;
  }

  // One step of a longer truthful history.
  lemma FaithfulStep(origin: World, h: History, e: Event, h': History)
    requires h + [e] <= h' && Faithful(origin, h')
    ensures Faithful(origin, h + [e]) && Faithful(origin, h) && Truthful(Now(origin, h), e)
    ensures Now(origin, h + [e]) == Next(Now(origin, h), e)
  {
    FaithfulBefore(origin, h + [e], h');
    FaithfulSnoc(origin, h, e);
    NowSnoc(origin, h, e);
  }

  lemma ObligingBefore(origin: World, h: History, h': History, from: nat)
    requires from <= |h| && h <= h' && Obliging(origin, h', from)
    ensures Obliging(origin, h, from)
  {
    assert forall i :: 0 <= i < |h| ==> h[..i] == h'[..i] && h[i] == h'[i];
  }
}
