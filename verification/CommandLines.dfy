// The command lines behind the commands, as they are handed to the operating system.
module CommandLines {
  import opened Wrappers
  import opened MountTable
  import opened Host

  // Commands about the mount table go through nsenter, unless no host proc path is set.
  function InHostNamespace(hostProc: string, line: seq<string>): seq<string> {
    if hostProc == "" then line
    else ["nsenter", "--mount=" + hostProc + "/1/ns/mnt", "--"] + line
  }

  predicate OsCommand(c: Command) {
    c.CatProcMounts? || c.Umount? || c.Lsblk? || c.LsblkAll? || c.Mkfs? || c.Fsck? || c.MountEntry?
  }

  function PropertyName(p: Property): string {
    match p
    case MOUNTPOINT => "MOUNTPOINT"
    case FSTYPE => "FSTYPE"
  }

  function CommandLine(hostProc: string, c: Command): seq<string>
    requires OsCommand(c)
  {
    match c
    case CatProcMounts => InHostNamespace(hostProc, ["cat", "/proc/mounts"])
    case Umount(path) => InHostNamespace(hostProc, ["umount", path])
    case Lsblk(property, device) => InHostNamespace(hostProc, ["lsblk", "-n", "-o", PropertyName(property), device])
    case LsblkAll => InHostNamespace(hostProc, ["lsblk"])
    case Mkfs(device) => ["mkfs.ext4", device]
    case Fsck(device) => ["fsck.ext4", "-p", device]
    case MountEntry(m) =>
      InHostNamespace(hostProc,
        ["mount"] + (if m.options == "" then [] else ["-o", m.options]) + ["-t", m.fsType, m.device, m.mountPoint])
  }

  // What a line says inside the host's mount namespace, if it is meant for it.
  function Bare(hostProc: string, line: seq<string>): Option<seq<string>> {
    if hostProc == "" then Some(line)
    else if |line| >= 3 && line[..3] == ["nsenter", "--mount=" + hostProc + "/1/ns/mnt", "--"] then Some(line[3..])
    else None
  }

  // The command a line stands for. Disks are formatted and checked in konlet's own
  // namespace, everything else happens in the host's.
  function ReadCommandLine(hostProc: string, line: seq<string>): Option<Command> {
    if |line| == 2 && line[0] == "mkfs.ext4" then Some(Mkfs(line[1]))
    else if |line| == 3 && line[..2] == ["fsck.ext4", "-p"] then Some(Fsck(line[2]))
    else match Bare(hostProc, line)
      case None => None
      case Some(bare) => ReadBareLine(bare)
  }

  function ReadBareLine(bare: seq<string>): Option<Command> {
    if bare == ["cat", "/proc/mounts"] then Some(CatProcMounts)
    else if bare == ["lsblk"] then Some(LsblkAll)
    else if |bare| == 2 && bare[0] == "umount" then Some(Umount(bare[1]))
    else if |bare| == 5 && bare[..4] == ["lsblk", "-n", "-o", "FSTYPE"] then Some(Lsblk(FSTYPE, bare[4]))
    else if |bare| == 5 && bare[..4] == ["lsblk", "-n", "-o", "MOUNTPOINT"] then Some(Lsblk(MOUNTPOINT, bare[4]))
    else if |bare| == 5 && bare[..2] == ["mount", "-t"] then Some(MountEntry(Mount(bare[3], bare[4], bare[2], "")))
    else if |bare| == 7 && bare[..2] == ["mount", "-o"] && bare[3] == "-t" then
      Some(MountEntry(Mount(bare[5], bare[6], bare[4], bare[2])))
    else None
  }

  lemma DistinctWords()
    ensures "cat" != "umount" && "cat" != "lsblk" && "cat" != "mkfs.ext4" && "cat" != "fsck.ext4" && "cat" != "mount"
    ensures "umount" != "lsblk" && "umount" != "mkfs.ext4" && "umount" != "fsck.ext4" && "umount" != "mount"
    ensures "lsblk" != "mkfs.ext4" && "lsblk" != "fsck.ext4" && "lsblk" != "mount"
    ensures "mkfs.ext4" != "fsck.ext4" && "mkfs.ext4" != "mount" && "fsck.ext4" != "mount"
    ensures "mkfs.ext4" != "nsenter" && "fsck.ext4" != "nsenter" && "mount" != "nsenter" && "lsblk" != "nsenter"
    ensures "cat" != "nsenter" && "umount" != "nsenter" && "FSTYPE" != "MOUNTPOINT"
  {
    assert "mkfs.ext4"[1] == 'k' && "mount"[0] == 'm' && "mount"[1] == 'o';
    assert "cat"[0] == 'c' && "umount"[0] == 'u' && "lsblk"[0] == 'l' && "fsck.ext4"[0] == 'f' && "nsenter"[0] == 'n';
    assert "mkfs.ext4"[0] == 'm' && |"FSTYPE"| == 6 && |"MOUNTPOINT"| == 10;
  }

  lemma ReadsBareLine(c: Command)
    requires OsCommand(c) && !c.Mkfs? && !c.Fsck?
    ensures ReadBareLine(CommandLine("", c)) == Some(c)
  {
    DistinctWords();
    match c
    case CatProcMounts =>
    case Umount(path) =>
    case Lsblk(property, device) =>
      assert CommandLine("", c)[..4] == ["lsblk", "-n", "-o", PropertyName(property)];
      assert ["lsblk", "-n", "-o", "FSTYPE"][3] != ["lsblk", "-n", "-o", "MOUNTPOINT"][3];
    case LsblkAll =>
    case MountEntry(m) =>
      assert "-o" != "-t" by { assert "-o"[1] == 'o' && "-t"[1] == 't'; }
      assert CommandLine("", c)[..2] == ["mount", if m.options == "" then "-t" else "-o"];
  }

  // No two commands share a command line, with or without the namespace switch.
  lemma CommandLineIsUnambiguous(hostProc: string, c: Command)
    requires OsCommand(c)
    ensures ReadCommandLine(hostProc, CommandLine(hostProc, c)) == Some(c)
  {
    DistinctWords();
    var line := CommandLine(hostProc, c);
    if c.Mkfs? || c.Fsck? {
      assert c.Fsck? ==> line[..2] == ["fsck.ext4", "-p"];
    } else {
      var bare := CommandLine("", c);
      ReadsBareLine(c);
      assert bare[0] != "mkfs.ext4" && bare[0] != "fsck.ext4";
      if hostProc != "" {
        var switch := ["nsenter", "--mount=" + hostProc + "/1/ns/mnt", "--"];
        assert line == switch + bare;
        assert line[..3] == switch && line[3..] == bare;
      }
    }
  }
}
