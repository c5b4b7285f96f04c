// What the discipline of module Discipline means on a truthful host: disks keep their
// data, nothing is mounted twice, foreign mounts stay, and so do the containers of others.
module HostSafety {
  import opened Wrappers
  import opened Text
  import opened Paths
  import opened MountTable
  import opened ApiTypes
  import opened Host
  import opened World
  import opened MountStacks
  import opened VolumeProtocol
  import opened Discipline
  import opened MountPoints
  import opened DockerSafety

  // ---------------------------------------------------------------- reading lsblk

  lemma {:induction false} CountTerminated(lines: seq<string>)
    requires forall i :: 0 <= i < |lines| ==> '\n' !in lines[i]
    ensures Count(Terminated(lines, "\n"), '\n') == |lines|
  {
    if lines != [] {
      CountTerminated(lines[1..]);
      CountZero(lines[0], '\n');
      CountConcat(lines[0] + "\n", Terminated(lines[1..], "\n"), '\n');
      CountConcat(lines[0], "\n", '\n');
      assert Count("\n", '\n') == 1;
    }
  }

  // A true report of at most one line is about a device without children, and trimming it
  // gives the value asked for. A true report on a device with children has more lines.
  lemma ReadReport(w: World, property: Property, device: string, output: string)
    requires device in w.devices && TrueReport(w, property, device, output)
    ensures Count(output, '\n') <= 1 <==> w.devices[device].children == []
    ensures Count(output, '\n') <= 1 && property == FSTYPE ==> TrimSpace(output) == w.devices[device].fsType
    ensures Count(output, '\n') <= 1 && property == MOUNTPOINT ==>
      (TrimSpace(output) == "" <==> !Mounted(w.mounts, device))
  {
    var lines: seq<string> :|
      && |lines| == 1 + |w.devices[device].children|
      && output == Terminated(lines, "\n")
      && (forall i :: 0 <= i < |lines| ==> '\n' !in lines[i])
      && (property == FSTYPE ==> TrimSpace(lines[0]) == w.devices[device].fsType)
      && (property == MOUNTPOINT ==> (TrimSpace(lines[0]) == "" <==> !Mounted(w.mounts, device)));
    CountTerminated(lines);
    if |lines| == 1 {
      assert lines[1..] == [];
      assert output == lines[0] + "\n";
      TrimSpaceIgnoresNewline(lines[0]);
    }
  }

  // ---------------------------------------------------------------- mounts of a device

  function DeviceMounts(table: seq<Mount>, device: string): nat {
    if table == [] then 0
    else DeviceMounts(table[..|table| - 1], device) + if table[|table| - 1].device == device then 1 else 0
  }

  lemma {:induction false} NotMountedCountsZero(table: seq<Mount>, device: string)
    ensures DeviceMounts(table, device) == 0 <==> !Mounted(table, device)
  {
    if table != [] {
      var init, last := table[..|table| - 1], table[|table| - 1];
      assert table == init + [last];
      NotMountedCountsZero(init, device);
      if Mounted(init, device) {
        var m :| m in init && m.device == device;
        assert m in table;
      }
      assert last in table;
    }
  }

  lemma {:induction false} PopTopAddsNoMount(table: seq<Mount>, path: string, device: string)
    ensures DeviceMounts(PopTop(table, path), device) <= DeviceMounts(table, device)
  {
    if table != [] && table[|table| - 1].mountPoint != path {
      var rest := PopTop(table[..|table| - 1], path);
      PopTopAddsNoMount(table[..|table| - 1], path, device);
      assert (rest + [table[|table| - 1]])[..|rest|] == rest;
    }
  }

  // ---------------------------------------------------------------- disks keep their data

  // Each device is as it was, or was blank and has been formatted.
  ghost predicate OnlyBlankFormatted(before: map<string, Device>, after: map<string, Device>) {
    && after.Keys == before.Keys
    && forall d :: d in before ==>
      after[d] == before[d]
      || (before[d].fsType == "" && before[d].children == [] && after[d] == Device(EXT4, true, [], ""))
  }

  lemma LsblkChangesNothing(origin: World, h: History, e: Event)
    requires e.Statted? || (e.Ran? && e.command.Lsblk?)
    ensures Now(origin, h + [e]) == Now(origin, h)
  {
    NowSnoc(origin, h, e);
  }

  lemma BlankReportIsTrue(w: World, property: Property, device: string, reply: Result<string, string>)
    requires Truthful(w, Ran(Lsblk(property, device), reply)) && BlankReport(reply)
    ensures device in w.devices && w.devices[device].children == []
    ensures property == FSTYPE ==> w.devices[device].fsType == ""
    ensures property == MOUNTPOINT ==> !Mounted(w.mounts, device)
  {
    TrimSpaceEmpty(reply.value);
    ReadReport(w, property, device, reply.value);
  }

  lemma TwoBlankReports(origin: World, h: History, device: string,
                        r1: Result<string, string>, r2: Result<string, string>)
    requires BlankReport(r1) && BlankReport(r2)
    requires Faithful(origin, h + [Ran(Lsblk(MOUNTPOINT, device), r1)] + [Ran(Lsblk(FSTYPE, device), r2)])
    ensures var w := Now(origin, h + [Ran(Lsblk(MOUNTPOINT, device), r1)] + [Ran(Lsblk(FSTYPE, device), r2)]);
      && device in w.devices && w.devices[device].fsType == "" && w.devices[device].children == []
      && !Mounted(w.mounts, device)
  {
    var e1, e2 := Ran(Lsblk(MOUNTPOINT, device), r1), Ran(Lsblk(FSTYPE, device), r2);
    LsblkChangesNothing(origin, h, e1);
    LsblkChangesNothing(origin, h + [e1], e2);
    FaithfulSnoc(origin, h + [e1], e2);
    FaithfulSnoc(origin, h, e1);
    BlankReportIsTrue(Now(origin, h), MOUNTPOINT, device, r1);
    BlankReportIsTrue(Now(origin, h), FSTYPE, device, r2);
  }

  lemma FormatReadySplits(h: History, device: string)
    returns (past: History, r1: Result<string, string>, r2: Result<string, string>)
    requires FormatReady(h, device)
    ensures BlankReport(r1) && BlankReport(r2)
    ensures h == past + [Ran(Lsblk(MOUNTPOINT, device), r1)] + [Ran(Lsblk(FSTYPE, device), r2)]
  {
    past, r1, r2 := h[..|h| - 2], h[|h| - 2].reply, h[|h| - 1].reply;
  }

  // On a truthful host, a device is formatted only while it has no filesystem, no
  // children and no mount.
  lemma FormatReadyIsBlank(origin: World, h: History, device: string)
    requires Faithful(origin, h) && FormatReady(h, device)
    ensures var w := Now(origin, h);
      && device in w.devices && w.devices[device].fsType == "" && w.devices[device].children == []
      && !Mounted(w.mounts, device)
  {
    var past, r1, r2 := FormatReadySplits(h, device);
    TwoBlankReports(origin, past, device, r1, r2);
  }

  lemma NextKeepsData(before: map<string, Device>, w: World, e: Event)
    requires OnlyBlankFormatted(before, w.devices)
    requires e.Ran? && e.command.Mkfs? ==>
      && e.command.device in w.devices && w.devices[e.command.device].fsType == ""
      && w.devices[e.command.device].children == []
    ensures OnlyBlankFormatted(before, Next(w, e).devices)
  {
  }

  lemma {:induction false} DataKept(origin: World, prefix: string, h: History)
    requires Faithful(origin, h) && Disciplined(prefix, h)
    ensures OnlyBlankFormatted(origin.devices, Now(origin, h).devices)
  {
    if h != [] {
      var init, e := h[..|h| - 1], h[|h| - 1];
      assert h == init + [e];
      FaithfulSnoc(origin, init, e);
      DisciplinedSnoc(prefix, init, e);
      DataKept(origin, prefix, init);
      if e.Ran? && e.command.Mkfs? {
        FormatReadyIsBlank(origin, init, e.command.device);
      }
      NextKeepsData(origin.devices, Now(origin, init), e);
    }
  }

  // ---------------------------------------------------------------- foreign mounts stay

  // The mounts of the history that landed where the code does not recognise them, in order.
  function Strays(prefix: string, h: History): seq<Mount> {
    if h == [] then []
    else Strays(prefix, h[..|h| - 1]) + StrayOf(prefix, h[|h| - 1])
  }

  function StrayOf(prefix: string, e: Event): seq<Mount> {
    match e
    case Ran(MountEntry(m), Ok(_)) => if Managed(prefix, Landed(m)) then [] else [Landed(m)]
    case _ => []
  }

  lemma StraysSnoc(prefix: string, h: History, e: Event, before: seq<Mount>)
    ensures before + Strays(prefix, h + [e]) == before + Strays(prefix, h) + StrayOf(prefix, e)
  {
    assert (h + [e])[..|h|] == h;
  }

  lemma NextKeepsForeign(prefix: string, w: World, e: Event)
    requires e.Ran? && e.command.Umount? ==> HasPrefix(e.command.mountPoint, prefix)
    ensures Unmanaged(prefix, Next(w, e).mounts) == Unmanaged(prefix, w.mounts) + StrayOf(prefix, e)
    ensures Next(w, e).images == w.images
  {
    if e.Ran? && e.reply.Ok? && e.command.Umount? {
      PopTopKeepsUnmanaged(prefix, w.mounts, e.command.mountPoint);
    } else if e.Ran? && e.reply.Ok? && e.command.MountEntry? {
      UnmanagedSnoc(prefix, w.mounts, Landed(e.command.mount));
    }
  }

  // The foreign mounts are those there were and then the strays, none of which ever goes.
  lemma {:induction false} ForeignMountsKept(origin: World, prefix: string, h: History)
    requires Disciplined(prefix, h)
    ensures Unmanaged(prefix, Now(origin, h).mounts) == Unmanaged(prefix, origin.mounts) + Strays(prefix, h)
    ensures Now(origin, h).images == origin.images
  {
    if h != [] {
      var init, e := h[..|h| - 1], h[|h| - 1];
      assert h == init + [e];
      DisciplinedSnoc(prefix, init, e);
      ForeignMountsKept(origin, prefix, init);
      NextKeepsForeign(prefix, Now(origin, init), e);
      NowSnoc(origin, init, e);
      StraysSnoc(prefix, init, e, Unmanaged(prefix, origin.mounts));
    }
  }

  // No stray is ever taken away again.
  lemma {:induction false} StraysStay(prefix: string, h: History, h': History)
    requires h <= h'
    ensures Strays(prefix, h) <= Strays(prefix, h')
    decreases |h'|
  {
    if |h'| > |h| {
      StraysStay(prefix, h, h'[..|h'| - 1]);
    } else {
      assert h' == h;
    }
  }

  lemma StrayStaysMounted(origin: World, prefix: string, h: History, h': History, m: Mount)
    requires h <= h' && Disciplined(prefix, h') && m in Strays(prefix, h)
    ensures m in Now(origin, h').mounts
  {
    var table := Now(origin, h').mounts;
    StraysStay(prefix, h, h');
    ForeignMountsKept(origin, prefix, h');
    assert m in Unmanaged(prefix, table);
    TwoSides(prefix, table);
  }

  // There are none where all declared mount points land managed.
  lemma {:induction false} NoStrays(prefix: string, volumes: seq<Volume>, h: History)
    requires MountsDeclared(prefix, volumes, 0, h) && LandManaged(prefix, volumes)
    ensures Strays(prefix, h) == []
  {
    if h != [] {
      NoStrays(prefix, volumes, h[..|h| - 1]);
      assert h[|h| - 1] == h[|h| - 1];
    }
  }

  lemma NextKeepsNoSiblings(prefix: string, w: World, e: Event)
    requires NoSiblings(prefix, w.mounts)
    requires e.Ran? && e.command.MountEntry? ==> Under(prefix, Landed(e.command.mount).mountPoint)
    ensures NoSiblings(prefix, Next(w, e).mounts)
  {
    if e.Ran? && e.reply.Ok? && e.command.Umount? {
      PopTopTakesFromTable(w.mounts, e.command.mountPoint);
    } else if e.Ran? && e.reply.Ok? && e.command.MountEntry? {
      ManagedIsUnderOrSibling(prefix, Landed(e.command.mount));
    }
  }

  lemma {:induction false} NoSiblingsAppear(origin: World, prefix: string, volumes: seq<Volume>, h: History)
    requires MountsDeclared(prefix, volumes, 0, h) && LandInside(prefix, volumes) && NoSiblings(prefix, origin.mounts)
    ensures NoSiblings(prefix, Now(origin, h).mounts)
  {
    if h != [] {
      var init, e := h[..|h| - 1], h[|h| - 1];
      assert h == init + [e];
      NowSnoc(origin, init, e);
      NoSiblingsAppear(origin, prefix, volumes, init);
      NextKeepsNoSiblings(prefix, Now(origin, init), e);
    }
  }

  lemma InsideIsManaged(prefix: string, volumes: seq<Volume>)
    requires LandInside(prefix, volumes)
    ensures LandManaged(prefix, volumes)
  {
    forall path | Declares(prefix, volumes, path)
      ensures HasPrefix(Canonical(path), prefix)
    {
      assert HasPrefix(prefix + "/", prefix);
    }
  }

  // Where no mount point extends the prefix without a slash and all declared mount points
  // land in the managed directory, all mounts outside it stay as they were.
  lemma OutsideMountsKept(origin: World, prefix: string, volumes: seq<Volume>, h: History)
    requires Disciplined(prefix, h) && NoSiblings(prefix, origin.mounts)
    requires MountsDeclared(prefix, volumes, 0, h) && LandInside(prefix, volumes)
    ensures Outside(prefix, Now(origin, h).mounts) == Outside(prefix, origin.mounts)
  {
    NoSiblingsAppear(origin, prefix, volumes, h);
    ForeignMountsKept(origin, prefix, h);
    InsideIsManaged(prefix, volumes);
    NoStrays(prefix, volumes, h);
    OutsideIsUnmanaged(prefix, origin.mounts);
    OutsideIsUnmanaged(prefix, Now(origin, h).mounts);
  }

  // ---------------------------------------------------------------- no double mount

  lemma {:induction false} KnownFreeIsTrue(origin: World, h: History)
    requires Faithful(origin, h)
    ensures forall d :: d in KnownFree(h) ==> !Mounted(Now(origin, h).mounts, d)
  {
    if h != [] {
      var init, e := h[..|h| - 1], h[|h| - 1];
      assert h == init + [e];
      FaithfulSnoc(origin, init, e);
      NowSnoc(origin, init, e);
      KnownFreeSnoc(init, e);
      KnownFreeIsTrue(origin, init);
      if e.Ran? && e.reply.Ok? {
        if e.command.Lsblk? && e.command.property == MOUNTPOINT && BlankReport(e.reply) {
          TrimSpaceEmpty(e.reply.value);
          ReadReport(Now(origin, init), MOUNTPOINT, e.command.device, e.reply.value);
        } else if e.command.Umount? {
          PopTopTakesFromTable(Now(origin, init).mounts, e.command.mountPoint);
        }
      }
    }
  }

  // Every persistent-disk device is mounted at most once.
  ghost predicate MountedOnce(table: seq<Mount>) {
    forall d :: HasPrefix(d, DEVICE_PREFIX) ==> DeviceMounts(table, d) <= 1
  }

  lemma DeviceMountsSnoc(table: seq<Mount>, m: Mount, device: string)
    ensures DeviceMounts(table + [m], device) == DeviceMounts(table, device) + if m.device == device then 1 else 0
  {
    assert (table + [m])[..|table|] == table;
  }

  lemma MountingKeepsOnce(prefix: string, free: set<string>, table: seq<Mount>, m: Mount)
    requires MountedOnce(table) && MountAllowed(prefix, free, m)
    requires forall d :: d in free ==> !Mounted(table, d)
    ensures MountedOnce(table + [Landed(m)])
  {
    assert TMPFS[0] != DEVICE_PREFIX[0];
    forall d | HasPrefix(d, DEVICE_PREFIX)
      ensures DeviceMounts(table + [Landed(m)], d) <= 1
    {
      DeviceMountsSnoc(table, Landed(m), d);
      NotMountedCountsZero(table, d);
    }
  }

  lemma PoppingKeepsOnce(table: seq<Mount>, path: string)
    requires MountedOnce(table)
    ensures MountedOnce(PopTop(table, path))
  {
    forall d | HasPrefix(d, DEVICE_PREFIX)
      ensures DeviceMounts(PopTop(table, path), d) <= 1
    {
      PopTopAddsNoMount(table, path, d);
    }
  }

  lemma NextKeepsOnce(prefix: string, free: set<string>, w: World, e: Event)
    requires MountedOnce(w.mounts) && forall d :: d in free ==> !Mounted(w.mounts, d)
    requires e.Ran? && e.command.MountEntry? ==> MountAllowed(prefix, free, e.command.mount)
    ensures MountedOnce(Next(w, e).mounts)
  {
    if e.Ran? && e.reply.Ok? && e.command.Umount? {
      PoppingKeepsOnce(w.mounts, e.command.mountPoint);
    } else if e.Ran? && e.reply.Ok? && e.command.MountEntry? {
      MountingKeepsOnce(prefix, free, w.mounts, e.command.mount);
    }
  }

  lemma {:induction false} NoDoubleMount(origin: World, prefix: string, h: History)
    requires Faithful(origin, h) && Disciplined(prefix, h) && MountedOnce(origin.mounts)
    ensures MountedOnce(Now(origin, h).mounts)
  {
    if h != [] {
      var init, e := h[..|h| - 1], h[|h| - 1];
      assert h == init + [e];
      FaithfulSnoc(origin, init, e);
      DisciplinedSnoc(prefix, init, e);
      NowSnoc(origin, init, e);
      NoDoubleMount(origin, prefix, init);
      KnownFreeIsTrue(origin, init);
      NextKeepsOnce(prefix, KnownFree(init), Now(origin, init), e);
    }
  }

  // ---------------------------------------------------------------- the table stays readable

  // Every line is short enough for the reader and no managed mount looks like a comment.
  ghost predicate TableFits(prefix: string, table: seq<Mount>) {
    forall m :: m in table ==> !TooLong(PrintEntry(m)) && (Managed(prefix, m) ==> !ReadAsComment(m))
  }

  lemma FittingTableIsReadable(prefix: string, table: seq<Mount>)
    requires TableFits(prefix, table)
    ensures Readable(prefix, table)
  {
    assert forall i :: 0 <= i < |table| ==> table[i] in table;
  }

  lemma AsciiLength(s: string)
    requires s == "ext4" || s == "tmpfs" || s == "ro" || s == "rw" || s == " " || s == "0 0"
    ensures ByteLength(s) == |s| && |s| <= 5
  {
    ByteLengthOfAscii(s);
  }

  lemma {:induction false} ByteLengthOfAscii(s: string)
    requires forall i :: 0 <= i < |s| ==> s[i] as int < 0x80
    ensures ByteLength(s) == |s|
  {
    if s != "" {
      ByteLengthOfAscii(s[1..]);
    }
  }

  lemma SpacedLength(s: string, t: string)
    ensures ByteLength(s + [' '] + t) == ByteLength(s) + 1 + ByteLength(t)
  {
    AsciiLength(" ");
    ByteLengthConcat(s, [' ']);
    ByteLengthConcat(s + [' '], t);
  }

  lemma PrintedEntryLength(m: Mount)
    ensures ByteLength(PrintEntry(m)) <=
      4 * (ByteLength(m.device) + ByteLength(m.mountPoint) + ByteLength(m.fsType) + ByteLength(m.options)) + 7
  {
    EscapeGrowsAtMostFourfold(m.device);
    EscapeGrowsAtMostFourfold(m.mountPoint);
    EscapeGrowsAtMostFourfold(m.fsType);
    EscapeGrowsAtMostFourfold(m.options);
    var tail1 := Escape(m.options) + [' '] + "0 0";
    var tail2 := Escape(m.fsType) + [' '] + tail1;
    var tail3 := Escape(m.mountPoint) + [' '] + tail2;
    AsciiLength("0 0");
    SpacedLength(Escape(m.options), "0 0");
    SpacedLength(Escape(m.fsType), tail1);
    SpacedLength(Escape(m.mountPoint), tail2);
    SpacedLength(Escape(m.device), tail3);
  }

  // The kernel's limit on paths keeps konlet's own entries below the scanner's limit.
  lemma KonletEntryFits(prefix: string, free: set<string>, m: Mount)
    requires MountAllowed(prefix, free, m) && FitsPathMax(m)
    ensures !TooLong(PrintEntry(Landed(m))) && !ReadAsComment(Landed(m))
  {
    PrintedEntryLength(Landed(m));
    CanonicalLength(m.mountPoint);
    AsciiLength(m.fsType);
    AsciiLength(m.options);
    assert TMPFS[0] == 't' && DEVICE_PREFIX[0] == '/';
    assert m.device[0] == 't' || m.device[0] == '/';
  }

  lemma NextKeepsTable(prefix: string, free: set<string>, w: World, e: Event)
    requires TableFits(prefix, w.mounts)
    requires e.Ran? && e.command.MountEntry? && e.reply.Ok? ==>
      MountAllowed(prefix, free, e.command.mount) && FitsPathMax(e.command.mount)
    ensures TableFits(prefix, Next(w, e).mounts)
  {
    if e.Ran? && e.reply.Ok? && e.command.Umount? {
      PopTopTakesFromTable(w.mounts, e.command.mountPoint);
    } else if e.Ran? && e.reply.Ok? && e.command.MountEntry? {
      KonletEntryFits(prefix, free, e.command.mount);
    }
  }

  lemma {:induction false} TableStaysReadable(origin: World, prefix: string, h: History)
    requires Faithful(origin, h) && Disciplined(prefix, h) && TableFits(prefix, origin.mounts)
    ensures TableFits(prefix, Now(origin, h).mounts)
  {
    if h != [] {
      var init, e := h[..|h| - 1], h[|h| - 1];
      assert h == init + [e];
      FaithfulSnoc(origin, init, e);
      DisciplinedSnoc(prefix, init, e);
      TableStaysReadable(origin, prefix, init);
      NextKeepsTable(prefix, KnownFree(init), Now(origin, init), e);
    }
  }

  // ---------------------------------------------------------------- whole histories

  // Whatever runs there have been, of whatever declarations, complete or cut off: at every
  // moment the disks that held something hold it still; the mounts the code does not take
  // for konlet's are those there were and then the strays, of which there are none if all
  // declared mount points land managed; where they land in the managed directory and no
  // other directory extends its name, everything mounted outside it is as it was; no
  // persistent disk is mounted twice; the containers konlet does not recognise are as they
  // were; and one klt container exists at most.
  lemma SafeAtEveryMoment(origin: World, o: Oracle, prefix: string, attempts: seq<Attempt>, moment: nat)
    requires WalksMaps(o) && moment <= |Attempts(o, prefix, attempts)|
    requires Faithful(origin, Attempts(o, prefix, attempts)[..moment])
    ensures var h, volumes := Attempts(o, prefix, attempts)[..moment], VolumesOf(attempts);
      var w, declared := Now(origin, h), DeclaredBy(attempts);
      && OnlyBlankFormatted(origin.devices, w.devices)
      && Unmanaged(prefix, w.mounts) == Unmanaged(prefix, origin.mounts) + Strays(prefix, h)
      && (LandManaged(prefix, volumes) ==> Strays(prefix, h) == [])
      && (LandInside(prefix, volumes) && NoSiblings(prefix, origin.mounts) ==>
          Outside(prefix, w.mounts) == Outside(prefix, origin.mounts))
      && (MountedOnce(origin.mounts) ==> MountedOnce(w.mounts))
      && (UniqueIds(origin.containers) ==> Others(w.containers, declared) == Others(origin.containers, declared))
      && (|KltContainers(origin.containers)| <= 1 ==> |KltContainers(w.containers)| <= 1)
  {
    var all, volumes := Attempts(o, prefix, attempts), VolumesOf(attempts);
    var h := all[..moment];
    AttemptsKeepDiscipline(o, prefix, attempts);
    DisciplinedPrefix(prefix, all, moment);
    DataKept(origin, prefix, h);
    ForeignMountsKept(origin, prefix, h);
    AttemptsMountDeclared(o, prefix, attempts);
    if LandManaged(prefix, volumes) {
      NoStrays(prefix, volumes, h);
    }
    if LandInside(prefix, volumes) && NoSiblings(prefix, origin.mounts) {
      OutsideMountsKept(origin, prefix, volumes, h);
    }
    if MountedOnce(origin.mounts) {
      NoDoubleMount(origin, prefix, h);
    }
    if UniqueIds(origin.containers) {
      AttemptsSpareOthers(origin, o, prefix, attempts, DeclaredBy(attempts), moment);
    }
    if |KltContainers(origin.containers)| <= 1 {
      AtMostOneKlt(origin, prefix, h);
    }
  }

  // Whatever the host answers, mkfs comes right after a look at a block device and two
  // blank one-line reports; if the answers are true, the device is blank and idle.
  lemma FormatSafety(origin: World, o: Oracle, prefix: string, attempts: seq<Attempt>, i: nat)
    requires WalksMaps(o)
    requires var h := Attempts(o, prefix, attempts); i < |h| && h[i].Ran? && h[i].command.Mkfs?
    ensures var h, device := Attempts(o, prefix, attempts), Attempts(o, prefix, attempts)[i].command.device;
      && FormatReady(h[..i], device)
      && (Faithful(origin, h[..i]) ==>
          var w := Now(origin, h[..i]);
          && device in w.devices && w.devices[device].fsType == "" && w.devices[device].children == []
          && !Mounted(w.mounts, device))
  {
    var h := Attempts(o, prefix, attempts);
    AttemptsKeepDiscipline(o, prefix, attempts);
    if Faithful(origin, h[..i]) {
      FormatReadyIsBlank(origin, h[..i], h[i].command.device);
    }
  }
}
