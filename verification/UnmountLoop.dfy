// What the best-effort unmount loop leaves behind, on a truthful host where mounts may be
// stacked and nested and any umount may fail, and on one that fails nothing without need.
module UnmountLoop {
  import opened Wrappers
  import opened Text
  import opened MountTable
  import opened ApiTypes
  import opened Host
  import opened World
  import opened MountStacks
  import opened VolumeProtocol
  import opened HostSafety

  // ---------------------------------------------------------------- the loop

  function FailuresAt(failures: seq<Failure>, path: string): nat {
    if failures == [] then 0
    else (if failures[0].mount.mountPoint == path then 1 else 0) + FailuresAt(failures[1..], path)
  }

  // The mounts of the snapshot whose umounts, the events from the given one on, were refused.
  function Refused(h: History, from: nat, snapshot: seq<Mount>): seq<Failure>
    requires |h| == from + |snapshot|
    decreases |snapshot|
  {
    if snapshot == [] then []
    else
      (match h[from]
       case Ran(_, Err(detail)) => [Failure(snapshot[0], detail)]
       case _ => [])
      + Refused(h, from + 1, snapshot[1..])
  }

  ghost predicate TriesEach(h: History, from: nat, snapshot: seq<Mount>)
    requires |h| == from + |snapshot|
  {
    forall i :: from <= i < |h| ==> h[i].Ran? && h[i].command == Umount(snapshot[i - from].mountPoint)
  }

  // The loop tries every mount of the snapshot once, in order, whatever the replies, and
  // the failures are exactly the mounts whose umount was refused, in order.
  lemma {:induction false} UnmountAllTriesEach(o: Oracle, h: History, snapshot: seq<Mount>)
    ensures var done := UnmountAll(o, h, snapshot);
      && h <= done.history && |done.history| == |h| + |snapshot|
      && TriesEach(done.history, |h|, snapshot)
      && done.failures == Refused(done.history, |h|, snapshot)
    decreases |snapshot|
  {
    if snapshot != [] {
      var h1 := After(o, h, Umount(snapshot[0].mountPoint));
      var end := UnmountAll(o, h1, snapshot[1..]).history;
      UnmountAllTriesEach(o, h1, snapshot[1..]);
      assert end[|h|] == h1[|h|];
      forall i | |h| <= i < |end|
        ensures end[i].Ran? && end[i].command == Umount(snapshot[i - |h|].mountPoint)
      {
        assert i > |h| ==> snapshot[1..][i - |h1|] == snapshot[i - |h|];
      }
    }
  }

  lemma UnmountAllExtends(o: Oracle, h: History, snapshot: seq<Mount>)
    ensures h <= UnmountAll(o, h, snapshot).history
  {
    UnmountAllTriesEach(o, h, snapshot);
  }

  lemma UnmountAllUnfolds(o: Oracle, h: History, snapshot: seq<Mount>, path: string)
    requires snapshot != []
    ensures var m, tail, c := snapshot[0], snapshot[1..], Umount(snapshot[0].mountPoint);
      var done, rest := UnmountAll(o, h, snapshot), UnmountAll(o, After(o, h, c), tail);
      && done.history == rest.history
      && |At(snapshot, path)| == |At(tail, path)| + (if m.mountPoint == path then 1 else 0)
      && FailuresAt(done.failures, path) == FailuresAt(rest.failures, path)
         + (if o.run(h, c).Err? && m.mountPoint == path then 1 else 0)
  {
    AtCons(snapshot[0], snapshot[1..], path);
    assert snapshot == [snapshot[0]] + snapshot[1..];
    var rest := UnmountAll(o, After(o, h, Umount(snapshot[0].mountPoint)), snapshot[1..]);
    var done := UnmountAll(o, h, snapshot);
    assert done.failures != rest.failures ==> done.failures[1..] == rest.failures;
  }

  // At every path the loop takes away as many mounts as umounts succeeded there, from the
  // top of the stack.
  lemma {:induction false} UnmountAllAt(origin: World, o: Oracle, h: History, snapshot: seq<Mount>, path: string)
    requires Faithful(origin, UnmountAll(o, h, snapshot).history)
    ensures var done := UnmountAll(o, h, snapshot);
      var before, after := At(Now(origin, h).mounts, path), At(Now(origin, done.history).mounts, path);
      && FailuresAt(done.failures, path) <= |At(snapshot, path)|
      && |after| == |before| - (|At(snapshot, path)| - FailuresAt(done.failures, path))
      && after <= before
    decreases |snapshot|
  {
    if snapshot != [] {
      var c := Umount(snapshot[0].mountPoint);
      var h1, reply := After(o, h, c), o.run(h, c);
      UnmountAllUnfolds(o, h, snapshot, path);
      UnmountAllExtends(o, h1, snapshot[1..]);
      FaithfulStep(origin, h, Ran(c, reply), UnmountAll(o, h1, snapshot[1..]).history);
      UnmountAllAt(origin, o, h1, snapshot[1..], path);
      if reply.Ok? {
        DetachableIsMounted(Now(origin, h).mounts, c.mountPoint);
        PopTopAt(Now(origin, h).mounts, c.mountPoint, path);
      }
    }
  }

  // Nothing but the mount table changes, and of that nothing foreign.
  lemma {:induction false} UnmountAllFrame(origin: World, prefix: string, o: Oracle, h: History, snapshot: seq<Mount>)
    requires forall m :: m in snapshot ==> Managed(prefix, m)
    ensures var w, w' := Now(origin, h), Now(origin, UnmountAll(o, h, snapshot).history);
      w' == w.(mounts := w'.mounts) && Unmanaged(prefix, w'.mounts) == Unmanaged(prefix, w.mounts)
    decreases |snapshot|
  {
    if snapshot != [] {
      var c := Umount(snapshot[0].mountPoint);
      var e := Ran(c, o.run(h, c));
      assert snapshot[0] in snapshot;
      NowSnoc(origin, h, e);
      NextKeepsForeign(prefix, Now(origin, h), e);
      assert Unmanaged(prefix, Now(origin, h).mounts) + [] == Unmanaged(prefix, Now(origin, h).mounts);
      UnmountAllFrame(origin, prefix, o, After(o, h, c), snapshot[1..]);
    }
  }

  // On a host that refuses nothing it could do, the loop is a sweep, and nothing fails
  // exactly if every mount of the snapshot is gone.
  lemma {:induction false} UnmountAllSweeps(origin: World, o: Oracle, h: History, snapshot: seq<Mount>, from: nat)
    requires from <= |h|
    requires var end := UnmountAll(o, h, snapshot).history; Faithful(origin, end) && Obliging(origin, end, from)
    ensures var done, table := UnmountAll(o, h, snapshot), Now(origin, h).mounts;
      && Now(origin, done.history).mounts == SweepAll(table, snapshot)
      && |SweepAll(table, snapshot)| + |snapshot| == |table| + |done.failures|
    decreases |snapshot|
  {
    if snapshot != [] {
      var path, tail := snapshot[0].mountPoint, snapshot[1..];
      var e := Ran(Umount(path), o.run(h, Umount(path)));
      var h1, end := h + [e], UnmountAll(o, h, snapshot).history;
      UnmountAllExtends(o, h1, tail);
      FaithfulStep(origin, h, e, end);
      assert Willing(Now(origin, end[..|h|]), end[|h|]) && end[..|h|] == h && end[|h|] == e;
      UnmountAllSweeps(origin, o, h1, tail, from);
      if Detachable(Now(origin, h).mounts, path) {
        DetachableIsMounted(Now(origin, h).mounts, path);
        PopTopAt(Now(origin, h).mounts, path, path);
      }
    }
  }

  // ---------------------------------------------------------------- the whole cleanup

  // Reading the table changes nothing, and what was read is what the reader can see.
  lemma CleanupReads(origin: World, a: Agent, h: History)
    requires Faithful(origin, UnmountExisting(a, h).history) && a.oracle.run(h, CatProcMounts).Ok?
    ensures var h1, text, w := After(a.oracle, h, CatProcMounts), a.oracle.run(h, CatProcMounts), Now(origin, h);
      && Now(origin, h1) == w
      && ParseTable(a.prefix, text.value) == Visible(a.prefix, w.mounts)
      && UnmountExisting(a, h).history == UnmountAll(a.oracle, h1, Visible(a.prefix, w.mounts)).history
  {
    var w, h1, text := Now(origin, h), After(a.oracle, h, CatProcMounts), a.oracle.run(h, CatProcMounts);
    UnmountAllExtends(a.oracle, h1, ParseTable(a.prefix, text.value));
    FaithfulStep(origin, h, Ran(CatProcMounts, text), UnmountExisting(a, h).history);
    ParsePrintedTable(a.prefix, w.mounts);
  }

  // Once the table has been read, whatever it holds: foreign mounts are untouched and in
  // order; each managed path loses one mount, from the top, for each of its mounts the
  // reader saw and whose umount did not fail; the outcome is an error exactly when some
  // umount failed, and then joins the messages; and if none failed, a managed mount is
  // left exactly if the table was not readable.
  lemma CleanupExact(origin: World, a: Agent, h: History)
    requires Faithful(origin, UnmountExisting(a, h).history) && a.oracle.run(h, CatProcMounts).Ok?
    ensures var s, w := UnmountExisting(a, h), Now(origin, h);
      var w', snapshot := Now(origin, s.history), Visible(a.prefix, w.mounts);
      var done := UnmountAll(a.oracle, After(a.oracle, h, CatProcMounts), snapshot);
      && s.history == done.history
      && w' == w.(mounts := w'.mounts) && Unmanaged(a.prefix, w'.mounts) == Unmanaged(a.prefix, w.mounts)
      && (forall path :: HasPrefix(path, a.prefix) ==>
          && At(w'.mounts, path) <= At(w.mounts, path)
          && |At(w'.mounts, path)| == |At(w.mounts, path)| - |At(snapshot, path)| + FailuresAt(done.failures, path))
      && s.outcome == (if done.failures == [] then Ok(())
                       else Err(UnmountFailed(Join(Messages(done.failures), "\n"))))
      && (s.outcome.Ok? ==> (OnlyManaged(a.prefix, w'.mounts) == [] <==> Readable(a.prefix, w.mounts)))
  {
    var w, h1 := Now(origin, h), After(a.oracle, h, CatProcMounts);
    var snapshot := Visible(a.prefix, w.mounts);
    var done := UnmountAll(a.oracle, h1, snapshot);
    CleanupReads(origin, a, h);
    VisibleIsManaged(a.prefix, w.mounts);
    UnmountAllFrame(origin, a.prefix, a.oracle, h1, snapshot);
    forall path | HasPrefix(path, a.prefix)
      ensures At(Now(origin, done.history).mounts, path) <= At(w.mounts, path)
      ensures |At(Now(origin, done.history).mounts, path)|
           == |At(w.mounts, path)| - |At(snapshot, path)| + FailuresAt(done.failures, path)
    {
      UnmountAllAt(origin, a.oracle, h1, snapshot, path);
    }
    if done.failures == [] {
      UnmountAllTakes(origin, a.oracle, h1, snapshot);
      AllTakenIffReadable(a.prefix, w.mounts, Now(origin, done.history).mounts);
    }
  }

  lemma {:induction false} UnmountAllTakes(origin: World, o: Oracle, h: History, snapshot: seq<Mount>)
    requires Faithful(origin, UnmountAll(o, h, snapshot).history)
    ensures var done := UnmountAll(o, h, snapshot);
      |Now(origin, done.history).mounts| + |snapshot| == |Now(origin, h).mounts| + |done.failures|
    decreases |snapshot|
  {
    if snapshot != [] {
      var c := Umount(snapshot[0].mountPoint);
      var h1, reply := After(o, h, c), o.run(h, c);
      UnmountAllExtends(o, h1, snapshot[1..]);
      FaithfulStep(origin, h, Ran(c, reply), UnmountAll(o, h1, snapshot[1..]).history);
      UnmountAllTakes(origin, o, h1, snapshot[1..]);
      if reply.Ok? {
        DetachableIsMounted(Now(origin, h).mounts, c.mountPoint);
        PopTopAt(Now(origin, h).mounts, c.mountPoint, c.mountPoint);
      }
    }
  }

  lemma AllTakenIffReadable(prefix: string, before: seq<Mount>, after: seq<Mount>)
    requires Unmanaged(prefix, after) == Unmanaged(prefix, before)
    requires |after| + |Visible(prefix, before)| == |before|
    ensures OnlyManaged(prefix, after) == [] <==> Readable(prefix, before)
  {
    TwoSides(prefix, before);
    TwoSides(prefix, after);
    VisibleIffReadable(prefix, before);
    if OnlyManaged(prefix, after) == [] {
      VisibleByCount(prefix, before);
    }
  }

  // An obliging host lets the table be read and swept.
  lemma CleanupSweeps(origin: World, a: Agent, h: History, from: nat)
    requires from <= |h|
    requires var end := UnmountExisting(a, h).history; Faithful(origin, end) && Obliging(origin, end, from)
    ensures var s, w := UnmountExisting(a, h), Now(origin, h);
      && Now(origin, s.history) == w.(mounts := Sweep(a.prefix, w.mounts))
      && (s.outcome.Ok? <==> |Sweep(a.prefix, w.mounts)| + |Visible(a.prefix, w.mounts)| == |w.mounts|)
  {
    var h1, text := After(a.oracle, h, CatProcMounts), a.oracle.run(h, CatProcMounts);
    var end := UnmountExisting(a, h).history;
    if text.Ok? {
      UnmountAllExtends(a.oracle, h1, ParseTable(a.prefix, text.value));
    }
    ObligingBefore(origin, h1, end, from);
    ObligingSnoc(origin, h, Ran(CatProcMounts, text), from);
    CleanupExact(origin, a, h);
    CleanupReads(origin, a, h);
    UnmountAllSweeps(origin, a.oracle, h1, Visible(a.prefix, Now(origin, h).mounts), from);
  }

  // On an obliging host the cleanup takes away every managed mount exactly if the table
  // is readable and unwinds, and it then succeeds and leaves the foreign mounts alone. In
  // a flat table, reading is all it takes.
  lemma CleanupComplete(origin: World, a: Agent, h: History, from: nat)
    requires from <= |h|
    requires var end := UnmountExisting(a, h).history; Faithful(origin, end) && Obliging(origin, end, from)
    ensures var s, w := UnmountExisting(a, h), Now(origin, h);
      var w' := Now(origin, s.history);
      && (OnlyManaged(a.prefix, w'.mounts) == [] <==> Readable(a.prefix, w.mounts) && Unwinds(a.prefix, w.mounts))
      && (Flat(a.prefix, w.mounts) ==> (OnlyManaged(a.prefix, w'.mounts) == [] <==> Readable(a.prefix, w.mounts)))
      && (OnlyManaged(a.prefix, w'.mounts) == [] ==>
          s.outcome == Ok(()) && w' == w.(mounts := Unmanaged(a.prefix, w.mounts)))
  {
    var table := Now(origin, h).mounts;
    CleanupSweeps(origin, a, h, from);
    SweepClears(a.prefix, table);
    SweepBounds(a.prefix, table);
    VisibleIffReadable(a.prefix, table);
    TwoSides(a.prefix, table);
    if Flat(a.prefix, table) {
      FlatUnwinds(a.prefix, table);
    }
  }

  // On an obliging host the cleanup spares whatever is not in the managed directory
  // exactly if no mount point extends the prefix without a slash.
  lemma CleanupSparesOutside(origin: World, a: Agent, h: History, from: nat)
    requires from <= |h|
    requires var end := UnmountExisting(a, h).history; Faithful(origin, end) && Obliging(origin, end, from)
    requires a.prefix != "" && a.prefix[|a.prefix| - 1] != '/'
    requires Readable(a.prefix, Now(origin, h).mounts) && NothingHides(a.prefix, Now(origin, h).mounts)
    ensures var before, after := Now(origin, h).mounts, Now(origin, UnmountExisting(a, h).history).mounts;
      Outside(a.prefix, after) == Outside(a.prefix, before) <==> NoSiblings(a.prefix, before)
  {
    CleanupSweeps(origin, a, h, from);
    SweepSparesOutside(a.prefix, Now(origin, h).mounts);
  }

  // Where nothing of konlet's is mounted, the cleanup changes nothing, obliging host or not.
  lemma CleanupOfCleanTable(origin: World, a: Agent, h: History)
    requires Faithful(origin, UnmountExisting(a, h).history) && OnlyManaged(a.prefix, Now(origin, h).mounts) == []
    ensures Now(origin, UnmountExisting(a, h).history) == Now(origin, h)
  {
    NothingToRead(a.prefix, Now(origin, h).mounts);
    if a.oracle.run(h, CatProcMounts).Ok? {
      CleanupReads(origin, a, h);
    } else {
      NowSnoc(origin, h, Ran(CatProcMounts, a.oracle.run(h, CatProcMounts)));
    }
  }
}
