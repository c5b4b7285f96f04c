// Simple names keep konlet's mounts apart: after any runs of declarations whose volumes and
// disks have simple names, no mount is above or below a managed one.
module FlatHistories {
  import opened Paths
  import opened MountTable
  import opened ApiTypes
  import opened Host
  import opened World
  import opened MountStacks
  import opened VolumeProtocol
  import opened Discipline
  import opened MountPoints

  // ---------------------------------------------------------------- mount points

  // A mount point as the table shows it, of a simple name.
  ghost predicate SimplePoint(prefix: string, path: string) {
    exists name :: SimpleName(name) && IsPoint(prefix, path, name)
  }

  predicate IsPoint(prefix: string, path: string, name: string) {
    path == MountPath(Stem(prefix), TMPFS, name) || path == MountPath(Stem(prefix), DISK_FAMILY, name)
  }

  lemma SimplePointShape(prefix: string, path: string) returns (family: string, name: string)
    requires SimplePoint(prefix, path)
    ensures Family(family) && SimpleName(name) && path == Stem(prefix) + "/" + family + "s/" + name
  {
    name :| SimpleName(name) && IsPoint(prefix, path, name);
    family := if path == MountPath(Stem(prefix), TMPFS, name) then TMPFS else DISK_FAMILY;
  }

  lemma SiblingNamesApart(stem: string, name1: string, name2: string)
    requires SimpleName(name1) && SimpleName(name2)
    ensures !Below(stem + name1, stem + name2)
  {
    var p, q := stem + name1, stem + name2;
    assert DirectoryOf(p) == p + "/";
    assert (p + "/")[|p|] == '/';
    assert forall i :: |stem| <= i < |q| ==> q[i] != '/';
  }

  lemma FamiliesApart(prefix: string, rest1: string, rest2: string)
    ensures var p, q := prefix + "/" + TMPFS + "s/" + rest1, prefix + "/" + DISK_FAMILY + "s/" + rest2;
      !(p <= q) && !(q <= p)
  {
    var p, q := prefix + "/" + TMPFS + "s/" + rest1, prefix + "/" + DISK_FAMILY + "s/" + rest2;
    assert p[|prefix| + 1] == 't' && q[|prefix| + 1] == 'g';
  }

  // Of two such mount points, none is inside the other.
  lemma SimplePointsApart(prefix: string, p: string, q: string)
    requires SimplePoint(prefix, p) && SimplePoint(prefix, q)
    ensures !Below(p, q)
  {
    var family1, name1 := SimplePointShape(prefix, p);
    var family2, name2 := SimplePointShape(prefix, q);
    if family1 == family2 {
      SiblingNamesApart(Stem(prefix) + "/" + family1 + "s/", name1, name2);
    } else {
      FamiliesApart(Stem(prefix), name1, name2);
      FamiliesApart(Stem(prefix), name2, name1);
      assert Below(p, q) ==> p <= q;
    }
  }

  // The mounts of volumes with simple names land at such points.
  lemma SimpleVolumesPoint(prefix: string, volumes: seq<Volume>, path: string)
    requires SimpleVolumes(volumes) && Declares(prefix, volumes, path)
    ensures SimplePoint(prefix, Canonical(path))
  {
    var v :| v in volumes && VolumePoint(prefix, v, path);
    var family, name := PointShape(prefix, v, path);
    SimpleLanding(prefix, family, name);
    assert IsPoint(prefix, Canonical(path), name);
  }

  // ---------------------------------------------------------------- the table

  // From the first managed mount on, all mount points are simple.
  ghost predicate SimpleOnTop(prefix: string, table: seq<Mount>) {
    table != [] ==>
      && SimpleOnTop(prefix, table[..|table| - 1])
      && (SimplePoint(prefix, table[|table| - 1].mountPoint) || OnlyManaged(prefix, table) == [])
  }

  lemma {:induction false} ManagedIsSimple(prefix: string, table: seq<Mount>, m: Mount)
    requires SimpleOnTop(prefix, table) && m in table && Managed(prefix, m)
    ensures SimplePoint(prefix, m.mountPoint)
  {
    TwoSides(prefix, table);
    assert m in OnlyManaged(prefix, table);
    if table[|table| - 1] != m {
      ManagedIsSimple(prefix, table[..|table| - 1], m);
    }
  }

  lemma {:induction false} SimpleIsFlat(prefix: string, table: seq<Mount>)
    requires SimpleOnTop(prefix, table)
    ensures Flat(prefix, table)
  {
    if table != [] {
      var init, last := table[..|table| - 1], table[|table| - 1].mountPoint;
      SimpleIsFlat(prefix, init);
      TwoSides(prefix, table);
      forall m | m in init && Managed(prefix, m)
        ensures !Nested(m.mountPoint, last)
      {
        assert m in table && m in OnlyManaged(prefix, table);
        ManagedIsSimple(prefix, init, m);
        SimplePointsApart(prefix, m.mountPoint, last);
        SimplePointsApart(prefix, last, m.mountPoint);
      }
    }
  }

  lemma NothingManagedAmong(prefix: string, part: seq<Mount>, table: seq<Mount>)
    requires OnlyManaged(prefix, table) == [] && forall m :: m in part ==> m in table
    ensures OnlyManaged(prefix, part) == []
  {
    VisibleBounds(prefix, part);
    VisibleBounds(prefix, table);
    forall i | 0 <= i < |part|
      ensures !Managed(prefix, part[i])
    {
      assert part[i] in table;
    }
  }

  lemma {:induction false} SimpleWithoutManaged(prefix: string, table: seq<Mount>)
    requires OnlyManaged(prefix, table) == []
    ensures SimpleOnTop(prefix, table)
  {
    if table != [] {
      var init := table[..|table| - 1];
      NothingManagedAmong(prefix, init, table);
      SimpleWithoutManaged(prefix, init);
    }
  }

  lemma {:induction false} PopTopStaysSimple(prefix: string, table: seq<Mount>, path: string)
    requires SimpleOnTop(prefix, table)
    ensures SimpleOnTop(prefix, PopTop(table, path))
  {
    if table != [] && table[|table| - 1].mountPoint != path {
      var init, last := table[..|table| - 1], table[|table| - 1];
      var popped := PopTop(init, path);
      PopTopStaysSimple(prefix, init, path);
      assert (popped + [last])[..|popped|] == popped;
      if OnlyManaged(prefix, table) == [] {
        PopTopTakesFromTable(table, path);
        NothingManagedAmong(prefix, popped + [last], table);
      }
    }
  }

  lemma {:induction false} HistoryStaysSimple(origin: World, prefix: string, volumes: seq<Volume>, h: History)
    requires OnlyManaged(prefix, origin.mounts) == []
    requires MountsDeclared(prefix, volumes, 0, h) && SimpleVolumes(volumes)
    ensures SimpleOnTop(prefix, Now(origin, h).mounts)
  {
    if h == [] {
      SimpleWithoutManaged(prefix, origin.mounts);
    } else {
      var init, e := h[..|h| - 1], h[|h| - 1];
      assert h == init + [e];
      HistoryStaysSimple(origin, prefix, volumes, init);
      var table := Now(origin, init).mounts;
      match e
      case Ran(Umount(path), Ok(_)) => PopTopStaysSimple(prefix, table, path);
      case Ran(MountEntry(m), Ok(_)) =>
        SimpleVolumesPoint(prefix, volumes, m.mountPoint);
        assert (table + [Landed(m)])[..|table|] == table;
      case _ =>
    }
  }

  // From a host without konlet mounts, any runs of declarations with simple names,
  // complete or cut off, leave a flat table, whatever the host answers.
  lemma AttemptsLeaveFlatTable(origin: World, o: Oracle, prefix: string, attempts: seq<Attempt>)
    requires OnlyManaged(prefix, origin.mounts) == [] && SimpleVolumes(VolumesOf(attempts))
    ensures Flat(prefix, Now(origin, Attempts(o, prefix, attempts)).mounts)
  {
    AttemptsMountDeclared(o, prefix, attempts);
    HistoryStaysSimple(origin, prefix, VolumesOf(attempts), Attempts(o, prefix, attempts));
    SimpleIsFlat(prefix, Now(origin, Attempts(o, prefix, attempts)).mounts);
  }
}
