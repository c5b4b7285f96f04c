// Tables of stacked and nested mounts: what one umount and a sweep of umounts do to them,
// and exactly when a sweep takes away all mounts under the managed prefix.
module MountStacks {
  import opened Text
  import opened MountTable
  import opened World

  // ---------------------------------------------------------------- stacks

  lemma {:induction false} AtConcat(t1: seq<Mount>, t2: seq<Mount>, path: string)
    ensures At(t1 + t2, path) == At(t1, path) + At(t2, path)
  {
    if t2 == [] {
      assert t1 + t2 == t1;
    } else {
      var init := t2[..|t2| - 1];
      assert (t1 + t2)[..|t1 + t2| - 1] == t1 + init;
      AtConcat(t1, init, path);
    }
  }

  lemma AtCons(m: Mount, table: seq<Mount>, path: string)
    ensures At([m] + table, path) == (if m.mountPoint == path then [m] else []) + At(table, path)
  {
    AtConcat([m], table, path);
    assert [m][..0] == [];
  }

  lemma {:induction false} PopTopAt(table: seq<Mount>, path: string, other: string)
    requires At(table, path) != []
    ensures At(PopTop(table, path), other) ==
      if other == path then At(table, path)[..|At(table, path)| - 1] else At(table, other)
    ensures |PopTop(table, path)| == |table| - 1
  {
    var init, last := table[..|table| - 1], table[|table| - 1];
    if last.mountPoint != path {
      PopTopAt(init, path, other);
      assert (PopTop(init, path) + [last])[..|PopTop(init, path)|] == PopTop(init, path);
    }
  }

  lemma {:induction false} PopTopTakesFromTable(table: seq<Mount>, path: string)
    ensures forall m :: m in PopTop(table, path) ==> m in table
  {
    if table != [] && table[|table| - 1].mountPoint != path {
      PopTopTakesFromTable(table[..|table| - 1], path);
    }
  }

  lemma {:induction false} DetachableIsMounted(table: seq<Mount>, path: string)
    requires Detachable(table, path)
    ensures At(table, path) != []
  {
    if table[|table| - 1].mountPoint != path {
      DetachableIsMounted(table[..|table| - 1], path);
    }
  }

  // ---------------------------------------------------------------- managed and foreign

  lemma {:induction false} UnmanagedConcat(prefix: string, t1: seq<Mount>, t2: seq<Mount>)
    ensures Unmanaged(prefix, t1 + t2) == Unmanaged(prefix, t1) + Unmanaged(prefix, t2)
  {
    if t1 == [] {
      assert t1 + t2 == t2;
    } else {
      assert (t1 + t2)[1..] == t1[1..] + t2;
      UnmanagedConcat(prefix, t1[1..], t2);
    }
  }

  lemma UnmanagedSnoc(prefix: string, table: seq<Mount>, m: Mount)
    ensures Unmanaged(prefix, table + [m]) ==
      Unmanaged(prefix, table) + if Managed(prefix, m) then [] else [m]
  {
    UnmanagedConcat(prefix, table, [m]);
    assert [m][1..] == [];
  }

  lemma {:induction false} PopTopKeepsUnmanaged(prefix: string, table: seq<Mount>, path: string)
    requires HasPrefix(path, prefix)
    ensures Unmanaged(prefix, PopTop(table, path)) == Unmanaged(prefix, table)
  {
    if table != [] {
      var init, last := table[..|table| - 1], table[|table| - 1];
      assert table == init + [last];
      UnmanagedSnoc(prefix, init, last);
      if last.mountPoint != path {
        PopTopKeepsUnmanaged(prefix, init, path);
        UnmanagedSnoc(prefix, PopTop(init, path), last);
      }
    }
  }

  // Every mount is on one side, and only a table without managed mounts is all foreign.
  lemma {:induction false} TwoSides(prefix: string, table: seq<Mount>)
    ensures |OnlyManaged(prefix, table)| + |Unmanaged(prefix, table)| == |table|
    ensures OnlyManaged(prefix, table) == [] <==> Unmanaged(prefix, table) == table
    ensures forall m :: m in OnlyManaged(prefix, table) <==> m in table && Managed(prefix, m)
    ensures forall m :: m in Unmanaged(prefix, table) <==> m in table && !Managed(prefix, m)
  {
    if table != [] {
      TwoSides(prefix, table[1..]);
      assert table == [table[0]] + table[1..];
    }
  }

  lemma {:induction false} AtSides(prefix: string, table: seq<Mount>, path: string)
    ensures At(OnlyManaged(prefix, table), path) == if HasPrefix(path, prefix) then At(table, path) else []
    ensures At(Unmanaged(prefix, table), path) == if HasPrefix(path, prefix) then [] else At(table, path)
  {
    if table != [] {
      var head, rest := table[0], table[1..];
      assert table == [head] + rest;
      AtSides(prefix, rest, path);
      AtCons(head, rest, path);
      AtCons(head, OnlyManaged(prefix, rest), path);
      AtCons(head, Unmanaged(prefix, rest), path);
    }
  }

  lemma {:induction false} NothingManagedLeft(prefix: string, table: seq<Mount>)
    requires forall path :: HasPrefix(path, prefix) ==> At(table, path) == []
    ensures Unmanaged(prefix, table) == table
    ensures OnlyManaged(prefix, table) == []
  {
    TwoSides(prefix, table);
    if OnlyManaged(prefix, table) != [] {
      var m := OnlyManaged(prefix, table)[0];
      MountedAt(table, m);
    }
  }

  lemma {:induction false} MountedAt(table: seq<Mount>, m: Mount)
    requires m in table
    ensures m in At(table, m.mountPoint)
  {
    if table[|table| - 1] != m {
      MountedAt(table[..|table| - 1], m);
    }
  }

  // ---------------------------------------------------------------- sweeps

  // One umount for every mount of a snapshot; the impossible ones change nothing.
  function SweepAll(table: seq<Mount>, snapshot: seq<Mount>): seq<Mount>
    decreases |snapshot|
  {
    if snapshot == [] then table
    else
      var path := snapshot[0].mountPoint;
      SweepAll(if Detachable(table, path) then PopTop(table, path) else table, snapshot[1..])
  }

  // What a cleanup that fails nowhere without need leaves of a table.
  function Sweep(prefix: string, table: seq<Mount>): seq<Mount> {
    SweepAll(table, Visible(prefix, table))
  }

  ghost predicate AllManaged(prefix: string, table: seq<Mount>) {
    forall m :: m in table ==> Managed(prefix, m)
  }

  lemma {:induction false} VisibleIsManaged(prefix: string, table: seq<Mount>)
    ensures AllManaged(prefix, Visible(prefix, table))
  {
    if table != [] {
      VisibleIsManaged(prefix, table[1..]);
    }
  }

  lemma {:induction false} SweepAllBounds(prefix: string, table: seq<Mount>, snapshot: seq<Mount>)
    requires AllManaged(prefix, snapshot)
    ensures |table| <= |SweepAll(table, snapshot)| + |snapshot|
    ensures Unmanaged(prefix, SweepAll(table, snapshot)) == Unmanaged(prefix, table)
    ensures forall m :: m in SweepAll(table, snapshot) ==> m in table
    decreases |snapshot|
  {
    if snapshot != [] {
      var path := snapshot[0].mountPoint;
      assert snapshot[0] in snapshot;
      if Detachable(table, path) {
        DetachableIsMounted(table, path);
        PopTopAt(table, path, path);
        PopTopKeepsUnmanaged(prefix, table, path);
        PopTopTakesFromTable(table, path);
        SweepAllBounds(prefix, PopTop(table, path), snapshot[1..]);
      } else {
        SweepAllBounds(prefix, table, snapshot[1..]);
      }
    }
  }

  lemma {:induction false} SweepAllAt(table: seq<Mount>, snapshot: seq<Mount>, path: string)
    ensures |At(SweepAll(table, snapshot), path)| <= |At(table, path)|
    decreases |snapshot|
  {
    if snapshot != [] {
      var top := snapshot[0].mountPoint;
      if Detachable(table, top) {
        DetachableIsMounted(table, top);
        PopTopAt(table, top, path);
        SweepAllAt(PopTop(table, top), snapshot[1..], path);
      } else {
        SweepAllAt(table, snapshot[1..], path);
      }
    }
  }

  // A sweep goes over the managed mounts oldest first, but mounts that hide each other or
  // keep each other busy can only be taken newest first. Along two such paths it therefore
  // gets through exactly if their mounts read the same from both ends.

  predicate Related(p: string, q: string) {
    p == q || Nested(p, q)
  }

  // The mount points of the mounts at either path, oldest first.
  function Joint(table: seq<Mount>, p: string, q: string): seq<string> {
    if table == [] then []
    else
      var init, last := table[..|table| - 1], table[|table| - 1].mountPoint;
      Joint(init, p, q) + if last == p || last == q then [last] else []
  }

  function Reverse(s: seq<string>): seq<string> {
    if s == [] then [] else Reverse(s[1..]) + [s[0]]
  }

  // Along any two related paths, one of them managed, the table is the foreign mounts and
  // then the snapshot from its end.
  ghost predicate Unwound(prefix: string, table: seq<Mount>, snapshot: seq<Mount>) {
    forall p, q :: HasPrefix(p, prefix) && Related(p, q) ==>
      Joint(table, p, q) == Joint(Unmanaged(prefix, table), p, q) + Reverse(Joint(snapshot, p, q))
  }

  // Along any two related paths, one of them managed, the foreign mounts come first and
  // the managed ones read the same from both ends.
  ghost predicate Unwinds(prefix: string, table: seq<Mount>) {
    Unwound(prefix, table, OnlyManaged(prefix, table))
  }

  lemma {:induction false} JointConcat(t1: seq<Mount>, t2: seq<Mount>, p: string, q: string)
    ensures Joint(t1 + t2, p, q) == Joint(t1, p, q) + Joint(t2, p, q)
  {
    if t2 == [] {
      assert t1 + t2 == t1;
    } else {
      var init := t2[..|t2| - 1];
      assert (t1 + t2)[..|t1 + t2| - 1] == t1 + init;
      JointConcat(t1, init, p, q);
    }
  }

  lemma JointCons(m: Mount, table: seq<Mount>, p: string, q: string)
    ensures Joint([m] + table, p, q) ==
      (if m.mountPoint == p || m.mountPoint == q then [m.mountPoint] else []) + Joint(table, p, q)
  {
    JointConcat([m], table, p, q);
    assert [m][..0] == [];
  }

  lemma {:induction false} JointCountsAt(table: seq<Mount>, p: string)
    ensures |Joint(table, p, p)| == |At(table, p)|
  {
    if table != [] {
      JointCountsAt(table[..|table| - 1], p);
    }
  }

  lemma JointSnoc(table: seq<Mount>, m: Mount, p: string, q: string)
    ensures m.mountPoint == p || m.mountPoint == q ==> Joint(table + [m], p, q) == Joint(table, p, q) + [m.mountPoint]
    ensures m.mountPoint != p && m.mountPoint != q ==> Joint(table + [m], p, q) == Joint(table, p, q)
  {
    assert (table + [m])[..|table|] == table;
  }

  // Taking away a mount takes away the last one along any two related paths it is on.
  lemma {:induction false} JointOfPop(table: seq<Mount>, x: string, p: string, q: string)
    requires Detachable(table, x) && Related(p, q)
    ensures x == p || x == q ==> Joint(table, p, q) == Joint(PopTop(table, x), p, q) + [x]
    ensures x != p && x != q ==> Joint(table, p, q) == Joint(PopTop(table, x), p, q)
  {
    var init, last := table[..|table| - 1], table[|table| - 1];
    assert table == init + [last];
    JointSnoc(init, last, p, q);
    if last.mountPoint != x {
      JointOfPop(init, x, p, q);
      JointSnoc(PopTop(init, x), last, p, q);
    }
  }

  ghost predicate LastAlong(table: seq<Mount>, x: string, q: string) {
    var joint := Joint(table, x, q);
    joint != [] && joint[|joint| - 1] == x
  }

  // A mount can be taken away exactly if it is the last one along every related path.
  lemma {:induction false} DetachableIffLast(table: seq<Mount>, x: string)
    ensures Detachable(table, x) <==> forall q :: Related(x, q) ==> LastAlong(table, x, q)
  {
    if Detachable(table, x) {
      forall q | Related(x, q)
        ensures LastAlong(table, x, q)
      {
        JointOfPop(table, x, x, q);
      }
    } else if table == [] {
      assert Related(x, x) && !LastAlong(table, x, x);
    } else {
      var init, last := table[..|table| - 1], table[|table| - 1].mountPoint;
      if Nested(x, last) {
        assert Related(x, last) && !LastAlong(table, x, last);
      } else {
        DetachableIffLast(init, x);
        var q :| Related(x, q) && !LastAlong(init, x, q);
        assert !LastAlong(table, x, q);
      }
    }
  }

  lemma ReverseEndsAlike(after: seq<string>, foreign: seq<string>, rest: seq<string>, x: string)
    ensures after + [x] == foreign + Reverse([x] + rest) <==> after == foreign + Reverse(rest)
  {
    var all := foreign + Reverse(rest);
    assert ([x] + rest)[1..] == rest;
    assert foreign + Reverse([x] + rest) == all + [x];
    assert (after + [x])[..|after|] == after && (all + [x])[..|all|] == all;
  }

  lemma {:induction false} UnwoundStep(prefix: string, table: seq<Mount>, m: Mount, tail: seq<Mount>)
    requires Managed(prefix, m) && Detachable(table, m.mountPoint)
    ensures Unwound(prefix, table, [m] + tail) <==> Unwound(prefix, PopTop(table, m.mountPoint), tail)
  {
    var x := m.mountPoint;
    PopTopKeepsUnmanaged(prefix, table, x);
    forall p, q | HasPrefix(p, prefix) && Related(p, q)
      ensures Joint(table, p, q) == Joint(Unmanaged(prefix, table), p, q) + Reverse(Joint([m] + tail, p, q))
         <==> Joint(PopTop(table, x), p, q) == Joint(Unmanaged(prefix, table), p, q) + Reverse(Joint(tail, p, q))
    {
      JointOfPop(table, x, p, q);
      JointCons(m, tail, p, q);
      if x == p || x == q {
        ReverseEndsAlike(Joint(PopTop(table, x), p, q), Joint(Unmanaged(prefix, table), p, q), Joint(tail, p, q), x);
      } else {
        assert [] + Joint(tail, p, q) == Joint(tail, p, q);
      }
    }
  }

  lemma {:induction false} UnwoundIsSwept(prefix: string, table: seq<Mount>, snapshot: seq<Mount>)
    requires AllManaged(prefix, snapshot) && Unwound(prefix, table, snapshot)
    ensures SweepAll(table, snapshot) == Unmanaged(prefix, table)
    decreases |snapshot|
  {
    if snapshot == [] {
      forall p | HasPrefix(p, prefix)
        ensures At(table, p) == []
      {
        JointCountsAt(table, p);
        JointCountsAt(Unmanaged(prefix, table), p);
        AtSides(prefix, table, p);
        assert Related(p, p);
      }
      NothingManagedLeft(prefix, table);
    } else {
      var m, tail := snapshot[0], snapshot[1..];
      assert snapshot == [m] + tail && m in snapshot;
      forall q | Related(m.mountPoint, q)
        ensures LastAlong(table, m.mountPoint, q)
      {
        JointCons(m, tail, m.mountPoint, q);
      }
      DetachableIffLast(table, m.mountPoint);
      UnwoundStep(prefix, table, m, tail);
      PopTopKeepsUnmanaged(prefix, table, m.mountPoint);
      UnwoundIsSwept(prefix, PopTop(table, m.mountPoint), tail);
    }
  }

  lemma {:induction false} SweptIsUnwound(prefix: string, table: seq<Mount>, snapshot: seq<Mount>)
    requires AllManaged(prefix, snapshot) && |snapshot| <= |OnlyManaged(prefix, table)|
    requires SweepAll(table, snapshot) == Unmanaged(prefix, table)
    ensures Unwound(prefix, table, snapshot)
    decreases |snapshot|
  {
    TwoSides(prefix, table);
    if snapshot != [] {
      var m, tail := snapshot[0], snapshot[1..];
      assert snapshot == [m] + tail && m in snapshot;
      SweepAllBounds(prefix, table, tail);
      assert Detachable(table, m.mountPoint);
      DetachableIsMounted(table, m.mountPoint);
      PopTopAt(table, m.mountPoint, m.mountPoint);
      PopTopKeepsUnmanaged(prefix, table, m.mountPoint);
      TwoSides(prefix, PopTop(table, m.mountPoint));
      SweptIsUnwound(prefix, PopTop(table, m.mountPoint), tail);
      UnwoundStep(prefix, table, m, tail);
    }
  }

  lemma SweepBounds(prefix: string, table: seq<Mount>)
    ensures Unmanaged(prefix, Sweep(prefix, table)) == Unmanaged(prefix, table)
    ensures OnlyManaged(prefix, Sweep(prefix, table)) == [] <==> Sweep(prefix, table) == Unmanaged(prefix, table)
    ensures forall m :: m in Sweep(prefix, table) ==> m in table
  {
    VisibleIsManaged(prefix, table);
    SweepAllBounds(prefix, table, Visible(prefix, table));
    TwoSides(prefix, Sweep(prefix, table));
  }

  // A sweep takes away every managed mount exactly if the table is readable and unwinds.
  lemma SweepClears(prefix: string, table: seq<Mount>)
    ensures OnlyManaged(prefix, Sweep(prefix, table)) == [] <==> Readable(prefix, table) && Unwinds(prefix, table)
  {
    var snapshot := Visible(prefix, table);
    VisibleIsManaged(prefix, table);
    VisibleBounds(prefix, table);
    VisibleIffReadable(prefix, table);
    SweepBounds(prefix, table);
    if OnlyManaged(prefix, Sweep(prefix, table)) == [] {
      TwoSides(prefix, table);
      SweepAllBounds(prefix, table, snapshot);
      VisibleByCount(prefix, table);
      SweptIsUnwound(prefix, table, snapshot);
    }
    if Readable(prefix, table) && Unwinds(prefix, table) {
      UnwoundIsSwept(prefix, table, snapshot);
    }
  }

  // ---------------------------------------------------------------- flat tables

  // Nothing is mounted above or below a managed mount after it.
  ghost predicate Flat(prefix: string, table: seq<Mount>) {
    table != [] ==>
      var init, last := table[..|table| - 1], table[|table| - 1].mountPoint;
      Flat(prefix, init) && forall m :: m in init && Managed(prefix, m) ==> !Nested(m.mountPoint, last)
  }

  lemma {:induction false} FlatPop(prefix: string, table: seq<Mount>, path: string)
    requires Flat(prefix, table)
    ensures Flat(prefix, PopTop(table, path))
  {
    if table != [] && table[|table| - 1].mountPoint != path {
      var init, last := table[..|table| - 1], table[|table| - 1];
      FlatPop(prefix, init, path);
      PopTopTakesFromTable(init, path);
      assert (PopTop(init, path) + [last])[..|PopTop(init, path)|] == PopTop(init, path);
    }
  }

  lemma {:induction false} FlatDetachable(prefix: string, table: seq<Mount>, path: string)
    requires Flat(prefix, table) && HasPrefix(path, prefix) && At(table, path) != []
    ensures Detachable(table, path)
  {
    var init := table[..|table| - 1];
    if table[|table| - 1].mountPoint != path {
      FlatDetachable(prefix, init, path);
      SomeMountAt(init, path);
    }
  }

  lemma {:induction false} SomeMountAt(table: seq<Mount>, path: string)
    requires At(table, path) != []
    ensures exists m :: m in table && m.mountPoint == path
  {
    if table[|table| - 1].mountPoint != path {
      SomeMountAt(table[..|table| - 1], path);
    }
  }

  lemma {:induction false} FlatSweeps(prefix: string, table: seq<Mount>, snapshot: seq<Mount>)
    requires Flat(prefix, table) && AllManaged(prefix, snapshot)
    requires forall p :: HasPrefix(p, prefix) ==> |At(snapshot, p)| == |At(table, p)|
    ensures OnlyManaged(prefix, SweepAll(table, snapshot)) == []
    decreases |snapshot|
  {
    if snapshot == [] {
      NothingManagedLeft(prefix, table);
    } else {
      var m, tail := snapshot[0], snapshot[1..];
      assert snapshot == [m] + tail && m in snapshot;
      AtCons(m, tail, m.mountPoint);
      FlatDetachable(prefix, table, m.mountPoint);
      FlatPop(prefix, table, m.mountPoint);
      forall p | HasPrefix(p, prefix)
        ensures |At(tail, p)| == |At(PopTop(table, m.mountPoint), p)|
      {
        AtCons(m, tail, p);
        PopTopAt(table, m.mountPoint, p);
      }
      FlatSweeps(prefix, PopTop(table, m.mountPoint), tail);
    }
  }

  // Flat tables unwind, whatever is stacked in them.
  lemma FlatUnwinds(prefix: string, table: seq<Mount>)
    requires Flat(prefix, table)
    ensures Unwinds(prefix, table)
  {
    var snapshot := OnlyManaged(prefix, table);
    TwoSides(prefix, table);
    forall p | HasPrefix(p, prefix)
      ensures |At(snapshot, p)| == |At(table, p)|
    {
      AtSides(prefix, table, p);
    }
    FlatSweeps(prefix, table, snapshot);
    SweepAllBounds(prefix, table, snapshot);
    TwoSides(prefix, SweepAll(table, snapshot));
    SweptIsUnwound(prefix, table, snapshot);
  }

  lemma {:induction false} OnlyManagedConcat(prefix: string, t1: seq<Mount>, t2: seq<Mount>)
    ensures OnlyManaged(prefix, t1 + t2) == OnlyManaged(prefix, t1) + OnlyManaged(prefix, t2)
  {
    if t1 == [] {
      assert t1 + t2 == t2;
    } else {
      assert (t1 + t2)[1..] == t1[1..] + t2;
      OnlyManagedConcat(prefix, t1[1..], t2);
    }
  }

  lemma JointOfPair(m1: Mount, m2: Mount)
    ensures Joint([m1, m2], m1.mountPoint, m2.mountPoint) == [m1.mountPoint, m2.mountPoint]
    ensures Reverse([m1.mountPoint, m2.mountPoint]) == [m2.mountPoint, m1.mountPoint]
  {
    var p, q := m1.mountPoint, m2.mountPoint;
    assert [m1, m2] == [m1] + [m2] && [m2] == [m2] + [];
    JointCons(m1, [m2], p, q);
    JointCons(m2, [], p, q);
    assert [p, q][1..] == [q] && [q][1..] == [];
    assert Reverse([q]) == [q];
  }

  lemma PairSides(prefix: string, foreign: seq<Mount>, m1: Mount, m2: Mount)
    requires OnlyManaged(prefix, foreign) == [] && Managed(prefix, m1) && Managed(prefix, m2)
    ensures Unmanaged(prefix, foreign + [m1, m2]) == foreign
    ensures OnlyManaged(prefix, foreign + [m1, m2]) == [m1, m2]
  {
    TwoSides(prefix, foreign);
    UnmanagedSnoc(prefix, foreign, m1);
    UnmanagedSnoc(prefix, foreign + [m1], m2);
    assert foreign + [m1, m2] == foreign + [m1] + [m2];
    OnlyManagedConcat(prefix, foreign, [m1]);
    OnlyManagedConcat(prefix, foreign + [m1], [m2]);
    assert [m1][1..] == [] && [m2][1..] == [];
  }

  // Two managed mounts, one inside the other, never unwind: whichever came first is tried
  // first.
  lemma NestedPairDoesNotUnwind(prefix: string, foreign: seq<Mount>, m1: Mount, m2: Mount)
    requires OnlyManaged(prefix, foreign) == [] && Managed(prefix, m1) && Managed(prefix, m2)
    requires Nested(m1.mountPoint, m2.mountPoint)
    ensures !Unwinds(prefix, foreign + [m1, m2])
  {
    var p, q := m1.mountPoint, m2.mountPoint;
    var shared := Joint(foreign, p, q);
    PairSides(prefix, foreign, m1, m2);
    JointConcat(foreign, [m1, m2], p, q);
    JointOfPair(m1, m2);
    assert Related(p, q);
    assert (shared + [p, q])[|shared|] == p && (shared + [q, p])[|shared|] == q;
  }

  // ---------------------------------------------------------------- siblings of the managed directory

  // The mounts that are not in the managed directory, in table order.
  function Outside(prefix: string, table: seq<Mount>): seq<Mount> {
    if table == [] then []
    else if Under(prefix, table[0].mountPoint) then Outside(prefix, table[1..])
    else [table[0]] + Outside(prefix, table[1..])
  }

  // Every mount point that properly extends the prefix goes on with a slash.
  ghost predicate NoSiblings(prefix: string, table: seq<Mount>) {
    forall m :: m in table && prefix < m.mountPoint ==> m.mountPoint[|prefix|] == '/'
  }

  lemma ManagedIsUnderOrSibling(prefix: string, m: Mount)
    ensures Managed(prefix, m) && !Under(prefix, m.mountPoint) <==>
      prefix < m.mountPoint && m.mountPoint[|prefix|] != '/'
  {
    if prefix < m.mountPoint {
      assert m.mountPoint == prefix + m.mountPoint[|prefix|..];
      if m.mountPoint[|prefix|] == '/' {
        assert m.mountPoint[..|prefix| + 1] == prefix + "/";
      }
    }
  }

  lemma {:induction false} OutsideIsUnmanaged(prefix: string, table: seq<Mount>)
    requires NoSiblings(prefix, table)
    ensures Outside(prefix, table) == Unmanaged(prefix, table)
  {
    if table != [] {
      ManagedIsUnderOrSibling(prefix, table[0]);
      OutsideIsUnmanaged(prefix, table[1..]);
    }
  }

  lemma {:induction false} AtOutside(prefix: string, table: seq<Mount>, path: string)
    requires !Under(prefix, path)
    ensures At(Outside(prefix, table), path) == At(table, path)
  {
    if table != [] {
      AtOutside(prefix, table[1..], path);
      AtCons(table[0], table[1..], path);
      AtCons(table[0], Outside(prefix, table[1..]), path);
      assert table == [table[0]] + table[1..];
    }
  }

  // No foreign mount stands over a managed one that was there before.
  ghost predicate NothingHides(prefix: string, table: seq<Mount>) {
    table != [] ==>
      var init, last := table[..|table| - 1], table[|table| - 1];
      NothingHides(prefix, init) &&
      forall m :: m in init && Managed(prefix, m) && !Managed(prefix, last) ==> !Below(last.mountPoint, m.mountPoint)
  }

  // A sibling and a mount in the managed directory have nothing to do with each other.
  lemma SiblingsApart(prefix: string, sibling: string, path: string)
    requires prefix != "" && prefix[|prefix| - 1] != '/'
    requires prefix < sibling && sibling[|prefix|] != '/' && Under(prefix, path)
    ensures !Nested(sibling, path)
  {
  }

  // If there are siblings, the last of them can be taken away.
  lemma {:induction false} LastSibling(prefix: string, table: seq<Mount>) returns (m: Mount)
    requires prefix != "" && prefix[|prefix| - 1] != '/'
    requires !NoSiblings(prefix, table) && NothingHides(prefix, table)
    ensures m in table && Managed(prefix, m) && !Under(prefix, m.mountPoint) && Detachable(table, m.mountPoint)
  {
    var init, last := table[..|table| - 1], table[|table| - 1];
    ManagedIsUnderOrSibling(prefix, last);
    if Managed(prefix, last) && !Under(prefix, last.mountPoint) {
      m := last;
    } else {
      assert table == init + [last];
      m := LastSibling(prefix, init);
      ManagedIsUnderOrSibling(prefix, m);
      if Managed(prefix, last) {
        SiblingsApart(prefix, m.mountPoint, last.mountPoint);
      } else {
        BelowManagedIsManaged(prefix, m.mountPoint, last.mountPoint);
      }
    }
  }

  lemma BelowManagedIsManaged(prefix: string, path: string, other: string)
    requires HasPrefix(path, prefix)
    ensures Below(path, other) ==> HasPrefix(other, prefix)
  {
    assert prefix <= path <= DirectoryOf(path);
  }

  lemma {:induction false} DetachableAfterPop(table: seq<Mount>, path: string, other: string)
    requires Detachable(table, other) && path != other
    ensures Detachable(PopTop(table, path), other)
  {
    var init, last := table[..|table| - 1], table[|table| - 1];
    if last.mountPoint != path {
      assert (PopTop(init, path) + [last])[..|PopTop(init, path)|] == PopTop(init, path);
      if last.mountPoint != other {
        DetachableAfterPop(init, path, other);
      }
    }
  }

  lemma {:induction false} SweepTakes(table: seq<Mount>, snapshot: seq<Mount>, m: Mount)
    requires m in snapshot && Detachable(table, m.mountPoint)
    ensures |At(SweepAll(table, snapshot), m.mountPoint)| < |At(table, m.mountPoint)|
    decreases |snapshot|
  {
    var x, top := m.mountPoint, snapshot[0].mountPoint;
    if top == x {
      DetachableIsMounted(table, x);
      PopTopAt(table, x, x);
      SweepAllAt(PopTop(table, x), snapshot[1..], x);
    } else if Detachable(table, top) {
      DetachableIsMounted(table, top);
      PopTopAt(table, top, x);
      DetachableAfterPop(table, top, x);
      SweepTakes(PopTop(table, top), snapshot[1..], m);
    } else {
      SweepTakes(table, snapshot[1..], m);
    }
  }

  // A sweep leaves everything outside the managed directory alone exactly if no mount
  // point extends the prefix without a slash.
  lemma SweepSparesOutside(prefix: string, table: seq<Mount>)
    requires prefix != "" && prefix[|prefix| - 1] != '/'
    requires Readable(prefix, table) && NothingHides(prefix, table)
    ensures Outside(prefix, Sweep(prefix, table)) == Outside(prefix, table) <==> NoSiblings(prefix, table)
  {
    SweepBounds(prefix, table);
    if NoSiblings(prefix, table) {
      OutsideIsUnmanaged(prefix, table);
      OutsideIsUnmanaged(prefix, Sweep(prefix, table));
    } else {
      var m := LastSibling(prefix, table);
      VisibleIffReadable(prefix, table);
      TwoSides(prefix, table);
      SweepTakes(table, Visible(prefix, table), m);
      AtOutside(prefix, table, m.mountPoint);
      AtOutside(prefix, Sweep(prefix, table), m.mountPoint);
    }
  }

  // A backup directory beside the managed one is unmounted.
  lemma SiblingIsSwept(prefix: string, device: string)
    requires !HasPrefix(device, "#") && !TooLong(PrintEntry(Mount(device, prefix + "-backup", "ext4", "rw")))
    ensures var m := Mount(device, prefix + "-backup", "ext4", "rw");
      !Under(prefix, m.mountPoint) && Sweep(prefix, [m]) == []
  {
    var m := Mount(device, prefix + "-backup", "ext4", "rw");
    assert m.mountPoint[|prefix|] == '-';
    assert HasPrefix(m.mountPoint, prefix);
    assert [m][1..] == [] && [m][..0] == [];
    assert Visible(prefix, [m]) == [m];
    assert PopTop([m], m.mountPoint) == [];
    assert SweepAll([], []) == [];
  }
}
