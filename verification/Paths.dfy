// How the kernel reads the text of a path, symbolic links aside, and how it prints it.
module Paths {
  import opened Text

  // One step after the other from a directory, given by the names that lead to it.
  function Walk(from: seq<string>, steps: seq<string>): seq<string>
    decreases |steps|
  {
    if steps == [] then from
    else
      var next := if steps[0] == "" || steps[0] == "." then from
                  else if steps[0] == ".." then Parent(from)
                  else from + [steps[0]];
      Walk(next, steps[1..])
  }

  function Parent(from: seq<string>): seq<string> {
    if from == [] then [] else from[..|from| - 1]
  }

  // The names that lead from the root to where the path ends up.
  function Resolve(path: string): seq<string> {
    Walk([], Split(path, '/'))
  }

  function PathText(names: seq<string>): string {
    if names == [] then "" else PathText(names[..|names| - 1]) + "/" + names[|names| - 1]
  }

  // The path as the mount table shows it.
  function Canonical(path: string): string {
    if Resolve(path) == [] then "/" else PathText(Resolve(path))
  }

  // A name that leads one directory down.
  predicate SimpleName(name: string) {
    name != "" && name != "." && name != ".." && '/' !in name
  }

  ghost predicate AllSimpleNames(names: seq<string>) {
    forall name :: name in names ==> SimpleName(name)
  }

  // ---------------------------------------------------------------- walking

  lemma {:induction false} WalkOn(from: seq<string>, steps1: seq<string>, steps2: seq<string>)
    ensures Walk(from, steps1 + steps2) == Walk(Walk(from, steps1), steps2)
    decreases |steps1|
  {
    if steps1 == [] {
      assert steps1 + steps2 == steps2;
    } else {
      var next := if steps1[0] == "" || steps1[0] == "." then from
                  else if steps1[0] == ".." then Parent(from)
                  else from + [steps1[0]];
      assert (steps1 + steps2)[0] == steps1[0] && (steps1 + steps2)[1..] == steps1[1..] + steps2;
      WalkOn(next, steps1[1..], steps2);
    }
  }

  // A path that goes on after a slash is walked on from where its first part ends up.
  lemma ResolveOn(path: string, rest: string)
    ensures Resolve(path + "/" + rest) == Walk(Resolve(path), Split(rest, '/'))
  {
    SplitAtSeparator(path, rest, '/');
    WalkOn([], Split(path, '/'), Split(rest, '/'));
  }

  lemma ResolveSimple(path: string, name: string)
    requires SimpleName(name)
    ensures Resolve(path + "/" + name) == Resolve(path) + [name]
  {
    ResolveOn(path, name);
    SplitSingle(name, '/');
    assert [name][1..] == [];
  }

  lemma {:induction false} SplitHasNoSeparator(s: string, separator: char)
    ensures forall part :: part in Split(s, separator) ==> separator !in part
  {
    if s != "" {
      SplitHasNoSeparator(s[1..], separator);
      var rest := Split(s[1..], separator);
      assert forall part :: part in rest[1..] ==> part in rest;
      assert rest[0] in rest;
    }
  }

  lemma {:induction false} WalkStaysSimple(from: seq<string>, steps: seq<string>)
    requires AllSimpleNames(from) && forall step :: step in steps ==> '/' !in step
    ensures AllSimpleNames(Walk(from, steps))
    decreases |steps|
  {
    if steps != [] {
      assert steps[0] in steps;
      var next := if steps[0] == "" || steps[0] == "." then from
                  else if steps[0] == ".." then Parent(from)
                  else from + [steps[0]];
      WalkStaysSimple(next, steps[1..]);
    }
  }

  lemma ResolvedIsSimple(path: string)
    ensures AllSimpleNames(Resolve(path))
  {
    SplitHasNoSeparator(path, '/');
    WalkStaysSimple([], Split(path, '/'));
  }

  // Reading back the text of a resolved path gives the same names.
  lemma {:induction false} ResolvePathText(names: seq<string>)
    requires AllSimpleNames(names)
    ensures Resolve(PathText(names)) == names
  {
    if names == [] {
      assert Split("", '/') == [""] && [""][1..] == [];
    } else {
      var init, last := names[..|names| - 1], names[|names| - 1];
      ResolvePathText(init);
      ResolveSimple(PathText(init), last);
      assert names == init + [last];
    }
  }

  lemma PathTextSnoc(names: seq<string>, name: string)
    ensures PathText(names + [name]) == PathText(names) + "/" + name
  {
    assert (names + [name])[..|names|] == names;
  }

  lemma RootResolves()
    ensures Resolve("/") == []
  {
    assert "/"[1..] == "" && Split("", '/') == [""] && Split("/", '/') == ["", ""];
    assert ["", ""][1..] == [""] && [""][1..] == [];
  }

  lemma {:induction false} PathTextConcat(names: seq<string>, rest: seq<string>)
    ensures PathText(names + rest) == PathText(names) + PathText(rest)
  {
    if rest == [] {
      assert names + rest == names;
    } else {
      var init, last := rest[..|rest| - 1], rest[|rest| - 1];
      assert names + rest == names + init + [last] && rest == init + [last];
      PathTextConcat(names, init);
      PathTextSnoc(names + init, last);
    }
  }

  lemma {:induction false} SplitPathText(names: seq<string>)
    requires AllSimpleNames(names)
    ensures Split(PathText(names), '/') == [""] + names
  {
    if names == [] {
      assert Split("", '/') == [""];
    } else {
      var init, last := names[..|names| - 1], names[|names| - 1];
      assert last in names;
      SplitPathText(init);
      SplitAtSeparator(PathText(init), last, '/');
      SplitSingle(last, '/');
      assert names == init + [last];
    }
  }

  // The kernel's own form resolves to itself.
  lemma CanonicalIsFixed(path: string)
    ensures Canonical(Canonical(path)) == Canonical(path)
  {
    ResolvedIsSimple(path);
    ResolvePathText(Resolve(path));
    RootResolves();
  }

  // ---------------------------------------------------------------- lengths

  function Lengths(names: seq<string>): nat {
    if names == [] then 0 else 1 + ByteLength(names[0]) + Lengths(names[1..])
  }

  lemma {:induction false} LengthsConcat(names1: seq<string>, names2: seq<string>)
    ensures Lengths(names1 + names2) == Lengths(names1) + Lengths(names2)
  {
    if names1 == [] {
      assert names1 + names2 == names2;
    } else {
      assert (names1 + names2)[1..] == names1[1..] + names2;
      LengthsConcat(names1[1..], names2);
    }
  }

  lemma {:induction false} PathTextLength(names: seq<string>)
    ensures ByteLength(PathText(names)) == Lengths(names)
  {
    if names != [] {
      var init, last := names[..|names| - 1], names[|names| - 1];
      PathTextLength(init);
      LengthsConcat(init, [last]);
      assert names == init + [last] && [last][1..] == [];
      ByteLengthConcat(PathText(init), "/");
      ByteLengthConcat(PathText(init) + "/", last);
      assert "/"[1..] == "";
    }
  }

  lemma {:induction false} WalkShortens(from: seq<string>, steps: seq<string>)
    ensures Lengths(Walk(from, steps)) <= Lengths(from) + Lengths(steps)
    decreases |steps|
  {
    if steps != [] {
      var next := if steps[0] == "" || steps[0] == "." then from
                  else if steps[0] == ".." then Parent(from)
                  else from + [steps[0]];
      if from != [] {
        assert from == from[..|from| - 1] + [from[|from| - 1]];
        LengthsConcat(from[..|from| - 1], [from[|from| - 1]]);
      }
      LengthsConcat(from, [steps[0]]);
      assert [steps[0]][1..] == [];
      WalkShortens(next, steps[1..]);
    }
  }

  lemma {:induction false} SplitLength(s: string)
    ensures Lengths(Split(s, '/')) == ByteLength(s) + 1
  {
    if s != "" {
      var rest := Split(s[1..], '/');
      SplitLength(s[1..]);
      assert rest == [rest[0]] + rest[1..];
      if s[0] == '/' {
        assert ([""] + rest)[1..] == rest;
      } else {
        var longer := [s[0]] + rest[0];
        assert longer[1..] == rest[0];
        assert ([longer] + rest[1..])[1..] == rest[1..];
      }
    }
  }

  // Resolving a path makes it at most a byte longer: the slash in front.
  lemma CanonicalLength(path: string)
    ensures ByteLength(Canonical(path)) <= ByteLength(path) + 1
  {
    SplitLength(path);
    WalkShortens([], Split(path, '/'));
    PathTextLength(Resolve(path));
    assert "/"[1..] == "";
  }

  // From an absolute path nothing is added.
  lemma AbsoluteLength(path: string)
    requires HasPrefix(path, "/")
    ensures ByteLength(PathText(Resolve(path))) <= ByteLength(path)
  {
    var rest := path[1..];
    assert path == "" + ['/'] + rest;
    SplitAtFirst("", rest, '/');
    assert ([""] + Split(rest, '/'))[1..] == Split(rest, '/');
    SplitLength(rest);
    WalkShortens([], Split(rest, '/'));
    PathTextLength(Resolve(path));
  }

  lemma {:induction false} ByteLengthAtLeast(s: string)
    ensures |s| <= ByteLength(s)
  {
    if s != "" {
      ByteLengthAtLeast(s[1..]);
    }
  }

  lemma {:induction false} PathTextIsAbsolute(names: seq<string>)
    ensures names == [] || HasPrefix(PathText(names), "/")
  {
    if names != [] {
      PathTextIsAbsolute(names[..|names| - 1]);
    }
  }

  // The shortest way to write an absolute path is its resolved text.
  lemma ShortestText(path: string)
    requires path == "" || HasPrefix(path, "/")
    requires path <= PathText(Resolve(path))
    ensures path == PathText(Resolve(path))
  {
    var text := PathText(Resolve(path));
    if path != "" {
      AbsoluteLength(path);
      assert text == path + text[|path|..];
      ByteLengthConcat(path, text[|path|..]);
      ByteLengthAtLeast(text[|path|..]);
    } else {
      assert Split("", '/') == [""] && [""][1..] == [];
    }
  }
}
