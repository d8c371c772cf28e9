/** The ext2 walker (fsa/fsa.c): read_directory flattens the directory tree of a disk image into a list
of paths and inode numbers, and search_by_path looks a path up in it.

The reference is the tree itself: the list is its preorder, and a lookup gives what going from
directory to directory, component by component, gives.  Entries whose name begins with a dot are left
out by the program, not only "." and "..".
*/
module PathIndex {
  import opened Listing
  import opened Paths

  // ------------------------------------------------------------------ the tree and its preorder

  datatype Node = File(name: string, ino: nat) | Dir(name: string, ino: nat, children: seq<Node>)

  /** struct list_node. */
  datatype Indexed = Indexed(ino: nat, path: string)

  function Preorder(path: string, children: seq<Node>): seq<Indexed>
    decreases children
  {
    if children == [] then [] else PreorderOne(path, children[0]) + Preorder(path, children[1..])
  }

  function PreorderOne(path: string, t: Node): seq<Indexed>
    decreases t
  {
    [Indexed(t.ino, Child(path, t.name))]
    + if t.Dir? then Preorder(Child(path, t.name), t.children) else []
  }

  const ROOT := 2

  /** What populate_list builds: the root comes last. */
  function Index(children: seq<Node>): seq<Indexed> {
    Preorder("", children) + [Indexed(ROOT, "/")]
  }

  /** The names are those of directory entries, and inode numbers are not 0. */
  ghost predicate Proper(children: seq<Node>)
    decreases children
  {
    && (forall i, j :: 0 <= i < j < |children| ==> children[i].name != children[j].name)
    && (forall i :: 0 <= i < |children| ==> ProperNode(children[i]))
  }

  ghost predicate ProperNode(t: Node)
    decreases t
  {
    t.name != "" && '/' !in t.name && t.ino != 0 && (t.Dir? ==> Proper(t.children))
  }

  lemma ProperRest(children: seq<Node>)
    requires Proper(children) && children != []
    ensures ProperNode(children[0]) && Proper(children[1..])
    ensures forall i :: 0 <= i < |children[1..]| ==> children[1..][i].name != children[0].name
  {
    assert forall i :: 0 <= i < |children[1..]| ==> children[1..][i] == children[i + 1];
  }

  // ------------------------------------------------------------------ resolution

  /** Going down by one name after the other; 0 where there is no such entry. */
  function Resolve(children: seq<Node>, names: seq<string>): nat
    requires names != []
    decreases children
  {
    if children == [] then 0
    else if children[0].name == names[0] then ResolveIn(children[0], names)
    else Resolve(children[1..], names)
  }

  function ResolveIn(t: Node, names: seq<string>): nat
    requires names != []
    decreases t
  {
    if |names| == 1 then t.ino
    else if t.Dir? then Resolve(t.children, names[1..]) else 0
  }

  /** The components between the slashes. */
  function Split(s: string): (names: seq<string>)
    ensures names != []
  {
    if s == [] then [""]
    else if s[0] == '/' then [""] + Split(s[1..])
    else
      var rest := Split(s[1..]);
      [[s[0]] + rest[0]] + rest[1..]
  }

  function ResolvePath(children: seq<Node>, path: string): nat {
    if path == "/" then ROOT
    else if path != [] && path[0] == '/' then Resolve(children, Split(path[1..]))
    else 0
  }

  lemma SlashedOfLonger(c: char, rest: seq<string>)
    requires rest != []
    ensures Slashed([[c] + rest[0]] + rest[1..]) == "/" + ([c] + Slashed(rest)[1..])
  {
    var names, t := [[c] + rest[0]] + rest[1..], Slashed(rest[1..]);
    assert names[1..] == rest[1..];
    assert Slashed(rest)[1..] == rest[0] + t;
    RegroupFour("/", [c], rest[0], t);
  }

  lemma RegroupFour(a: string, b: string, c: string, d: string)
    ensures a + (b + c) + d == a + (b + (c + d))
  {
  }

  lemma {:induction false} SplitIsSlashed(s: string)
    ensures Slashed(Split(s)) == "/" + s
  {
    if s == [] {
      assert Slashed([""]) == "/" + "" + Slashed([""][1..]);
    } else {
      var rest := Split(s[1..]);
      SplitIsSlashed(s[1..]);
      assert s == [s[0]] + s[1..];
      if s[0] == '/' {
        assert ([""] + rest)[1..] == rest;
        assert Slashed([""] + rest) == "/" + "" + Slashed(rest);
      } else {
        SlashedOfLonger(s[0], rest);
        assert ("/" + s[1..])[1..] == s[1..];
      }
    }
  }

  lemma {:induction false} SplitIsSlashFree(s: string)
    ensures SlashFree(Split(s))
  {
    if s != [] {
      SplitIsSlashFree(s[1..]);
    }
  }

  // ------------------------------------------------------------------ search

  /** search_by_path: the first match, or 0. */
  function Lookup(list: seq<Indexed>, path: string): nat {
    if list == [] then 0 else if list[0].path == path then list[0].ino else Lookup(list[1..], path)
  }

  method SearchByPath(path: string, list: seq<Indexed>) returns (ino: nat)
    ensures ino == Lookup(list, path)
  {
    var ptr := 0;
    while ptr < |list|
      invariant 0 <= ptr <= |list| && Lookup(list[ptr..], path) == Lookup(list, path)
    {
      assert list[ptr..][1..] == list[ptr + 1..];
      if path == list[ptr].path {
        return list[ptr].ino;
      }
      ptr := ptr + 1;
    }
    return 0;
  }

  ghost predicate NoZero(list: seq<Indexed>) {
    forall i :: 0 <= i < |list| ==> list[i].ino != 0
  }

  lemma {:induction false} FoundOfSum(a: seq<Indexed>, b: seq<Indexed>, path: string)
    requires NoZero(a)
    ensures Lookup(a + b, path) == if Lookup(a, path) != 0 then Lookup(a, path) else Lookup(b, path)
  {
    if a == [] {
      assert a + b == b;
    } else {
      assert (a + b)[1..] == a[1..] + b;
      FoundOfSum(a[1..], b, path);
    }
  }

  lemma {:induction false} NotFound(list: seq<Indexed>, path: string)
    requires forall i :: 0 <= i < |list| ==> list[i].path != path
    ensures Lookup(list, path) == 0
  {
    if list != [] {
      NotFound(list[1..], path);
    }
  }

  // ------------------------------------------------------------------ paths of the preorder

  lemma {:induction false} PreorderHasNoZero(path: string, children: seq<Node>)
    requires Proper(children)
    ensures NoZero(Preorder(path, children))
    decreases children
  {
    if children != [] {
      ProperRest(children);
      PreorderOneHasNoZero(path, children[0]);
      PreorderHasNoZero(path, children[1..]);
    }
  }

  lemma {:induction false} PreorderOneHasNoZero(path: string, t: Node)
    requires ProperNode(t)
    ensures NoZero(PreorderOne(path, t))
    decreases t
  {
    if t.Dir? {
      PreorderHasNoZero(Child(path, t.name), t.children);
    }
  }

  /** A path of the preorder is spelled by slash-free names. */
  ghost predicate Spelled(path: string, p: string) {
    exists names :: names != [] && SlashFree(names) && p == path + Slashed(names)
  }

  /** And, under one child, the first of them is the child's. */
  ghost predicate SpelledUnder(path: string, name: string, p: string) {
    exists names :: names != [] && names[0] == name && SlashFree(names) && p == path + Slashed(names)
  }

  lemma {:induction false} PreorderIsSpelled(path: string, children: seq<Node>, x: Indexed)
    requires Proper(children) && x in Preorder(path, children)
    ensures Spelled(path, x.path)
    decreases children
  {
    ProperRest(children);
    if x in PreorderOne(path, children[0]) {
      PreorderOneIsSpelled(path, children[0], x);
    } else {
      PreorderIsSpelled(path, children[1..], x);
    }
  }

  lemma {:induction false} PreorderOneIsSpelled(path: string, t: Node, x: Indexed)
    requires ProperNode(t) && x in PreorderOne(path, t)
    ensures SpelledUnder(path, t.name, x.path) && Spelled(path, x.path)
    decreases t
  {
    if x == Indexed(t.ino, Child(path, t.name)) {
      SlashedOfOne(t.name);
      assert x.path == path + Slashed([t.name]);
      assert [t.name][0] == t.name && SlashFree([t.name]);
    } else {
      PreorderIsSpelled(Child(path, t.name), t.children, x);
      var m :| m != [] && SlashFree(m) && x.path == Child(path, t.name) + Slashed(m);
      var names := [t.name] + m;
      SlashedOfCons(path, t.name, m);
      assert names[0] == t.name && SlashFree(names) && x.path == path + Slashed(names);
    }
  }

  lemma SlashedOfOne(name: string)
    ensures Slashed([name]) == "/" + name
  {
    assert [name][1..] == [];
  }

  lemma SlashedOfCons(path: string, name: string, m: seq<string>)
    ensures path + Slashed([name] + m) == Child(path, name) + Slashed(m)
  {
    assert ([name] + m)[1..] == m;
  }

  lemma SpelledOnce(path: string, a: seq<string>, b: seq<string>)
    requires SlashFree(a) && SlashFree(b) && path + Slashed(a) == path + Slashed(b)
    ensures a == b
  {
    assert Slashed(a) == (path + Slashed(a))[|path|..];
    assert Slashed(b) == (path + Slashed(b))[|path|..];
    SlashedIsUnique(a, b);
  }

  // ------------------------------------------------------------------ search is resolution

  /** Nothing below a child matches names that begin otherwise. */
  lemma NotUnder(path: string, t: Node, names: seq<string>)
    requires ProperNode(t) && names != [] && SlashFree(names) && names[0] != t.name
    ensures Lookup(PreorderOne(path, t), path + Slashed(names)) == 0
  {
    var list, p := PreorderOne(path, t), path + Slashed(names);
    forall i | 0 <= i < |list|
      ensures list[i].path != p
    {
      PreorderOneIsSpelled(path, t, list[i]);
      var m :| m != [] && m[0] == t.name && SlashFree(m) && list[i].path == path + Slashed(m);
      if list[i].path == p {
        SpelledOnce(path, m, names);
      }
    }
    NotFound(list, p);
  }

  lemma {:induction false} FoundIsResolvedIn(path: string, t: Node, names: seq<string>)
    requires ProperNode(t) && names != [] && SlashFree(names) && names[0] == t.name
    ensures Lookup(PreorderOne(path, t), path + Slashed(names)) == ResolveIn(t, names)
    decreases t
  {
    var list, p := PreorderOne(path, t), path + Slashed(names);
    var below := if t.Dir? then Preorder(Child(path, t.name), t.children) else [];
    assert names == [t.name] + names[1..] && SlashFree(names[1..]);
    SlashedOfCons(path, t.name, names[1..]);
    assert list[1..] == below;
    if |names| == 1 {
      assert names[1..] == [];
      assert Child(path, t.name) + Slashed([]) == Child(path, t.name);
    } else {
      assert |Slashed(names[1..])| > 0;
      assert list[0].path != p;
      if t.Dir? {
        FoundIsResolved(Child(path, t.name), t.children, names[1..]);
      }
    }
  }

  /** Looking a spelled path up in the preorder is resolving it. */
  lemma {:induction false} FoundIsResolved(path: string, children: seq<Node>, names: seq<string>)
    requires Proper(children) && names != [] && SlashFree(names)
    ensures Lookup(Preorder(path, children), path + Slashed(names)) == Resolve(children, names)
    decreases children
  {
    if children != [] {
      var p := path + Slashed(names);
      ProperRest(children);
      PreorderOneHasNoZero(path, children[0]);
      FoundOfSum(PreorderOne(path, children[0]), Preorder(path, children[1..]), p);
      FoundIsResolved(path, children[1..], names);
      if children[0].name == names[0] {
        FoundIsResolvedIn(path, children[0], names);
        NoneLater(children[1..], names);
      } else {
        NotUnder(path, children[0], names);
      }
    }
  }

  lemma {:induction false} NoneLater(children: seq<Node>, names: seq<string>)
    requires names != [] && forall i :: 0 <= i < |children| ==> children[i].name != names[0]
    ensures Resolve(children, names) == 0
  {
    if children != [] {
      NoneLater(children[1..], names);
    }
  }

  /** For every path: the index gives the inode that component-by-component resolution gives, and 0
      exactly when that fails. */
  lemma SearchIsResolution(children: seq<Node>, path: string)
    requires Proper(children)
    ensures Lookup(Index(children), path) == ResolvePath(children, path)
  {
    var list, last := Preorder("", children), [Indexed(ROOT, "/")];
    PreorderHasNoZero("", children);
    FoundOfSum(list, last, path);
    assert last[1..] == [];
    if path != [] && path[0] == '/' {
      var names := Split(path[1..]);
      SplitIsSlashFree(path[1..]);
      SplitIsSlashed(path[1..]);
      assert "/" + path[1..] == path && "" + Slashed(names) == Slashed(names);
      FoundIsResolved("", children, names);
      if path == "/" {
        assert names == [""];
        NoEmptyName(children);
      }
    } else {
      forall i | 0 <= i < |list|
        ensures list[i].path != path
      {
        PreorderIsSpelled("", children, list[i]);
        var m :| m != [] && SlashFree(m) && list[i].path == "" + Slashed(m);
        assert Slashed(m)[0] == '/';
      }
      NotFound(list, path);
    }
  }

  lemma {:induction false} NoEmptyName(children: seq<Node>)
    requires Proper(children)
    ensures Resolve(children, [""]) == 0
  {
    if children != [] {
      ProperRest(children);
      NoEmptyName(children[1..]);
    }
  }
}
