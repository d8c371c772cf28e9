/** What dirlist lists: the pure part (dirlist/dirlist.c).

A walk of a directory tree yields entries with a path and a level.  They are inserted into a list
ordered by strcmp of the path, that list is sorted by level with an insertion sort that never moves
anything before the first node, and the lines are numbered within each level.

The reference is independent of all that: an entry is listed exactly when a sequence of non-hidden
names leads to it from the root; its level is one more than the number of names; lines are strictly
ordered by level and then path; and a line's number is its rank among the lines of its level.
*/
module Listing {
  import opened Paths

  // ------------------------------------------------------------------ strcmp

  /** strcmp(a, b) < 0, for strings without NUL. */
  predicate Less(a: string, b: string) {
    if b == [] then false
    else if a == [] then true
    else if a[0] != b[0] then a[0] < b[0]
    else Less(a[1..], b[1..])
  }

  lemma {:induction false} LessIrreflexive(a: string)
    ensures !Less(a, a)
  {
    if a != [] {
      LessIrreflexive(a[1..]);
    }
  }

  lemma {:induction false} LessTransitive(a: string, b: string, c: string)
    requires Less(a, b) && Less(b, c)
    ensures Less(a, c)
  {
    if a != [] && a[0] == b[0] && b[0] == c[0] {
      LessTransitive(a[1..], b[1..], c[1..]);
    }
  }

  lemma {:induction false} LessTotal(a: string, b: string)
    ensures Less(a, b) || a == b || Less(b, a)
  {
    if a != [] && b != [] && a[0] == b[0] {
      LessTotal(a[1..], b[1..]);
      if a[1..] == b[1..] {
        assert a == [a[0]] + a[1..] && b == [b[0]] + b[1..];
      }
    }
  }

  lemma {:induction false} PrefixIsLess(a: string, b: string)
    requires b != []
    ensures Less(a, a + b)
  {
    if a != [] {
      assert (a + b)[1..] == a[1..] + b;
      PrefixIsLess(a[1..], b);
    }
  }

  // ------------------------------------------------------------------ trees and their walk

  datatype Tree = File(name: string) | Dir(name: string, children: seq<Tree>)

  /** `level` is the directory depth of the entry, 1 for the start of the walk. */
  datatype Entry = Entry(path: string, level: int)

  predicate Hidden(name: string) {
    |name| > 0 && name[0] == '.'
  }

  function Child(path: string, name: string): string {
    path + "/" + name
  }

  /** populate_list below the directory `path`: entries in the order the walk creates them. */
  function Walk(path: string, children: seq<Tree>, level: int): seq<Entry>
    decreases children
  {
    if children == [] then []
    else WalkOne(path, children[0], level) + Walk(path, children[1..], level)
  }

  function WalkOne(path: string, t: Tree, level: int): seq<Entry>
    decreases t
  {
    if Hidden(t.name) then []
    else [Entry(Child(path, t.name), level)]
         + if t.Dir? then Walk(Child(path, t.name), t.children, level + 1) else []
  }

  /** Everything populate_list creates, the starting directory first. */
  function Found(path: string, children: seq<Tree>): seq<Entry> {
    [Entry(path, 1)] + Walk(path, children, 2)
  }

  /** The names lead from a directory with these children to an entry, no hidden name on the way. */
  predicate Leads(children: seq<Tree>, names: seq<string>)
    decreases |names|
  {
    names == [] || exists i :: 0 <= i < |children| && Takes(children[i], names)
  }

  /** `t` is the first entry on the way. */
  predicate Takes(t: Tree, names: seq<string>)
    requires names != []
    decreases |names|, 0
  {
    && t.name == names[0] && !Hidden(t.name)
    && (|names| == 1 || (t.Dir? && Leads(t.children, names[1..])))
  }

  /** The path the walk builds for a sequence of names. */
  function Joined(path: string, names: seq<string>): string
    decreases |names|
  {
    if names == [] then path else Joined(Child(path, names[0]), names[1..])
  }

  /** Every entry of the walk is led to by names that spell its path and give its level. */
  lemma {:induction false} WalkIsLedTo(path: string, children: seq<Tree>, level: int, e: Entry)
    returns (names: seq<string>)
    requires e in Walk(path, children, level)
    ensures names != [] && Leads(children, names)
    ensures exists i :: 0 <= i < |children| && Takes(children[i], names)
    ensures e == Entry(Joined(path, names), level + |names| - 1)
    decreases children
  {
    if e in WalkOne(path, children[0], level) {
      names := WalkOneIsLedTo(path, children[0], level, e);
      assert Takes(children[0], names);
    } else {
      names := WalkIsLedTo(path, children[1..], level, e);
      var i :| 0 <= i < |children[1..]| && Takes(children[1..][i], names);
      assert Takes(children[i + 1], names);
    }
  }

  lemma {:induction false} WalkOneIsLedTo(path: string, t: Tree, level: int, e: Entry)
    returns (names: seq<string>)
    requires e in WalkOne(path, t, level)
    ensures names != [] && Takes(t, names)
    ensures e == Entry(Joined(path, names), level + |names| - 1)
    decreases t
  {
    if e == Entry(Child(path, t.name), level) {
      names := [t.name];
      assert names[1..] == [];
    } else {
      var rest := WalkIsLedTo(Child(path, t.name), t.children, level + 1, e);
      names := [t.name] + rest;
      assert names[1..] == rest;
    }
  }

  /** Everything that names lead to is in the walk. */
  lemma {:induction false} LedToIsWalked(path: string, children: seq<Tree>, level: int,
                                         names: seq<string>)
    requires names != [] && Leads(children, names)
    ensures Entry(Joined(path, names), level + |names| - 1) in Walk(path, children, level)
    decreases children
  {
    var i :| 0 <= i < |children| && Takes(children[i], names);
    if i == 0 {
      TakenIsWalked(path, children[0], level, names);
    } else {
      assert Takes(children[1..][i - 1], names);
      LedToIsWalked(path, children[1..], level, names);
    }
  }

  lemma {:induction false} TakenIsWalked(path: string, t: Tree, level: int, names: seq<string>)
    requires names != [] && Takes(t, names)
    ensures Entry(Joined(path, names), level + |names| - 1) in WalkOne(path, t, level)
    decreases t
  {
    if |names| == 1 {
      assert names[1..] == [];
    } else {
      LedToIsWalked(Child(path, t.name), t.children, level + 1, names[1..]);
    }
  }

  // ------------------------------------------------------------------ paths are unique

  /** Directory entries have distinct names without a slash. */
  ghost predicate WellNamed(children: seq<Tree>)
    decreases children
  {
    && (forall i, j :: 0 <= i < j < |children| ==> children[i].name != children[j].name)
    && (forall i :: 0 <= i < |children| ==>
          '/' !in children[i].name && (children[i].Dir? ==> WellNamed(children[i].children)))
  }

  lemma {:induction false} LedNamesAreSlashFree(children: seq<Tree>, names: seq<string>)
    requires WellNamed(children) && Leads(children, names)
    ensures SlashFree(names)
    decreases |names|
  {
    if names != [] {
      var i :| 0 <= i < |children| && Takes(children[i], names);
      if |names| > 1 {
        LedNamesAreSlashFree(children[i].children, names[1..]);
        assert forall k :: 1 <= k < |names| ==> names[k] == names[1..][k - 1];
      }
    }
  }

  lemma {:induction false} JoinedIsSlashed(path: string, names: seq<string>)
    ensures Joined(path, names) == path + Slashed(names)
    decreases |names|
  {
    if names == [] {
      assert path + "" == path;
    } else {
      JoinedIsSlashed(Child(path, names[0]), names[1..]);
      assert Child(path, names[0]) + Slashed(names[1..]) == path + ("/" + names[0] + Slashed(names[1..]));
    }
  }

  lemma JoinedIsUnique(path: string, a: seq<string>, b: seq<string>)
    requires SlashFree(a) && SlashFree(b) && Joined(path, a) == Joined(path, b)
    ensures a == b
  {
    JoinedIsSlashed(path, a);
    JoinedIsSlashed(path, b);
    assert Slashed(a) == (path + Slashed(a))[|path|..];
    assert Slashed(b) == (path + Slashed(b))[|path|..];
    SlashedIsUnique(a, b);
  }

  ghost predicate DistinctPaths(s: seq<Entry>) {
    forall i, j :: 0 <= i < j < |s| ==> s[i].path != s[j].path
  }

  lemma DistinctSum(a: seq<Entry>, b: seq<Entry>)
    requires DistinctPaths(a) && DistinctPaths(b)
    requires forall x, y :: x in a && y in b ==> x.path != y.path
    ensures DistinctPaths(a + b)
  {
  }

  /** The walk of well-named children creates no path twice. */
  lemma {:induction false} WalkIsDistinct(path: string, children: seq<Tree>, level: int)
    requires WellNamed(children)
    ensures DistinctPaths(Walk(path, children, level))
    decreases children
  {
    if children != [] {
      WalkOneIsDistinct(path, children[0], level);
      assert WellNamed(children[1..]) by {
        assert forall i :: 0 <= i < |children[1..]| ==> children[1..][i] == children[i + 1];
      }
      WalkIsDistinct(path, children[1..], level);
      forall x, y | x in WalkOne(path, children[0], level) && y in Walk(path, children[1..], level)
        ensures x.path != y.path
      {
        SiblingsDiffer(path, children, level, x, y);
      }
      DistinctSum(WalkOne(path, children[0], level), Walk(path, children[1..], level));
    }
  }

  lemma SiblingsDiffer(path: string, children: seq<Tree>, level: int, x: Entry, y: Entry)
    requires WellNamed(children) && children != []
    requires x in WalkOne(path, children[0], level) && y in Walk(path, children[1..], level)
    ensures x.path != y.path
  {
    var a := WalkOneIsLedTo(path, children[0], level, x);
    var b := WalkIsLedTo(path, children[1..], level, y);
    var i :| 0 <= i < |children[1..]| && Takes(children[1..][i], b);
    assert children[1..][i] == children[i + 1];
    assert Takes(children[0], a) && Takes(children[i + 1], b);
    assert Leads(children, a) && Leads(children, b);
    LedNamesAreSlashFree(children, a);
    LedNamesAreSlashFree(children, b);
    if x.path == y.path {
      JoinedIsUnique(path, a, b);
    }
  }

  lemma {:induction false} WalkOneIsDistinct(path: string, t: Tree, level: int)
    requires '/' !in t.name && (t.Dir? ==> WellNamed(t.children))
    ensures DistinctPaths(WalkOne(path, t, level))
    decreases t
  {
    if !Hidden(t.name) && t.Dir? {
      var inner := Walk(Child(path, t.name), t.children, level + 1);
      WalkIsDistinct(Child(path, t.name), t.children, level + 1);
      forall y | y in inner
        ensures y.path != Child(path, t.name)
      {
        BelowDiffers(Child(path, t.name), t.children, level + 1, y);
      }
      DistinctSum([Entry(Child(path, t.name), level)], inner);
    }
  }

  /** An entry below a directory has a path longer than, and so different from, the directory's. */
  lemma BelowDiffers(path: string, children: seq<Tree>, level: int, y: Entry)
    requires y in Walk(path, children, level)
    ensures y.path != path && Less(path, y.path)
  {
    var names := WalkIsLedTo(path, children, level, y);
    JoinedIsSlashed(path, names);
    PrefixIsLess(path, Slashed(names));
  }

  lemma FoundIsDistinct(path: string, children: seq<Tree>)
    requires WellNamed(children)
    ensures DistinctPaths(Found(path, children))
  {
    WalkIsDistinct(path, children, 2);
    forall y | y in Walk(path, children, 2)
      ensures y.path != path
    {
      BelowDiffers(path, children, 2, y);
    }
    DistinctSum([Entry(path, 1)], Walk(path, children, 2));
  }

  // ------------------------------------------------------------------ insert_sorted

  /** The paths are in strcmp order. */
  ghost predicate ByPath(s: seq<Entry>) {
    forall i, j :: 0 <= i < j < |s| ==> !Less(s[j].path, s[i].path)
  }

  /** The first node that the new path does not exceed, or the end. */
  function Place(path: string, s: seq<Entry>): (k: nat)
    ensures k <= |s|
    ensures k < |s| ==> !Less(s[k].path, path)
    ensures forall i :: 0 <= i < k ==> Less(s[i].path, path)
  {
    if s == [] || !Less(s[0].path, path) then 0
    else
      var k := Place(path, s[1..]);
      assert forall i :: 1 <= i < k + 1 ==> s[i] == s[1..][i - 1];
      k + 1
  }

  function Inserted(e: Entry, s: seq<Entry>): seq<Entry> {
    var k := Place(e.path, s);
    s[..k] + [e] + s[k..]
  }

  lemma NotLessTransitive(a: string, b: string, c: string)
    requires !Less(b, a) && !Less(c, b)
    ensures !Less(c, a)
  {
    LessTotal(a, b);
    LessTotal(b, c);
    if Less(a, b) && Less(b, c) {
      LessTransitive(a, b, c);
    }
    if Less(c, a) {
      if Less(a, b) {
        LessTransitive(c, a, b);
      }
      LessIrreflexive(a);
    }
  }

  lemma NotBothLess(a: string, b: string)
    ensures !(Less(a, b) && Less(b, a))
  {
    if Less(a, b) && Less(b, a) {
      LessTransitive(a, b, a);
      LessIrreflexive(a);
    }
  }

  /** What is before the place does not exceed the new path, what is behind it is not exceeded. */
  lemma PlaceSplits(e: Entry, s: seq<Entry>, k: nat, i: nat)
    requires ByPath(s) && k == Place(e.path, s) && i < |s|
    ensures i < k ==> !Less(e.path, s[i].path)
    ensures k <= i ==> !Less(s[i].path, e.path)
  {
    if i < k {
      NotBothLess(s[i].path, e.path);
    } else if k < i {
      NotLessTransitive(e.path, s[k].path, s[i].path);
    }
  }

  lemma InsertedIsPermutation(e: Entry, s: seq<Entry>)
    ensures multiset(Inserted(e, s)) == multiset(s) + multiset{e}
  {
    var k := Place(e.path, s);
    assert s == s[..k] + s[k..];
  }

  lemma SplicedIsByPath(e: Entry, s: seq<Entry>, k: nat, r: seq<Entry>)
    requires ByPath(s) && k == Place(e.path, s) && r == s[..k] + [e] + s[k..]
    ensures ByPath(r)
  {
    forall i, j | 0 <= i < j < |r|
      ensures !Less(r[j].path, r[i].path)
    {
      if j == k {
        PlaceSplits(e, s, k, i);
      } else if i == k {
        PlaceSplits(e, s, k, j - 1);
      } else {
        assert r[i] == s[if i < k then i else i - 1] && r[j] == s[if j < k then j else j - 1];
      }
    }
  }

  lemma InsertedIsByPath(e: Entry, s: seq<Entry>)
    requires ByPath(s)
    ensures ByPath(Inserted(e, s))
    ensures multiset(Inserted(e, s)) == multiset(s) + multiset{e}
  {
    InsertedIsPermutation(e, s);
    SplicedIsByPath(e, s, Place(e.path, s), Inserted(e, s));
  }

  /** All of populate_list's insertions, in walk order. */
  function InsertedAll(s: seq<Entry>, es: seq<Entry>): seq<Entry>
    decreases |es|
  {
    if es == [] then s else InsertedAll(Inserted(es[0], s), es[1..])
  }

  lemma {:induction false} InsertedAllOfSum(s: seq<Entry>, a: seq<Entry>, b: seq<Entry>)
    ensures InsertedAll(s, a + b) == InsertedAll(InsertedAll(s, a), b)
    decreases |a|
  {
    if a == [] {
      assert a + b == b;
    } else {
      assert (a + b)[1..] == a[1..] + b;
      InsertedAllOfSum(Inserted(a[0], s), a[1..], b);
    }
  }

  lemma {:induction false} InsertedAllIsByPath(s: seq<Entry>, es: seq<Entry>)
    requires ByPath(s)
    ensures ByPath(InsertedAll(s, es))
    ensures multiset(InsertedAll(s, es)) == multiset(s) + multiset(es)
    decreases |es|
  {
    if es != [] {
      InsertedIsByPath(es[0], s);
      InsertedAllIsByPath(Inserted(es[0], s), es[1..]);
      assert es == [es[0]] + es[1..];
    }
  }

  // ------------------------------------------------------------------ the sort by level

  /** Where the backward scan stops: the last node of the sorted part whose level does not exceed
      the key, or the first node, whatever its level. */
  function Anchor(s: seq<Entry>, key: int): (j: nat)
    requires s != []
    ensures j < |s|
    ensures j == 0 || s[j].level <= key
    ensures forall i :: j < i < |s| ==> s[i].level > key
  {
    var n := |s| - 1;
    if n == 0 || s[n].level <= key then n else Anchor(s[..n], key)
  }

  /** One round of the sort: the element moves behind its anchor. */
  function PutBack(s: seq<Entry>, e: Entry): seq<Entry>
    requires s != []
  {
    var j := Anchor(s, e.level);
    s[..j + 1] + [e] + s[j + 1..]
  }

  /** The remaining rounds, with `done` already sorted. */
  function Rounds(done: seq<Entry>, rest: seq<Entry>): seq<Entry>
    requires done != []
    decreases |rest|
  {
    if rest == [] then done else Rounds(PutBack(done, rest[0]), rest[1..])
  }

  /** insertion_sort_by_level_increasing. */
  function SortedByLevel(s: seq<Entry>): seq<Entry>
    requires s != []
  {
    Rounds(s[..1], s[1..])
  }

  lemma PutBackIsPermutation(p: seq<Entry>, e: Entry)
    requires p != []
    ensures multiset(PutBack(p, e)) == multiset(p) + multiset{e}
  {
    var j := Anchor(p, e.level);
    assert p == p[..j + 1] + p[j + 1..];
  }

  lemma {:induction false} RoundsArePermutation(done: seq<Entry>, rest: seq<Entry>)
    requires done != []
    ensures multiset(Rounds(done, rest)) == multiset(done) + multiset(rest)
    ensures Rounds(done, rest) != [] && Rounds(done, rest)[0] == done[0]
    decreases |rest|
  {
    if rest != [] {
      PutBackIsPermutation(done, rest[0]);
      RoundsArePermutation(PutBack(done, rest[0]), rest[1..]);
      assert rest == [rest[0]] + rest[1..];
    }
  }

  /** Levels increase; within a level the paths increase. */
  predicate Before(a: Entry, b: Entry) {
    a.level < b.level || (a.level == b.level && Less(a.path, b.path))
  }

  ghost predicate InOrder(s: seq<Entry>) {
    forall i, j :: 0 <= i < j < |s| ==> Before(s[i], s[j])
  }

  /** What the rounds have sorted comes before what is left, in the order of paths. */
  ghost predicate Behind(done: seq<Entry>, rest: seq<Entry>) {
    forall i, j :: 0 <= i < |done| && 0 <= j < |rest| ==> Less(done[i].path, rest[j].path)
  }

  ghost predicate StrictlyByPath(s: seq<Entry>) {
    forall i, j :: 0 <= i < j < |s| ==> Less(s[i].path, s[j].path)
  }

  lemma BehindAfterRound(done: seq<Entry>, rest: seq<Entry>)
    requires done != [] && rest != [] && Behind(done, rest) && StrictlyByPath(rest)
    ensures Behind(PutBack(done, rest[0]), rest[1..])
  {
    var j, r := Anchor(done, rest[0].level), PutBack(done, rest[0]);
    assert forall i :: 0 <= i < |r| ==> r[i] == rest[0] || r[i] in done;
  }

  lemma {:induction false} RoundsKeepOrder(done: seq<Entry>, rest: seq<Entry>)
    requires done != [] && InOrder(done) && Behind(done, rest) && StrictlyByPath(rest)
    requires forall i :: 0 <= i < |rest| ==> done[0].level <= rest[i].level
    ensures InOrder(Rounds(done, rest))
    decreases |rest|
  {
    if rest != [] {
      PutBackKeepsOrder(done, rest[0]);
      BehindAfterRound(done, rest);
      RoundsKeepOrder(PutBack(done, rest[0]), rest[1..]);
    }
  }

  lemma PutBackKeepsOrder(p: seq<Entry>, e: Entry)
    requires p != [] && InOrder(p) && p[0].level <= e.level
    requires forall i :: 0 <= i < |p| ==> Less(p[i].path, e.path)
    ensures InOrder(PutBack(p, e))
  {
    var j := Anchor(p, e.level);
    assert forall i :: 0 <= i <= j ==> p[i].level <= p[j].level by {
      assert forall i :: 0 <= i < j ==> Before(p[i], p[j]);
    }
  }

  lemma DistinctIsStrict(s: seq<Entry>)
    requires ByPath(s) && DistinctPaths(s)
    ensures StrictlyByPath(s)
  {
    forall i, j | 0 <= i < j < |s|
      ensures Less(s[i].path, s[j].path)
    {
      LessTotal(s[i].path, s[j].path);
    }
  }

  ghost predicate HeadIsLeast(s: seq<Entry>)
    requires s != []
  {
    forall i :: 0 < i < |s| ==> s[0].level <= s[i].level
  }

  lemma SortIsPermutation(s: seq<Entry>)
    requires s != []
    ensures multiset(SortedByLevel(s)) == multiset(s)
    ensures SortedByLevel(s) != [] && SortedByLevel(s)[0] == s[0]
  {
    RoundsArePermutation(s[..1], s[1..]);
    assert s == s[..1] + s[1..];
  }

  lemma SortedIfHeadIsLeast(s: seq<Entry>)
    requires s != [] && StrictlyByPath(s) && HeadIsLeast(s)
    ensures InOrder(SortedByLevel(s))
  {
    RoundsKeepOrder(s[..1], s[1..]);
  }

  lemma HeadIsLeastIfSorted(s: seq<Entry>)
    requires s != [] && InOrder(SortedByLevel(s))
    ensures HeadIsLeast(s)
  {
    var r := SortedByLevel(s);
    SortIsPermutation(s);
    forall i | 0 < i < |s|
      ensures s[0].level <= s[i].level
    {
      assert s[i] in multiset(r);
      var j :| 0 <= j < |r| && r[j] == s[i];
      assert j == 0 || Before(r[0], r[j]);
    }
  }

  /** A list it leaves out of order: the smaller level comes second. */
  lemma SmallerLevelStaysSecond()
    ensures var s := [Entry("a", 2), Entry("b", 1)];
            ByPath(s) && DistinctPaths(s) && SortedByLevel(s) == s && !InOrder(s)
  {
    var s := [Entry("a", 2), Entry("b", 1)];
    assert s[1..] == [s[1]] && s[..1] == [s[0]];
    assert PutBack([s[0]], s[1]) == s;
    assert s[1..][1..] == [];
    assert !Before(s[0], s[1]);
  }

  /** The sort leaves the first node first, so it orders the levels exactly when that node has the
      smallest level. */
  lemma SortIsRightExactlyWhenHeadIsLeast(s: seq<Entry>)
    requires s != [] && ByPath(s) && DistinctPaths(s)
    ensures InOrder(SortedByLevel(s)) <==> HeadIsLeast(s)
    ensures multiset(SortedByLevel(s)) == multiset(s)
  {
    SortIsPermutation(s);
    DistinctIsStrict(s);
    if HeadIsLeast(s) {
      SortedIfHeadIsLeast(s);
    }
    if InOrder(SortedByLevel(s)) {
      HeadIsLeastIfSorted(s);
    }
  }

  // ------------------------------------------------------------------ the printed lines

  datatype Line = Line(level: int, order: int, path: string)

  /** print_list_to_file: the order restarts where the level differs from the previous node's. */
  function Order(s: seq<Entry>, i: nat): int
    requires i < |s|
  {
    if i > 0 && s[i].level == s[i - 1].level then Order(s, i - 1) + 1 else 1
  }

  function Lines(s: seq<Entry>): seq<Line> {
    seq(|s|, i requires 0 <= i < |s| => Line(s[i].level, Order(s, i), s[i].path))
  }

  /** How many of the first `n` entries have `e`'s level and a path that is not after `e`'s. */
  function Rank(s: seq<Entry>, n: nat, e: Entry): nat
    requires n <= |s|
  {
    if n == 0 then 0
    else Rank(s, n - 1, e)
         + if s[n - 1].level == e.level && !Less(e.path, s[n - 1].path) then 1 else 0
  }

  lemma {:induction false} OrderCountsUpTo(s: seq<Entry>, i: nat)
    requires InOrder(s) && i < |s|
    ensures Order(s, i) == Rank(s, i + 1, s[i])
  {
    LessIrreflexive(s[i].path);
    if i > 0 {
      assert Before(s[i - 1], s[i]);
      if s[i].level == s[i - 1].level {
        OrderCountsUpTo(s, i - 1);
        SameLevelSameRank(s, i, s[i - 1], s[i]);
      } else {
        NoneOfLevel(s, i, s[i]);
      }
    }
  }

  lemma {:induction false} NoneOfLevel(s: seq<Entry>, n: nat, e: Entry)
    requires n <= |s| && forall k :: 0 <= k < n ==> Before(s[k], e) && s[k].level != e.level
    ensures Rank(s, n, e) == 0
  {
    if n > 0 {
      NoneOfLevel(s, n - 1, e);
    }
  }

  /** Below index `n`, an entry and its predecessor on the same level count the same entries. */
  lemma {:induction false} SameLevelSameRank(s: seq<Entry>, n: nat, a: Entry, b: Entry)
    requires n <= |s| && a.level == b.level
    requires forall k :: 0 <= k < n ==> s[k] == a || Before(s[k], a)
    requires forall k :: 0 <= k < n ==> Before(s[k], b)
    ensures Rank(s, n, a) == Rank(s, n, b)
  {
    if n > 0 {
      SameLevelSameRank(s, n - 1, a, b);
      var x := s[n - 1];
      if x.level == a.level {
        LessIrreflexive(a.path);
        NotBothLess(x.path, b.path);
        NotBothLess(x.path, a.path);
      }
    }
  }

  lemma {:induction false} RankStopsAt(s: seq<Entry>, i: nat, n: nat)
    requires InOrder(s) && i < n <= |s|
    ensures Rank(s, n, s[i]) == Rank(s, i + 1, s[i])
  {
    if n > i + 1 {
      RankStopsAt(s, i, n - 1);
      assert Before(s[i], s[n - 1]);
    }
  }

  // ------------------------------------------------------------------ end to end

  function ListOf(path: string, children: seq<Tree>): seq<Entry> {
    InsertedAll([], Found(path, children))
  }

  lemma {:induction false} TwiceMeansTwoPlaces(s: seq<Entry>, x: Entry)
    requires multiset(s)[x] >= 2
    ensures exists i, j :: 0 <= i < j < |s| && s[i] == x && s[j] == x
  {
    var n := |s| - 1;
    assert s == s[..n] + [s[n]];
    if s[n] == x {
      assert x in multiset(s[..n]);
      assert x in s[..n];
      var i :| 0 <= i < n && s[i] == x;
      assert s[i] == x && s[n] == x;
    } else {
      TwiceMeansTwoPlaces(s[..n], x);
      var i, j :| 0 <= i < j < |s[..n]| && s[..n][i] == x && s[..n][j] == x;
      assert s[i] == x && s[j] == x;
    }
  }

  lemma PermutationIsDistinct(a: seq<Entry>, b: seq<Entry>)
    requires multiset(a) == multiset(b) && DistinctPaths(a)
    ensures DistinctPaths(b)
  {
    forall i, j | 0 <= i < j < |b|
      ensures b[i].path != b[j].path
    {
      assert b[i] in multiset(a) && b[j] in multiset(a);
      if b[i] == b[j] {
        assert b == b[..i] + [b[i]] + b[i + 1..j] + [b[j]] + b[j + 1..];
        TwiceMeansTwoPlaces(a, b[i]);
      } else {
        var k :| 0 <= k < |a| && a[k] == b[i];
        var m :| 0 <= m < |a| && a[m] == b[j];
      }
    }
  }

  /** The starting directory sorts before everything below it, so it heads the list with the one
      smallest level. */
  lemma RootHeadsTheList(path: string, children: seq<Tree>)
    requires WellNamed(children)
    ensures var s := ListOf(path, children);
            && s != [] && ByPath(s) && DistinctPaths(s)
            && multiset(s) == multiset(Found(path, children))
            && s[0] == Entry(path, 1)
            && forall i :: 0 < i < |s| ==> s[i].level >= 2
  {
    var found := Found(path, children);
    var s := ListOf(path, children);
    InsertedAllIsByPath([], found);
    FoundIsDistinct(path, children);
    PermutationIsDistinct(found, s);
    assert found[0] == Entry(path, 1);
    assert Entry(path, 1) in multiset(s);
    var m :| 0 <= m < |s| && s[m] == Entry(path, 1);
    forall i | 0 <= i < |s| && i != m
      ensures s[i].level >= 2 && Less(path, s[i].path)
    {
      assert s[i] in multiset(found);
      assert s[i] in Walk(path, children, 2);
      var names := WalkIsLedTo(path, children, 2, s[i]);
      BelowDiffers(path, children, 2, s[i]);
    }
    assert forall j :: 0 < j < |s| ==> !Less(s[j].path, s[0].path);
  }

  /** What dirlist writes for a directory `path` with these children. */
  function Output(path: string, children: seq<Tree>): seq<Line>
    requires ListOf(path, children) != []
  {
    Lines(SortedByLevel(ListOf(path, children)))
  }

  lemma FoundIsLedTo(path: string, children: seq<Tree>, e: Entry)
    ensures e in Found(path, children) <==>
            exists names :: Leads(children, names) && e == Entry(Joined(path, names), 1 + |names|)
  {
    if e in Found(path, children) {
      if e == Entry(path, 1) {
        var none: seq<string> := [];
        assert Leads(children, none) && e == Entry(Joined(path, none), 1 + |none|);
      } else {
        var names := WalkIsLedTo(path, children, 2, e);
      }
    }
    if names :| Leads(children, names) && e == Entry(Joined(path, names), 1 + |names|) {
      if names != [] {
        LedToIsWalked(path, children, 2, names);
      }
    }
  }

  function Entries(out: seq<Line>): seq<Entry> {
    seq(|out|, i requires 0 <= i < |out| => Entry(out[i].path, out[i].level))
  }

  /** Every line is for an entry that non-hidden names lead to, on the level they say. */
  ghost predicate OnlyLedTo(s: seq<Entry>, path: string, children: seq<Tree>) {
    forall i :: 0 <= i < |s| ==>
      exists names :: Leads(children, names) && s[i] == Entry(Joined(path, names), 1 + |names|)
  }

  /** Every such entry has a line. */
  ghost predicate AllLedTo(s: seq<Entry>, path: string, children: seq<Tree>) {
    forall names :: Leads(children, names) ==> Entry(Joined(path, names), 1 + |names|) in s
  }

  ghost predicate OrdersAreRanks(out: seq<Line>) {
    forall i :: 0 <= i < |out| ==>
      out[i].order == Rank(Entries(out), |out|, Entry(out[i].path, out[i].level))
  }

  /** A permutation of what was found has exactly the entries that names lead to. */
  lemma FoundIsExact(r: seq<Entry>, path: string, children: seq<Tree>)
    requires multiset(r) == multiset(Found(path, children))
    ensures OnlyLedTo(r, path, children) && AllLedTo(r, path, children)
  {
    assert forall e :: e in r <==> e in multiset(r);
    assert forall e :: e in Found(path, children) <==> e in multiset(Found(path, children));
    forall i | 0 <= i < |r|
      ensures exists names :: Leads(children, names) && r[i] == Entry(Joined(path, names), 1 + |names|)
    {
      assert r[i] in r;
      FoundIsLedTo(path, children, r[i]);
    }
    forall names | Leads(children, names)
      ensures Entry(Joined(path, names), 1 + |names|) in r
    {
      FoundIsLedTo(path, children, Entry(Joined(path, names), 1 + |names|));
    }
  }

  lemma SortedListIsExact(path: string, children: seq<Tree>)
    requires WellNamed(children)
    ensures ListOf(path, children) != []
    ensures var r := SortedByLevel(ListOf(path, children));
            InOrder(r) && OnlyLedTo(r, path, children) && AllLedTo(r, path, children)
  {
    var s := ListOf(path, children);
    RootHeadsTheList(path, children);
    SortIsRightExactlyWhenHeadIsLeast(s);
    FoundIsExact(SortedByLevel(s), path, children);
  }

  lemma LinesCarryRanks(r: seq<Entry>)
    requires InOrder(r)
    ensures Entries(Lines(r)) == r && OrdersAreRanks(Lines(r))
  {
    assert Entries(Lines(r)) == r;
    forall i | 0 <= i < |r|
      ensures Order(r, i) == Rank(r, |r|, r[i])
    {
      OrderCountsUpTo(r, i);
      RankStopsAt(r, i, |r|);
    }
  }

  /** End to end, for every directory tree: the lines are strictly ordered by level and path, so none
      comes twice; a line is there exactly when non-hidden names lead to its path, and its level is
      one more than their number; and its order is its rank among the lines of its level. */
  lemma OutputIsTheListing(path: string, children: seq<Tree>)
    requires WellNamed(children)
    ensures ListOf(path, children) != []
    ensures var out := Output(path, children);
            && InOrder(Entries(out))
            && OnlyLedTo(Entries(out), path, children)
            && AllLedTo(Entries(out), path, children)
            && OrdersAreRanks(out)
  {
    SortedListIsExact(path, children);
    LinesCarryRanks(SortedByLevel(ListOf(path, children)));
  }
}
