/** d_walk (fs/dcache.c): the walk over the dentry tree that goes down, along and up with gotos, on a
tree that is not renamed meanwhile.

The loop visits what a recursive preorder visits.  The code passes over killed siblings, but only
those that follow a dentry it has just come up from; the recursive form says so exactly, and where
no listed dentry is killed it is plain preorder.  No dentry is entered twice, whatever the callback.
*/
module DentryWalk {
  import opened Collections

  /** A pointer along a d_subdirs list: another dentry, or back to the list's head. */
  datatype Link = End | To(d: nat)

  /** What the walk reads: d_parent, d_subdirs.next, d_child.next, and two flags. */
  datatype Dcache = Dcache(parent: map<nat, nat>, first: map<nat, Link>, next: map<nat, Link>,
                           cursors: set<nat>, killed: set<nat>)

  datatype Ret = Continue | Quit | NoRetry | Skip

  /** The callback's data, and the dentries it has been called on. */
  datatype Walk<D> = Walk(data: D, calls: seq<nat>)

  datatype Outcome<D> = Outcome(w: Walk<D>, quit: bool)

  // ------------------------------------------------------------------ the tree the links form

  datatype Tree = Node(d: nat, children: seq<Tree>)

  function LinkTo(ts: seq<Tree>): Link {
    if ts == [] then End else To(ts[0].d)
  }

  ghost predicate Represents(c: Dcache, t: Tree)
    decreases t
  {
    t.d in c.first && c.first[t.d] == LinkTo(t.children) && Siblings(c, t.d, t.children)
  }

  ghost predicate Siblings(c: Dcache, parent: nat, ts: seq<Tree>)
    decreases ts
  {
    ts != [] ==>
      && ts[0].d in c.next && c.next[ts[0].d] == LinkTo(ts[1..])
      && ts[0].d in c.parent && c.parent[ts[0].d] == parent
      && Represents(c, ts[0]) && Siblings(c, parent, ts[1..])
  }

  lemma {:induction false} SiblingAt(c: Dcache, parent: nat, ts: seq<Tree>, i: nat)
    requires Siblings(c, parent, ts) && i <= |ts|
    ensures Siblings(c, parent, ts[i..])
  {
    if i == 0 {
      assert ts[0..] == ts;
    } else {
      SiblingAt(c, parent, ts[1..], i - 1);
      assert ts[1..][i - 1..] == ts[i..];
    }
  }

  // ------------------------------------------------------------------ the recursive form

  function Entered<D>(w: Walk<D>, d: nat, enter: (D, nat) -> (D, Ret)): Walk<D> {
    Walk(enter(w.data, d).0, w.calls + [d])
  }

  /** The rest of a list of siblings; `ascended` is whether the walk has just come up from the
      sibling before them. */
  function Visit<D>(c: Dcache, enter: (D, nat) -> (D, Ret), ts: seq<Tree>, w: Walk<D>, ascended: bool):
      Outcome<D>
    decreases ts
  {
    if ts == [] then Outcome(w, false)
    else if ascended && ts[0].d in c.killed then Visit(c, enter, ts[1..], w, true)
    else if ts[0].d in c.cursors then Visit(c, enter, ts[1..], w, false)
    else
      var ret, w' := enter(w.data, ts[0].d).1, Entered(w, ts[0].d, enter);
      if ret.Quit? then Outcome(w', true)
      else if ret.Skip? || ts[0].children == [] then Visit(c, enter, ts[1..], w', false)
      else
        var o := Visit(c, enter, ts[0].children, w', false);
        if o.quit then o else Visit(c, enter, ts[1..], o.w, true)
  }

  /** Preorder with Continue, Skip and Quit, as one would write it. */
  function Preorder<D>(cursors: set<nat>, enter: (D, nat) -> (D, Ret), t: Tree, w: Walk<D>): Outcome<D>
    decreases t
  {
    if t.d in cursors then Outcome(w, false)
    else
      var ret, w' := enter(w.data, t.d).1, Entered(w, t.d, enter);
      match ret
      case Quit => Outcome(w', true)
      case Skip => Outcome(w', false)
      case _ => PreorderAll(cursors, enter, t.children, w')
  }

  function PreorderAll<D>(cursors: set<nat>, enter: (D, nat) -> (D, Ret), ts: seq<Tree>, w: Walk<D>):
      Outcome<D>
    decreases ts
  {
    if ts == [] then Outcome(w, false)
    else
      var o := Preorder(cursors, enter, ts[0], w);
      if o.quit then o else PreorderAll(cursors, enter, ts[1..], o.w)
  }

  ghost predicate NoneKilled(killed: set<nat>, ts: seq<Tree>)
    decreases ts
  {
    ts != [] ==> ts[0].d !in killed && NoneKilled(killed, ts[0].children) && NoneKilled(killed, ts[1..])
  }

  lemma {:induction false} VisitIsPreorder<D>(c: Dcache, enter: (D, nat) -> (D, Ret), ts: seq<Tree>,
                                              w: Walk<D>, ascended: bool)
    requires NoneKilled(c.killed, ts)
    ensures Visit(c, enter, ts, w, ascended) == PreorderAll(c.cursors, enter, ts, w)
    decreases ts
  {
    if ts != [] {
      if ts[0].d in c.cursors {
        VisitIsPreorder(c, enter, ts[1..], w, false);
      } else {
        var ret, w' := enter(w.data, ts[0].d).1, Entered(w, ts[0].d, enter);
        VisitIsPreorder(c, enter, ts[0].children, w', false);
        VisitIsPreorder(c, enter, ts[1..], w', false);
        VisitIsPreorder(c, enter, ts[1..], Visit(c, enter, ts[0].children, w', false).w, true);
      }
    }
  }

  /** All dentries of the trees but the cursors and what is below them, in preorder. */
  function Flat(cursors: set<nat>, ts: seq<Tree>): seq<nat>
    decreases ts
  {
    if ts == [] then [] else FlatOne(cursors, ts[0]) + Flat(cursors, ts[1..])
  }

  function FlatOne(cursors: set<nat>, t: Tree): seq<nat>
    decreases t
  {
    if t.d in cursors then [] else [t.d] + Flat(cursors, t.children)
  }

  ghost predicate AlwaysContinues<D(!new)>(enter: (D, nat) -> (D, Ret)) {
    forall x, d :: enter(x, d).1.Continue?
  }

  /** A callback that always continues is called on every dentry, in preorder. */
  lemma {:induction false} ContinuingVisitsAll<D(!new)>(cursors: set<nat>, enter: (D, nat) -> (D, Ret),
                                                  ts: seq<Tree>, w: Walk<D>)
    requires AlwaysContinues(enter)
    ensures !PreorderAll(cursors, enter, ts, w).quit
    ensures PreorderAll(cursors, enter, ts, w).w.calls == w.calls + Flat(cursors, ts)
    decreases ts
  {
    if ts != [] {
      ContinuingVisitsTree(cursors, enter, ts[0], w);
      var o := Preorder(cursors, enter, ts[0], w);
      ContinuingVisitsAll(cursors, enter, ts[1..], o.w);
      Regroup(w.calls, FlatOne(cursors, ts[0]), Flat(cursors, ts[1..]));
    }
  }

  lemma {:induction false} ContinuingVisitsTree<D(!new)>(cursors: set<nat>, enter: (D, nat) -> (D, Ret),
                                                   t: Tree, w: Walk<D>)
    requires AlwaysContinues(enter)
    ensures !Preorder(cursors, enter, t, w).quit
    ensures Preorder(cursors, enter, t, w).w.calls == w.calls + FlatOne(cursors, t)
    decreases t
  {
    if t.d !in cursors {
      ContinuingVisitsAll(cursors, enter, t.children, Entered(w, t.d, enter));
      Regroup(w.calls, [t.d], Flat(cursors, t.children));
    }
  }

  // ------------------------------------------------------------------ where the loop is

  /** A dentry on the way down, and the child of it that comes next. */
  datatype Frame = Frame(t: Tree, i: nat)

  function RestOf(f: Frame): seq<Tree> {
    if f.i <= |f.t.children| then f.t.children[f.i..] else []
  }

  /** What is left to do: the rest of the innermost list, then that of its parent, and so on. */
  function Rest<D>(c: Dcache, enter: (D, nat) -> (D, Ret), below: seq<Frame>, top: Frame, w: Walk<D>,
                   ascended: bool): Outcome<D>
    decreases |below|
  {
    var o := Visit(c, enter, RestOf(top), w, ascended);
    if o.quit || below == [] then o
    else Rest(c, enter, below[..|below| - 1], below[|below| - 1], o.w, true)
  }

  /** The frames lead from the root down, each through the child before its next one. */
  ghost predicate Path(c: Dcache, root: Tree, below: seq<Frame>, top: Frame)
    decreases |below|
  {
    && Represents(c, top.t) && top.i <= |top.t.children|
    && if below == [] then top.t == root
       else
         var up := below[|below| - 1];
         && 0 < up.i <= |up.t.children| && top.t == up.t.children[up.i - 1]
         && Path(c, root, below[..|below| - 1], up)
  }

  function Size(ts: seq<Tree>): nat
    decreases ts
  {
    if ts == [] then 0 else 1 + Size(ts[0].children) + Size(ts[1..])
  }

  /** Dentries not yet come to. */
  function Left(below: seq<Frame>, top: Frame): nat
    decreases |below|
  {
    Size(RestOf(top)) + if below == [] then 0 else Left(below[..|below| - 1], below[|below| - 1])
  }

  // ------------------------------------------------------------------ the root is met only once

  /** The links from a dentry form one tree. */
  lemma {:induction false} OneTree(c: Dcache, a: Tree, b: Tree)
    requires Represents(c, a) && Represents(c, b) && a.d == b.d
    ensures a == b
    decreases a
  {
    OneList(c, a.d, a.children, b.children);
  }

  lemma {:induction false} OneList(c: Dcache, parent: nat, a: seq<Tree>, b: seq<Tree>)
    requires Siblings(c, parent, a) && Siblings(c, parent, b) && LinkTo(a) == LinkTo(b)
    ensures a == b
    decreases a
  {
    if a != [] {
      OneTree(c, a[0], b[0]);
      OneList(c, parent, a[1..], b[1..]);
      assert a == [a[0]] + a[1..] && b == [b[0]] + b[1..];
    }
  }

  lemma {:induction false} ChildIsSmaller(ts: seq<Tree>, i: nat)
    requires i < |ts|
    ensures Size(ts[i].children) < Size(ts)
  {
    if i > 0 {
      ChildIsSmaller(ts[1..], i - 1);
    }
  }

  lemma {:induction false} BelowIsSmaller(c: Dcache, root: Tree, below: seq<Frame>, top: Frame)
    requires Path(c, root, below, top)
    ensures Represents(c, root) && Size(top.t.children) <= Size(root.children)
    ensures below != [] ==> Size(top.t.children) < Size(root.children)
    decreases |below|
  {
    if below != [] {
      var up := below[|below| - 1];
      ChildIsSmaller(up.t.children, up.i - 1);
      BelowIsSmaller(c, root, below[..|below| - 1], up);
    }
  }

  /** The test `this_parent != parent` tells whether the walk is below the root. */
  lemma AtRootOnlyAtTop(c: Dcache, root: Tree, below: seq<Frame>, top: Frame)
    requires Path(c, root, below, top)
    ensures top.t.d == root.d <==> below == []
  {
    BelowIsSmaller(c, root, below, top);
    if top.t.d == root.d {
      OneTree(c, top.t, root);
    }
  }

  // ------------------------------------------------------------------ every dentry has one place

  /** `p` leads down from `t` by the numbers of children. */
  predicate HasPath(t: Tree, p: seq<nat>)
    decreases |p|, 0
  {
    var n := |p| - 1;
    p != [] ==> HasPath(t, p[..n]) && p[n] < |Sub(t, p[..n]).children|
  }

  function Sub(t: Tree, p: seq<nat>): Tree
    requires HasPath(t, p)
    decreases |p|, 1
  {
    if p == [] then t else Sub(t, p[..|p| - 1]).children[p[|p| - 1]]
  }

  lemma PathOn(t: Tree, p: seq<nat>, i: nat)
    requires HasPath(t, p) && i < |Sub(t, p).children|
    ensures HasPath(t, p + [i]) && Sub(t, p + [i]) == Sub(t, p).children[i]
  {
    assert (p + [i])[..|p|] == p;
  }

  /** The links of a dentry with a place in the tree. */
  lemma {:induction false} SubLinks(c: Dcache, t: Tree, p: seq<nat>)
    requires Represents(c, t) && HasPath(t, p)
    ensures Represents(c, Sub(t, p)) && Size(Sub(t, p).children) <= Size(t.children)
    ensures p != [] ==>
              && Size(Sub(t, p).children) < Size(t.children)
              && Sub(t, p).d in c.parent && c.parent[Sub(t, p).d] == Sub(t, p[..|p| - 1]).d
    decreases |p|
  {
    if p != [] {
      var up, i := Sub(t, p[..|p| - 1]), p[|p| - 1];
      SubLinks(c, t, p[..|p| - 1]);
      SiblingAt(c, up.d, up.children, i);
      ChildIsSmaller(up.children, i);
    }
  }

  /** Siblings that are the same dentry are the same sibling: what follows them is the same list. */
  lemma OneSibling(c: Dcache, parent: nat, ts: seq<Tree>, i: nat, j: nat)
    requires Siblings(c, parent, ts) && i < |ts| && j < |ts| && ts[i].d == ts[j].d
    ensures i == j
  {
    SiblingAt(c, parent, ts, i);
    SiblingAt(c, parent, ts, j);
    OneList(c, parent, ts[i..], ts[j..]);
  }

  lemma OnlyRootIsRoot(c: Dcache, t: Tree, p: seq<nat>)
    requires Represents(c, t) && HasPath(t, p) && Sub(t, p).d == t.d
    ensures p == []
  {
    SubLinks(c, t, p);
    OneTree(c, Sub(t, p), t);
  }

  /** No dentry has two places in a tree. */
  lemma {:induction false} OnePlace(c: Dcache, t: Tree, p: seq<nat>, q: seq<nat>)
    requires Represents(c, t) && HasPath(t, p) && HasPath(t, q) && Sub(t, p).d == Sub(t, q).d
    ensures p == q
    decreases |p|
  {
    if p == [] {
      OnlyRootIsRoot(c, t, q);
    } else if q == [] {
      OnlyRootIsRoot(c, t, p);
    } else {
      var p', q' := p[..|p| - 1], q[..|q| - 1];
      SubLinks(c, t, p);
      SubLinks(c, t, q);
      OnePlace(c, t, p', q');
      SubLinks(c, t, p');
      OneSibling(c, Sub(t, p').d, Sub(t, p').children, p[|p| - 1], q[|q| - 1]);
      assert p == p' + [p[|p| - 1]] && q == q' + [q[|q| - 1]];
    }
  }

  ghost predicate Extends(q: seq<nat>, p: seq<nat>, k: nat) {
    |q| > |p| && q[..|p|] == p && q[|p|] >= k
  }

  lemma {:induction false} PlaceInFlat(cursors: set<nat>, t: Tree, p: seq<nat>, k: nat, x: nat)
    returns (q: seq<nat>)
    requires HasPath(t, p) && k <= |Sub(t, p).children| && x in Flat(cursors, Sub(t, p).children[k..])
    ensures HasPath(t, q) && Sub(t, q).d == x && Extends(q, p, k)
    decreases Sub(t, p), |Sub(t, p).children| - k
  {
    var ts := Sub(t, p).children;
    assert ts[k..][1..] == ts[k + 1..];
    if x in FlatOne(cursors, ts[k]) {
      q := PlaceInOne(cursors, t, p, k, x);
    } else {
      q := PlaceInFlat(cursors, t, p, k + 1, x);
    }
  }

  lemma {:induction false} PlaceInOne(cursors: set<nat>, t: Tree, p: seq<nat>, k: nat, x: nat)
    returns (q: seq<nat>)
    requires HasPath(t, p) && k < |Sub(t, p).children| && x in FlatOne(cursors, Sub(t, p).children[k])
    ensures HasPath(t, q) && Sub(t, q).d == x && Extends(q, p, k) && q[|p|] == k
    decreases Sub(t, p), 0
  {
    PathOn(t, p, k);
    var child := Sub(t, p + [k]);
    if x == child.d {
      q := p + [k];
    } else {
      assert child.children[0..] == child.children;
      q := PlaceInFlat(cursors, t, p + [k], 0, x);
      assert q[..|p| + 1][..|p|] == q[..|p|] && q[..|p| + 1][|p|] == q[|p|];
    }
  }

  lemma DistinctSum(a: seq<nat>, b: seq<nat>)
    requires Distinct(a) && Distinct(b) && forall x :: x in a ==> x !in b
    ensures Distinct(a + b)
  {
    forall i, j | 0 <= i < j < |a + b|
      ensures (a + b)[i] != (a + b)[j]
    {
      if i < |a| <= j {
        assert a[i] in a && b[j - |a|] in b;
      }
    }
  }

  lemma {:induction false} FlatIsDistinctFrom(c: Dcache, cursors: set<nat>, t: Tree, p: seq<nat>, k: nat)
    requires Represents(c, t) && HasPath(t, p) && k <= |Sub(t, p).children|
    ensures Distinct(Flat(cursors, Sub(t, p).children[k..]))
    decreases Sub(t, p), |Sub(t, p).children| - k
  {
    var ts := Sub(t, p).children;
    if k < |ts| {
      assert ts[k..][1..] == ts[k + 1..];
      var a, b := FlatOne(cursors, ts[k]), Flat(cursors, ts[k + 1..]);
      OneIsDistinct(c, cursors, t, p, k);
      FlatIsDistinctFrom(c, cursors, t, p, k + 1);
      forall x | x in a
        ensures x !in b
      {
        if x in b {
          var q := PlaceInOne(cursors, t, p, k, x);
          var r := PlaceInFlat(cursors, t, p, k + 1, x);
          OnePlace(c, t, q, r);
        }
      }
      DistinctSum(a, b);
    }
  }

  lemma {:induction false} OneIsDistinct(c: Dcache, cursors: set<nat>, t: Tree, p: seq<nat>, k: nat)
    requires Represents(c, t) && HasPath(t, p) && k < |Sub(t, p).children|
    ensures Distinct(FlatOne(cursors, Sub(t, p).children[k]))
    decreases Sub(t, p), 0
  {
    PathOn(t, p, k);
    RootedIsDistinct(c, cursors, t, p + [k]);
  }

  lemma {:induction false} RootedIsDistinct(c: Dcache, cursors: set<nat>, t: Tree, p: seq<nat>)
    requires Represents(c, t) && HasPath(t, p)
    ensures Distinct([Sub(t, p).d] + Flat(cursors, Sub(t, p).children))
    decreases Sub(t, p), |Sub(t, p).children| + 1
  {
    var u := Sub(t, p);
    assert u.children[0..] == u.children;
    FlatIsDistinctFrom(c, cursors, t, p, 0);
    if u.d in Flat(cursors, u.children) {
      var q := PlaceInFlat(cursors, t, p, 0, u.d);
      OnePlace(c, t, p, q);
    }
    DistinctCons(u.d, Flat(cursors, u.children));
  }

  /** The links of a tree make its preorder a sequence without repetition. */
  lemma PreorderIsDistinct(c: Dcache, cursors: set<nat>, t: Tree)
    requires Represents(c, t)
    ensures Distinct([t.d] + Flat(cursors, t.children))
  {
    RootedIsDistinct(c, cursors, t, []);
  }

  // ------------------------------------------------------------------ what any callback is called on

  /** `s` is `f` with some elements left out. */
  ghost predicate Subsequence(s: seq<nat>, f: seq<nat>)
    decreases |f|
  {
    s == [] || (f != [] && ((s[0] == f[0] && Subsequence(s[1..], f[1..])) || Subsequence(s, f[1..])))
  }

  lemma {:induction false} SubsequenceOfSum(a: seq<nat>, x: seq<nat>, b: seq<nat>, y: seq<nat>)
    requires Subsequence(a, x) && Subsequence(b, y)
    ensures Subsequence(a + b, x + y)
    decreases |x|
  {
    if x == [] {
      assert a + b == b && x + y == y;
    } else {
      assert (x + y)[1..] == x[1..] + y;
      if a != [] && a[0] == x[0] && Subsequence(a[1..], x[1..]) {
        assert (a + b)[1..] == a[1..] + b;
        SubsequenceOfSum(a[1..], x[1..], b, y);
      } else {
        SubsequenceOfSum(a, x[1..], b, y);
      }
    }
  }

  lemma {:induction false} SubsequenceIsDistinct(s: seq<nat>, f: seq<nat>)
    requires Subsequence(s, f) && Distinct(f)
    ensures Distinct(s) && forall x :: x in s ==> x in f
    decreases |f|
  {
    if s != [] {
      assert Distinct(f[1..]) && f[0] !in f[1..];
      if s[0] == f[0] && Subsequence(s[1..], f[1..]) {
        SubsequenceIsDistinct(s[1..], f[1..]);
        DistinctCons(s[0], s[1..]);
        assert s == [s[0]] + s[1..];
      } else {
        SubsequenceIsDistinct(s, f[1..]);
      }
    }
  }

  lemma OneOf(d: nat, s: seq<nat>, f: seq<nat>)
    requires Subsequence(s, f)
    ensures Subsequence([d] + s, [d] + f)
  {
    assert ([d] + s)[1..] == s && ([d] + f)[1..] == f;
  }

  /** Whatever the callback answers, it is called in preorder, with some dentries left out. */
  lemma {:induction false} VisitIsSubsequence<D>(c: Dcache, enter: (D, nat) -> (D, Ret), ts: seq<Tree>,
                                                 w: Walk<D>, ascended: bool) returns (s: seq<nat>)
    ensures Visit(c, enter, ts, w, ascended).w.calls == w.calls + s
    ensures Subsequence(s, Flat(c.cursors, ts))
    decreases ts
  {
    s := [];
    if ts != [] {
      var one, rest := FlatOne(c.cursors, ts[0]), Flat(c.cursors, ts[1..]);
      if ascended && ts[0].d in c.killed {
        s := VisitIsSubsequence(c, enter, ts[1..], w, true);
        SubsequenceOfSum([], one, s, rest);
        assert [] + s == s;
      } else if ts[0].d in c.cursors {
        s := VisitIsSubsequence(c, enter, ts[1..], w, false);
        assert one + rest == rest;
      } else {
        s := VisitOneIsSubsequence(c, enter, ts, w, ascended);
      }
    }
  }

  lemma {:induction false} VisitOneIsSubsequence<D>(c: Dcache, enter: (D, nat) -> (D, Ret), ts: seq<Tree>,
                                                    w: Walk<D>, ascended: bool) returns (s: seq<nat>)
    requires ts != [] && !(ascended && ts[0].d in c.killed) && ts[0].d !in c.cursors
    ensures Visit(c, enter, ts, w, ascended).w.calls == w.calls + s
    ensures Subsequence(s, Flat(c.cursors, ts))
    decreases ts, 0
  {
    var d := ts[0].d;
    var ret, w' := enter(w.data, d).1, Entered(w, d, enter);
    var inner, later := [], [];
    if ret.Quit? {
    } else if ret.Skip? || ts[0].children == [] {
      later := VisitIsSubsequence(c, enter, ts[1..], w', false);
    } else {
      inner := VisitIsSubsequence(c, enter, ts[0].children, w', false);
      var o := Visit(c, enter, ts[0].children, w', false);
      if !o.quit {
        later := VisitIsSubsequence(c, enter, ts[1..], o.w, true);
      }
    }
    s := ([d] + inner) + later;
    Assembled(d, inner, Flat(c.cursors, ts[0].children), later, Flat(c.cursors, ts[1..]));
    RegroupFour(w.calls, [d], inner, later);
    assert w'.calls + [] == w'.calls && w'.calls + inner + [] == w'.calls + inner;
  }

  lemma Assembled(d: nat, inner: seq<nat>, below: seq<nat>, later: seq<nat>, rest: seq<nat>)
    requires Subsequence(inner, below) && Subsequence(later, rest)
    ensures Subsequence(([d] + inner) + later, ([d] + below) + rest)
  {
    OneOf(d, inner, below);
    SubsequenceOfSum([d] + inner, [d] + below, later, rest);
  }

  // ------------------------------------------------------------------ what a continuing callback is called on

  /** A dentry is passed over: it is killed, and the walk comes to it going up, or over others it has
      passed over. */
  predicate Misses(c: Dcache, ts: seq<Tree>, ascended: bool)
    decreases ts
  {
    ts != [] &&
    if ascended && ts[0].d in c.killed then ts[0].d !in c.cursors || Misses(c, ts[1..], true)
    else if ts[0].d in c.cursors then Misses(c, ts[1..], false)
    else Misses(c, ts[0].children, false) || Misses(c, ts[1..], ts[0].children != [])
  }

  /** A callback that always continues is called on all of the preorder exactly when none is passed over. */
  lemma {:induction false} ContinuingVisit<D(!new)>(c: Dcache, enter: (D, nat) -> (D, Ret), ts: seq<Tree>,
                                                    w: Walk<D>, ascended: bool)
    requires AlwaysContinues(enter)
    ensures var o := Visit(c, enter, ts, w, ascended);
            && !o.quit && |o.w.calls| <= |w.calls| + |Flat(c.cursors, ts)|
            && if Misses(c, ts, ascended) then |o.w.calls| < |w.calls| + |Flat(c.cursors, ts)|
               else o.w.calls == w.calls + Flat(c.cursors, ts)
    decreases ts
  {
    if ts != [] {
      if ascended && ts[0].d in c.killed {
        ContinuingVisit(c, enter, ts[1..], w, true);
      } else if ts[0].d in c.cursors {
        ContinuingVisit(c, enter, ts[1..], w, false);
      } else {
        var w' := Entered(w, ts[0].d, enter);
        ContinuingVisit(c, enter, ts[0].children, w', false);
        var o := if ts[0].children == [] then Outcome(w', false) else Visit(c, enter, ts[0].children, w', false);
        ContinuingVisit(c, enter, ts[1..], o.w, ts[0].children != []);
        RegroupFour(w.calls, [ts[0].d], Flat(c.cursors, ts[0].children), Flat(c.cursors, ts[1..]));
      }
    }
  }

  lemma RegroupFour(a: seq<nat>, b: seq<nat>, c: seq<nat>, d: seq<nat>)
    ensures a + b + c + d == a + ((b + c) + d)
  {
  }

  /** A tree with a miss: 3 is killed and follows 1, which has a child. */
  lemma KilledBehindAParentIsMissed<D(!new)>(enter: (D, nat) -> (D, Ret), w: Walk<D>)
    requires AlwaysContinues(enter)
    ensures var c := Dcache(map[1 := 0, 2 := 1, 3 := 0], map[0 := To(1), 1 := To(2), 2 := End, 3 := End],
                            map[1 := To(3), 2 := End, 3 := End], {}, {3});
            var ts := [Node(1, [Node(2, [])]), Node(3, [])];
            && Represents(c, Node(0, ts)) && Flat({}, ts) == [1, 2, 3]
            && Visit(c, enter, ts, w, false).w.calls == w.calls + [1, 2]
  {
  }

  // ------------------------------------------------------------------ the steps of the loop

  function Onward(f: Frame): Frame {
    f.(i := f.i + 1)
  }

  /** What the loop knows of its next dentry. */
  lemma NextChild(c: Dcache, f: Frame)
    requires Represents(c, f.t) && f.i <= |f.t.children|
    ensures Siblings(c, f.t.d, RestOf(f))
    ensures f.i < |f.t.children| ==>
              && RestOf(f) != [] && RestOf(f)[0] == f.t.children[f.i] && RestOf(f)[1..] == RestOf(Onward(f))
              && Size(RestOf(f)) == 1 + Size(f.t.children[f.i].children) + Size(RestOf(Onward(f)))
    ensures f.i == |f.t.children| ==> RestOf(f) == []
  {
    SiblingAt(c, f.t.d, f.t.children, f.i);
  }

  lemma PushedFrames(below: seq<Frame>, f: Frame)
    ensures (below + [f])[..|below|] == below && (below + [f])[|below|] == f
  {
  }

  /** Going down into a child and later coming up again is what the recursive form does for it. */
  lemma Descend<D>(c: Dcache, enter: (D, nat) -> (D, Ret), below: seq<Frame>, f: Frame, w: Walk<D>)
    requires Represents(c, f.t) && f.i < |f.t.children|
    requires var t := f.t.children[f.i];
             && t.d !in c.cursors && t.children != []
             && !enter(w.data, t.d).1.Quit? && !enter(w.data, t.d).1.Skip?
    ensures var t := f.t.children[f.i];
            && Rest(c, enter, below, f, w, false)
               == Rest(c, enter, below + [Onward(f)], Frame(t, 0), Entered(w, t.d, enter), false)
            && Left(below + [Onward(f)], Frame(t, 0)) < Left(below, f)
  {
    NextChild(c, f);
    PushedFrames(below, Onward(f));
    var t := f.t.children[f.i];
    assert RestOf(Frame(t, 0)) == t.children;
  }

  /** The walk up: the list is used up, and the parent's goes on as the recursive form does. */
  lemma Ascend<D>(c: Dcache, enter: (D, nat) -> (D, Ret), root: Tree, below: seq<Frame>, f: Frame,
                  w: Walk<D>)
    requires Path(c, root, below, f) && below != [] && RestOf(f) == []
    ensures var n := |below| - 1;
            && Rest(c, enter, below, f, w, false) == Rest(c, enter, below[..n], below[n], w, true)
            && Left(below[..n], below[n]) == Left(below, f)
            && Path(c, root, below[..n], below[n])
            && f.t.d in c.parent && f.t.d in c.next
            && c.parent[f.t.d] == below[n].t.d && c.next[f.t.d] == LinkTo(RestOf(below[n]))
  {
    var up := below[|below| - 1];
    SiblingAt(c, up.t.d, up.t.children, up.i - 1);
    assert up.t.children[up.i - 1..][1..] == up.t.children[up.i..];
  }

  /** The first place from `f` on whose child is not killed. */
  function Alive(c: Dcache, f: Frame): Frame
    requires f.i <= |f.t.children|
    decreases |f.t.children| - f.i
  {
    if f.i < |f.t.children| && f.t.children[f.i].d in c.killed then Alive(c, Onward(f)) else f
  }

  /** After an ascent the recursive form, too, goes on at the first sibling still alive. */
  lemma {:induction false} PassKilled<D>(c: Dcache, enter: (D, nat) -> (D, Ret), root: Tree, below: seq<Frame>,
                                         f: Frame, w: Walk<D>)
    requires Path(c, root, below, f)
    ensures Path(c, root, below, Alive(c, f)) && Left(below, Alive(c, f)) <= Left(below, f)
    ensures Rest(c, enter, below, Alive(c, f), w, false) == Rest(c, enter, below, f, w, true)
    ensures Alive(c, f).t == f.t
    decreases |f.t.children| - f.i
  {
    NextChild(c, f);
    if f.i < |f.t.children| && f.t.children[f.i].d in c.killed {
      PassKilled(c, enter, root, below, Onward(f), w);
    }
  }

  /** A cursor, a skipped dentry or one without children: the walk goes along. */
  lemma GoAlong<D>(c: Dcache, enter: (D, nat) -> (D, Ret), below: seq<Frame>, f: Frame, w: Walk<D>,
                   w': Walk<D>)
    requires Represents(c, f.t) && f.i < |f.t.children|
    requires var t := f.t.children[f.i];
             if t.d in c.cursors then w' == w
             else
               && w' == Entered(w, t.d, enter) && !enter(w.data, t.d).1.Quit?
               && (enter(w.data, t.d).1.Skip? || t.children == [])
    ensures Rest(c, enter, below, f, w, false) == Rest(c, enter, below, Onward(f), w', false)
    ensures Left(below, Onward(f)) < Left(below, f)
  {
    NextChild(c, f);
  }

  // ------------------------------------------------------------------ d_walk

  ghost predicate At(c: Dcache, root: Tree, below: seq<Frame>, top: Frame, thisParent: nat, next: Link) {
    Path(c, root, below, top) && thisParent == top.t.d && next == LinkTo(RestOf(top))
  }

  /** What d_walk ends with, by the recursive form. */
  ghost predicate WalkIs<D>(c: Dcache, data: D, enter: (D, nat) -> (D, Ret), t: Tree, w: Walk<D>, finished: bool) {
    var ret, w0 := enter(data, t.d).1, Entered(Walk(data, []), t.d, enter);
    if ret.Quit? || ret.Skip? then w == w0 && !finished
    else Outcome(w, !finished) == Visit(c, enter, t.children, w0, false)
  }

  /** No dentry is entered twice. */
  lemma EnteredOnce<D>(c: Dcache, data: D, enter: (D, nat) -> (D, Ret), t: Tree, w: Walk<D>, finished: bool)
    requires Represents(c, t) && WalkIs(c, data, enter, t, w, finished)
    ensures Subsequence(w.calls, [t.d] + Flat(c.cursors, t.children)) && Distinct(w.calls)
  {
    var ret, w0 := enter(data, t.d).1, Entered(Walk(data, []), t.d, enter);
    var s := [];
    if !ret.Quit? && !ret.Skip? {
      s := VisitIsSubsequence(c, enter, t.children, w0, false);
    }
    assert w.calls == [t.d] + s;
    OneOf(t.d, s, Flat(c.cursors, t.children));
    PreorderIsDistinct(c, c.cursors, t);
    SubsequenceIsDistinct(w.calls, [t.d] + Flat(c.cursors, t.children));
  }

  /** Every dentry is entered once by a callback that always continues, exactly when none is passed over. */
  lemma ContinuingWalk<D(!new)>(c: Dcache, data: D, enter: (D, nat) -> (D, Ret), t: Tree, w: Walk<D>,
                                finished: bool)
    requires AlwaysContinues(enter) && WalkIs(c, data, enter, t, w, finished)
    ensures finished
    ensures w.calls == [t.d] + Flat(c.cursors, t.children) <==> !Misses(c, t.children, false)
  {
    var w0 := Entered(Walk(data, []), t.d, enter);
    ContinuingVisit(c, enter, t.children, w0, false);
    assert w0.calls == [t.d];
  }

  /** d_walk, with `t` the tree below `parent`; `finished` is whether finish is called. */
  method DWalk<D(!new)>(c: Dcache, parent: nat, data: D, enter: (D, nat) -> (D, Ret), ghost t: Tree)
    returns (w: Walk<D>, finished: bool)
    requires Represents(c, t) && t.d == parent
    ensures WalkIs(c, data, enter, t, w, finished)
    ensures Subsequence(w.calls, [parent] + Flat(c.cursors, t.children)) && Distinct(w.calls)
    ensures AlwaysContinues(enter) ==>
              finished && (w.calls == [parent] + Flat(c.cursors, t.children) <==> !Misses(c, t.children, false))
  {
    var ret := enter(data, parent).1;
    w := Entered(Walk(data, []), parent, enter);
    if ret.Quit? || ret.Skip? {
      finished := false;
    } else {
      w, finished := WalkDown(c, parent, w, enter, t);
    }
    EnteredOnce(c, data, enter, t, w, finished);
    if AlwaysContinues(enter) {
      ContinuingWalk(c, data, enter, t, w, finished);
    }
  }

  /** The loop of d_walk: down, along and up until it is through. */
  method WalkDown<D>(c: Dcache, parent: nat, start: Walk<D>, enter: (D, nat) -> (D, Ret), ghost t: Tree)
    returns (w: Walk<D>, finished: bool)
    requires Represents(c, t) && t.d == parent
    ensures Outcome(w, !finished) == Visit(c, enter, t.children, start, false)
  {
    w := start;
    var thisParent, next := parent, c.first[parent];
    ghost var below, top := [], Frame(t, 0);
    assert RestOf(top) == t.children;
    ghost var whole := Rest(c, enter, below, top, w, false);
    while true
      invariant At(c, t, below, top, thisParent, next)
      invariant Rest(c, enter, below, top, w, false) == whole
      decreases Left(below, top), |below|
    {
      NextChild(c, top);
      if next.To? {
        var dentry := next.d;
        next := c.next[dentry];
        if dentry in c.cursors {
          GoAlong(c, enter, below, top, w, w);
          top := Onward(top);
        } else {
          var ret := enter(w.data, dentry).1;
          ghost var w0 := w;
          w := Entered(w, dentry, enter);
          if ret.Quit? {
            return w, false;
          }
          if !ret.Skip? && c.first[dentry] != End {
            Descend(c, enter, below, top, w0);
            PushedFrames(below, Onward(top));
            below, top := below + [Onward(top)], Frame(top.t.children[top.i], 0);
            assert RestOf(top) == top.t.children;
            thisParent, next := dentry, c.first[dentry];
          } else {
            GoAlong(c, enter, below, top, w0, w);
            top := Onward(top);
          }
        }
      } else {
        AtRootOnlyAtTop(c, t, below, top);
        if thisParent != parent {
          Ascend(c, enter, t, below, top, w);
          var child := thisParent;
          thisParent := c.parent[child];
          below, top := below[..|below| - 1], below[|below| - 1];
          PassKilled(c, enter, t, below, top, w);
          next := PassOver(c, c.next[child], top);
          top := Alive(c, top);
        } else {
          return w, true;
        }
      }
    }
  }

  /** The do-while after an ascent: to the first sibling still alive. */
  method PassOver(c: Dcache, start: Link, ghost top: Frame) returns (next: Link)
    requires Represents(c, top.t) && top.i <= |top.t.children| && start == LinkTo(RestOf(top))
    ensures next == LinkTo(RestOf(Alive(c, top)))
  {
    next := start;
    ghost var f := top;
    NextChild(c, f);
    while next.To? && next.d in c.killed
      invariant f.t == top.t && f.i <= |f.t.children| && next == LinkTo(RestOf(f))
      invariant Alive(c, f) == Alive(c, top)
      decreases |f.t.children| - f.i
    {
      NextChild(c, f);
      next := c.next[next.d];
      f := Onward(f);
    }
    NextChild(c, f);
  }

  /** Where no listed dentry is killed, d_walk enters what preorder enters, and calls finish exactly
      when preorder is not cut short at the root or by Quit; every dentry once, if nothing is cut. */
  method WalkOfLiving<D(!new)>(c: Dcache, parent: nat, data: D, enter: (D, nat) -> (D, Ret), ghost t: Tree)
    returns (w: Walk<D>, finished: bool)
    requires Represents(c, t) && t.d == parent && NoneKilled(c.killed, t.children) && parent !in c.cursors
    ensures w == Preorder(c.cursors, enter, t, Walk(data, [])).w
    ensures finished <==> !Preorder(c.cursors, enter, t, Walk(data, [])).quit && !enter(data, parent).1.Skip?
    ensures AlwaysContinues(enter) ==> finished && w.calls == FlatOne(c.cursors, t) && Distinct(w.calls)
  {
    if AlwaysContinues(enter) {
      ContinuingVisitsTree(c.cursors, enter, t, Walk(data, []));
    }
    VisitIsPreorder(c, enter, t.children, Entered(Walk(data, []), parent, enter), false);
    w, finished := DWalk(c, parent, data, enter, t);
  }
}
