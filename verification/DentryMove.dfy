/** Moving dentries (fs/dcache.c): __d_move with d_ancestor, __d_drop, __d_rehash and __d_lookup.

A dentry that is its own parent is a root; d_subdirs lists the children of each dentry, and the hash
table finds a dentry by its parent and name.  A move, plain or with exchange, of a dentry or of a
whole root, keeps the parents a forest, the child lists its exact inverse and the table exact.  It takes
no lock twice exactly when the target is not a root, and then the moved subtree gets the target's old
path.
*/
module DentryMove {

  import opened Collections
  import opened Paths

  // ------------------------------------------------------------------ the forest

  /** `d` is a root, or its parent has a smaller rank. */
  ghost predicate Descends(parent: map<nat, nat>, rank: map<nat, nat>, d: nat) {
    && d in parent && parent[d] in parent && d in rank && parent[d] in rank
    && (parent[d] != d ==> rank[parent[d]] < rank[d])
  }

  /** `rank` shows that going to the parent comes to an end. */
  ghost predicate RankedBy(parent: map<nat, nat>, rank: map<nat, nat>) {
    forall d {:trigger Descends(parent, rank, d)} :: d in parent ==> Descends(parent, rank, d)
  }

  ghost predicate Forest(parent: map<nat, nat>) {
    exists rank :: RankedBy(parent, rank)
  }

  /** `d` is `a` or below it. */
  ghost predicate Under(parent: map<nat, nat>, rank: map<nat, nat>, d: nat, a: nat)
    requires RankedBy(parent, rank) && d in parent && Descends(parent, rank, d)
    decreases rank[d]
  {
    d == a || (parent[d] != d && Descends(parent, rank, parent[d]) && Under(parent, rank, parent[d], a))
  }

  /** Either dentry may be asked about. */
  lemma Ranked(parent: map<nat, nat>, rank: map<nat, nat>, d: nat)
    requires RankedBy(parent, rank) && d in parent
    ensures Descends(parent, rank, d) && Descends(parent, rank, parent[d])
  {
    assert Descends(parent, rank, d);
  }

  lemma {:induction false} UnderTransitive(parent: map<nat, nat>, rank: map<nat, nat>, d: nat, b: nat, a: nat)
    requires RankedBy(parent, rank) && Descends(parent, rank, d) && Descends(parent, rank, b)
    requires Under(parent, rank, d, b) && Under(parent, rank, b, a)
    ensures Under(parent, rank, d, a)
    decreases rank[d]
  {
    if d != b {
      UnderTransitive(parent, rank, parent[d], b, a);
    }
  }

  lemma {:induction false} UnderHasRank(parent: map<nat, nat>, rank: map<nat, nat>, d: nat, a: nat)
    requires RankedBy(parent, rank) && Descends(parent, rank, d) && Under(parent, rank, d, a)
    ensures Descends(parent, rank, a) && rank[a] <= rank[d] && (rank[a] == rank[d] ==> a == d)
    decreases rank[d]
  {
    if d != a {
      UnderHasRank(parent, rank, parent[d], a);
    }
  }

  /** The parent of a dentry that is not under `a` is not under `a` either. */
  lemma NotUnderParent(parent: map<nat, nat>, rank: map<nat, nat>, d: nat, a: nat)
    requires RankedBy(parent, rank) && Descends(parent, rank, d) && Descends(parent, rank, parent[d])
    requires !Under(parent, rank, d, a)
    ensures !Under(parent, rank, parent[d], a)
  {
  }

  lemma UnderStep(parent: map<nat, nat>, rank: map<nat, nat>, d: nat, p: nat)
    requires RankedBy(parent, rank) && Descends(parent, rank, d) && Descends(parent, rank, p)
    requires Under(parent, rank, d, p) && parent[p] != p
    ensures Descends(parent, rank, parent[p]) && Under(parent, rank, d, parent[p])
    ensures !Under(parent, rank, parent[p], p)
  {
    Ranked(parent, rank, p);
    assert Under(parent, rank, p, parent[p]);
    UnderTransitive(parent, rank, d, p, parent[p]);
    if Under(parent, rank, parent[p], p) {
      UnderHasRank(parent, rank, parent[p], p);
    }
  }

  /** d_ancestor. */
  method DAncestor(parent: map<nat, nat>, ghost rank: map<nat, nat>, p1: nat, p2: nat)
    returns (found: Option<nat>)
    requires RankedBy(parent, rank) && Descends(parent, rank, p2)
    ensures found.Some? <==> p1 != p2 && Under(parent, rank, p2, p1)
    ensures found.Some? ==>
              && found.value in parent && parent[found.value] == p1
              && Under(parent, rank, p2, found.value)
  {
    var p := p2;
    while parent[p] != p
      invariant p in parent && Descends(parent, rank, p) && Under(parent, rank, p2, p)
      invariant p1 != p2 && Under(parent, rank, p2, p1) <==> p1 != p && Under(parent, rank, p, p1)
      decreases rank[p]
    {
      UnderStep(parent, rank, p2, p);
      if parent[p] == p1 {
        return Some(p);
      }
      p := parent[p];
    }
    return None;
  }

  // ------------------------------------------------------------------ locks

  /** The dentries that dentry_lock_for_move locks, in order; `below` is what d_ancestor says of the
      parents. */
  function MoveLocks(parent: map<nat, nat>, dentry: nat, target: nat, below: bool): seq<nat>
    requires dentry in parent && target in parent
  {
    (if parent[dentry] == dentry || parent[dentry] == parent[target] then [parent[target]]
     else if below then [parent[dentry], parent[target]] else [parent[target], parent[dentry]])
    + if target < dentry then [target, dentry] else [dentry, target]
  }

  /** dentry_lock_for_move takes no lock twice exactly when the target is not a root. */
  lemma NoLockTwiceExactlyWhen(parent: map<nat, nat>, dentry: nat, target: nat, below: bool)
    requires dentry in parent && target in parent && dentry != target
    requires parent[target] != dentry && parent[dentry] != target
    ensures Distinct(MoveLocks(parent, dentry, target, below)) <==> parent[target] != target
  {
    var locks := MoveLocks(parent, dentry, target, below);
    if parent[target] == target {
      var i :| 0 <= i < |locks| - 2 && locks[i] == target;
      assert locks[|locks| - 2] == target || locks[|locks| - 1] == target;
    }
  }

  // ------------------------------------------------------------------ moving in the forest

  /** d_parent after the move: a root is spliced in, other dentries swap their parents. */
  function MovedParent(parent: map<nat, nat>, dentry: nat, target: nat): (moved: map<nat, nat>)
    requires dentry in parent && target in parent
    ensures moved.Keys == parent.Keys
  {
    if parent[dentry] == dentry then parent[dentry := parent[target]][target := target]
    else parent[dentry := parent[target]][target := parent[dentry]]
  }

  /** Neither dentry is at or under the other: what the BUG_ONs demand, and distinctness. */
  ghost predicate Apart(parent: map<nat, nat>, rank: map<nat, nat>, dentry: nat, target: nat)
    requires RankedBy(parent, rank)
  {
    && Descends(parent, rank, dentry) && Descends(parent, rank, target)
    && !Under(parent, rank, dentry, target) && !Under(parent, rank, target, dentry)
  }

  ghost function Max(m: map<nat, nat>, keys: set<nat>): (top: nat)
    requires keys <= m.Keys
    ensures forall d :: d in keys ==> m[d] <= top
    decreases |keys|
  {
    if keys == {} then 0
    else
      var d := Pick(keys);
      var rest := Max(m, keys - {d});
      if m[d] > rest then m[d] else rest
  }

  ghost function Pick(keys: set<nat>): (d: nat)
    requires keys != {}
    ensures d in keys
  {
    var d :| d in keys;
    d
  }

  /** The target's subtree is lifted above everything, the dentry's above that. */
  ghost function Lift(parent: map<nat, nat>, rank: map<nat, nat>, dentry: nat, target: nat, k: nat, d: nat):
      nat
    requires RankedBy(parent, rank) && Descends(parent, rank, d)
  {
    rank[d] + if Under(parent, rank, d, dentry) then 2 * k
              else if Under(parent, rank, d, target) then k else 0
  }

  lemma LiftedDentry(parent: map<nat, nat>, rank: map<nat, nat>, dentry: nat, target: nat, k: nat)
    requires RankedBy(parent, rank) && Apart(parent, rank, dentry, target)
    requires Descends(parent, rank, parent[target]) && rank[parent[target]] < k
    ensures Lift(parent, rank, dentry, target, k, parent[target])
            < Lift(parent, rank, dentry, target, k, dentry)
  {
    NotUnderParent(parent, rank, target, dentry);
  }

  lemma LiftedTarget(parent: map<nat, nat>, rank: map<nat, nat>, dentry: nat, target: nat, k: nat)
    requires RankedBy(parent, rank) && Apart(parent, rank, dentry, target)
    requires Descends(parent, rank, parent[dentry]) && rank[parent[dentry]] < k
    requires parent[dentry] != dentry
    ensures Lift(parent, rank, dentry, target, k, parent[dentry])
            < Lift(parent, rank, dentry, target, k, target)
  {
    NotUnderParent(parent, rank, dentry, target);
    UnderStep(parent, rank, dentry, dentry);
  }

  lemma LiftedOther(parent: map<nat, nat>, rank: map<nat, nat>, dentry: nat, target: nat, k: nat, d: nat)
    requires RankedBy(parent, rank) && Descends(parent, rank, d) && Descends(parent, rank, parent[d])
    requires parent[d] != d && d != dentry && d != target
    ensures Lift(parent, rank, dentry, target, k, parent[d]) < Lift(parent, rank, dentry, target, k, d)
  {
  }

  lemma RankedAfterMove(parent: map<nat, nat>, dentry: nat, target: nat, rank': map<nat, nat>)
    requires dentry in parent && target in parent && dentry != target && rank'.Keys == parent.Keys
    requires parent[target] in parent && parent[dentry] in parent
    requires rank'[parent[target]] < rank'[dentry]
    requires parent[dentry] != dentry ==> rank'[parent[dentry]] < rank'[target]
    requires forall d {:trigger Descends(parent, rank', d)} ::
               d in parent && d != dentry && d != target ==> Descends(parent, rank', d)
    ensures RankedBy(MovedParent(parent, dentry, target), rank')
  {
    var parent' := MovedParent(parent, dentry, target);
    forall d | d in parent'
      ensures Descends(parent', rank', d)
    {
      assert d in parent;
      assert d == dentry || d == target || Descends(parent, rank', d);
    }
  }

  /** A move keeps the forest. */
  lemma MoveKeepsForest(parent: map<nat, nat>, rank: map<nat, nat>, dentry: nat, target: nat)
    requires RankedBy(parent, rank) && Apart(parent, rank, dentry, target)
    ensures Forest(MovedParent(parent, dentry, target))
  {
    var k := Max(rank, rank.Keys) + 1;
    var rank' := map d | d in parent ::
                   (Ranked(parent, rank, d); Lift(parent, rank, dentry, target, k, d));
    Ranked(parent, rank, dentry);
    Ranked(parent, rank, target);
    LiftedDentry(parent, rank, dentry, target, k);
    if parent[dentry] != dentry {
      LiftedTarget(parent, rank, dentry, target, k);
    }
    forall d | d in parent && d != dentry && d != target
      ensures Descends(parent, rank', d)
    {
      Ranked(parent, rank, d);
      if parent[d] != d {
        LiftedOther(parent, rank, dentry, target, k, d);
      }
    }
    RankedAfterMove(parent, dentry, target, rank');
  }

  // ------------------------------------------------------------------ paths

  /** The names from the root down: what __dentry_path writes between slashes. */
  ghost function Path(parent: map<nat, nat>, rank: map<nat, nat>, text: map<nat, string>, d: nat): seq<string>
    requires RankedBy(parent, rank) && Descends(parent, rank, d) && parent.Keys <= text.Keys
    decreases rank[d]
  {
    if parent[d] == d then []
    else assert Descends(parent, rank, parent[d]); Path(parent, rank, text, parent[d]) + [text[d]]
  }

  /** The names from `a`, not included, down to `d`. */
  ghost function Suffix(parent: map<nat, nat>, rank: map<nat, nat>, text: map<nat, string>, d: nat, a: nat):
      seq<string>
    requires RankedBy(parent, rank) && Descends(parent, rank, d) && parent.Keys <= text.Keys
    requires Under(parent, rank, d, a)
    decreases rank[d]
  {
    if d == a then [] else Suffix(parent, rank, text, parent[d], a) + [text[d]]
  }

  /** What becomes of the strings and the hashes: the dentry gets the target's, and with exchange the
      target the dentry's. */
  function Switched<T>(names: map<nat, T>, dentry: nat, target: nat, exchange: bool): (moved: map<nat, T>)
    requires dentry in names && target in names
    ensures moved.Keys == names.Keys
  {
    if exchange then names[dentry := names[target]][target := names[dentry]]
    else names[dentry := names[target]]
  }

  /** A cache before and after a move; `rank2` is any rank of the new parents. */
  ghost predicate Moved(parent: map<nat, nat>, rank: map<nat, nat>, text: map<nat, string>, dentry: nat,
                        target: nat, exchange: bool, parent2: map<nat, nat>, rank2: map<nat, nat>,
                        text2: map<nat, string>)
  {
    && RankedBy(parent, rank) && Apart(parent, rank, dentry, target) && parent.Keys <= text.Keys
    && parent2 == MovedParent(parent, dentry, target) && RankedBy(parent2, rank2)
    && text2 == Switched(text, dentry, target, exchange)
  }

  /** Paths outside the two subtrees do not change. */
  lemma {:induction false} OutsideKeepsPath(
      parent: map<nat, nat>, rank: map<nat, nat>, text: map<nat, string>, dentry: nat, target: nat,
      exchange: bool, parent2: map<nat, nat>, rank2: map<nat, nat>, text2: map<nat, string>, d: nat)
    requires Moved(parent, rank, text, dentry, target, exchange, parent2, rank2, text2)
    requires Descends(parent, rank, d) && Descends(parent2, rank2, d)
    requires !Under(parent, rank, d, dentry) && !Under(parent, rank, d, target)
    ensures Path(parent2, rank2, text2, d) == Path(parent, rank, text, d)
    decreases rank[d]
  {
    if parent[d] != d {
      Ranked(parent, rank, d);
      Ranked(parent2, rank2, d);
      OutsideKeepsPath(parent, rank, text, dentry, target, exchange, parent2, rank2, text2, parent[d]);
    }
  }

  /** Below the dentry, or below the target, nothing changes but the path to it. */
  lemma {:induction false} SubtreeKeepsSuffix(
      parent: map<nat, nat>, rank: map<nat, nat>, text: map<nat, string>, dentry: nat, target: nat,
      exchange: bool, parent2: map<nat, nat>, rank2: map<nat, nat>, text2: map<nat, string>, d: nat, a: nat)
    requires Moved(parent, rank, text, dentry, target, exchange, parent2, rank2, text2)
    requires Descends(parent, rank, d) && Descends(parent2, rank2, d) && Descends(parent2, rank2, a)
    requires (a == dentry || a == target) && Under(parent, rank, d, a)
    ensures Path(parent2, rank2, text2, d)
            == Path(parent2, rank2, text2, a) + Suffix(parent, rank, text, d, a)
    decreases rank[d]
  {
    if d != a {
      Ranked(parent2, rank2, d);
      SubtreeKeepsSuffix(parent, rank, text, dentry, target, exchange, parent2, rank2, text2, parent[d], a);
    }
  }

  /** The dentry gets the target's old path exactly when the target was not a root. */
  lemma DentryTakesPath(
      parent: map<nat, nat>, rank: map<nat, nat>, text: map<nat, string>, dentry: nat, target: nat,
      exchange: bool, parent2: map<nat, nat>, rank2: map<nat, nat>, text2: map<nat, string>)
    requires Moved(parent, rank, text, dentry, target, exchange, parent2, rank2, text2)
    requires Descends(parent2, rank2, dentry)
    ensures Path(parent2, rank2, text2, dentry) == Path(parent, rank, text, target)
            <==> parent[target] != target
  {
    Ranked(parent, rank, target);
    Ranked(parent2, rank2, dentry);
    NotUnderParent(parent, rank, target, dentry);
    if parent[target] != target {
      UnderStep(parent, rank, target, target);
      OutsideKeepsPath(parent, rank, text, dentry, target, exchange, parent2, rank2, text2, parent[target]);
    }
  }

  /** The path of the target afterwards. */
  lemma TargetTakesPath(
      parent: map<nat, nat>, rank: map<nat, nat>, text: map<nat, string>, dentry: nat, target: nat,
      exchange: bool, parent2: map<nat, nat>, rank2: map<nat, nat>, text2: map<nat, string>)
    requires Moved(parent, rank, text, dentry, target, exchange, parent2, rank2, text2)
    requires Descends(parent2, rank2, target) && Descends(parent, rank, parent[dentry])
    ensures exchange ==> Path(parent2, rank2, text2, target) == Path(parent, rank, text, dentry)
    ensures !exchange ==>
              Path(parent2, rank2, text2, target)
              == if parent[dentry] == dentry then []
                 else Path(parent, rank, text, parent[dentry]) + [text[target]]
  {
    if parent[dentry] != dentry {
      Ranked(parent2, rank2, target);
      NotUnderParent(parent, rank, dentry, target);
      UnderStep(parent, rank, dentry, dentry);
      OutsideKeepsPath(parent, rank, text, dentry, target, exchange, parent2, rank2, text2, parent[dentry]);
    }
  }

  /** After a move every path in the moved subtree is the target's old path and the old suffix, if
      and only if the target was not a root. */
  lemma MovedSubtreeTakesPath(
      parent: map<nat, nat>, rank: map<nat, nat>, text: map<nat, string>, dentry: nat, target: nat,
      exchange: bool, parent2: map<nat, nat>, rank2: map<nat, nat>, text2: map<nat, string>, d: nat)
    requires Moved(parent, rank, text, dentry, target, exchange, parent2, rank2, text2)
    requires Descends(parent, rank, d) && Descends(parent2, rank2, d) && Under(parent, rank, d, dentry)
    ensures Path(parent2, rank2, text2, d)
            == Path(parent, rank, text, target) + Suffix(parent, rank, text, d, dentry)
            <==> parent[target] != target
  {
    Ranked(parent2, rank2, dentry);
    DentryTakesPath(parent, rank, text, dentry, target, exchange, parent2, rank2, text2);
    SubtreeKeepsSuffix(parent, rank, text, dentry, target, exchange, parent2, rank2, text2, d, dentry);
    var tail := Suffix(parent, rank, text, d, dentry);
    var a, b := Path(parent2, rank2, text2, dentry), Path(parent, rank, text, target);
    assert a + tail == b + tail ==> a == b by {
      if a + tail == b + tail {
        assert a == (a + tail)[..|a|] && b == (b + tail)[..|b|];
      }
    }
  }

  /** A move onto a root takes the root's lock twice.  Could it go on, the dentry would not get the root's
      path, which is empty. */
  lemma MoveOntoRootMisses()
    ensures var parent, rank, text := map[0 := 0, 1 := 0, 2 := 2], map[0 := 0, 1 := 1, 2 := 0],
                                      map[0 := "/", 1 := "a", 2 := "b"];
            var parent2, rank2, text2 := map[0 := 0, 1 := 2, 2 := 0], map[0 := 0, 1 := 2, 2 := 1],
                                         map[0 := "/", 1 := "b", 2 := "b"];
            && !Distinct(MoveLocks(parent, 1, 2, false))
            && Moved(parent, rank, text, 1, 2, false, parent2, rank2, text2)
            && Path(parent, rank, text, 2) == [] && Path(parent2, rank2, text2, 1) == ["b", "b"]
  {
    var parent2, rank2, text2 := map[0 := 0, 1 := 2, 2 := 0], map[0 := 0, 1 := 2, 2 := 1],
                                 map[0 := "/", 1 := "b", 2 := "b"];
    NoLockTwiceExactlyWhen(map[0 := 0, 1 := 0, 2 := 2], 1, 2, false);
    assert Path(parent2, rank2, text2, 0) == [];
    assert Path(parent2, rank2, text2, 2) == ["b"];
  }

  /** With exchange, the target's subtree takes the dentry's old path, roots or not. */
  lemma ExchangedSubtreeTakesPath(
      parent: map<nat, nat>, rank: map<nat, nat>, text: map<nat, string>, dentry: nat, target: nat,
      parent2: map<nat, nat>, rank2: map<nat, nat>, text2: map<nat, string>, d: nat)
    requires Moved(parent, rank, text, dentry, target, true, parent2, rank2, text2)
    requires Descends(parent, rank, d) && Descends(parent2, rank2, d) && Under(parent, rank, d, target)
    ensures Path(parent2, rank2, text2, d)
            == Path(parent, rank, text, dentry) + Suffix(parent, rank, text, d, target)
  {
    Ranked(parent2, rank2, target);
    Ranked(parent, rank, dentry);
    TargetTakesPath(parent, rank, text, dentry, target, true, parent2, rank2, text2);
    SubtreeKeepsSuffix(parent, rank, text, dentry, target, true, parent2, rank2, text2, d, target);
  }

  /** __dentry_path: names are put in front until the root; a buffer too small for the whole path and
      its terminator gives an error. */
  method DentryPath(parent: map<nat, nat>, ghost rank: map<nat, nat>, text: map<nat, string>, d: nat, buflen: nat)
    returns (path: Option<string>)
    requires RankedBy(parent, rank) && Descends(parent, rank, d) && parent.Keys <= text.Keys
    ensures path.None? <==> buflen < 2 || 1 + |Slashed(Path(parent, rank, text, d))| > buflen
    ensures path.Some? ==>
              path.value == if parent[d] == d then "/" else Slashed(Path(parent, rank, text, d))
  {
    if buflen < 2 {
      return None;
    }
    var dentry, len, end := d, buflen - 1, "";
    while parent[dentry] != dentry
      invariant Descends(parent, rank, dentry) && len >= 0
      invariant Slashed(Path(parent, rank, text, dentry)) + end == Slashed(Path(parent, rank, text, d))
      invariant len + |end| == buflen - 1
      invariant parent[d] == d ==> dentry == d
      invariant dentry != d ==> end != ""
      decreases rank[dentry]
    {
      assert Descends(parent, rank, parent[dentry]);
      SlashedOfSum(Path(parent, rank, text, parent[dentry]), [text[dentry]]);
      assert Slashed([text[dentry]]) == "/" + text[dentry] by {
        assert [text[dentry]][1..] == [];
      }
      len := len - (|text[dentry]| + 1);
      if len < 0 {
        return None;
      }
      end := "/" + text[dentry] + end;
      dentry := parent[dentry];
    }
    assert Slashed(Path(parent, rank, text, dentry)) == "";
    path := Some(if end == "" then "/" else end);
  }

  // ------------------------------------------------------------------ child lists

  /** d_subdirs of `p` holds every child once, and nothing else. */
  ghost predicate HoldsChildren(parent: map<nat, nat>, subdirs: map<nat, seq<nat>>, p: nat) {
    && p in subdirs && Distinct(subdirs[p])
    && forall d :: d in subdirs[p] <==> d in parent && parent[d] == p && d != p
  }

  ghost predicate Inverse(parent: map<nat, nat>, subdirs: map<nat, seq<nat>>) {
    && subdirs.Keys == parent.Keys
    && forall p {:trigger HoldsChildren(parent, subdirs, p)} :: p in parent ==> HoldsChildren(parent, subdirs, p)
  }

  /** list_del_init of d_child, wherever it is. */
  function ListDel(subdirs: map<nat, seq<nat>>, d: nat): (m: map<nat, seq<nat>>)
    ensures m.Keys == subdirs.Keys
  {
    map p | p in subdirs :: Without(subdirs[p], d)
  }

  /** list_move to the head of p's d_subdirs. */
  function ListMove(subdirs: map<nat, seq<nat>>, d: nat, p: nat): (m: map<nat, seq<nat>>)
    requires p in subdirs
    ensures m.Keys == subdirs.Keys
  {
    var m := ListDel(subdirs, d);
    m[p := [d] + m[p]]
  }

  function MovedSubdirs(subdirs: map<nat, seq<nat>>, parent: map<nat, nat>, dentry: nat, target: nat):
      (m: map<nat, seq<nat>>)
    requires dentry in parent && target in parent && subdirs.Keys == parent.Keys
    requires parent[dentry] in parent && parent[target] in parent
    ensures m.Keys == subdirs.Keys
  {
    if parent[dentry] == dentry then ListMove(ListDel(subdirs, target), dentry, parent[target])
    else ListMove(ListMove(subdirs, target, parent[dentry]), dentry, parent[target])
  }

  lemma ListMoveHolds(subdirs: map<nat, seq<nat>>, d: nat, q: nat, p: nat)
    requires q in subdirs && p in subdirs
    ensures forall x :: x in ListMove(subdirs, d, q)[p] <==> if x == d then p == q else x in subdirs[p]
    ensures Distinct(subdirs[p]) ==> Distinct(ListMove(subdirs, d, q)[p])
  {
    if Distinct(subdirs[p]) {
      WithoutIsDistinct(subdirs[p], d);
    }
    DistinctCons(d, Without(subdirs[p], d));
  }

  lemma MovedSubdirsHold(subdirs: map<nat, seq<nat>>, parent: map<nat, nat>, dentry: nat, target: nat, p: nat)
    requires dentry in parent && target in parent && subdirs.Keys == parent.Keys && dentry != target
    requires parent[dentry] in parent && parent[target] in parent && p in subdirs
    ensures forall x :: x in MovedSubdirs(subdirs, parent, dentry, target)[p] <==>
              if x == dentry then p == parent[target]
              else if x == target then parent[dentry] != dentry && p == parent[dentry]
              else x in subdirs[p]
    ensures Distinct(subdirs[p]) ==> Distinct(MovedSubdirs(subdirs, parent, dentry, target)[p])
  {
    if parent[dentry] == dentry {
      if Distinct(subdirs[p]) {
        WithoutIsDistinct(subdirs[p], target);
      }
      ListMoveHolds(ListDel(subdirs, target), dentry, parent[target], p);
    } else {
      ListMoveHolds(subdirs, target, parent[dentry], p);
      ListMoveHolds(ListMove(subdirs, target, parent[dentry]), dentry, parent[target], p);
    }
  }

  /** A move keeps the child lists the inverse of the parents. */
  lemma MoveKeepsInverse(subdirs: map<nat, seq<nat>>, parent: map<nat, nat>, rank: map<nat, nat>,
                         dentry: nat, target: nat)
    requires RankedBy(parent, rank) && Apart(parent, rank, dentry, target) && Inverse(parent, subdirs)
    ensures Inverse(MovedParent(parent, dentry, target), MovedSubdirs(subdirs, parent, dentry, target))
  {
    var parent2, subdirs2 := MovedParent(parent, dentry, target), MovedSubdirs(subdirs, parent, dentry, target);
    NotEachOthersParent(parent, rank, dentry, target);
    forall p | p in parent2
      ensures HoldsChildren(parent2, subdirs2, p)
    {
      assert HoldsChildren(parent, subdirs, p);
      MovedHoldsChildren(subdirs, parent, dentry, target, p);
    }
  }

  lemma MovedHoldsChildren(subdirs: map<nat, seq<nat>>, parent: map<nat, nat>, dentry: nat, target: nat, p: nat)
    requires dentry in parent && target in parent && subdirs.Keys == parent.Keys && dentry != target
    requires parent[dentry] in parent && parent[target] in parent
    requires parent[target] != dentry && parent[dentry] != target
    requires HoldsChildren(parent, subdirs, p)
    ensures HoldsChildren(MovedParent(parent, dentry, target),
                          MovedSubdirs(subdirs, parent, dentry, target), p)
  {
    MovedSubdirsHold(subdirs, parent, dentry, target, p);
    ChildrenAfterMove(parent, dentry, target, subdirs[p], MovedSubdirs(subdirs, parent, dentry, target)[p], p);
  }

  lemma ChildrenAfterMove(parent: map<nat, nat>, dentry: nat, target: nat, before: seq<nat>, after: seq<nat>, p: nat)
    requires dentry in parent && target in parent && dentry != target
    requires parent[target] != dentry && parent[dentry] != target
    requires forall d :: d in before <==> d in parent && parent[d] == p && d != p
    requires forall x :: x in after <==>
               if x == dentry then p == parent[target]
               else if x == target then parent[dentry] != dentry && p == parent[dentry]
               else x in before
    ensures var parent2 := MovedParent(parent, dentry, target);
            forall d :: d in after <==> d in parent2 && parent2[d] == p && d != p
  {
  }

  lemma NotEachOthersParent(parent: map<nat, nat>, rank: map<nat, nat>, dentry: nat, target: nat)
    requires RankedBy(parent, rank) && Apart(parent, rank, dentry, target)
    ensures dentry != target && parent[target] != dentry && parent[dentry] != target
    ensures parent[target] in parent && parent[dentry] in parent
  {
    Ranked(parent, rank, target);
    Ranked(parent, rank, dentry);
    NotUnderParent(parent, rank, target, dentry);
    NotUnderParent(parent, rank, dentry, target);
  }

  // ------------------------------------------------------------------ the hash table

  /** A chain of the hash table, or the list of hashed roots. */
  datatype Bucket = Anon | Slot(n: nat)

  /** Where each dentry's d_hash is linked, and the chains. */
  datatype Table = Table(place: map<nat, Option<Bucket>>, chains: map<Bucket, seq<nat>>)

  function Chain(t: Table, b: Bucket): seq<nat> {
    if b in t.chains then t.chains[b] else []
  }

  ghost predicate ChainHolds(t: Table, b: Bucket) {
    && Distinct(Chain(t, b))
    && forall d :: d in Chain(t, b) <==> d in t.place && t.place[d] == Some(b)
  }

  ghost predicate TableHolds(t: Table) {
    forall b {:trigger ChainHolds(t, b)} :: ChainHolds(t, b)
  }

  /** __d_drop. */
  function Dropped(t: Table, d: nat): (t2: Table)
    requires d in t.place
    ensures t2.place.Keys == t.place.Keys
  {
    if t.place[d].None? then t
    else
      var b := t.place[d].value;
      Table(t.place[d := None], t.chains[b := Without(Chain(t, b), d)])
  }

  /** __d_rehash. */
  function Rehashed(t: Table, d: nat, slot: nat): (t2: Table)
    requires d in t.place && t.place[d].None?
    ensures t2.place.Keys == t.place.Keys
  {
    Table(t.place[d := Some(Slot(slot))], t.chains[Slot(slot) := [d] + Chain(t, Slot(slot))])
  }

  lemma DropKeepsTable(t: Table, d: nat)
    requires TableHolds(t) && d in t.place
    ensures TableHolds(Dropped(t, d))
  {
    var t2 := Dropped(t, d);
    forall b
      ensures ChainHolds(t2, b)
    {
      assert ChainHolds(t, b);
      WithoutIsDistinct(Chain(t, b), d);
    }
  }

  lemma RehashKeepsTable(t: Table, d: nat, slot: nat)
    requires TableHolds(t) && d in t.place && t.place[d].None?
    ensures TableHolds(Rehashed(t, d, slot))
  {
    var t2 := Rehashed(t, d, slot);
    forall b
      ensures ChainHolds(t2, b)
    {
      assert ChainHolds(t, b);
      DistinctCons(d, Chain(t, b));
    }
  }

  /** Unhash both, rehash the dentry and with exchange the target, under the new hashes. */
  function MovedTable(t: Table, hash: map<nat, nat>, width: nat, dentry: nat, target: nat, exchange: bool):
      (moved: Table)
    requires dentry in t.place && target in t.place && dentry in hash && target in hash && width > 0
    requires dentry != target
    ensures moved.place.Keys == t.place.Keys
  {
    var t2 := Rehashed(Dropped(Dropped(t, dentry), target), dentry, hash[target] / width);
    if exchange then Rehashed(t2, target, hash[dentry] / width) else t2
  }

  lemma MoveKeepsTable(t: Table, hash: map<nat, nat>, width: nat, dentry: nat, target: nat, exchange: bool)
    requires TableHolds(t) && dentry in t.place && target in t.place && dentry in hash && target in hash
    requires width > 0 && dentry != target
    ensures TableHolds(MovedTable(t, hash, width, dentry, target, exchange))
  {
    DropKeepsTable(t, dentry);
    DropKeepsTable(Dropped(t, dentry), target);
    var t1 := Dropped(Dropped(t, dentry), target);
    RehashKeepsTable(t1, dentry, hash[target] / width);
    if exchange {
      RehashKeepsTable(Rehashed(t1, dentry, hash[target] / width), target, hash[dentry] / width);
    }
  }

  /** After a move the dentry is hashed, and the target exactly with exchange. */
  lemma MovedAreHashed(t: Table, hash: map<nat, nat>, width: nat, dentry: nat, target: nat, exchange: bool)
    requires dentry in t.place && target in t.place && dentry in hash && target in hash && width > 0
    requires dentry != target
    ensures var t2 := MovedTable(t, hash, width, dentry, target, exchange);
            && t2.place[dentry] == Some(Slot(hash[target] / width))
            && t2.place[target] == (if exchange then Some(Slot(hash[dentry] / width)) else None)
            && forall d :: d in t.place && d != dentry && d != target ==> t2.place[d] == t.place[d]
  {
  }

  /** A hashed dentry is in the chain of its hash; only roots are on the list of roots. */
  ghost predicate FiledRight(parent: map<nat, nat>, hash: map<nat, nat>, width: nat, t: Table, d: nat)
    requires width > 0
  {
    && d in parent && d in hash && d in t.place
    && match t.place[d]
       case None => true
       case Some(Anon) => parent[d] == d
       case Some(Slot(n)) => n == hash[d] / width
  }

  ghost predicate AllFiled(parent: map<nat, nat>, hash: map<nat, nat>, width: nat, t: Table)
    requires width > 0
  {
    forall d {:trigger FiledRight(parent, hash, width, t, d)} ::
      d in parent ==> FiledRight(parent, hash, width, t, d)
  }

  lemma MoveKeepsFiled(parent: map<nat, nat>, hash: map<nat, nat>, width: nat, t: Table, dentry: nat,
                       target: nat, exchange: bool)
    requires width > 0 && AllFiled(parent, hash, width, t) && dentry in parent && target in parent
    requires dentry != target && FiledRight(parent, hash, width, t, dentry)
    requires FiledRight(parent, hash, width, t, target)
    ensures AllFiled(MovedParent(parent, dentry, target), Switched(hash, dentry, target, exchange), width,
                     MovedTable(t, hash, width, dentry, target, exchange))
  {
    var parent2, hash2 := MovedParent(parent, dentry, target), Switched(hash, dentry, target, exchange);
    var t2 := MovedTable(t, hash, width, dentry, target, exchange);
    forall d | d in parent2
      ensures FiledRight(parent2, hash2, width, t2, d)
    {
      assert FiledRight(parent, hash, width, t, d);
    }
  }

  /** The list that __d_drop locks to take a hashed dentry off. */
  function Picked(parent: map<nat, nat>, hash: map<nat, nat>, width: nat, d: nat): Bucket
    requires d in parent && d in hash && width > 0
  {
    if parent[d] == d then Anon else Slot(hash[d] / width)
  }

  /** It is the one the dentry is on. */
  ghost predicate PickedRight(parent: map<nat, nat>, hash: map<nat, nat>, width: nat, t: Table, d: nat)
    requires width > 0
  {
    && d in parent && d in hash && d in t.place
    && (t.place[d].Some? ==> t.place[d].value == Picked(parent, hash, width, d))
  }

  ghost predicate AllPicked(parent: map<nat, nat>, hash: map<nat, nat>, width: nat, t: Table)
    requires width > 0
  {
    forall d {:trigger PickedRight(parent, hash, width, t, d)} ::
      d in parent ==> PickedRight(parent, hash, width, t, d)
  }

  /** A move keeps this exactly when it is not an exchange of a root, which would leave the target a root
      in a hash chain. */
  lemma MoveKeepsPickedExactlyWhen(parent: map<nat, nat>, hash: map<nat, nat>, width: nat, t: Table, dentry: nat,
                                   target: nat, exchange: bool)
    requires width > 0 && AllPicked(parent, hash, width, t) && dentry in parent && target in parent
    requires dentry != target && parent[target] != dentry && parent[dentry] != target
    requires PickedRight(parent, hash, width, t, dentry) && PickedRight(parent, hash, width, t, target)
    ensures AllPicked(MovedParent(parent, dentry, target), Switched(hash, dentry, target, exchange), width,
                      MovedTable(t, hash, width, dentry, target, exchange))
            <==> !(exchange && parent[dentry] == dentry)
  {
    var parent2, hash2 := MovedParent(parent, dentry, target), Switched(hash, dentry, target, exchange);
    var t2 := MovedTable(t, hash, width, dentry, target, exchange);
    MovedAreHashed(t, hash, width, dentry, target, exchange);
    if exchange && parent[dentry] == dentry {
      assert !PickedRight(parent2, hash2, width, t2, target);
    } else {
      forall d | d in parent2
        ensures PickedRight(parent2, hash2, width, t2, d)
      {
        assert PickedRight(parent, hash, width, t, d);
      }
    }
  }

  /** The exchange of the root 2 with the child 1 of the root 0. */
  lemma ExchangeOfRootMisfiles()
    ensures var parent, hash := map[0 := 0, 1 := 0, 2 := 2], map[0 := 3, 1 := 4, 2 := 5];
            var t := Table(map[0 := None, 1 := None, 2 := None], map[]);
            && AllPicked(parent, hash, 1, t)
            && !AllPicked(MovedParent(parent, 2, 1), Switched(hash, 2, 1, true), 1, MovedTable(t, hash, 1, 2, 1, true))
  {
    var parent, hash := map[0 := 0, 1 := 0, 2 := 2], map[0 := 3, 1 := 4, 2 := 5];
    MoveKeepsPickedExactlyWhen(parent, hash, 1, Table(map[0 := None, 1 := None, 2 := None], map[]), 2, 1, true);
  }

  /** The hash of a hashed dentry is that of its parent and name; `h` stands for full_name_hash or
      the file system's own. */
  ghost predicate KeyRight(h: (nat, string) -> nat, parent: map<nat, nat>, text: map<nat, string>,
                           hash: map<nat, nat>, d: nat)
  {
    d in parent && d in text && d in hash && hash[d] == h(parent[d], text[d])
  }

  ghost predicate AllKeyed(h: (nat, string) -> nat, parent: map<nat, nat>, text: map<nat, string>,
                           hash: map<nat, nat>, t: Table)
  {
    forall d {:trigger KeyRight(h, parent, text, hash, d)} ::
      d in parent && d in t.place && t.place[d].Some? && parent[d] != d ==> KeyRight(h, parent, text, hash, d)
  }

  lemma MoveKeepsKeys(h: (nat, string) -> nat, parent: map<nat, nat>, text: map<nat, string>,
                      hash: map<nat, nat>, width: nat, t: Table, dentry: nat, target: nat, exchange: bool)
    requires AllKeyed(h, parent, text, hash, t) && KeyRight(h, parent, text, hash, target)
    requires dentry in parent && dentry in text && dentry in hash && dentry != target && width > 0
    requires exchange && parent[dentry] != dentry ==> KeyRight(h, parent, text, hash, dentry)
    requires dentry in t.place && target in t.place
    ensures AllKeyed(h, MovedParent(parent, dentry, target), Switched(text, dentry, target, exchange),
                     Switched(hash, dentry, target, exchange),
                     MovedTable(t, hash, width, dentry, target, exchange))
  {
    var parent2, text2 := MovedParent(parent, dentry, target), Switched(text, dentry, target, exchange);
    var hash2 := Switched(hash, dentry, target, exchange);
    var t2 := MovedTable(t, hash, width, dentry, target, exchange);
    forall d | d in parent2 && d in t2.place && t2.place[d].Some? && parent2[d] != d
      ensures KeyRight(h, parent2, text2, hash2, d)
    {
      if d != dentry && d != target {
        assert KeyRight(h, parent, text, hash, d);
      }
    }
  }

  lemma HashedIsInChain(h: (nat, string) -> nat, parent: map<nat, nat>, text: map<nat, string>,
                        hash: map<nat, nat>, width: nat, t: Table, d: nat)
    requires width > 0 && TableHolds(t) && AllFiled(parent, hash, width, t)
    requires AllKeyed(h, parent, text, hash, t)
    requires d in parent && d in text && d in hash && d in t.place && parent[d] != d
    ensures t.place[d].Some? ==>
              hash[d] == h(parent[d], text[d]) && d in Chain(t, Slot(h(parent[d], text[d]) / width))
  {
    assert FiledRight(parent, hash, width, t, d);
    if t.place[d].Some? {
      assert KeyRight(h, parent, text, hash, d);
      assert ChainHolds(t, t.place[d].value);
    }
  }

  // ------------------------------------------------------------------ the cache

  ghost predicate Consistent(h: (nat, string) -> nat, width: nat, parent: map<nat, nat>,
                             text: map<nat, string>, hash: map<nat, nat>, subdirs: map<nat, seq<nat>>,
                             table: Table)
  {
    && width > 0 && parent.Keys == text.Keys == hash.Keys == table.place.Keys
    && Forest(parent) && Inverse(parent, subdirs)
    && TableHolds(table) && AllFiled(parent, hash, width, table) && AllKeyed(h, parent, text, hash, table)
  }

  /** A move keeps the forest, its child lists and the table. */
  lemma MoveKeepsConsistent(h: (nat, string) -> nat, width: nat, parent: map<nat, nat>, rank: map<nat, nat>,
                            text: map<nat, string>, hash: map<nat, nat>, subdirs: map<nat, seq<nat>>,
                            table: Table, dentry: nat, target: nat, exchange: bool)
    requires Consistent(h, width, parent, text, hash, subdirs, table)
    requires RankedBy(parent, rank) && Apart(parent, rank, dentry, target)
    requires KeyRight(h, parent, text, hash, target)
    requires exchange && parent[dentry] != dentry ==> KeyRight(h, parent, text, hash, dentry)
    ensures dentry != target && parent[dentry] in parent && parent[target] in parent
    ensures subdirs.Keys == parent.Keys == text.Keys == hash.Keys == table.place.Keys
    ensures Consistent(h, width, MovedParent(parent, dentry, target),
                       Switched(text, dentry, target, exchange), Switched(hash, dentry, target, exchange),
                       MovedSubdirs(subdirs, parent, dentry, target),
                       MovedTable(table, hash, width, dentry, target, exchange))
  {
    NotEachOthersParent(parent, rank, dentry, target);
    MoveKeepsForest(parent, rank, dentry, target);
    MoveKeepsInverse(subdirs, parent, rank, dentry, target);
    MoveKeepsTable(table, hash, width, dentry, target, exchange);
    assert FiledRight(parent, hash, width, table, dentry) && FiledRight(parent, hash, width, table, target);
    MoveKeepsFiled(parent, hash, width, table, dentry, target, exchange);
    MoveKeepsKeys(h, parent, text, hash, width, table, dentry, target, exchange);
  }

  // ------------------------------------------------------------------ new dentries

  /** A new dentry `d` below `p`, or a root if `p` is `d`. */
  lemma AllocKeepsForest(parent: map<nat, nat>, d: nat, p: nat)
    requires Forest(parent) && d !in parent && (p == d || p in parent)
    ensures Forest(parent[d := p])
  {
    var rank :| RankedBy(parent, rank);
    if p in parent {
      Ranked(parent, rank, p);
    }
    var parent2, rank2 := parent[d := p], rank[d := if p == d then 0 else rank[p] + 1];
    forall e | e in parent2
      ensures Descends(parent2, rank2, e)
    {
      if e != d {
        Ranked(parent, rank, e);
      }
    }
    assert RankedBy(parent2, rank2);
  }

  function AddedSubdirs(subdirs: map<nat, seq<nat>>, d: nat, p: nat): map<nat, seq<nat>>
    requires p == d || p in subdirs
  {
    if p == d then subdirs[d := []] else subdirs[d := []][p := [d] + subdirs[p]]
  }

  /** Nothing lists a dentry that is new. */
  lemma NewIsNotListed(parent: map<nat, nat>, subdirs: map<nat, seq<nat>>, d: nat, q: nat)
    requires Forest(parent) && Inverse(parent, subdirs) && d !in parent && q in parent
    ensures HoldsChildren(parent, subdirs, q) && d !in subdirs[q]
    ensures forall e :: e in parent ==> parent[e] != d
  {
    var rank :| RankedBy(parent, rank);
    assert HoldsChildren(parent, subdirs, q);
    forall e | e in parent
      ensures parent[e] != d
    {
      Ranked(parent, rank, e);
    }
  }

  lemma AllocKeepsInverse(parent: map<nat, nat>, subdirs: map<nat, seq<nat>>, d: nat, p: nat)
    requires Forest(parent) && Inverse(parent, subdirs) && d !in parent && (p == d || p in parent)
    ensures Inverse(parent[d := p], AddedSubdirs(subdirs, d, p))
  {
    var parent2, subdirs2 := parent[d := p], AddedSubdirs(subdirs, d, p);
    var rank :| RankedBy(parent, rank);
    forall q | q in parent2
      ensures HoldsChildren(parent2, subdirs2, q)
    {
      if q != d {
        NewIsNotListed(parent, subdirs, d, q);
        DistinctCons(d, subdirs[q]);
      } else {
        forall e | e in parent
          ensures parent[e] != d
        {
          Ranked(parent, rank, e);
        }
      }
    }
  }

  lemma AllocKeepsTable(t: Table, d: nat)
    requires TableHolds(t) && d !in t.place
    ensures TableHolds(Table(t.place[d := None], t.chains))
  {
    var t2 := Table(t.place[d := None], t.chains);
    forall b
      ensures ChainHolds(t2, b)
    {
      assert ChainHolds(t, b);
      assert Chain(t2, b) == Chain(t, b);
    }
  }

  /** A new dentry, below another or as a root, and not hashed, leaves the cache consistent. */
  lemma AllocKeepsConsistent(h: (nat, string) -> nat, width: nat, parent: map<nat, nat>, text: map<nat, string>,
                             hash: map<nat, nat>, subdirs: map<nat, seq<nat>>, table: Table, d: nat, p: nat,
                             name: string, key: nat)
    requires Consistent(h, width, parent, text, hash, subdirs, table) && d !in parent && (p == d || p in parent)
    ensures Consistent(h, width, parent[d := p], text[d := name], hash[d := key], AddedSubdirs(subdirs, d, p),
                       Table(table.place[d := None], table.chains))
  {
    var parent2, text2, hash2 := parent[d := p], text[d := name], hash[d := key];
    var table2 := Table(table.place[d := None], table.chains);
    AllocKeepsForest(parent, d, p);
    AllocKeepsInverse(parent, subdirs, d, p);
    AllocKeepsTable(table, d);
    forall e | e in parent2
      ensures FiledRight(parent2, hash2, width, table2, e)
    {
      assert e != d ==> FiledRight(parent, hash, width, table, e);
    }
    forall e | e in parent2 && e in table2.place && table2.place[e].Some? && parent2[e] != e
      ensures KeyRight(h, parent2, text2, hash2, e)
    {
      assert e != d ==> KeyRight(h, parent, text, hash, e);
    }
  }

  /** Hashing a dentry under the key of its place leaves the cache consistent. */
  lemma RehashKeepsConsistent(h: (nat, string) -> nat, width: nat, parent: map<nat, nat>, text: map<nat, string>,
                              hash: map<nat, nat>, subdirs: map<nat, seq<nat>>, table: Table, d: nat)
    requires Consistent(h, width, parent, text, hash, subdirs, table) && d in parent && table.place[d].None?
    requires KeyRight(h, parent, text, hash, d)
    ensures Consistent(h, width, parent, text, hash, subdirs, Rehashed(table, d, hash[d] / width))
  {
    var table2 := Rehashed(table, d, hash[d] / width);
    RehashKeepsTable(table, d, hash[d] / width);
    forall e | e in parent
      ensures FiledRight(parent, hash, width, table2, e)
    {
      assert FiledRight(parent, hash, width, table, e);
    }
    forall e | e in parent && e in table2.place && table2.place[e].Some? && parent[e] != e
      ensures KeyRight(h, parent, text, hash, e)
    {
      assert e != d ==> KeyRight(h, parent, text, hash, e);
    }
  }

  lemma LockedSoFar(locks: seq<nat>, i: nat)
    requires i < |locks|
    ensures Distinct(locks[..i + 1]) <==> Distinct(locks[..i]) && locks[i] !in locks[..i]
  {
    var a, b := locks[..i], locks[..i + 1];
    assert b == a + [locks[i]];
    if Distinct(b) {
      assert forall j :: 0 <= j < i ==> a[j] == b[j] != b[i];
    }
  }

  class Dcache {
    const width: nat
    var parent: map<nat, nat>
    var text: map<nat, string>
    var hash: map<nat, nat>
    var subdirs: map<nat, seq<nat>>
    var table: Table

    ghost predicate Valid(h: (nat, string) -> nat)
      reads this
    {
      Consistent(h, width, parent, text, hash, subdirs, table)
    }

    constructor (width: nat)
      requires width > 0
      ensures forall h :: Valid(h)
      ensures parent == map[]
    {
      this.width := width;
      parent, text, hash, subdirs, table := map[], map[], map[], map[], Table(map[], map[]);
      new;
      var none: map<nat, nat> := map[];
      assert RankedBy(parent, none);
      forall b
        ensures ChainHolds(table, b)
      {
      }
    }

    /** __d_alloc: a root that is not hashed; the allocator gives a dentry that is not in use. */
    method RawAlloc(ghost h: (nat, string) -> nat, dentry: nat, name: string, key: nat)
      requires Valid(h) && dentry !in parent
      modifies this
      ensures Valid(h)
      ensures parent == old(parent)[dentry := dentry] && subdirs == old(subdirs)[dentry := []]
      ensures text == old(text)[dentry := name] && hash == old(hash)[dentry := key]
      ensures table == Table(old(table).place[dentry := None], old(table).chains)
    {
      AllocKeepsConsistent(h, width, parent, text, hash, subdirs, table, dentry, dentry, name, key);
      text, hash := text[dentry := name], hash[dentry := key];
      parent, subdirs := parent[dentry := dentry], subdirs[dentry := []];
      table := Table(table.place[dentry := None], table.chains);
    }

    /** d_alloc: a dentry below `dir`, at the head of its list. */
    method DAlloc(ghost h: (nat, string) -> nat, dentry: nat, dir: nat, name: string, key: nat)
      requires Valid(h) && dentry !in parent && dir in parent
      modifies this
      ensures Valid(h)
      ensures parent == old(parent)[dentry := dir] && subdirs == AddedSubdirs(old(subdirs), dentry, dir)
      ensures text == old(text)[dentry := name] && hash == old(hash)[dentry := key]
      ensures table == Table(old(table).place[dentry := None], old(table).chains)
    {
      AllocKeepsConsistent(h, width, parent, text, hash, subdirs, table, dentry, dir, name, key);
      RawAlloc(h, dentry, name, key);
      parent := parent[dentry := dir];
      subdirs := subdirs[dir := [dentry] + subdirs[dir]];
      assert parent == old(parent)[dentry := dir];
    }

    /** d_rehash of a dentry whose hash is that of its place. */
    method DAdd(ghost h: (nat, string) -> nat, dentry: nat)
      requires Valid(h) && dentry in parent && table.place[dentry].None? && KeyRight(h, parent, text, hash, dentry)
      modifies this`table
      ensures Valid(h) && table == Rehashed(old(table), dentry, hash[dentry] / width)
    {
      RehashKeepsConsistent(h, width, parent, text, hash, subdirs, table, dentry);
      DRehash(dentry);
    }

    /** __d_drop, which takes the dentry off the list it is on; `locked` is the list whose lock it holds
        for that. */
    method DDrop(dentry: nat) returns (locked: Option<Bucket>)
      requires dentry in table.place && dentry in parent && dentry in hash && width > 0
      modifies this`table
      ensures table == Dropped(old(table), dentry)
      ensures locked.Some? <==> old(table).place[dentry].Some?
      ensures PickedRight(parent, hash, width, old(table), dentry) ==> locked == old(table).place[dentry]
    {
      locked := None;
      if table.place[dentry].Some? {
        locked := Some(if parent[dentry] == dentry then Anon else Slot(hash[dentry] / width));
        var b := table.place[dentry].value;
        table := Table(table.place[dentry := None], table.chains[b := Without(Chain(table, b), dentry)]);
      }
    }

    /** __d_rehash. */
    method DRehash(entry: nat)
      requires entry in table.place && table.place[entry].None? && entry in hash && width > 0
      modifies this`table
      ensures table == Rehashed(old(table), entry, hash[entry] / width)
    {
      var b := Slot(hash[entry] / width);
      table := Table(table.place[entry := Some(b)], table.chains[b := [entry] + Chain(table, b)]);
    }

    /** __d_lookup: the first dentry of the chain that is right. */
    method DLookup(h: (nat, string) -> nat, dir: nat, name: string) returns (found: Option<nat>)
      requires Valid(h)
      ensures found.Some? ==>
                && found.value in parent && parent[found.value] == dir && text[found.value] == name
                && table.place[found.value].Some?
      ensures found.None? ==>
                forall d :: d in parent && parent[d] == dir && d != dir && text[d] == name ==>
                  table.place[d].None?
    {
      var key := h(dir, name);
      var b := Slot(key / width);
      var chain := Chain(table, b);
      assert ChainHolds(table, b);
      var i := 0;
      while i < |chain|
        invariant 0 <= i <= |chain|
        invariant forall k :: 0 <= k < i ==>
                    !(hash[chain[k]] == key && parent[chain[k]] == dir && text[chain[k]] == name)
      {
        var dentry := chain[i];
        if hash[dentry] == key && parent[dentry] == dir && text[dentry] == name {
          return Some(dentry);
        }
        i := i + 1;
      }
      forall d | d in parent && parent[d] == dir && d != dir && text[d] == name
        ensures table.place[d].None?
      {
        HashedIsInChain(h, parent, text, hash, width, table, d);
      }
      found := None;
    }

    /** swap_names and copy_name, as far as the names go. */
    method SwitchNames(dentry: nat, target: nat, exchange: bool)
      requires dentry in text && target in text && dentry in hash && target in hash && dentry != target
      modifies this`text, this`hash
      ensures text == Switched(old(text), dentry, target, exchange)
      ensures hash == Switched(old(hash), dentry, target, exchange)
    {
      if exchange {
        text := text[dentry := text[target]][target := text[dentry]];
        hash := hash[dentry := hash[target]][target := hash[dentry]];
      } else {
        text := text[dentry := text[target]];
        hash := hash[dentry := hash[target]];
      }
    }

    /** Unhash both, switch the names, rehash in the new places. */
    method SwitchInTable(dentry: nat, target: nat, exchange: bool)
      requires dentry in text && target in text && dentry in hash && target in hash && dentry != target
      requires dentry in table.place && target in table.place && width > 0
      requires dentry in parent && target in parent
      modifies this`text, this`hash, this`table
      ensures text == Switched(old(text), dentry, target, exchange)
      ensures hash == Switched(old(hash), dentry, target, exchange)
      ensures table == MovedTable(old(table), old(hash), width, dentry, target, exchange)
    {
      var locked := DDrop(dentry);
      locked := DDrop(target);
      SwitchNames(dentry, target, exchange);
      DRehash(dentry);
      if exchange {
        DRehash(target);
      }
    }

    /** Splicing a tree: a root takes the target's place, and the target becomes a root. */
    method Splice(dentry: nat, target: nat)
      requires dentry in parent && target in parent && subdirs.Keys == parent.Keys && dentry != target
      requires parent[dentry] == dentry && parent[target] in parent
      modifies this`parent, this`subdirs
      ensures parent == MovedParent(old(parent), dentry, target)
      ensures subdirs == MovedSubdirs(old(subdirs), old(parent), dentry, target)
    {
      parent := parent[dentry := parent[target]];
      parent := parent[target := target];
      subdirs := ListDel(subdirs, target);
      subdirs := ListMove(subdirs, dentry, parent[dentry]);
    }

    /** Swapping two dentries. */
    method SwapPlaces(dentry: nat, target: nat)
      requires dentry in parent && target in parent && subdirs.Keys == parent.Keys && dentry != target
      requires parent[dentry] != dentry && parent[dentry] in parent && parent[target] in parent
      modifies this`parent, this`subdirs
      ensures parent == MovedParent(old(parent), dentry, target)
      ensures subdirs == MovedSubdirs(old(subdirs), old(parent), dentry, target)
    {
      var p, q := parent[target], parent[dentry];
      parent := parent[dentry := p][target := q];
      subdirs := ListMove(subdirs, target, q);
      subdirs := ListMove(subdirs, dentry, p);
    }

    /** The switch in the tree. */
    method SwitchInTree(dentry: nat, target: nat)
      requires dentry in parent && target in parent && subdirs.Keys == parent.Keys && dentry != target
      requires parent[dentry] in parent && parent[target] in parent
      modifies this`parent, this`subdirs
      ensures parent == MovedParent(old(parent), dentry, target)
      ensures subdirs == MovedSubdirs(old(subdirs), old(parent), dentry, target)
    {
      if parent[dentry] == dentry {
        Splice(dentry, target);
      } else {
        SwapPlaces(dentry, target);
      }
    }

    /** __d_move.  The target's hash must be that of its place, hashed or not, since the dentry takes
        it over; with exchange likewise the dentry's.  It does not get past the locks of a root. */
    method DMove(ghost h: (nat, string) -> nat, ghost rank: map<nat, nat>, dentry: nat, target: nat, exchange: bool)
      returns (moved: bool)
      requires Valid(h) && RankedBy(parent, rank) && Apart(parent, rank, dentry, target)
      requires KeyRight(h, parent, text, hash, target)
      requires exchange && parent[dentry] != dentry ==> KeyRight(h, parent, text, hash, dentry)
      modifies this
      ensures Valid(h) && (moved <==> old(parent)[target] != target)
      ensures !moved ==> unchanged(this)
      ensures moved ==>
                && parent == MovedParent(old(parent), dentry, target)
                && subdirs == MovedSubdirs(old(subdirs), old(parent), dentry, target)
                && text == Switched(old(text), dentry, target, exchange)
                && hash == Switched(old(hash), dentry, target, exchange)
                && table == MovedTable(old(table), old(hash), width, dentry, target, exchange)
      ensures moved && old(AllPicked(parent, hash, width, table)) ==>
                (AllPicked(parent, hash, width, table) <==> !(exchange && old(parent)[dentry] == dentry))
    {
      BugOn(rank, dentry, target);
      moved := LockForMove(rank, dentry, target);
      if moved {
        MoveKeepsPicked(rank, dentry, target, exchange);
        Switch(h, rank, dentry, target, exchange);
      }
    }

    /** __d_move behind the locks. */
    method Switch(ghost h: (nat, string) -> nat, ghost rank: map<nat, nat>, dentry: nat, target: nat, exchange: bool)
      requires Valid(h) && RankedBy(parent, rank) && Apart(parent, rank, dentry, target)
      requires KeyRight(h, parent, text, hash, target)
      requires exchange && parent[dentry] != dentry ==> KeyRight(h, parent, text, hash, dentry)
      modifies this
      ensures Valid(h)
      ensures parent == MovedParent(old(parent), dentry, target)
      ensures subdirs == MovedSubdirs(old(subdirs), old(parent), dentry, target)
      ensures text == Switched(old(text), dentry, target, exchange)
      ensures hash == Switched(old(hash), dentry, target, exchange)
      ensures table == MovedTable(old(table), old(hash), width, dentry, target, exchange)
    {
      MoveKeepsConsistent(h, width, parent, rank, text, hash, subdirs, table, dentry, target, exchange);
      SwitchInTable(dentry, target, exchange);
      SwitchInTree(dentry, target);
    }

    lemma MoveKeepsPicked(rank: map<nat, nat>, dentry: nat, target: nat, exchange: bool)
      requires width > 0 && RankedBy(parent, rank) && Apart(parent, rank, dentry, target)
      requires dentry in hash && target in hash && dentry in table.place && target in table.place
      ensures AllPicked(parent, hash, width, table) ==>
                (AllPicked(MovedParent(parent, dentry, target), Switched(hash, dentry, target, exchange), width,
                           MovedTable(table, hash, width, dentry, target, exchange))
                 <==> !(exchange && parent[dentry] == dentry))
    {
      NotEachOthersParent(parent, rank, dentry, target);
      if AllPicked(parent, hash, width, table) {
        assert PickedRight(parent, hash, width, table, dentry) && PickedRight(parent, hash, width, table, target);
        MoveKeepsPickedExactlyWhen(parent, hash, width, table, dentry, target, exchange);
      }
    }

    /** dentry_lock_for_move: whether it gets all its locks, none of which it holds already. */
    method LockForMove(ghost rank: map<nat, nat>, dentry: nat, target: nat) returns (free: bool)
      requires RankedBy(parent, rank) && Apart(parent, rank, dentry, target)
      ensures free <==> parent[target] != target
    {
      NotEachOthersParent(parent, rank, dentry, target);
      Ranked(parent, rank, target);
      var below := DAncestor(parent, rank, parent[dentry], parent[target]);
      var locks := MoveLocks(parent, dentry, target, below.Some?);
      NoLockTwiceExactlyWhen(parent, dentry, target, below.Some?);
      free := true;
      for i := 0 to |locks|
        invariant free <==> Distinct(locks[..i])
      {
        LockedSoFar(locks, i);
        free := free && locks[i] !in locks[..i];
      }
      assert locks[..|locks|] == locks;
    }

    /** The BUG_ONs do not fire. */
    method BugOn(ghost rank: map<nat, nat>, dentry: nat, target: nat)
      requires RankedBy(parent, rank) && Apart(parent, rank, dentry, target)
    {
      var above := DAncestor(parent, rank, dentry, target);
      var below := DAncestor(parent, rank, target, dentry);
      assert above.None? && below.None?;
    }
  }
}
