/** dirlist on its heap: a doubly linked list built by insertion, relinked in place by the level sort
and printed (dirlist/dirlist.c).  Each method is tied to the function of Listing it computes; the
driver writes exactly the specified output.
*/
module DirList {
  import opened Collections
  import opened Listing

  class Node {
    const path: string
    const level: int
    var next: Node?
    var prev: Node?

    /** create_node. */
    constructor (path: string, level: int)
      ensures this.path == path && this.level == level && next == null && prev == null
    {
      this.path, this.level, next, prev := path, level, null, null;
    }
  }

  function EntryOf(n: Node): Entry {
    Entry(n.path, n.level)
  }

  function EntriesOf(nodes: seq<Node>): seq<Entry> {
    seq(|nodes|, i requires 0 <= i < |nodes| => EntryOf(nodes[i]))
  }

  ghost function Set(nodes: seq<Node>): set<Node> {
    set n | n in nodes
  }

  /** The links of the nodes say that `nodes` is the list. */
  ghost predicate Chained(nodes: seq<Node>)
    reads nodes
  {
    && (forall i, j :: 0 <= i < |nodes| && 0 <= j < |nodes| && j == i + 1 ==>
          nodes[i].next == nodes[j] && nodes[j].prev == nodes[i])
    && (nodes != [] ==> nodes[0].prev == null && nodes[|nodes| - 1].next == null)
  }

  class List {
    var head: Node?
    var tail: Node?
    var currentLevel: int
    ghost var nodes: seq<Node>

    /** True of the list at all times. */
    ghost predicate Linked()
      reads this, nodes
    {
      && Distinct(nodes) && Chained(nodes)
      && head == if nodes == [] then null else nodes[0]
    }

    /** True until the level sort, which does not keep `tail`. */
    ghost predicate Valid()
      reads this, nodes
    {
      Linked() && tail == if nodes == [] then null else nodes[|nodes| - 1]
    }

    constructor ()
      ensures Valid() && nodes == [] && currentLevel == 1
    {
      head, tail, currentLevel, nodes := null, null, 1, [];
    }

    method LinkFirst(node: Node)
      requires Valid() && nodes != [] && node !in nodes && node.next == null && node.prev == null
      modifies this`head, this`tail, this`nodes, node, nodes
      ensures Valid() && nodes == [node] + old(nodes)
    {
      ghost var before := nodes;
      head.prev := node;
      node.next := head;
      head := node;
      nodes := [node] + before;
      assert forall i :: 0 < i < |nodes| ==> nodes[i] == before[i - 1];
    }

    method LinkLast(node: Node)
      requires Valid() && nodes != [] && node !in nodes && node.next == null && node.prev == null
      modifies this`head, this`tail, this`nodes, node, nodes
      ensures Valid() && nodes == old(nodes) + [node]
    {
      ghost var before := nodes;
      tail.next := node;
      node.prev := tail;
      tail := node;
      nodes := before + [node];
      assert forall i :: 0 <= i < |before| ==> nodes[i] == before[i];
    }

    method LinkBefore(node: Node, ptr: Node, ghost k: nat)
      requires Valid() && 0 < k < |nodes| && ptr == nodes[k] && node !in nodes
      modifies this`head, this`tail, this`nodes, node, nodes
      ensures Valid() && nodes == old(nodes)[..k] + [node] + old(nodes)[k..]
    {
      ghost var before := nodes;
      assert ptr.prev == before[k - 1];
      node.next := ptr;
      node.prev := ptr.prev;
      ptr.prev.next := node;
      ptr.prev := node;
      nodes := before[..k] + [node] + before[k..];
      assert Distinct(nodes);
      forall i, j | 0 <= i < |nodes| && 0 <= j < |nodes| && j == i + 1
        ensures nodes[i].next == nodes[j] && nodes[j].prev == nodes[i]
      {
        assert nodes[i] == if i < k then before[i] else if i == k then node else before[i - 1];
        assert nodes[j] == if j < k then before[j] else if j == k then node else before[j - 1];
      }
    }

    /** The scan of insert_sorted: the first node that `path` does not exceed. */
    method FindPlace(path: string, ghost k: nat) returns (ptr: Node)
      requires Linked() && IsPlace(path, nodes, k) && k < |nodes|
      ensures ptr == nodes[k]
    {
      ptr := head;
      ghost var i := 0;
      while ptr.next != null && Less(ptr.path, path)
        invariant 0 <= i <= k && ptr == nodes[i]
        decreases k - i
      {
        assert i != k;
        assert ptr.next == nodes[i + 1];
        ptr := ptr.next;
        i := i + 1;
      }
      assert ptr.next == null ==> i + 1 == |nodes| by {
        if i + 1 < |nodes| {
          assert nodes[i].next == nodes[i + 1];
        }
      }
    }

    /** insert_sorted, with `k` the place the scan will find. */
    method InsertSorted(node: Node, ghost k: nat)
      requires Valid() && IsPlace(node.path, nodes, k) && ByPath(EntriesOf(nodes))
      requires node !in nodes && node.next == null && node.prev == null
      modifies this`head, this`tail, this`nodes, node, nodes
      ensures Valid()
      ensures nodes == old(nodes)[..k] + [node] + old(nodes)[k..]
    {
      if head == null && tail == null {
        head := node;
        tail := node;
        nodes := [node];
      } else if !Less(head.path, node.path) {
        LinkFirst(node);
      } else if Less(tail.path, node.path) {
        PlaceAtEnd(nodes, node.path, k);
        LinkLast(node);
      } else {
        var ptr := FindPlace(node.path, k);
        LinkBefore(node, ptr, k);
      }
    }

    /** insert_sorted of a new node. */
    method Insert(path: string, level: int)
      requires Valid() && ByPath(EntriesOf(nodes))
      modifies this, Set(nodes)
      ensures Valid() && currentLevel == old(currentLevel)
      ensures EntriesOf(nodes) == Inserted(Entry(path, level), old(EntriesOf(nodes)))
      ensures ByPath(EntriesOf(nodes)) && fresh(Set(nodes) - old(Set(nodes)))
    {
      ghost var before := nodes;
      ghost var k := PlaceAmong(path, nodes);
      var node := new Node(path, level);
      InsertSorted(node, k);
      SplicedEntries(before, node, k, nodes);
    }

    /** populate_list; `currentLevel` is its static variable, and `children` what readdir yields. */
    method PopulateList(path: string, children: seq<Tree>)
      requires Valid() && ByPath(EntriesOf(nodes)) && currentLevel >= 1
      modifies this, Set(nodes)
      ensures Valid() && ByPath(EntriesOf(nodes))
      ensures fresh(Set(nodes) - old(Set(nodes)))
      ensures currentLevel == if old(currentLevel) == 1 then 2 else old(currentLevel)
      ensures EntriesOf(nodes)
              == InsertedAll(old(EntriesOf(nodes)), Populated(path, children, old(currentLevel)))
      decreases children, 1
    {
      ghost var before, was := EntriesOf(nodes), currentLevel;
      if currentLevel == 1 {
        Insert(path, currentLevel);
        currentLevel := currentLevel + 1;
      }
      PopulatedInOrder(before, EntriesOf(nodes), path, children, was);
      ReadEntries(path, children);
    }

    /** populate_list's loop. */
    method ReadEntries(path: string, children: seq<Tree>)
      requires Valid() && ByPath(EntriesOf(nodes)) && currentLevel > 1
      modifies this, Set(nodes)
      ensures Valid() && ByPath(EntriesOf(nodes))
      ensures fresh(Set(nodes) - old(Set(nodes)))
      ensures currentLevel == old(currentLevel)
      ensures EntriesOf(nodes)
              == InsertedAll(old(EntriesOf(nodes)), Walk(path, children, old(currentLevel)))
      decreases children, 0
    {
      ghost var level := currentLevel;
      ghost var whole := InsertedAll(EntriesOf(nodes), Walk(path, children, level));
      var i := 0;
      while i < |children|
        invariant 0 <= i <= |children| && currentLevel == level
        invariant Valid() && ByPath(EntriesOf(nodes))
        invariant fresh(Set(nodes) - old(Set(nodes)))
        invariant InsertedAll(EntriesOf(nodes), Walk(path, children[i..], level)) == whole
      {
        ghost var s := EntriesOf(nodes);
        ReadEntry(path, children[i]);
        WalkStep(s, EntriesOf(nodes), path, children, i, level);
        i := i + 1;
      }
      assert Walk(path, children[i..], level) == [];
    }

    /** One round of populate_list's loop. */
    method ReadEntry(path: string, t: Tree)
      requires Valid() && ByPath(EntriesOf(nodes)) && currentLevel > 1
      modifies this, Set(nodes)
      ensures Valid() && ByPath(EntriesOf(nodes))
      ensures fresh(Set(nodes) - old(Set(nodes)))
      ensures currentLevel == old(currentLevel)
      ensures EntriesOf(nodes) == InsertedAll(old(EntriesOf(nodes)), WalkOne(path, t, currentLevel))
      decreases t
    {
      if !Hidden(t.name) {
        ghost var before, level := EntriesOf(nodes), currentLevel;
        var tmp := Child(path, t.name);
        Insert(tmp, currentLevel);
        WalkOneStep(before, path, t, level);
        if t.Dir? {
          currentLevel := currentLevel + 1;
          PopulateList(tmp, t.children);
          currentLevel := currentLevel - 1;
        }
      }
    }

    /** The sort's "remove tmp": tmp is not the first node, and keeps its own links. */
    method Unlink(tmp: Node, ghost i: nat)
      requires Linked() && 0 < i < |nodes| && tmp == nodes[i]
      modifies this`nodes, Set(nodes)
      ensures Linked() && nodes == old(nodes)[..i] + old(nodes)[i + 1..]
    {
      ghost var before := nodes;
      assert tmp.prev == before[i - 1];
      assert i + 1 < |before| ==> tmp.next == before[i + 1];
      if tmp.next != null {
        tmp.next.prev := tmp.prev;
      }
      tmp.prev.next := tmp.next;
      nodes := before[..i] + before[i + 1..];
      forall m, n | 0 <= m < |nodes| && 0 <= n < |nodes| && n == m + 1
        ensures nodes[m].next == nodes[n] && nodes[n].prev == nodes[m]
      {
        assert nodes[m] == if m < i then before[m] else before[m + 1];
        assert nodes[n] == if n < i then before[n] else before[n + 1];
      }
    }

    /** The sort's "place it after bi". */
    method LinkBehind(tmp: Node, bi: Node, ghost j: nat)
      requires Linked() && j < |nodes| && bi == nodes[j] && tmp !in nodes
      modifies this`nodes, tmp, Set(nodes)
      ensures Linked() && nodes == old(nodes)[..j + 1] + [tmp] + old(nodes)[j + 1..]
    {
      ghost var before := nodes;
      assert j + 1 < |before| ==> bi.next == before[j + 1];
      tmp.next := bi.next;
      tmp.prev := bi;
      if bi.next != null {
        bi.next.prev := tmp;
      }
      bi.next := tmp;
      nodes := before[..j + 1] + [tmp] + before[j + 1..];
      forall m, n | 0 <= m < |nodes| && 0 <= n < |nodes| && n == m + 1
        ensures nodes[m].next == nodes[n] && nodes[n].prev == nodes[m]
      {
        assert nodes[m] == if m <= j then before[m] else if m == j + 1 then tmp else before[m - 1];
        assert nodes[n] == if n <= j then before[n] else if n == j + 1 then tmp else before[n - 1];
      }
    }

    /** The sort's backward scan. */
    method FindAnchor(bi0: Node, key: int, ghost i: nat) returns (bi: Node)
      requires Linked() && 0 < i < |nodes| && bi0 == nodes[i - 1]
      ensures bi == nodes[Anchor(EntriesOf(nodes)[..i], key)]
    {
      bi := bi0;
      ghost var j := i - 1;
      while bi != head && bi.level > key
        invariant 0 <= j < i && bi == nodes[j]
        invariant forall m :: j < m < i ==> nodes[m].level > key
        decreases j
      {
        assert j != 0;
        assert bi.prev == nodes[j - 1];
        bi, j := bi.prev, j - 1;
      }
      AnchorIs(nodes, i, key, j);
    }

    /** One round of the sort. */
    method Round(tmp: Node, ghost i: nat)
      requires Linked() && 0 < i < |nodes| && tmp == nodes[i]
      modifies this`nodes, Set(nodes)
      ensures Linked() && Set(nodes) == old(Set(nodes)) && |nodes| == |old(nodes)|
      ensures forall m :: i < m < |nodes| ==> nodes[m] == old(nodes)[m]
      ensures Rounds(EntriesOf(nodes)[..i + 1], EntriesOf(nodes)[i + 1..])
              == old(Rounds(EntriesOf(nodes)[..i], EntriesOf(nodes)[i..]))
    {
      ghost var before := nodes;
      assert tmp.prev == nodes[i - 1];
      ghost var j := Anchor(EntriesOf(nodes)[..i], tmp.level);
      var bi := FindAnchor(tmp.prev, tmp.level, i);
      Unlink(tmp, i);
      ghost var without := nodes;
      LinkBehind(tmp, bi, j);
      RoundOfNodes(before, without, nodes, i, j);
      RoundKeepsNodes(before, without, nodes, i, j);
    }

    /** insertion_sort_by_level_increasing, which reads the head's links without a check. */
    method InsertionSortByLevel()
      requires Linked() && nodes != []
      modifies this`nodes, Set(nodes)
      ensures Linked() && Set(nodes) == old(Set(nodes))
      ensures nodes != [] && EntriesOf(nodes) == SortedByLevel(old(EntriesOf(nodes)))
    {
      ghost var whole := SortedByLevel(EntriesOf(nodes));
      var fi := head.next;
      ghost var i := 1;
      while fi != null
        invariant Linked() && Set(nodes) == old(Set(nodes))
        invariant 1 <= i <= |nodes| && fi == if i < |nodes| then nodes[i] else null
        invariant Rounds(EntriesOf(nodes)[..i], EntriesOf(nodes)[i..]) == whole
        decreases |nodes| - i
      {
        assert i + 1 < |nodes| ==> fi.next == nodes[i + 1];
        var tmp := fi;
        fi := fi.next;
        Round(tmp, i);
        i := i + 1;
      }
    }

    /** print_list_to_file. */
    method PrintList() returns (lines: seq<Line>)
      requires Linked()
      ensures lines == Lines(EntriesOf(nodes))
    {
      var order := 0;
      var curr := head;
      lines := [];
      ghost var i := 0;
      while curr != null
        invariant 0 <= i <= |nodes| && curr == if i < |nodes| then nodes[i] else null
        invariant i > 0 ==> order == Order(EntriesOf(nodes), i - 1)
        invariant lines == Lines(EntriesOf(nodes))[..i]
        decreases |nodes| - i
      {
        assert i > 0 ==> curr.prev == nodes[i - 1];
        assert i + 1 < |nodes| ==> curr.next == nodes[i + 1];
        if curr.prev != null && curr.level == curr.prev.level {
          order := order + 1;
        } else {
          order := 1;
        }
        lines := lines + [Line(curr.level, order, curr.path)];
        curr := curr.next;
        i := i + 1;
      }
    }
  }

  lemma AnchorIs(nodes: seq<Node>, i: nat, key: int, j: nat)
    requires j < i <= |nodes| && (j == 0 || nodes[j].level <= key)
    requires forall m :: j < m < i ==> nodes[m].level > key
    ensures j == Anchor(EntriesOf(nodes)[..i], key)
  {
    var s := EntriesOf(nodes)[..i];
    var a := Anchor(s, key);
    assert s[a].level == nodes[a].level && s[j].level == nodes[j].level;
  }

  lemma RoundOfNodes(before: seq<Node>, without: seq<Node>, after: seq<Node>, i: nat, j: nat)
    requires 0 < i < |before| && without == before[..i] + before[i + 1..]
    requires j == Anchor(EntriesOf(before)[..i], before[i].level)
    requires after == without[..j + 1] + [before[i]] + without[j + 1..]
    ensures |after| == |before|
    ensures forall m :: i < m < |after| ==> after[m] == before[m]
    ensures Rounds(EntriesOf(after)[..i + 1], EntriesOf(after)[i + 1..])
            == Rounds(EntriesOf(before)[..i], EntriesOf(before)[i..])
  {
    var s := EntriesOf(before);
    assert forall m :: j < m <= i ==> after[m] == if m == j + 1 then before[i] else before[m - 1];
    assert EntriesOf(after)[..i + 1] == PutBack(s[..i], s[i]);
    assert EntriesOf(after)[i + 1..] == s[i..][1..];
  }

  lemma RoundKeepsNodes(before: seq<Node>, without: seq<Node>, after: seq<Node>, i: nat, j: nat)
    requires j < i < |before| && without == before[..i] + before[i + 1..]
    requires after == without[..j + 1] + [before[i]] + without[j + 1..]
    ensures Set(after) == Set(before)
  {
    assert before == before[..i] + [before[i]] + before[i + 1..];
    assert without == without[..j + 1] + without[j + 1..];
    assert forall n :: n in before <==> n in without || n == before[i];
    assert forall n :: n in after <==> n in without || n == before[i];
  }

  /** What populate_list creates when it is entered on this level: level 1 is the outermost call. */
  function Populated(path: string, children: seq<Tree>, level: int): seq<Entry> {
    if level == 1 then Found(path, children) else Walk(path, children, level)
  }

  lemma PopulatedInOrder(before: seq<Entry>, start: seq<Entry>, path: string, children: seq<Tree>,
                         level: int)
    requires start == if level == 1 then Inserted(Entry(path, 1), before) else before
    ensures InsertedAll(before, Populated(path, children, level))
            == InsertedAll(start, Walk(path, children, if level == 1 then 2 else level))
  {
    InsertOne(before, Entry(path, 1), Walk(path, children, 2));
  }

  lemma InsertOne(s: seq<Entry>, e: Entry, es: seq<Entry>)
    ensures InsertedAll(s, [e] + es) == InsertedAll(Inserted(e, s), es)
  {
    assert ([e] + es)[1..] == es;
  }

  lemma WalkStep(s: seq<Entry>, s': seq<Entry>, path: string, children: seq<Tree>, i: nat,
                 level: int)
    requires i < |children| && s' == InsertedAll(s, WalkOne(path, children[i], level))
    ensures InsertedAll(s, Walk(path, children[i..], level))
            == InsertedAll(s', Walk(path, children[i + 1..], level))
  {
    assert children[i..][1..] == children[i + 1..];
    InsertedAllOfSum(s, WalkOne(path, children[i], level), Walk(path, children[i + 1..], level));
  }

  lemma WalkOneStep(s: seq<Entry>, path: string, t: Tree, level: int)
    requires !Hidden(t.name)
    ensures var tmp := Child(path, t.name);
            InsertedAll(s, WalkOne(path, t, level))
            == InsertedAll(Inserted(Entry(tmp, level), s),
                           if t.Dir? then Walk(tmp, t.children, level + 1) else [])
  {
    var tmp := Child(path, t.name);
    InsertOne(s, Entry(tmp, level), if t.Dir? then Walk(tmp, t.children, level + 1) else []);
  }

  lemma PlaceAmong(path: string, nodes: seq<Node>) returns (k: nat)
    ensures IsPlace(path, nodes, k) && k == Place(path, EntriesOf(nodes))
  {
    var s := EntriesOf(nodes);
    k := Place(path, s);
    assert forall i :: 0 <= i < |s| ==> s[i].path == nodes[i].path;
  }

  lemma SplicedEntries(before: seq<Node>, node: Node, k: nat, after: seq<Node>)
    requires k == Place(node.path, EntriesOf(before)) && ByPath(EntriesOf(before))
    requires after == before[..k] + [node] + before[k..]
    ensures EntriesOf(after) == Inserted(EntryOf(node), EntriesOf(before))
    ensures ByPath(EntriesOf(after)) && Set(after) - Set(before) <= {node}
  {
    var s := EntriesOf(before);
    assert EntriesOf(after) == s[..k] + [EntryOf(node)] + s[k..];
    InsertedIsByPath(EntryOf(node), s);
  }

  ghost predicate IsPlace(path: string, nodes: seq<Node>, k: nat) {
    && k <= |nodes| && (k < |nodes| ==> !Less(nodes[k].path, path))
    && forall i :: 0 <= i < k ==> Less(nodes[i].path, path)
  }

  lemma PlaceAtEnd(nodes: seq<Node>, path: string, k: nat)
    requires nodes != [] && ByPath(EntriesOf(nodes)) && Less(nodes[|nodes| - 1].path, path)
    requires IsPlace(path, nodes, k)
    ensures k == |nodes|
  {
    if k < |nodes| {
      var s := EntriesOf(nodes);
      assert !Less(s[k].path, path) && Less(s[|s| - 1].path, path);
      assert k < |s| - 1;
      NotLessTransitive(path, s[k].path, s[|s| - 1].path);
    }
  }

  /** dirlist's main: the listing of the directory, for every tree under it. */
  method DirListMain(path: string, children: seq<Tree>) returns (lines: seq<Line>)
    ensures ListOf(path, children) != [] && lines == Output(path, children)
    ensures WellNamed(children) ==>
              && InOrder(Entries(lines)) && OnlyLedTo(Entries(lines), path, children)
              && AllLedTo(Entries(lines), path, children) && OrdersAreRanks(lines)
  {
    var list := new List();
    list.PopulateList(path, children);
    InsertedAllIsByPath([], Found(path, children));
    assert multiset(Found(path, children))[Entry(path, 1)] > 0;
    list.InsertionSortByLevel();
    lines := list.PrintList();
    if WellNamed(children) {
      OutputIsTheListing(path, children);
    }
  }
}
