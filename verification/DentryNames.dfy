/** Where dentry names live (fs/dcache.c, swap_names and copy_name): a short name in the dentry itself,
a long one in storage shared and counted.  Switching names moves the strings as a plain swap or copy
would, never writes past a dentry's own buffer, and keeps every count exact: storage is freed when and
only when its last user is gone.
*/
module DentryNames {
  import opened Collections
  import opened DentryMove

  /** d_name.name: the dentry's own d_iname, or an external name. */
  datatype Pointer = Inline | External(id: nat)

  /** struct external_name. */
  datatype Shared = Shared(count: nat, text: string)

  /** DNAME_INLINE_LEN, with the terminator. */
  const INLINE_LEN := 32

  // ------------------------------------------------------------------ counting users

  ghost function Users(name: map<nat, Pointer>, id: nat): set<nat> {
    set d | d in name && name[d] == External(id)
  }

  lemma RepointedCount(name: map<nat, Pointer>, a: nat, x: Pointer, id: nat)
    requires a in name
    ensures |Users(name[a := x], id)| == |Users(name, id)| + One(x == External(id)) - One(name[a] == External(id))
  {
    var before, after := Users(name, id), Users(name[a := x], id);
    assert after == if x == External(id) then before + {a} else before - {a};
    assert a in before <==> name[a] == External(id);
  }

  /** Every pointer leads to storage, and all storage knows how many pointers lead to it. */
  ghost predicate Counted(name: map<nat, Pointer>, shared: map<nat, Shared>) {
    && (forall d :: d in name && name[d].External? ==> name[d].id in shared)
    && (forall id :: id in shared ==> shared[id].count == |Users(name, id)|)
    && (forall id :: id in shared ==> shared[id].count > 0)
  }

  lemma SwapKeepsCounted(name: map<nat, Pointer>, shared: map<nat, Shared>, a: nat, b: nat)
    requires a in name && b in name && a != b && Counted(name, shared)
    ensures Counted(name[a := name[b]][b := name[a]], shared)
  {
    var one := name[a := name[b]];
    forall id | id in shared
      ensures |Users(one[b := name[a]], id)| == |Users(name, id)|
    {
      RepointedCount(name, a, name[b], id);
      RepointedCount(one, b, name[a], id);
    }
  }

  /** atomic_inc of the name pointed to. */
  function Taken(shared: map<nat, Shared>, p: Pointer): map<nat, Shared>
    requires p.External? ==> p.id in shared
    ensures forall id :: id in shared ==> id in Taken(shared, p) && Taken(shared, p)[id].count >= shared[id].count
  {
    if p.External? then shared[p.id := shared[p.id].(count := shared[p.id].count + 1)] else shared
  }

  /** atomic_dec_and_test, and the storage is freed at zero. */
  function Released(shared: map<nat, Shared>, p: Pointer): map<nat, Shared>
    requires p.External? ==> p.id in shared && shared[p.id].count > 0
  {
    if p.Inline? then shared
    else if shared[p.id].count == 1 then shared - {p.id}
    else shared[p.id := shared[p.id].(count := shared[p.id].count - 1)]
  }

  /** Storage with the number of its users. */
  ghost predicate CountIs(name: map<nat, Pointer>, shared: map<nat, Shared>, id: nat) {
    if id in shared then shared[id].count == |Users(name, id)| > 0 else Users(name, id) == {}
  }

  lemma CountIsCounted(name: map<nat, Pointer>, shared: map<nat, Shared>)
    requires forall id :: CountIs(name, shared, id)
    ensures Counted(name, shared)
  {
    forall d | d in name && name[d].External?
      ensures name[d].id in shared
    {
      assert CountIs(name, shared, name[d].id);
      assert d in Users(name, name[d].id);
    }
    assert forall id :: id in shared ==> CountIs(name, shared, id);
  }

  lemma CountedIsCount(name: map<nat, Pointer>, shared: map<nat, Shared>, id: nat)
    requires Counted(name, shared)
    ensures CountIs(name, shared, id)
  {
  }

  lemma CopyCount(name: map<nat, Pointer>, shared: map<nat, Shared>, a: nat, b: nat, id: nat)
    requires a in name && b in name && a != b && Counted(name, shared)
    ensures CountIs(name[a := name[b]], Released(Taken(shared, name[b]), name[a]), id)
  {
    CountedIsCount(name, shared, id);
    RepointedCount(name, a, name[b], id);
    assert b in Users(name[a := name[b]], id) <==> name[b] == External(id);
    assert a in Users(name, id) <==> name[a] == External(id);
    if Users(name, id) == {} {
      assert |Users(name[a := name[b]], id)| == 0;
    }
  }

  lemma CopyKeepsCounted(name: map<nat, Pointer>, shared: map<nat, Shared>, a: nat, b: nat)
    requires a in name && b in name && a != b && Counted(name, shared)
    ensures Counted(name[a := name[b]], Released(Taken(shared, name[b]), name[a]))
  {
    var name2, shared2 := name[a := name[b]], Released(Taken(shared, name[b]), name[a]);
    forall id
      ensures CountIs(name2, shared2, id)
    {
      CopyCount(name, shared, a, b, id);
    }
    CountIsCounted(name2, shared2);
  }

  // ------------------------------------------------------------------ the names of the dentries

  /** What a dentry is called. */
  function TextOf(p: Pointer, own: string, shared: map<nat, Shared>): string {
    if p.Inline? then own else if p.id in shared then shared[p.id].text else ""
  }

  ghost function TextsOf(name: map<nat, Pointer>, iname: map<nat, string>, shared: map<nat, Shared>):
      (texts: map<nat, string>)
    requires name.Keys == iname.Keys
    ensures texts.Keys == name.Keys
  {
    map d | d in name :: TextOf(name[d], iname[d], shared)
  }

  /** If the two dentries read right and the others are left alone, the names are switched. */
  lemma SwitchedTexts(name: map<nat, Pointer>, iname: map<nat, string>, shared: map<nat, Shared>,
                      name2: map<nat, Pointer>, iname2: map<nat, string>, shared2: map<nat, Shared>,
                      a: nat, b: nat, exchange: bool)
    requires name.Keys == iname.Keys == name2.Keys == iname2.Keys && a in name && b in name && a != b
    requires forall d :: d in name && d != a && d != b ==>
               TextOf(name2[d], iname2[d], shared2) == TextOf(name[d], iname[d], shared)
    requires TextOf(name2[a], iname2[a], shared2) == TextOf(name[b], iname[b], shared)
    requires TextOf(name2[b], iname2[b], shared2)
             == if exchange then TextOf(name[a], iname[a], shared) else TextOf(name[b], iname[b], shared)
    ensures TextsOf(name2, iname2, shared2) == Switched(TextsOf(name, iname, shared), a, b, exchange)
  {
    var x, y := TextsOf(name2, iname2, shared2), Switched(TextsOf(name, iname, shared), a, b, exchange);
    assert x.Keys == y.Keys;
    forall d | d in x
      ensures x[d] == y[d]
    {
    }
  }

  /** Storage in use keeps its string. */
  lemma ReleasedKeepsText(name: map<nat, Pointer>, shared: map<nat, Shared>, a: nat, b: nat, d: nat, own: string)
    requires a in name && b in name && a != b && d in name && d != a && Counted(name, shared)
    ensures TextOf(name[d], own, Released(Taken(shared, name[b]), name[a])) == TextOf(name[d], own, shared)
  {
    CopyKeepsCounted(name, shared, a, b);
    assert name[a := name[b]][d] == name[d];
  }

  ghost predicate NamesRight(name: map<nat, Pointer>, iname: map<nat, string>, shared: map<nat, Shared>) {
    && name.Keys == iname.Keys && Counted(name, shared)
    && forall d :: d in iname ==> |iname[d]| < INLINE_LEN
  }

  lemma SwapKeepsNames(name: map<nat, Pointer>, iname: map<nat, string>, shared: map<nat, Shared>,
                       dentry: nat, target: nat, a: string, b: string)
    requires NamesRight(name, iname, shared) && dentry in name && target in name && dentry != target
    requires |a| < INLINE_LEN && |b| < INLINE_LEN
    ensures NamesRight(name[dentry := name[target]][target := name[dentry]], iname[dentry := a][target := b], shared)
  {
    SwapKeepsCounted(name, shared, dentry, target);
    assert name[dentry := name[target]][target := name[dentry]].Keys == name.Keys;
    assert iname[dentry := a][target := b].Keys == iname.Keys;
  }

  /** Swapped pointers, with buffers that read right, are a swap of the names. */
  lemma SwapIsRight(name: map<nat, Pointer>, iname: map<nat, string>, shared: map<nat, Shared>,
                    dentry: nat, target: nat, a: string, b: string, name2: map<nat, Pointer>,
                    iname2: map<nat, string>)
    requires NamesRight(name, iname, shared) && dentry in name && target in name && dentry != target
    requires TextOf(name[target], a, shared) == TextOf(name[target], iname[target], shared)
    requires TextOf(name[dentry], b, shared) == TextOf(name[dentry], iname[dentry], shared)
    requires name2 == name[dentry := name[target]][target := name[dentry]]
    requires iname2 == iname[dentry := a][target := b]
    ensures name2.Keys == iname2.Keys
    ensures TextsOf(name2, iname2, shared) == Switched(TextsOf(name, iname, shared), dentry, target, true)
  {
    assert name2.Keys == name.Keys && iname2.Keys == iname.Keys;
    SwitchedTexts(name, iname, shared, name2, iname2, shared, dentry, target, true);
  }

  lemma CopyIsRight(name: map<nat, Pointer>, iname: map<nat, string>, shared: map<nat, Shared>,
                    dentry: nat, target: nat, a: string)
    requires NamesRight(name, iname, shared) && dentry in name && target in name && dentry != target
    requires |a| < INLINE_LEN && (name[target].Inline? ==> a == iname[target])
    ensures var name2, iname2 := name[dentry := name[target]], iname[dentry := a];
            var shared2 := Released(Taken(shared, name[target]), name[dentry]);
            && NamesRight(name2, iname2, shared2)
            && TextsOf(name2, iname2, shared2) == Switched(TextsOf(name, iname, shared), dentry, target, false)
  {
    var name2, iname2 := name[dentry := name[target]], iname[dentry := a];
    var shared2 := Released(Taken(shared, name[target]), name[dentry]);
    CopyKeepsCounted(name, shared, dentry, target);
    assert name2.Keys == name.Keys && iname2.Keys == iname.Keys;
    forall d | d in name && d != dentry
      ensures TextOf(name2[d], iname2[d], shared2) == TextOf(name[d], iname[d], shared)
    {
      ReleasedKeepsText(name, shared, dentry, target, d, iname[d]);
    }
    SwitchedTexts(name, iname, shared, name2, iname2, shared2, dentry, target, false);
  }

  class Names {
    var name: map<nat, Pointer>
    var iname: map<nat, string>
    var shared: map<nat, Shared>

    ghost predicate Valid()
      reads this
    {
      NamesRight(name, iname, shared)
    }

    ghost function Texts(): (texts: map<nat, string>)
      requires name.Keys == iname.Keys
      reads this
      ensures texts.Keys == name.Keys
    {
      TextsOf(name, iname, shared)
    }

    constructor ()
      ensures Valid() && Texts() == map[]
    {
      name, iname, shared := map[], map[], map[];
    }

    /** A dentry's pointer and buffer. */
    method Store(d: nat, p: Pointer, own: string)
      requires d in name && d in iname
      modifies this`name, this`iname
      ensures name == old(name)[d := p] && iname == old(iname)[d := own]
    {
      name, iname := name[d := p], iname[d := own];
    }

    /** swap_names. */
    method SwapNames(dentry: nat, target: nat)
      requires Valid() && dentry in name && target in name && dentry != target
      modifies this`name, this`iname
      ensures Valid() && Texts() == Switched(old(Texts()), dentry, target, true)
    {
      var p, a, q, b := SwapPair(name[dentry], iname[dentry], name[target], iname[target], shared);
      ghost var name0: map<nat, Pointer>, iname0 := name, iname;
      SwapKeepsNames(name, iname, shared, dentry, target, a, b);
      Store(dentry, p, a);
      Store(target, q, b);
      SwapIsRight(name0, iname0, shared, dentry, target, a, b, name, iname);
    }

    /** copy_name: the storage of the old name loses a user, and is freed with the last one. */
    method CopyName(dentry: nat, target: nat)
      requires Valid() && dentry in name && target in name && dentry != target
      modifies this
      ensures Valid() && Texts() == Switched(old(Texts()), dentry, target, false)
    {
      var own := if name[target].External? then iname[dentry] else iname[target];
      CopyIsRight(name, iname, shared, dentry, target, own);
      var oldName, p := name[dentry], name[target];
      Take(p);
      Store(dentry, p, own);
      Release(oldName);
    }

    /** atomic_inc. */
    method Take(p: Pointer)
      requires p.External? ==> p.id in shared
      modifies this`shared
      ensures shared == Taken(old(shared), p)
    {
      if p.External? {
        shared := shared[p.id := shared[p.id].(count := shared[p.id].count + 1)];
      }
    }

    /** atomic_dec_and_test and kfree_rcu. */
    method Release(p: Pointer)
      requires p.External? ==> p.id in shared && shared[p.id].count > 0
      modifies this`shared
      ensures shared == Released(old(shared), p)
    {
      if p.External? {
        shared := shared[p.id := shared[p.id].(count := shared[p.id].count - 1)];
        if shared[p.id].count == 0 {
          shared := shared - {p.id};
        }
      }
    }
  }

  /** The four cases of swap_names, on the pointers and buffers of the two dentries. */
  method SwapPair(p: Pointer, a: string, q: Pointer, b: string, ghost shared: map<nat, Shared>)
    returns (p': Pointer, a': string, q': Pointer, b': string)
    requires |a| < INLINE_LEN && |b| < INLINE_LEN
    ensures p' == q && q' == p && |a'| < INLINE_LEN && |b'| < INLINE_LEN
    ensures TextOf(p', a', shared) == TextOf(q, b, shared) && TextOf(q', b', shared) == TextOf(p, a, shared)
  {
    p', a', q', b' := p, a, q, b;
    if q.External? {
      if p.External? {
        q', p' := p', q';
      } else {
        b' := a;
        p' := q;
        q' := Inline;
      }
    } else {
      if p.External? {
        a' := b;
        q' := p;
        p' := Inline;
      } else {
        a', b' := b', a';
      }
    }
  }
}
