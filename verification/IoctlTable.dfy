/** The table of compatible ioctl commands (fs/compat_ioctl.c).

The commands are stored through a bit-mixing transform and sorted once at start-up.  A query
guesses a position by linear interpolation on the high half of the transformed command, then scans
up and then down.  The main results: the transform is its own inverse, and the query answers
membership in the original command list for every list and every command.
*/
module IoctlTable {

  type U32 = x: int | 0 <= x < 0x1_0000_0000

  /** XFORM on 32 bits: the shifts drop the bits above 31, which is the macro's `& 0xffffffff`. */
  function XformBits(i: bv32): bv32 {
    i ^ (i << 27) ^ (i << 17)
  }

  /** The transformed command as the unsigned number the table stores and compares. */
  function Xform(cmd: bv32): U32 {
    XformBits(cmd) as U32
  }

  /** "Simple reversible transform": applying it twice gives the command back. */
  lemma XformIsAnInvolution(i: bv32)
    ensures XformBits(XformBits(i)) == i
  {
  }

  lemma SameNumberSameBits(a: bv32, b: bv32)
    requires a as U32 == b as U32
    ensures a == b
  {
    assert (a as U32) as bv32 == a;
  }

  lemma XformIsInjective(a: bv32, b: bv32)
    requires Xform(a) == Xform(b)
    ensures a == b
  {
    SameNumberSameBits(XformBits(a), XformBits(b));
    XformIsAnInvolution(a);
    XformIsAnInvolution(b);
  }

  /** init_sys32_ioctl_cmp. */
  function Compare(a: U32, b: U32): int {
    if a > b then 1 else if a < b then -1 else 0
  }

  /** What sort() promises for a comparison function. */
  ghost predicate SortedByCompare(t: seq<U32>) {
    forall i, j :: 0 <= i < j < |t| ==> Compare(t[i], t[j]) <= 0
  }

  function Transformed<Cmd>(f: Cmd -> U32, cmds: seq<Cmd>): seq<U32> {
    seq(|cmds|, i requires 0 <= i < |cmds| => f(cmds[i]))
  }

  /** What the build-time list and the start-up sort leave in `table`. */
  ghost predicate IsTableOf<Cmd>(table: seq<U32>, f: Cmd -> U32, cmds: seq<Cmd>) {
    && SortedByCompare(table)
    && multiset(table) == multiset(Transformed(f, cmds))
  }

  lemma ScaledBound(high: nat, max: nat)
    requires high <= 0xffff && max < 0x1_0000
    ensures high * max <= 0xffff * max
  {
    var slack := (0xffff - high) * max;
    assert slack >= 0;
    assert slack == 0xffff * max - high * max;
  }

  /** The initial offset.  The product is 32-bit unsigned arithmetic, so it is taken modulo 2^32. */
  function Guess(xcmd: U32, max: nat): (i: nat)
    requires max < 0x1_0000
    ensures i <= max
  {
    var high := xcmd / 0x1_0000;
    ScaledBound(high, max);
    ((high * max) % 0x1_0000_0000) / 0x1_0000
  }

  /** In a sorted table, a gap at `i` that the query falls into excludes it everywhere. */
  lemma NotPresent(t: seq<U32>, xcmd: U32, i: nat)
    requires SortedByCompare(t) && i < |t| && t[i] != xcmd
    requires t[i] > xcmd ==> i == 0
    requires t[i] < xcmd ==> i == |t| - 1 || t[i + 1] > xcmd
    ensures xcmd !in t
  {
    forall j | 0 <= j < |t|
      ensures t[j] != xcmd
    {
      if j < i {
        assert Compare(t[j], t[i]) <= 0;
      } else if i < j && t[i] > xcmd {
        assert Compare(t[i], t[j]) <= 0;
      } else if i + 1 < j {
        assert Compare(t[i + 1], t[j]) <= 0;
      }
    }
  }

  /** compat_ioctl_check_table: true exactly when the transformed command is in the sorted table. */
  method CheckTable(table: array<U32>, xcmd: U32) returns (found: bool)
    requires 1 <= table.Length <= 0x1_0000
    requires SortedByCompare(table[..])
    ensures found <==> xcmd in table[..]
  {
    var max := table.Length - 1;
    var i := Guess(xcmd, max);
    while table[i] < xcmd && i < max
      invariant 0 <= i <= max
    {
      i := i + 1;
    }
    ghost var top := i;
    while table[i] > xcmd && i > 0
      invariant 0 <= i <= top
      invariant i < top ==> table[i + 1] > xcmd
    {
      i := i - 1;
    }
    found := table[i] == xcmd;
    if !found {
      NotPresent(table[..], xcmd, i);
    }
  }

  /** Transforming injectively and sorting lose and add no command. */
  lemma TableHoldsExactlyTheCommands<Cmd>(table: seq<U32>, f: Cmd -> U32, cmds: seq<Cmd>, cmd: Cmd)
    requires IsTableOf(table, f, cmds)
    requires forall c :: c in cmds && f(c) == f(cmd) ==> c == cmd
    ensures f(cmd) in table <==> cmd in cmds
  {
    var x := Transformed(f, cmds);
    assert f(cmd) in table <==> f(cmd) in multiset(table);
    assert f(cmd) in x <==> f(cmd) in multiset(x);
    if cmd in cmds {
      var i :| 0 <= i < |cmds| && cmds[i] == cmd;
      assert x[i] == f(cmd);
    }
    if f(cmd) in x {
      var i :| 0 <= i < |x| && x[i] == f(cmd);
      assert cmds[i] in cmds;
    }
  }

  /** The query as the ioctl entry point makes it: XFORM the command, then search.  It decides
      membership in the list the table was built from, wherever the interpolation lands. */
  method IsCompatible(table: array<U32>, ghost cmds: seq<bv32>, cmd: bv32) returns (found: bool)
    requires 1 <= table.Length <= 0x1_0000
    requires IsTableOf(table[..], Xform, cmds)
    ensures found <==> cmd in cmds
  {
    found := CheckTable(table, Xform(cmd));
    forall c | c in cmds && Xform(c) == Xform(cmd)
      ensures c == cmd
    {
      XformIsInjective(c, cmd);
    }
    TableHoldsExactlyTheCommands(table[..], Xform, cmds, cmd);
  }
}
