/** The walk over the bytes of an ext2 image (fsa/fsa.c): read_inode, read_directory, populate_list.

A well-formed image, whose records fill the direct blocks of every directory, represents a tree; the
walk terminates and lists that tree in preorder.
*/
module Ext2Walk {
  import opened Collections
  import opened Listing
  import opened PathIndex

  /** The image and what the super block and the first group descriptor say. */
  datatype Disk = Disk(img: seq<byte>, blockSize: nat, tableBlock: nat, inodeSize: nat)

  function ByteAt(disk: Disk, at: nat): byte {
    if at < |disk.img| then disk.img[at] else 0
  }

  function U16(disk: Disk, at: nat): nat {
    ByteAt(disk, at) + 256 * ByteAt(disk, at + 1)
  }

  function U32(disk: Disk, at: nat): nat {
    U16(disk, at) + 65536 * U16(disk, at + 2)
  }

  /** read_inode: where the inode is; the table of group 0 holds it. */
  function InodeAt(disk: Disk, ino: nat): nat {
    disk.tableBlock * disk.blockSize + (if ino > 0 then ino - 1 else 0) * disk.inodeSize
  }

  /** i_block[i] of the inode at `loc`. */
  function BlockOf(disk: Disk, loc: nat, i: nat): nat {
    U32(disk, loc + 40 + 4 * i)
  }

  // ------------------------------------------------------------------ directory records

  /** struct ext2_dir_entry_2. */
  function Ino(disk: Disk, at: nat): nat {
    U32(disk, at)
  }

  function RecLen(disk: Disk, at: nat): nat {
    U16(disk, at + 4)
  }

  function NameLen(disk: Disk, at: nat): nat {
    ByteAt(disk, at + 6)
  }

  function IsDir(disk: Disk, at: nat): bool {
    ByteAt(disk, at + 7) == 2
  }

  function Name(disk: Disk, at: nat): string {
    seq(NameLen(disk, at), i requires 0 <= i => ByteAt(disk, at + 8 + i) as char)
  }

  /** Unused records, and names that begin with a dot. */
  predicate Skipped(disk: Disk, at: nat) {
    ByteAt(disk, at + 8) == 46 || Ino(disk, at) == 0
  }

  /** The records fill the bytes up to the limit. */
  predicate RecordsFill(disk: Disk, at: nat, limit: nat)
    decreases limit - at
  {
    at == limit ||
    (at < limit && 8 + NameLen(disk, at) <= RecLen(disk, at) && RecordsFill(disk, at + RecLen(disk, at), limit))
  }

  /** Where the records are. */
  function Records(disk: Disk, at: nat, limit: nat): seq<nat>
    decreases limit - at
  {
    if at < limit && RecLen(disk, at) > 0 then [at] + Records(disk, at + RecLen(disk, at), limit) else []
  }

  function BlockRecords(disk: Disk, block: nat): seq<nat> {
    if block == 0 then [] else Records(disk, block * disk.blockSize, (block + 1) * disk.blockSize)
  }

  /** The direct blocks of the inode at `loc`. */
  function Blocks(disk: Disk, loc: nat): (blocks: seq<nat>)
    ensures |blocks| == 12
  {
    seq(12, i requires 0 <= i => BlockOf(disk, loc, i))
  }

  function BlocksRecords(disk: Disk, blocks: seq<nat>): seq<nat> {
    if blocks == [] then [] else BlockRecords(disk, blocks[0]) + BlocksRecords(disk, blocks[1..])
  }

  /** The records of the directory whose inode is at `loc`. */
  function DirRecords(disk: Disk, loc: nat): seq<nat> {
    BlocksRecords(disk, Blocks(disk, loc))
  }

  ghost predicate BlockFilled(disk: Disk, block: nat) {
    block != 0 ==>
      && (block + 1) * disk.blockSize <= |disk.img|
      && RecordsFill(disk, block * disk.blockSize, (block + 1) * disk.blockSize)
  }

  ghost predicate DirFilled(disk: Disk, loc: nat) {
    && loc + 128 <= |disk.img|
    && forall i :: 0 <= i < 12 ==> BlockFilled(disk, Blocks(disk, loc)[i])
  }

  // ------------------------------------------------------------------ images and trees

  /** The records, without the skipped ones, are those of the children. */
  ghost predicate Holds(disk: Disk, records: seq<nat>, children: seq<Node>)
    decreases children, |records|
  {
    if records == [] then children == []
    else if Skipped(disk, records[0]) then Holds(disk, records[1..], children)
    else children != [] && HoldsOne(disk, records[0], children[0]) && Holds(disk, records[1..], children[1..])
  }

  ghost predicate HoldsOne(disk: Disk, at: nat, t: Node)
    decreases t
  {
    && t.name == Name(disk, at) && t.ino == Ino(disk, at) && (t.Dir? <==> IsDir(disk, at))
    && (t.Dir? ==>
          && DirFilled(disk, InodeAt(disk, t.ino))
          && Holds(disk, DirRecords(disk, InodeAt(disk, t.ino)), t.children))
  }

  /** The directory with this inode has these children. */
  ghost predicate Represents(disk: Disk, ino: nat, children: seq<Node>)
  {
    DirFilled(disk, InodeAt(disk, ino)) && Holds(disk, DirRecords(disk, InodeAt(disk, ino)), children)
  }

  // ------------------------------------------------------------------ the walk

  class InodeList {
    var entries: seq<Indexed>

    constructor ()
      ensures entries == []
    {
      entries := [];
    }

    /** insert_tail. */
    method InsertTail(node: Indexed)
      modifies this
      ensures entries == old(entries) + [node]
    {
      entries := entries + [node];
    }
  }

  lemma HoldsStep(disk: Disk, at: nat, rest: seq<nat>, children: seq<Node>)
    requires Holds(disk, [at] + rest, children)
    ensures Skipped(disk, at) ==> Holds(disk, rest, children)
    ensures !Skipped(disk, at) ==>
              children != [] && HoldsOne(disk, at, children[0]) && Holds(disk, rest, children[1..])
  {
    assert ([at] + rest)[1..] == rest;
  }

  /** One live record: its node, and all that is below it. */
  method ReadEntry(disk: Disk, at: nat, path: string, list: InodeList, ghost t: Node)
    requires HoldsOne(disk, at, t)
    modifies list
    ensures list.entries == old(list.entries) + PreorderOne(path, t)
    decreases t
  {
    var filePath := Child(path, Name(disk, at));
    list.InsertTail(Indexed(Ino(disk, at), filePath));
    if IsDir(disk, at) {
      ReadDirectory(disk, InodeAt(disk, Ino(disk, at)), list, filePath, t.children);
    }
  }

  /** The records of one block; `later` are those of the blocks that follow. */
  method ReadBlock(disk: Disk, start: nat, limit: nat, path: string, list: InodeList, ghost later: seq<nat>,
                   ghost children: seq<Node>)
    returns (ghost left: seq<Node>)
    requires RecordsFill(disk, start, limit) && Holds(disk, Records(disk, start, limit) + later, children)
    modifies list
    ensures Holds(disk, later, left) && |left| <= |children| && left == children[|children| - |left|..]
    ensures list.entries + Preorder(path, left) == old(list.entries) + Preorder(path, children)
    decreases children, 0
  {
    var at := start;
    ghost var j := 0;
    while at < limit
      invariant RecordsFill(disk, at, limit) && 0 <= j <= |children|
      invariant Holds(disk, Records(disk, at, limit) + later, children[j..])
      invariant list.entries + Preorder(path, children[j..]) == old(list.entries) + Preorder(path, children)
      decreases limit - at
    {
      var next := at + RecLen(disk, at);
      Regroup([at], Records(disk, next, limit), later);
      HoldsStep(disk, at, Records(disk, next, limit) + later, children[j..]);
      if !Skipped(disk, at) {
        PreorderStep(path, children, j, list.entries);
        ReadEntry(disk, at, path, list, children[j]);
        j := j + 1;
      }
      at := next;
    }
    assert Records(disk, at, limit) + later == later;
    left := children[j..];
  }

  lemma PreorderStep(path: string, children: seq<Node>, j: nat, before: seq<Indexed>)
    requires j < |children|
    ensures children[j..][1..] == children[j + 1..]
    ensures before + Preorder(path, children[j..])
            == before + PreorderOne(path, children[j]) + Preorder(path, children[j + 1..])
  {
    assert children[j..][1..] == children[j + 1..];
  }

  /** read_directory. */
  method ReadDirectory(disk: Disk, loc: nat, list: InodeList, path: string, ghost children: seq<Node>)
    requires DirFilled(disk, loc) && Holds(disk, DirRecords(disk, loc), children)
    modifies list
    ensures list.entries == old(list.entries) + Preorder(path, children)
    decreases children, 2
  {
    var blocks := Blocks(disk, loc);
    ghost var left := children;
    var i := 0;
    assert blocks[0..] == blocks;
    while i < 12
      invariant 0 <= i <= 12
      invariant Holds(disk, BlocksRecords(disk, blocks[i..]), left)
      invariant |left| <= |children| && left == children[|children| - |left|..]
      invariant list.entries + Preorder(path, left) == old(list.entries) + Preorder(path, children)
    {
      assert blocks[i..][1..] == blocks[i + 1..];
      left := ReadOneBlock(disk, blocks[i], path, list, BlocksRecords(disk, blocks[i + 1..]), left);
      i := i + 1;
    }
    assert BlocksRecords(disk, blocks[i..]) == [];
  }

  method ReadOneBlock(disk: Disk, block: nat, path: string, list: InodeList, ghost later: seq<nat>,
                      ghost children: seq<Node>)
    returns (ghost left: seq<Node>)
    requires BlockFilled(disk, block) && Holds(disk, BlockRecords(disk, block) + later, children)
    modifies list
    ensures Holds(disk, later, left) && |left| <= |children| && left == children[|children| - |left|..]
    ensures list.entries + Preorder(path, left) == old(list.entries) + Preorder(path, children)
    decreases children, 1
  {
    if block != 0 {
      left := ReadBlock(disk, block * disk.blockSize, (block + 1) * disk.blockSize, path, list, later, children);
    } else {
      assert BlockRecords(disk, block) + later == later;
      left := children;
    }
  }

  /** populate_list: for every well-formed image, the index of the tree it represents. */
  method PopulateList(disk: Disk, ghost children: seq<Node>) returns (entries: seq<Indexed>)
    requires Represents(disk, ROOT, children)
    ensures entries == Index(children)
    ensures Proper(children) ==> forall path :: Lookup(entries, path) == ResolvePath(children, path)
  {
    var list := new InodeList();
    ReadDirectory(disk, InodeAt(disk, ROOT), list, "", children);
    list.InsertTail(Indexed(ROOT, "/"));
    entries := list.entries;
    assert entries == Index(children);
    SearchesAreResolutions(children, entries);
  }

  lemma SearchesAreResolutions(children: seq<Node>, entries: seq<Indexed>)
    requires entries == Index(children)
    ensures Proper(children) ==> forall path :: Lookup(entries, path) == ResolvePath(children, path)
  {
    if Proper(children) {
      forall path
        ensures Lookup(entries, path) == ResolvePath(children, path)
      {
        SearchIsResolution(children, path);
      }
    }
  }
}
