/** The direct-I/O coalescer (fs/direct-io.c): submit_page_section defers the last section and grows
it, dio_send_cur_page packs it into the bio under assembly, and bios are submitted when they cannot
be extended, at a boundary, or at the end.

The meaning of a stream of sections is the sequence, byte by byte, of which byte of which page goes
to which byte of the disk.  The submitted bios, each read segment by segment from its first sector,
have exactly that meaning.  Each bio's bytes lie in the file from the logical offset it is submitted
with, whatever bio_add_page refuses, if and only if sections that continue in memory and on the disk
one that may be deferred do so in the file.
*/
module DirectIo {
  import opened Collections

  /** A byte of memory and its place on the disk. */
  datatype Cell = Cell(page: nat, offset: nat, disk: nat)

  /** How a caller leaves sdio->boundary before a section. */
  datatype Mark = Keep | Set(flag: bool)

  /** One call of submit_page_section; `block` and `fileBlock` (sdio->block_in_file) count blocks. */
  datatype Section = Section(page: nat, offset: nat, blocks: nat, block: nat, fileBlock: nat, mark: Mark)

  datatype Segment = Segment(page: nat, len: nat, offset: nat)

  /** `logical` is the file offset handed to submit_io with the bio. */
  datatype Bio = Bio(sector: nat, logical: nat, segments: seq<Segment>)

  // ------------------------------------------------------------------ meanings

  function Cells(page: nat, offset: nat, len: nat, disk: nat): seq<Cell> {
    seq(len, i requires 0 <= i => Cell(page, offset + i, disk + i))
  }

  function Offsets(start: nat, len: nat): seq<nat> {
    seq(len, i requires 0 <= i => start + i)
  }

  function Size(segments: seq<Segment>): nat {
    if segments == [] then 0 else segments[0].len + Size(segments[1..])
  }

  /** The segments lie on the disk one after the other. */
  function SegmentCells(segments: seq<Segment>, disk: nat): seq<Cell> {
    if segments == [] then []
    else Cells(segments[0].page, segments[0].offset, segments[0].len, disk)
         + SegmentCells(segments[1..], disk + segments[0].len)
  }

  function BioCells(bios: seq<Bio>): seq<Cell> {
    if bios == [] then [] else SegmentCells(bios[0].segments, 512 * bios[0].sector) + BioCells(bios[1..])
  }

  function BioOffsets(bios: seq<Bio>): seq<nat> {
    if bios == [] then [] else Offsets(bios[0].logical, Size(bios[0].segments)) + BioOffsets(bios[1..])
  }

  /** blocks << blkbits, for blocks of `size` bytes. */
  function Bytes(blocks: nat, size: nat): nat {
    if blocks == 0 then 0 else size + Bytes(blocks - 1, size)
  }

  /** len >> blkbits. */
  function Shifted(len: nat, size: nat): nat
    requires size > 0
  {
    if len < size then 0 else 1 + Shifted(len - size, size)
  }

  function SectionCells(s: Section, size: nat): seq<Cell> {
    Cells(s.page, s.offset, Bytes(s.blocks, size), Bytes(s.block, size))
  }

  function SectionOffsets(s: Section, size: nat): seq<nat> {
    Offsets(Bytes(s.fileBlock, size), Bytes(s.blocks, size))
  }

  function StreamCells(stream: seq<Section>, size: nat): seq<Cell> {
    if stream == [] then [] else SectionCells(stream[0], size) + StreamCells(stream[1..], size)
  }

  function StreamOffsets(stream: seq<Section>, size: nat): seq<nat> {
    if stream == [] then [] else SectionOffsets(stream[0], size) + StreamOffsets(stream[1..], size)
  }

  /** The second section goes on in memory and on the disk where the first ends. */
  predicate Continues(a: Section, b: Section, size: nat) {
    a.page == b.page && a.offset + Bytes(a.blocks, size) == b.offset && a.block + a.blocks == b.block
  }

  /** Section `i` may still be deferred after its call.  A boundary mark sends it off at once, but when
      the section before is deferred and has to be sent first, that may clear the mark. */
  predicate MayDefer(stream: seq<Section>, i: nat, size: nat)
    requires i < |stream|
  {
    || stream[i].mark != Set(true)
    || (i > 0 && !Continues(stream[i - 1], stream[i], size) && MayDefer(stream, i - 1, size))
  }

  /** A section that continues in memory and on the disk one that may be deferred does so in the file. */
  predicate FollowsAt(stream: seq<Section>, i: nat, size: nat)
    requires i < |stream|
  {
    0 < i && Continues(stream[i - 1], stream[i], size) && MayDefer(stream, i - 1, size) ==>
      stream[i].fileBlock == stream[i - 1].fileBlock + stream[i - 1].blocks
  }

  ghost predicate FileFollows(stream: seq<Section>, size: nat) {
    forall i :: 0 <= i < |stream| ==> FollowsAt(stream, i, size)
  }

  /** No section is marked as a boundary. */
  ghost predicate Unmarked(stream: seq<Section>) {
    forall i :: 0 <= i < |stream| ==> stream[i].mark != Set(true)
  }

  // ------------------------------------------------------------------ lemmas about meanings

  lemma CellsOfSum(page: nat, offset: nat, a: nat, b: nat, disk: nat)
    ensures Cells(page, offset, a + b, disk)
            == Cells(page, offset, a, disk) + Cells(page, offset + a, b, disk + a)
  {
  }

  lemma OffsetsOfSum(start: nat, a: nat, b: nat)
    ensures Offsets(start, a + b) == Offsets(start, a) + Offsets(start + a, b)
  {
  }

  lemma {:induction false} SizeOfMore(segments: seq<Segment>, x: Segment)
    ensures Size(segments + [x]) == Size(segments) + x.len
  {
    if segments != [] {
      assert (segments + [x])[1..] == segments[1..] + [x];
      SizeOfMore(segments[1..], x);
    }
  }

  lemma {:induction false} SegmentCellsOfMore(segments: seq<Segment>, x: Segment, disk: nat)
    ensures SegmentCells(segments + [x], disk)
            == SegmentCells(segments, disk) + Cells(x.page, x.offset, x.len, disk + Size(segments))
    decreases |segments|
  {
    if segments == [] {
      assert [x][1..] == [];
    } else {
      assert (segments + [x])[1..] == segments[1..] + [x];
      SegmentCellsOfMore(segments[1..], x, disk + segments[0].len);
    }
  }

  lemma {:induction false} BioCellsOfMore(bios: seq<Bio>, b: Bio)
    ensures BioCells(bios + [b]) == BioCells(bios) + SegmentCells(b.segments, 512 * b.sector)
  {
    var more := SegmentCells(b.segments, 512 * b.sector);
    if bios == [] {
      assert [b][1..] == [] && [] + [b] == [b];
    } else {
      var first := SegmentCells(bios[0].segments, 512 * bios[0].sector);
      assert (bios + [b])[1..] == bios[1..] + [b] && (bios + [b])[0] == bios[0];
      BioCellsOfMore(bios[1..], b);
      Regroup(first, BioCells(bios[1..]), more);
    }
  }

  lemma {:induction false} BioOffsetsOfMore(bios: seq<Bio>, b: Bio)
    ensures BioOffsets(bios + [b]) == BioOffsets(bios) + Offsets(b.logical, Size(b.segments))
  {
    var more := Offsets(b.logical, Size(b.segments));
    if bios == [] {
      assert [b][1..] == [] && [] + [b] == [b];
    } else {
      var first := Offsets(bios[0].logical, Size(bios[0].segments));
      assert (bios + [b])[1..] == bios[1..] + [b] && (bios + [b])[0] == bios[0];
      BioOffsetsOfMore(bios[1..], b);
      Regroup(first, BioOffsets(bios[1..]), more);
    }
  }

  lemma {:induction false} BytesOfSum(a: nat, b: nat, size: nat)
    ensures Bytes(a + b, size) == Bytes(a, size) + Bytes(b, size)
  {
    if a > 0 {
      BytesOfSum(a - 1, b, size);
    }
  }

  lemma {:induction false} SectorOfBlock(block: nat, sectors: nat)
    ensures 512 * (block * sectors) == Bytes(block, 512 * sectors)
  {
    if block > 0 {
      SectorOfBlock(block - 1, sectors);
      assert block * sectors == (block - 1) * sectors + sectors;
    }
  }

  lemma {:induction false} BytesShifted(n: nat, size: nat)
    requires size > 0
    ensures Shifted(Bytes(n, size), size) == n && (n > 0 ==> Bytes(n, size) > 0)
  {
    if n > 0 {
      BytesShifted(n - 1, size);
    }
  }

  /** A whole number of blocks. */
  ghost predicate Whole(len: nat, size: nat) {
    size > 0 && len == Bytes(Shifted(len, size), size)
  }

  lemma WholeSum(len: nat, n: nat, size: nat)
    requires Whole(len, size)
    ensures Whole(len + Bytes(n, size), size)
    ensures Shifted(len + Bytes(n, size), size) == Shifted(len, size) + n
  {
    BytesOfSum(Shifted(len, size), n, size);
    BytesShifted(Shifted(len, size) + n, size);
  }

  lemma AddedSegment(b: Bio, x: Segment, block: nat, size: nat)
    requires Whole(x.len, size) && 512 * b.sector + Size(b.segments) == Bytes(block, size)
    ensures var b' := b.(segments := b.segments + [x]);
            && 512 * b'.sector + Size(b'.segments) == Bytes(block + Shifted(x.len, size), size)
            && SegmentCells(b'.segments, 512 * b'.sector)
               == SegmentCells(b.segments, 512 * b.sector)
                  + Cells(x.page, x.offset, x.len, Bytes(block, size))
            && Offsets(b'.logical, Size(b'.segments))
               == Offsets(b.logical, Size(b.segments)) + Offsets(b.logical + Size(b.segments), x.len)
  {
    SizeOfMore(b.segments, x);
    SegmentCellsOfMore(b.segments, x, 512 * b.sector);
    OffsetsOfSum(b.logical, Size(b.segments), x.len);
    BytesOfSum(block, Shifted(x.len, size), size);
  }

  function OpenCells(bio: Option<Bio>): seq<Cell> {
    if bio.Some? then SegmentCells(bio.value.segments, 512 * bio.value.sector) else []
  }

  function OpenOffsets(bio: Option<Bio>): seq<nat> {
    if bio.Some? then Offsets(bio.value.logical, Size(bio.value.segments)) else []
  }

  // ------------------------------------------------------------------ struct dio_submit

  class DioSubmit {
    /** A block is `sectors` sectors of 512 bytes: blkbits is 9 more than their logarithm. */
    const sectors: nat
    const size: nat
    /** bio_add_page refuses whenever it may: a bio holds one segment. */
    const tight: bool
    var bio: Option<Bio>
    var boundary: bool
    var finalBlockInBio: nat
    var curPage: Option<nat>
    var curPageOffset: nat
    var curPageLen: nat
    var curPageBlock: nat
    var curPageFsOffset: nat
    /** The bios handed to submit_bio or submit_io, in order. */
    var submitted: seq<Bio>

    ghost predicate Valid()
      reads this
    {
      && sectors > 0 && size == 512 * sectors
      && (bio.Some? ==>
            && bio.value.segments != []
            && 512 * bio.value.sector + Size(bio.value.segments) == Bytes(finalBlockInBio, size))
      && (curPage.Some? ==> curPageLen > 0 && Whole(curPageLen, size))
    }

    /** What has been packed into bios so far. */
    ghost function PackedCells(): seq<Cell>
      reads this
    {
      BioCells(submitted) + OpenCells(bio)
    }

    ghost function PackedOffsets(): seq<nat>
      reads this
    {
      BioOffsets(submitted) + OpenOffsets(bio)
    }

    ghost function CurCells(): seq<Cell>
      reads this
    {
      if curPage.Some? then Cells(curPage.value, curPageOffset, curPageLen, Bytes(curPageBlock, size))
      else []
    }

    ghost function CurOffsets(): seq<nat>
      reads this
    {
      if curPage.Some? then Offsets(curPageFsOffset, curPageLen) else []
    }

    constructor (sectors: nat, tight: bool)
      requires sectors > 0
      ensures Valid() && this.sectors == sectors && this.tight == tight
      ensures PackedCells() == CurCells() == [] && PackedOffsets() == CurOffsets() == []
      ensures curPage.None? && bio.None? && !boundary
    {
      this.sectors, size, this.tight := sectors, 512 * sectors, tight;
      bio, curPage, submitted, boundary := None, None, [], false;
    }

    /** dio_bio_submit. */
    method BioSubmit()
      requires Valid() && bio.Some?
      modifies this`bio, this`boundary, this`submitted
      ensures Valid() && bio.None? && !boundary
      ensures PackedCells() == old(PackedCells()) && PackedOffsets() == old(PackedOffsets())
    {
      BioCellsOfMore(submitted, bio.value);
      BioOffsetsOfMore(submitted, bio.value);
      submitted := submitted + [bio.value];
      bio := None;
      boundary := false;
    }

    /** dio_new_bio with dio_bio_alloc: an empty bio at the current section. */
    method NewBio()
      requires bio.None?
      modifies this`bio, this`boundary
      ensures bio == Some(Bio(curPageBlock * sectors, curPageFsOffset, [])) && !boundary
    {
      bio := Some(Bio(curPageBlock * sectors, curPageFsOffset, []));
      boundary := false;
    }

    /** Whether the current section goes where the bio under assembly ends. */
    ghost predicate Fits()
      reads this
      requires bio.Some?
    {
      && 512 * bio.value.sector + Size(bio.value.segments) == Bytes(curPageBlock, size)
      && bio.value.logical + Size(bio.value.segments) == curPageFsOffset
    }

    /** dio_bio_add_page; bio_add_page may refuse for want of room, but never an empty bio. */
    method BioAddPage() returns (refused: bool)
      requires bio.Some? && Fits() && curPage.Some? && sectors > 0 && size == 512 * sectors
      requires curPageLen > 0 && Whole(curPageLen, size)
      requires bio.value.segments != [] ==> Valid()
      modifies this`bio, this`finalBlockInBio
      ensures Valid() && bio.Some? && (old(bio.value.segments) == [] ==> !refused)
      ensures tight && old(bio.value.segments) != [] ==> refused
      ensures refused ==> bio == old(bio)
      ensures !refused ==> OpenCells(bio) == old(OpenCells(bio)) + CurCells()
      ensures !refused ==> OpenOffsets(bio) == old(OpenOffsets(bio)) + CurOffsets()
    {
      var room: bool := *;
      if bio.value.segments != [] && (tight || !room) {
        return true;
      }
      var x := Segment(curPage.value, curPageLen, curPageOffset);
      AddedSegment(bio.value, x, curPageBlock, size);
      bio := Some(bio.value.(segments := bio.value.segments + [x]));
      finalBlockInBio := curPageBlock + Shifted(curPageLen, size);
      refused := false;
    }

    /** A new bio for the current section, which then fits. */
    method StartBio()
      requires Valid() && bio.None?
      modifies this`bio, this`boundary
      ensures bio.Some? && bio.value.segments == [] && Fits() && !boundary
      ensures PackedCells() == old(PackedCells()) && PackedOffsets() == old(PackedOffsets())
    {
      NewBio();
      SectorOfBlock(curPageBlock, sectors);
    }

    /** dio_send_cur_page. */
    method SendCurPage()
      requires Valid() && curPage.Some?
      modifies this`bio, this`boundary, this`submitted, this`finalBlockInBio
      ensures Valid() && bio.Some? && (boundary ==> old(boundary) && !tight)
      ensures PackedCells() == old(PackedCells()) + CurCells()
      ensures PackedOffsets() == old(PackedOffsets()) + CurOffsets()
    {
      if bio.Some? {
        var bioNextOffset := bio.value.logical + Size(bio.value.segments);
        if finalBlockInBio != curPageBlock || curPageFsOffset != bioNextOffset {
          BioSubmit();
        }
      }
      if bio.None? {
        StartBio();
      }
      ghost var cells, offsets := OpenCells(bio), OpenOffsets(bio);
      var refused := BioAddPage();
      if refused {
        BioSubmit();
        StartBio();
        cells, offsets := OpenCells(bio), OpenOffsets(bio);
        refused := BioAddPage();
        assert !refused;
      }
      Regroup(BioCells(submitted), cells, CurCells());
      Regroup(BioOffsets(submitted), offsets, CurOffsets());
    }

    /** Whether the section extends the deferred one. */
    predicate Grows(page: nat, offset: nat, block: nat)
      reads this
      requires size > 0
    {
      && curPage == Some(page) && curPageOffset + curPageLen == offset
      && curPageBlock + Shifted(curPageLen, size) == block
    }

    /** The deferred section, if any, ends where this one does. */
    ghost predicate EndsLike(s: Section)
      reads this
    {
      curPage.Some? ==>
        && Valid() && curPage.value == s.page
        && curPageOffset + curPageLen == s.offset + Bytes(s.blocks, size)
        && curPageBlock + Shifted(curPageLen, size) == s.block + s.blocks
    }

    method Grow(s: Section)
      requires Valid() && Grows(s.page, s.offset, s.block)
      modifies this`curPageLen
      ensures Valid() && EndsLike(s) && curPageLen == old(curPageLen) + Bytes(s.blocks, size)
      ensures CurCells() == old(CurCells()) + SectionCells(s, size)
      ensures CurOffsets() == old(CurOffsets()) + Offsets(old(curPageFsOffset + curPageLen), Bytes(s.blocks, size))
    {
      var len := Bytes(s.blocks, size);
      WholeSum(curPageLen, s.blocks, size);
      BytesOfSum(curPageBlock, Shifted(curPageLen, size), size);
      CellsOfSum(curPage.value, curPageOffset, curPageLen, len, Bytes(curPageBlock, size));
      OffsetsOfSum(curPageFsOffset, curPageLen, len);
      curPageLen := curPageLen + len;
    }

    method Defer(s: Section)
      requires Valid() && s.blocks > 0
      modifies this`curPage, this`curPageOffset, this`curPageLen, this`curPageBlock, this`curPageFsOffset
      ensures Valid() && EndsLike(s)
      ensures curPage.Some? && curPageLen == Bytes(s.blocks, size) && curPageFsOffset == Bytes(s.fileBlock, size)
      ensures CurCells() == SectionCells(s, size) && CurOffsets() == SectionOffsets(s, size)
    {
      BytesShifted(s.blocks, size);
      curPage := Some(s.page);
      curPageOffset := s.offset;
      curPageLen := Bytes(s.blocks, size);
      curPageBlock := s.block;
      curPageFsOffset := Bytes(s.fileBlock, size);
    }

    /** Where in the file the section is taken to begin: one that extends the deferred section begins
        where that ends. */
    ghost function TakenFrom(s: Section): nat
      reads this
      requires Valid()
    {
      if Grows(s.page, s.offset, s.block) then curPageFsOffset + curPageLen else Bytes(s.fileBlock, size)
    }

    ghost function AllCells(): seq<Cell>
      reads this
    {
      PackedCells() + CurCells()
    }

    ghost function AllOffsets(): seq<nat>
      reads this
    {
      PackedOffsets() + CurOffsets()
    }

    /** The deferred section leaves for a bio. */
    method SendAndForget()
      requires Valid() && curPage.Some?
      modifies this
      ensures Valid() && curPage.None? && bio.Some? && (boundary ==> old(boundary) && !tight)
      ensures AllCells() == old(AllCells()) && AllOffsets() == old(AllOffsets())
    {
      SendCurPage();
      curPage := None;
    }

    /** The first half of submit_page_section: grow the deferred section or replace it. */
    method Push(s: Section)
      requires Valid() && s.blocks > 0
      modifies this
      ensures Valid() && EndsLike(s) && curPage.Some?
      ensures if old(curPage.None? || Grows(s.page, s.offset, s.block)) then boundary == old(boundary)
              else boundary ==> old(boundary) && !tight
      ensures AllCells() == old(AllCells()) + SectionCells(s, size)
      ensures AllOffsets() == old(AllOffsets()) + Offsets(old(TakenFrom(s)), Bytes(s.blocks, size))
      ensures curPageFsOffset + curPageLen == old(TakenFrom(s)) + Bytes(s.blocks, size)
    {
      if Grows(s.page, s.offset, s.block) {
        GrowAll(s);
      } else {
        if curPage.Some? {
          SendAndForget();
        }
        DeferFirst(s);
      }
    }

    /** Nothing is deferred: the section takes the place. */
    method DeferFirst(s: Section)
      requires Valid() && s.blocks > 0 && curPage.None?
      modifies this
      ensures Valid() && EndsLike(s) && curPage.Some? && boundary == old(boundary)
      ensures AllCells() == old(AllCells()) + SectionCells(s, size)
      ensures AllOffsets() == old(AllOffsets()) + SectionOffsets(s, size)
      ensures curPageFsOffset + curPageLen == Bytes(s.fileBlock, size) + Bytes(s.blocks, size)
    {
      assert AllCells() == PackedCells() && AllOffsets() == PackedOffsets();
      Defer(s);
    }

    method GrowAll(s: Section)
      requires Valid() && Grows(s.page, s.offset, s.block)
      modifies this`curPageLen
      ensures Valid() && EndsLike(s) && AllCells() == old(AllCells()) + SectionCells(s, size)
      ensures AllOffsets() == old(AllOffsets()) + Offsets(old(curPageFsOffset + curPageLen), Bytes(s.blocks, size))
      ensures curPageLen == old(curPageLen) + Bytes(s.blocks, size)
    {
      ghost var cells, offsets, end := CurCells(), CurOffsets(), curPageFsOffset + curPageLen;
      Grow(s);
      Regroup(PackedCells(), cells, SectionCells(s, size));
      Regroup(PackedOffsets(), offsets, Offsets(end, Bytes(s.blocks, size)));
    }

    /** submit_page_section. */
    method SubmitPageSection(s: Section)
      requires Valid() && s.blocks > 0
      modifies this
      ensures Valid() && EndsLike(s)
      ensures AllCells() == old(AllCells()) + SectionCells(s, size)
      ensures AllOffsets() == old(AllOffsets()) + Offsets(old(TakenFrom(s)), Bytes(s.blocks, size))
      ensures curPage.Some? ==> curPageFsOffset + curPageLen == old(TakenFrom(s)) + Bytes(s.blocks, size)
      ensures !boundary && (!old(boundary) ==> curPage.Some?)
      ensures old(boundary) ==>
                if old(curPage.None? || Grows(s.page, s.offset, s.block)) then curPage.None?
                else tight ==> curPage.Some?
    {
      Push(s);
      if boundary {
        SendAndForget();
        BioSubmit();
      }
    }

    /** The end of do_blockdev_direct_IO. */
    method Flush()
      requires Valid()
      modifies this
      ensures BioCells(submitted) == old(AllCells()) && BioOffsets(submitted) == old(AllOffsets())
    {
      if curPage.Some? {
        SendAndForget();
      }
      if bio.Some? {
        BioSubmit();
      }
    }
  }

  lemma {:induction false} StreamCellsOfMore(stream: seq<Section>, s: Section, size: nat)
    ensures StreamCells(stream + [s], size) == StreamCells(stream, size) + SectionCells(s, size)
  {
    if stream == [] {
      assert [s][1..] == [];
    } else {
      assert (stream + [s])[1..] == stream[1..] + [s];
      StreamCellsOfMore(stream[1..], s, size);
    }
  }

  lemma {:induction false} StreamOffsetsOfMore(stream: seq<Section>, s: Section, size: nat)
    ensures StreamOffsets(stream + [s], size) == StreamOffsets(stream, size) + SectionOffsets(s, size)
  {
    if stream == [] {
      assert [s][1..] == [];
    } else {
      assert (stream + [s])[1..] == stream[1..] + [s];
      StreamOffsetsOfMore(stream[1..], s, size);
    }
  }

  lemma StreamUpTo(stream: seq<Section>, i: nat, size: nat)
    requires i < |stream|
    ensures StreamCells(stream[..i + 1], size)
            == StreamCells(stream[..i], size) + SectionCells(stream[i], size)
    ensures StreamOffsets(stream[..i + 1], size)
            == StreamOffsets(stream[..i], size) + SectionOffsets(stream[i], size)
  {
    assert stream[..i + 1] == stream[..i] + [stream[i]];
    StreamCellsOfMore(stream[..i], stream[i], size);
    StreamOffsetsOfMore(stream[..i], stream[i], size);
  }

  // ------------------------------------------------------------------ whole streams

  lemma {:induction false} BytesDiffer(a: nat, b: nat, size: nat)
    requires size > 0 && Bytes(a, size) == Bytes(b, size)
    ensures a == b
  {
    BytesShifted(a, size);
    BytesShifted(b, size);
  }

  /** Sequences of the same length that differ go on to differ; equal ones stay equal exactly when equal
      offsets are added. */
  lemma MoreOffsets(a: seq<nat>, b: seq<nat>, x: nat, y: nat, len: nat)
    requires |a| == |b| && len > 0
    ensures a + Offsets(x, len) == b + Offsets(y, len) <==> a == b && x == y
  {
    var l, r := a + Offsets(x, len), b + Offsets(y, len);
    if l == r {
      assert a == l[..|a|] && b == r[..|b|];
      assert l[|a|] == x && r[|b|] == y;
    }
  }

  /** The offsets can tell whether the sections follow in the file: bio_add_page refuses whenever it may,
      or there is no mark to lose. */
  ghost predicate Telling(stream: seq<Section>, tight: bool) {
    tight || Unmarked(stream)
  }

  /** The offsets are those of the first `i` sections if these follow in the file, and if they can tell
      only then. */
  ghost predicate OffsetsMirror(offsets: seq<nat>, stream: seq<Section>, i: nat, size: nat, telling: bool)
    requires i <= |stream|
  {
    && |offsets| == |StreamOffsets(stream[..i], size)|
    && (FileFollows(stream[..i], size) ==> offsets == StreamOffsets(stream[..i], size))
    && (telling && offsets == StreamOffsets(stream[..i], size) ==> FileFollows(stream[..i], size))
  }

  /** The section is taken from its own place in the file if it follows there, and if the offsets can
      tell only then. */
  ghost predicate PlaceMirrors(from: nat, stream: seq<Section>, i: nat, size: nat, telling: bool)
    requires i < |stream|
  {
    && (FollowsAt(stream, i, size) ==> from == Bytes(stream[i].fileBlock, size))
    && (telling && from == Bytes(stream[i].fileBlock, size) ==> FollowsAt(stream, i, size))
  }

  lemma OffsetsMirrorMore(offsets: seq<nat>, stream: seq<Section>, i: nat, size: nat, telling: bool, from: nat)
    requires i < |stream| && stream[i].blocks > 0 && size > 0 && OffsetsMirror(offsets, stream, i, size, telling)
    requires FileFollows(stream[..i], size) ==> PlaceMirrors(from, stream, i, size, telling)
    ensures OffsetsMirror(offsets + Offsets(from, Bytes(stream[i].blocks, size)), stream, i + 1, size, telling)
  {
    StreamUpTo(stream, i, size);
    FollowsOn(stream, i, size);
    BytesShifted(stream[i].blocks, size);
    MoreOffsets(offsets, StreamOffsets(stream[..i], size), from, Bytes(stream[i].fileBlock, size),
                Bytes(stream[i].blocks, size));
  }

  ghost predicate Mirrors(sdio: DioSubmit, stream: seq<Section>, i: nat)
    reads sdio
    requires i <= |stream|
  {
    && sdio.AllCells() == StreamCells(stream[..i], sdio.size)
    && OffsetsMirror(sdio.AllOffsets(), stream, i, sdio.size, Telling(stream, sdio.tight))
  }

  /** The last section is deferred only if it may be, and if the offsets can tell whenever it may be. */
  ghost predicate DeferredIfMay(deferred: bool, stream: seq<Section>, i: nat, size: nat, telling: bool)
    requires i <= |stream|
  {
    && (deferred ==> i > 0 && MayDefer(stream, i - 1, size))
    && (telling && i > 0 && MayDefer(stream, i - 1, size) ==> deferred)
  }

  /** The deferred section ends where the last one of the stream did, in the file too if that follows. */
  ghost predicate Ended(sdio: DioSubmit, stream: seq<Section>, i: nat)
    reads sdio
    requires i <= |stream|
  {
    && !sdio.boundary
    && DeferredIfMay(sdio.curPage.Some?, stream, i, sdio.size, Telling(stream, sdio.tight))
    && (sdio.curPage.Some? ==>
          && sdio.EndsLike(stream[i - 1])
          && (FileFollows(stream[..i], sdio.size) ==>
                sdio.curPageFsOffset + sdio.curPageLen
                == Bytes(stream[i - 1].fileBlock, sdio.size) + Bytes(stream[i - 1].blocks, sdio.size)))
  }

  lemma {:induction false} MayDeferInPrefix(stream: seq<Section>, n: nat, i: nat, size: nat)
    requires i < n <= |stream|
    ensures MayDefer(stream[..n], i, size) == MayDefer(stream, i, size)
    decreases i
  {
    if i > 0 {
      MayDeferInPrefix(stream, n, i - 1, size);
    }
  }

  lemma FollowsInPrefix(stream: seq<Section>, n: nat, i: nat, size: nat)
    requires i < n <= |stream|
    ensures FollowsAt(stream[..n], i, size) == FollowsAt(stream, i, size)
  {
    if i > 0 {
      MayDeferInPrefix(stream, n, i - 1, size);
    }
  }

  lemma FollowsOn(stream: seq<Section>, i: nat, size: nat)
    requires i < |stream|
    ensures FileFollows(stream[..i + 1], size) <==> FileFollows(stream[..i], size) && FollowsAt(stream, i, size)
  {
    var a, b := stream[..i], stream[..i + 1];
    forall j | 0 <= j < i
      ensures FollowsAt(a, j, size) == FollowsAt(b, j, size)
    {
      FollowsInPrefix(stream, i, j, size);
      FollowsInPrefix(stream, i + 1, j, size);
    }
    FollowsInPrefix(stream, i + 1, i, size);
  }

  lemma TakenFromItsPlace(sdio: DioSubmit, stream: seq<Section>, i: nat)
    requires sdio.Valid() && i < |stream| && Ended(sdio, stream, i) && FileFollows(stream[..i], sdio.size)
    ensures PlaceMirrors(sdio.TakenFrom(stream[i]), stream, i, sdio.size, Telling(stream, sdio.tight))
  {
    if sdio.curPage.Some? {
      var s, size := stream[i - 1], sdio.size;
      BytesOfSum(s.fileBlock, s.blocks, size);
      if Bytes(s.fileBlock + s.blocks, size) == Bytes(stream[i].fileBlock, size) {
        BytesDiffer(s.fileBlock + s.blocks, stream[i].fileBlock, size);
      }
    }
  }

  /** One call by do_direct_IO or dio_zero_block, with the boundary flag as the caller leaves it. */
  method SubmitMarked(sdio: DioSubmit, s: Section)
    requires sdio.Valid() && s.blocks > 0 && !sdio.boundary
    modifies sdio
    ensures sdio.Valid() && sdio.EndsLike(s) && !sdio.boundary
    ensures sdio.AllCells() == old(sdio.AllCells()) + SectionCells(s, sdio.size)
    ensures sdio.AllOffsets() == old(sdio.AllOffsets()) + Offsets(old(sdio.TakenFrom(s)), Bytes(s.blocks, sdio.size))
    ensures sdio.curPage.Some? ==>
              sdio.curPageFsOffset + sdio.curPageLen == old(sdio.TakenFrom(s)) + Bytes(s.blocks, sdio.size)
    ensures s.mark != Set(true) ==> sdio.curPage.Some?
    ensures s.mark == Set(true) ==>
              if old(sdio.curPage.None? || sdio.Grows(s.page, s.offset, s.block)) then sdio.curPage.None?
              else sdio.tight ==> sdio.curPage.Some?
  {
    if s.mark.Set? {
      sdio.boundary := s.mark.flag;
    }
    sdio.SubmitPageSection(s);
  }

  lemma PlaceAfterAll(stream: seq<Section>, i: nat, size: nat, telling: bool, from: nat)
    requires i < |stream| && (FileFollows(stream[..i], size) ==> PlaceMirrors(from, stream, i, size, telling))
    ensures FileFollows(stream[..i + 1], size) ==> from == Bytes(stream[i].fileBlock, size)
  {
    FollowsOn(stream, i, size);
  }

  /** Whether the section is deferred afterwards, from whether the one before was and it grew that. */
  lemma DeferredAfter(stream: seq<Section>, i: nat, size: nat, tight: bool, before: bool, grows: bool, after: bool)
    requires i < |stream| && DeferredIfMay(before, stream, i, size, Telling(stream, tight))
    requires before ==> (grows <==> i > 0 && Continues(stream[i - 1], stream[i], size))
    requires grows ==> before
    requires stream[i].mark != Set(true) ==> after
    requires stream[i].mark == Set(true) ==> if !before || grows then !after else tight ==> after
    ensures DeferredIfMay(after, stream, i + 1, size, Telling(stream, tight))
  {
  }

  lemma GrowsMeansContinues(sdio: DioSubmit, stream: seq<Section>, i: nat)
    requires sdio.Valid() && i < |stream| && Ended(sdio, stream, i) && sdio.curPage.Some?
    ensures sdio.Grows(stream[i].page, stream[i].offset, stream[i].block)
            <==> Continues(stream[i - 1], stream[i], sdio.size)
  {
  }

  method SubmitNext(sdio: DioSubmit, stream: seq<Section>, i: nat)
    requires sdio.Valid() && i < |stream| && stream[i].blocks > 0
    requires Mirrors(sdio, stream, i) && Ended(sdio, stream, i)
    modifies sdio
    ensures sdio.Valid() && Mirrors(sdio, stream, i + 1) && Ended(sdio, stream, i + 1)
  {
    ghost var from, telling := sdio.TakenFrom(stream[i]), Telling(stream, sdio.tight);
    ghost var before := sdio.curPage.Some?;
    ghost var grows := sdio.Grows(stream[i].page, stream[i].offset, stream[i].block);
    if FileFollows(stream[..i], sdio.size) {
      TakenFromItsPlace(sdio, stream, i);
    }
    if before {
      GrowsMeansContinues(sdio, stream, i);
    }
    StreamUpTo(stream, i, sdio.size);
    PlaceAfterAll(stream, i, sdio.size, telling, from);
    OffsetsMirrorMore(sdio.AllOffsets(), stream, i, sdio.size, telling, from);
    SubmitMarked(sdio, stream[i]);
    DeferredAfter(stream, i, sdio.size, sdio.tight, before, grows, sdio.curPage.Some?);
  }

  /** For every stream of sections, every boundary mark and every refusal of bio_add_page, the
      submitted bios mean what the stream means.  The file offsets are kept whatever bio_add_page
      refuses, if and only if sections that continue one that may be deferred do so in the file: if they
      do not, an offset is lost when it refuses whenever it may, and without marks in any case. */
  method SubmitAll(stream: seq<Section>, sectors: nat, tight: bool) returns (bios: seq<Bio>)
    requires sectors > 0 && forall i :: 0 <= i < |stream| ==> stream[i].blocks > 0
    ensures BioCells(bios) == StreamCells(stream, 512 * sectors)
    ensures FileFollows(stream, 512 * sectors) ==>
              BioOffsets(bios) == StreamOffsets(stream, 512 * sectors)
    ensures (tight || Unmarked(stream)) && BioOffsets(bios) == StreamOffsets(stream, 512 * sectors) ==>
              FileFollows(stream, 512 * sectors)
  {
    var sdio := new DioSubmit(sectors, tight);
    var i := 0;
    while i < |stream|
      invariant 0 <= i <= |stream| && sdio.Valid() && sdio.tight == tight
      invariant Mirrors(sdio, stream, i) && Ended(sdio, stream, i)
    {
      SubmitNext(sdio, stream, i);
      i := i + 1;
    }
    assert stream[..i] == stream;
    sdio.Flush();
    bios := sdio.submitted;
  }

  /** A stream that loses an offset, whatever bio_add_page refuses: the second block continues the first
      in memory and on the disk, but a block of the file lies between them. */
  method LoseOffset(tight: bool) returns (bios: seq<Bio>)
    ensures BioOffsets(bios) != StreamOffsets([Section(0, 0, 1, 0, 0, Keep), Section(0, 512, 1, 1, 2, Keep)], 512)
  {
    var stream := [Section(0, 0, 1, 0, 0, Keep), Section(0, 512, 1, 1, 2, Keep)];
    assert Bytes(1, 512) == 512 + Bytes(0, 512);
    assert !FollowsAt(stream, 1, 512);
    bios := SubmitAll(stream, 1, tight);
  }
}
