/** The output side of a core dump (fs/coredump.c): dump_emit, dump_skip and dump_align.

A write may be cut short, interrupted or refused by the size limit at any point.  If no write or seek
fails and no signal comes, only the limit makes a call fail; and when a call succeeds, position and
count have gone on by what was asked for.

After a write that took only some of the bytes, dump_emit goes on from the first byte again.  What it
has put out is then what was asked for, however the writes are cut, if and only if all the bytes are
equal, as the zeros of dump_skip are.  Where a write that does not fail takes all it is given, what a
call has put out is all that was asked for or, if it fails, a prefix.
*/
module CoreFile {

  import opened Collections

  /** PAGE_SIZE and ELF_EXEC_PAGESIZE. */
  const PAGE: nat := 4096

  function Zeros(n: nat): seq<byte> {
    seq(n, i => 0)
  }

  lemma ZerosOfSum(a: nat, b: nat)
    ensures Zeros(a + b) == Zeros(a) + Zeros(b)
  {
  }

  // ------------------------------------------------------------------ what dump_emit puts out

  /** Lengths that writes of `n` bytes in all may take, one after the other. */
  predicate Takes(lens: seq<nat>, n: nat) {
    lens == [] || (1 <= lens[0] <= n && Takes(lens[1..], n - lens[0]))
  }

  function Taken(lens: seq<nat>): nat {
    if lens == [] then 0 else lens[0] + Taken(lens[1..])
  }

  /** Each round writes the first bytes of the data, as many as are left, and takes the first of them. */
  function PutOut(data: seq<byte>, lens: seq<nat>): (b: seq<byte>)
    requires Takes(lens, |data|)
    ensures |b| == Taken(lens) <= |data|
    decreases |lens|
  {
    if lens == [] then [] else data[..lens[0]] + PutOut(data[..|data| - lens[0]], lens[1..])
  }

  /** One round more. */
  lemma {:induction false} PutOutMore(data: seq<byte>, lens: seq<nat>, n: nat)
    requires Takes(lens, |data|) && 1 <= n <= |data| - Taken(lens)
    ensures Takes(lens + [n], |data|) && Taken(lens + [n]) == Taken(lens) + n
    ensures PutOut(data, lens + [n]) == PutOut(data, lens) + data[..n]
    decreases |lens|
  {
    if lens == [] {
      assert [n][1..] == [] && [] + [n] == [n];
    } else {
      var rest := data[..|data| - lens[0]];
      PutOutMore(rest, lens[1..], n);
      assert (lens + [n])[1..] == lens[1..] + [n];
      assert rest[..n] == data[..n];
      Regroup(data[..lens[0]], PutOut(rest, lens[1..]), data[..n]);
    }
  }

  /** All bytes are equal. */
  ghost predicate Uniform(data: seq<byte>) {
    forall i, j :: 0 <= i < j < |data| ==> data[i] == data[j]
  }

  lemma {:induction false} UniformIsPutOut(data: seq<byte>, lens: seq<nat>)
    requires Uniform(data) && Takes(lens, |data|)
    ensures Taken(lens) <= |data| && PutOut(data, lens) == data[..Taken(lens)]
    decreases |lens|
  {
    assert |PutOut(data, lens)| == Taken(lens);
    if lens != [] {
      var rest := data[..|data| - lens[0]];
      UniformIsPutOut(rest, lens[1..]);
      var a, b := data[..lens[0]] + rest[..Taken(lens[1..])], data[..Taken(lens)];
      assert forall i :: 0 <= i < |a| ==> a[i] == data[0] == b[i];
    }
  }

  /** The lengths of a call that succeeds. */
  predicate Fills(lens: seq<nat>, n: nat) {
    Takes(lens, n) && Taken(lens) == n
  }

  /** Every write takes one byte. */
  function Ones(n: nat): (lens: seq<nat>)
    ensures Fills(lens, n)
  {
    if n == 0 then [] else [1] + Ones(n - 1)
  }

  lemma {:induction false} OnesRepeatTheFirst(data: seq<byte>, i: nat)
    requires i < |data|
    ensures PutOut(data, Ones(|data|))[i] == data[0]
    decreases |data|
  {
    var rest := data[..|data| - 1];
    assert Ones(|data|)[1..] == Ones(|data| - 1);
    if i > 0 {
      OnesRepeatTheFirst(rest, i - 1);
    }
  }

  /** However its writes are cut, dump_emit puts out the data. */
  ghost predicate AlwaysRight(data: seq<byte>) {
    forall lens :: Fills(lens, |data|) ==> PutOut(data, lens) == data
  }

  /** The exact condition for that. */
  lemma EmitIsRightExactlyWhenUniform(data: seq<byte>)
    ensures AlwaysRight(data) <==> Uniform(data)
  {
    if Uniform(data) {
      forall lens | Fills(lens, |data|)
        ensures PutOut(data, lens) == data
      {
        UniformIsPutOut(data, lens);
        assert data[..|data|] == data;
      }
    } else {
      var i, j :| 0 <= i < j < |data| && data[i] != data[j];
      OnesRepeatTheFirst(data, i);
      OnesRepeatTheFirst(data, j);
      assert Fills(Ones(|data|), |data|);
    }
  }

  /** Two writes of one byte each: the first byte comes out twice. */
  lemma ShortWriteRepeats()
    ensures Fills([1, 1], 2) && PutOut([1, 2], [1, 1]) == [1, 1]
  {
    assert [1, 1][1..] == [1] && [1][1..] == [];
    assert [1, 2][..1] == [1] && PutOut([1], [1]) == [1];
  }

  lemma ZerosArePutOut(n: nat, lens: seq<nat>)
    requires Takes(lens, n)
    ensures PutOut(Zeros(n), lens) == Zeros(Taken(lens))
  {
    UniformIsPutOut(Zeros(n), lens);
  }

  predicate PowerOfTwo(n: nat) {
    n == 1 || (n > 1 && n % 2 == 0 && PowerOfTwo(n / 2))
  }

  /** What skipping `nr` bytes takes from the limit: a seekable file does not write what it goes over. */
  function SkipCost(nr: nat, seekable: bool): nat {
    if seekable then 0 else nr
  }

  /** Bytes missing to the next multiple. */
  function Padding(pos: nat, align: nat): (n: nat)
    requires align > 0
    ensures (pos + n) % align == 0 && n < align
  {
    if pos % align == 0 then 0
    else
      PadLemma(pos, align);
      align - pos % align
  }

  lemma PadLemma(pos: nat, align: nat)
    requires align > 0
    ensures (pos + (align - pos % align)) % align == 0
  {
    var q, r := pos / align, pos % align;
    assert pos == q * align + r;
    assert pos + (align - r) == (q + 1) * align;
    MultipleOf(q + 1, align);
  }

  lemma MultipleOf(q: nat, align: nat)
    requires align > 0
    ensures (q * align) % align == 0
  {
    var r, p := (q * align) % align, (q * align) / align;
    assert p * align + r == q * align;
    assert (q - p) * align == r;
    if q - p >= 1 {
      assert (q - p) * align == align + (q - p - 1) * align;
    } else if q - p <= -1 {
      assert (p - q) * align == align + (p - q - 1) * align;
    }
  }

  /** struct coredump_params with the file it writes. */
  class Cprm {
    /** The bytes of the file, and where the next write goes. */
    var file: seq<byte>
    var fpos: nat
    var pos: nat
    var written: nat
    const limit: nat
    const seekable: bool
    /** No write or seek fails, and dump_interrupted is never true. */
    const calm: bool
    /** A write that does not fail takes all it is given. */
    const whole: bool

    ghost predicate Valid()
      reads this
    {
      |file| <= fpos == pos && (!seekable ==> |file| == fpos) && written <= limit
    }

    /** What a reader will see up to the position: a hole reads as zeros. */
    ghost function Image(): (image: seq<byte>)
      requires Valid()
      reads this
      ensures |image| == pos
    {
      file + Zeros(fpos - |file|)
    }

    constructor (limit: nat, seekable: bool, calm: bool, whole: bool)
      ensures Valid() && Image() == [] && written == 0
      ensures this.limit == limit && this.seekable == seekable && this.calm == calm && this.whole == whole
    {
      file, fpos, pos, written := [], 0, 0, 0;
      this.limit, this.seekable, this.calm, this.whole := limit, seekable, calm, whole;
    }

    /** __kernel_write at the file position; a write behind the end fills the hole with zeros. */
    method KernelWrite(data: seq<byte>) returns (n: int)
      requires Valid()
      modifies this`file, this`fpos
      ensures n <= |data| && (calm && data != [] ==> n > 0) && (whole && n > 0 ==> n == |data|)
      ensures n <= 0 ==> file == old(file) && fpos == old(fpos)
      ensures n > 0 ==> file == old(Image()) + data[..n] && fpos == old(fpos) + n
    {
      n := *;
      if n > |data| || (calm && n <= 0) || (whole && n > 0) {
        n := |data|;
      }
      if n > 0 {
        file := file + Zeros(fpos - |file|) + data[..n];
        fpos := fpos + n;
      }
    }

    /** One round of dump_emit: some of the bytes, or none if interrupted or the write fails. */
    method EmitSome(data: seq<byte>) returns (n: int)
      requires Valid() && data != [] && written + |data| <= limit
      modifies this`file, this`fpos, this`pos, this`written
      ensures Valid() && n <= |data| && (calm ==> n > 0) && (whole && n > 0 ==> n == |data|)
      ensures n <= 0 ==> Image() == old(Image())
      ensures n > 0 ==> Image() == file == old(Image()) + data[..n] && written == old(written) + n
    {
      var interrupted: bool := *;
      if interrupted && !calm {
        return 0;
      }
      n := KernelWrite(data);
      if n > 0 {
        written := written + n;
        pos := pos + n;
      }
    }

    /** dump_emit.  `lens` are the lengths that its writes took. */
    method DumpEmit(data: seq<byte>) returns (ok: bool, ghost lens: seq<nat>)
      requires Valid()
      modifies this`file, this`fpos, this`pos, this`written
      ensures Valid() && Takes(lens, |data|) && Image() == old(Image()) + PutOut(data, lens)
      ensures ok ==> Fills(lens, |data|) && written == old(written) + |data|
      ensures whole ==> Image() == if ok then old(Image()) + data else old(Image())
      ensures ok && data != [] ==> file == Image()
      ensures calm && old(written) + |data| <= limit ==> ok
    {
      lens := [];
      if written + |data| > limit {
        return false, [];
      }
      ghost var before := Image();
      var left := |data|;
      while left > 0
        invariant Valid() && Takes(lens, |data|) && left == |data| - Taken(lens)
        invariant Image() == before + PutOut(data, lens)
        invariant written + left == old(written) + |data| <= limit
        invariant left < |data| ==> file == Image()
        invariant whole ==> left == |data| || left == 0
        invariant whole ==> Image() == before + data[..|data| - left]
      {
        var n := EmitSome(data[..left]);
        if n <= 0 {
          return false, lens;
        }
        assert data[..left][..n] == data[..n];
        PutOutMore(data, lens, n);
        Regroup(before, PutOut(data, lens), data[..n]);
        lens := lens + [n];
        left := left - n;
      }
      assert data[..|data|] == data;
      return true, lens;
    }

    /** dump_skip on a file that can seek. */
    method SeekOver(nr: nat) returns (ok: bool)
      requires Valid() && seekable
      modifies this`fpos, this`pos
      ensures Valid() && (calm ==> ok)
      ensures Image() == if ok then old(Image()) + Zeros(nr) else old(Image())
    {
      var failed: bool := *;
      if failed && !calm {
        return false;
      }
      fpos := fpos + nr;
      pos := pos + nr;
      ZerosOfSum(old(fpos) - |file|, nr);
      return true;
    }

    /** And on one that cannot. */
    method WriteZeros(nr: nat) returns (ok: bool)
      requires Valid() && !seekable
      modifies this`file, this`fpos, this`pos, this`written
      ensures Valid() && old(Image()) <= Image() <= old(Image()) + Zeros(nr)
      ensures ok ==> Image() == old(Image()) + Zeros(nr)
      ensures ok ==> written == old(written) + nr
      ensures calm && old(written) + nr <= limit ==> ok
    {
      ghost var before := Image();
      var left: nat := nr;
      while left > PAGE
        invariant Valid() && left <= nr && Image() == before + Zeros(nr - left)
        invariant written == old(written) + (nr - left)
      {
        ZerosOfSum(nr - left, PAGE);
        ZerosOfSum(nr - left + PAGE, left - PAGE);
        var wrote, lens := DumpEmit(Zeros(PAGE));
        ZerosArePutOut(PAGE, lens);
        if !wrote {
          return false;
        }
        left := left - PAGE;
      }
      ZerosOfSum(nr - left, left);
      ghost var lens;
      ok, lens := DumpEmit(Zeros(left));
      ZerosArePutOut(left, lens);
    }

    /** dump_skip. */
    method DumpSkip(nr: nat) returns (ok: bool)
      requires Valid()
      modifies this`file, this`fpos, this`pos, this`written
      ensures Valid() && old(Image()) <= Image() <= old(Image()) + Zeros(nr)
      ensures ok ==> Image() == old(Image()) + Zeros(nr)
      ensures ok ==> written == old(written) + SkipCost(nr, seekable)
      ensures calm && old(written) + SkipCost(nr, seekable) <= limit ==> ok
    {
      if seekable {
        ok := SeekOver(nr);
      } else {
        ok := WriteZeros(nr);
      }
    }

    /** dump_align. */
    method DumpAlign(align: nat) returns (ok: bool)
      requires Valid() && align > 0
      modifies this`file, this`fpos, this`pos, this`written
      ensures Valid() && old(Image()) <= Image() <= old(Image()) + Zeros(Padding(old(pos), align))
      ensures ok ==> PowerOfTwo(align) && Image() == old(Image()) + Zeros(Padding(old(pos), align))
      ensures ok ==> written == old(written) + SkipCost(Padding(old(pos), align), seekable)
      ensures calm && PowerOfTwo(align) && old(written) + SkipCost(Padding(old(pos), align), seekable) <= limit ==> ok
    {
      var mod := pos % align;
      if !PowerOfTwo(align) {
        return false;
      }
      if mod != 0 {
        ok := DumpSkip(align - mod);
      } else {
        ok := true;
      }
    }

    /** dump_truncate: a hole at the end, which only a seekable file can have, becomes part of the file. */
    method DumpTruncate()
      requires Valid()
      modifies this`file
      ensures Valid() && file == Image() == old(Image())
    {
      if seekable {
        if |file| < fpos {
          file := file + Zeros(fpos - |file|);
        }
      }
    }
  }
}
