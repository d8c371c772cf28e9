/** The shared-memory request queue between client and server (client-server/client.c, server.c).

Requests are NUL-terminated strings in a byte ring of `n` lines, followed by one extra byte that
always holds NUL and by `overlap`, the number of characters of a split request that lie before the
end of the ring.  Two counting semaphores bound the number of requests in the ring.

The client is modelled as written.  The server's dequeue is modelled twice: with the guard as it is
written, which never selects the branch that joins the two halves of a split request, and with the
guard the README documents.  The main results, over every run of one client and one server: with
the documented guard the queue is FIFO with byte-exact contents; with the guard as written it is
FIFO exactly as long as no dequeued request has a character beyond the end of the ring.
*/
module RequestQueue {

  const NUL: char := '\0'
  const LINE_SIZE: nat := 1024 + 1 + 256 + 1

  /** What read_inputfile can hand to enqueue: a C string that fits a line with its terminator. */
  predicate IsRequest(r: string) {
    |r| < LINE_SIZE && NUL !in r
  }

  /** The shared region, the semaphores, and the private index of either side. */
  datatype Queue = Queue(size: nat, mem: seq<char>, overlap: nat, empty: nat, full: nat,
                         back: nat, front: nat)

  ghost predicate Shape(q: Queue) {
    && q.size >= LINE_SIZE
    && |q.mem| == q.size + 1 && q.mem[q.size] == NUL
    && q.back < q.size && q.front < q.size
    && q.overlap <= q.size
  }

  // ------------------------------------------------------------------ C strings

  /** The C string at the start of `s`. */
  function UpToNul(s: string): string {
    if s == [] || s[0] == NUL then [] else [s[0]] + UpToNul(s[1..])
  }

  /** sprintf(&mem[at], "%s", s). */
  function Stored(mem: seq<char>, at: nat, s: string): (r: seq<char>)
    requires at + |s| + 1 <= |mem|
    ensures |r| == |mem|
  {
    mem[..at] + s + [NUL] + mem[at + |s| + 1..]
  }

  lemma {:induction false} UpToNulOfTerminated(s: string, rest: string)
    requires NUL !in s
    ensures UpToNul(s + [NUL] + rest) == s
  {
    if s == [] {
      assert (s + [NUL] + rest)[0] == NUL;
    } else {
      UpToNulOfTerminated(s[1..], rest);
      assert (s + [NUL] + rest)[1..] == s[1..] + [NUL] + rest;
    }
  }

  lemma {:induction false} UpToNulOfPlain(s: string)
    requires NUL !in s
    ensures UpToNul(s) == s
  {
    if s != [] {
      UpToNulOfPlain(s[1..]);
    }
  }

  // ------------------------------------------------------------------ the two operations

  /** The bytes enqueue stores: the request in one piece, or its halves at the end and the start. */
  function Written(mem: seq<char>, size: nat, back: nat, r: string): seq<char>
    requires back < size && |mem| == size + 1 && |r| < size
  {
    if back + |r| + 1 <= size then
      Stored(mem, back, r)
    else
      var offset := size - back;
      Stored(Stored(mem, back, r[..offset]), 0, r[offset..])
  }

  /** enqueue, once the semaphores are taken. */
  function Enqueued(q: Queue, r: string): Queue
    requires Shape(q) && IsRequest(r) && q.empty > 0
  {
    var len := |r| + 1;
    q.(mem := Written(q.mem, q.size, q.back, r),
       overlap := if q.back + len <= q.size then q.overlap else q.size - q.back,
       back := (q.back + len) % q.size, empty := q.empty - 1, full := q.full + 1)
  }

  datatype Guard = AsWritten | AsDocumented

  /** Whether dequeue takes the branch that joins two halves. */
  predicate Joins(g: Guard, q: Queue) {
    match g
    case AsWritten => !(q.overlap != 0 || q.front != q.size - q.overlap)
    case AsDocumented => q.overlap != 0 && q.front == q.size - q.overlap
  }

  /** What dequeue copies into the request buffer. */
  function Fetched(g: Guard, q: Queue): string
    requires Shape(q)
  {
    if Joins(g, q)
    then UpToNul(q.mem[q.front..q.front + q.overlap] + UpToNul(q.mem))
    else UpToNul(q.mem[q.front..])
  }

  /** dequeue's effect; `reqlen` is an unsigned short. */
  function Dequeued(g: Guard, q: Queue): Queue
    requires Shape(q) && q.full > 0
  {
    var reqlen := (|Fetched(g, q)| + 1) % 0x1_0000;
    q.(overlap := if Joins(g, q) then 0 else q.overlap,
       front := (q.front + reqlen) % q.size,
       empty := q.empty + 1, full := q.full - 1)
  }

  // ------------------------------------------------------------------ runs

  datatype Op = Put(request: string) | Get

  /** `sent` and `got` record what the client enqueued and what the server dequeued. */
  datatype System = System(q: Queue, sent: seq<string>, got: seq<string>)

  /** create_queue for `n` requests over a region whose extra byte is zero. */
  ghost predicate Initial(s: System, n: nat) {
    && n > 0 && s.q.size == n * LINE_SIZE
    && |s.q.mem| == s.q.size + 1 && s.q.mem[s.q.size] == NUL
    && s.q.overlap == 0 && s.q.back == 0 && s.q.front == 0
    && s.q.empty == n && s.q.full == 0
    && s.sent == [] && s.got == []
  }

  ghost predicate Enabled(s: System, op: Op) {
    && Shape(s.q)
    && match op
       case Put(r) => IsRequest(r) && s.q.empty > 0
       case Get => s.q.full > 0
  }

  ghost function Next(g: Guard, s: System, op: Op): System
    requires Enabled(s, op)
  {
    match op
    case Put(r) => System(Enqueued(s.q, r), s.sent + [r], s.got)
    case Get => System(Dequeued(g, s.q), s.sent, s.got + [Fetched(g, s.q)])
  }

  ghost predicate CanRun(g: Guard, s: System, ops: seq<Op>)
    decreases |ops|
  {
    ops == [] || (Enabled(s, ops[0]) && CanRun(g, Next(g, s, ops[0]), ops[1..]))
  }

  ghost function Exec(g: Guard, s: System, ops: seq<Op>): System
    requires CanRun(g, s, ops)
    decreases |ops|
  {
    if ops == [] then s else Exec(g, Next(g, s, ops[0]), ops[1..])
  }

  // ------------------------------------------------------------------ positions in the ring

  /** The cell `j` bytes after cell `at`. */
  function Cell(size: nat, at: nat, j: nat): nat {
    if at + j < size then at + j else at + j - size
  }

  lemma CellIsRemainder(size: nat, at: nat, j: nat)
    requires at < size && j <= size
    ensures Cell(size, at, j) < size && (at + j) % size == Cell(size, at, j)
  {
    if at + j >= size {
      var k := at + j - size;
      assert k < size;
      assert (k + size) % size == k;
    }
  }

  /** Where request `i` starts, given the lengths of the requests before it. */
  function StartOf(size: nat, sent: seq<string>, i: nat): nat
    requires i <= |sent|
  {
    if i == 0 then 0 else Cell(size, StartOf(size, sent, i - 1), |sent[i - 1]| + 1)
  }

  /** Request `i` has a character beyond the end of the ring. */
  predicate Straddles(size: nat, sent: seq<string>, i: nat)
    requires i < |sent|
  {
    StartOf(size, sent, i) + |sent[i]| > size
  }

  /** Request `i` or its terminator goes beyond the end, so enqueue splits it. */
  predicate Splits(size: nat, sent: seq<string>, i: nat)
    requires i < |sent|
  {
    StartOf(size, sent, i) + |sent[i]| + 1 > size
  }

  lemma {:induction false} StartOfPrefix(size: nat, sent: seq<string>, r: string, i: nat)
    requires i <= |sent|
    ensures StartOf(size, sent + [r], i) == StartOf(size, sent, i)
  {
    if i > 0 {
      StartOfPrefix(size, sent, r, i - 1);
    }
  }

  /** The bytes of a sequence of requests, terminators included. */
  function Bytes(rs: seq<string>): seq<char> {
    if rs == [] then [] else rs[0] + [NUL] + Bytes(rs[1..])
  }

  lemma {:induction false} BytesAppend(rs: seq<string>, r: string)
    ensures Bytes(rs + [r]) == Bytes(rs) + (r + [NUL])
  {
    if rs == [] {
      assert rs + [r] == [r] && [r][1..] == [];
    } else {
      assert (rs + [r])[1..] == rs[1..] + [r];
      BytesAppend(rs[1..], r);
    }
  }

  lemma {:induction false} BytesBound(rs: seq<string>)
    requires forall i :: 0 <= i < |rs| ==> IsRequest(rs[i])
    ensures |Bytes(rs)| <= |rs| * LINE_SIZE
  {
    if rs != [] {
      BytesBound(rs[1..]);
    }
  }

  /** The ring holds `bytes` from cell `at` on. */
  ghost predicate Ring(size: nat, mem: seq<char>, at: nat, bytes: seq<char>) {
    && at < size && |bytes| <= size && |mem| == size + 1
    && forall j :: 0 <= j < |bytes| ==> mem[Cell(size, at, j)] == bytes[j]
  }

  /** Cell `c` is one of the `n` cells from `at` on. */
  predicate InSpan(size: nat, at: nat, n: nat, c: nat) {
    at <= c < at + n || c + size < at + n
  }

  /** What enqueue writes: the request's bytes from `back` on, and otherwise nothing in the ring. */
  lemma WrittenBytes(mem: seq<char>, size: nat, back: nat, r: string)
    requires back < size && |mem| == size + 1 && mem[size] == NUL && |r| < size
    ensures var mem' := Written(mem, size, back, r);
            && Ring(size, mem', back, r + [NUL]) && mem'[size] == NUL
            && forall c :: 0 <= c < size && !InSpan(size, back, |r| + 1, c) ==> mem'[c] == mem[c]
  {
  }

  lemma EnqueueWrites(q: Queue, r: string)
    requires Shape(q) && IsRequest(r) && q.empty > 0
    ensures Shape(Enqueued(q, r))
    ensures Enqueued(q, r).back == Cell(q.size, q.back, |r| + 1)
    ensures Ring(q.size, Enqueued(q, r).mem, q.back, r + [NUL])
    ensures forall c :: 0 <= c < q.size && !InSpan(q.size, q.back, |r| + 1, c) ==>
              Enqueued(q, r).mem[c] == q.mem[c]
  {
    CellIsRemainder(q.size, q.back, |r| + 1);
    WrittenBytes(q.mem, q.size, q.back, r);
  }

  lemma RingExtend(size: nat, mem: seq<char>, mem': seq<char>, at: nat, bytes: seq<char>,
                   more: seq<char>)
    requires Ring(size, mem, at, bytes) && |bytes| + |more| <= size
    requires Ring(size, mem', Cell(size, at, |bytes|), more)
    requires forall c :: 0 <= c < size && !InSpan(size, Cell(size, at, |bytes|), |more|, c) ==>
               mem'[c] == mem[c]
    ensures Ring(size, mem', at, bytes + more)
  {
    var back := Cell(size, at, |bytes|);
    forall j | 0 <= j < |bytes| + |more|
      ensures mem'[Cell(size, at, j)] == (bytes + more)[j]
    {
      if j < |bytes| {
        assert !InSpan(size, back, |more|, Cell(size, at, j));
      } else {
        assert Cell(size, at, j) == Cell(size, back, j - |bytes|);
      }
    }
  }

  // ------------------------------------------------------------------ what every run keeps

  function Pending(s: System): seq<string> {
    if |s.got| <= |s.sent| then s.sent[|s.got|..] else []
  }

  /** True of both guards: the semaphores count, the client's index is where the next request goes,
      and the ring holds every pending byte at its place. */
  ghost predicate MemoryInv(s: System, n: nat) {
    && n > 0 && s.q.size == n * LINE_SIZE && Shape(s.q)
    && (forall i :: 0 <= i < |s.sent| ==> IsRequest(s.sent[i]))
    && |s.got| <= |s.sent|
    && s.q.empty + s.q.full == n && s.q.full == |s.sent| - |s.got|
    && s.q.back == StartOf(s.q.size, s.sent, |s.sent|)
    && s.q.back == Cell(s.q.size, StartOf(s.q.size, s.sent, |s.got|), |Bytes(Pending(s))|)
    && Ring(s.q.size, s.q.mem, StartOf(s.q.size, s.sent, |s.got|), Bytes(Pending(s)))
  }

  /** The semaphores bound the pending bytes by the size of the ring. */
  lemma RoomForOneMore(s: System, n: nat, r: string)
    requires MemoryInv(s, n) && s.q.empty > 0 && IsRequest(r)
    ensures |Bytes(Pending(s))| + |r| + 1 <= s.q.size
  {
    BytesBound(Pending(s));
    assert |Pending(s)| + 1 <= n;
    assert (|Pending(s)| + 1) * LINE_SIZE <= n * LINE_SIZE;
  }

  lemma PutExtendsRing(s: System, n: nat, r: string)
    requires MemoryInv(s, n) && IsRequest(r) && s.q.empty > 0
    ensures Ring(s.q.size, Enqueued(s.q, r).mem, StartOf(s.q.size, s.sent, |s.got|),
                 Bytes(Pending(s)) + (r + [NUL]))
  {
    RoomForOneMore(s, n, r);
    EnqueueWrites(s.q, r);
    RingExtend(s.q.size, s.q.mem, Enqueued(s.q, r).mem, StartOf(s.q.size, s.sent, |s.got|),
               Bytes(Pending(s)), r + [NUL]);
  }

  lemma StartsAfterPut(size: nat, sent: seq<string>, r: string, i: nat)
    requires i <= |sent|
    ensures StartOf(size, sent + [r], i) == StartOf(size, sent, i)
    ensures StartOf(size, sent + [r], |sent| + 1) ==
            Cell(size, StartOf(size, sent, |sent|), |r| + 1)
    ensures Bytes((sent + [r])[i..]) == Bytes(sent[i..]) + (r + [NUL])
  {
    StartOfPrefix(size, sent, r, i);
    StartOfPrefix(size, sent, r, |sent|);
    assert (sent + [r])[i..] == sent[i..] + [r];
    BytesAppend(sent[i..], r);
  }

  lemma PutKeepsMemory(g: Guard, s: System, n: nat, r: string)
    requires MemoryInv(s, n) && Enabled(s, Put(r))
    ensures MemoryInv(Next(g, s, Put(r)), n)
  {
    var s' := Next(g, s, Put(r));
    PutExtendsRing(s, n, r);
    RoomForOneMore(s, n, r);
    EnqueueWrites(s.q, r);
    StartsAfterPut(s.q.size, s.sent, r, |s.got|);
    assert Bytes(Pending(s')) == Bytes(Pending(s)) + (r + [NUL]);
  }

  lemma GetKeepsMemory(g: Guard, s: System, n: nat)
    requires MemoryInv(s, n) && Enabled(s, Get)
    ensures MemoryInv(Next(g, s, Get), n)
  {
    var s' := Next(g, s, Get);
    var size, head := s.q.size, s.sent[|s.got|];
    var start := StartOf(size, s.sent, |s.got|);
    assert Pending(s)[0] == head && Pending(s') == Pending(s)[1..];
    assert Bytes(Pending(s)) == head + [NUL] + Bytes(Pending(s'));
    forall j | 0 <= j < |Bytes(Pending(s'))|
      ensures s.q.mem[Cell(size, Cell(size, start, |head| + 1), j)] == Bytes(Pending(s'))[j]
    {
      assert Cell(size, Cell(size, start, |head| + 1), j) == Cell(size, start, |head| + 1 + j);
    }
  }

  // ------------------------------------------------------------------ what dequeue fetches

  /** The pending request at `front` starts the ring's contents. */
  ghost predicate AtFront(q: Queue, r: string) {
    Shape(q) && IsRequest(r) && Ring(q.size, q.mem, q.front, r + [NUL])
  }

  lemma FetchWhole(q: Queue, r: string)
    requires AtFront(q, r) && q.front + |r| + 1 <= q.size
    ensures UpToNul(q.mem[q.front..]) == r
  {
    assert forall j :: 0 <= j <= |r| ==> q.mem[Cell(q.size, q.front, j)] == q.mem[q.front + j];
    assert q.mem[q.front..] == r + [NUL] + q.mem[q.front + |r| + 1..];
    UpToNulOfTerminated(r, q.mem[q.front + |r| + 1..]);
  }

  /** Reading straight on stops at the extra byte: the wrapped part is lost. */
  lemma FetchTruncated(q: Queue, r: string)
    requires AtFront(q, r) && q.front + |r| + 1 > q.size
    ensures UpToNul(q.mem[q.front..]) == r[..q.size - q.front]
  {
    var offset := q.size - q.front;
    forall j | 0 <= j < offset
      ensures q.mem[q.front + j] == r[j]
    {
      assert Cell(q.size, q.front, j) == q.front + j;
    }
    assert q.mem[q.front..] == r[..offset] + [NUL] + [];
    UpToNulOfTerminated(r[..offset], []);
  }

  lemma FetchJoined(q: Queue, r: string)
    requires AtFront(q, r) && q.front + |r| + 1 > q.size
    requires q.overlap == q.size - q.front
    ensures UpToNul(q.mem[q.front..q.front + q.overlap] + UpToNul(q.mem)) == r
  {
    var offset, tail := q.overlap, |r| - q.overlap;
    forall j | 0 <= j < offset
      ensures q.mem[q.front + j] == r[j]
    {
      assert Cell(q.size, q.front, j) == q.front + j;
    }
    forall j | 0 <= j <= tail
      ensures q.mem[j] == (r + [NUL])[offset + j]
    {
      assert Cell(q.size, q.front, offset + j) == j;
    }
    assert q.mem[q.front..q.front + offset] == r[..offset];
    assert q.mem == r[offset..] + [NUL] + q.mem[tail + 1..];
    UpToNulOfTerminated(r[offset..], q.mem[tail + 1..]);
    assert r[..offset] + r[offset..] == r;
    UpToNulOfPlain(r);
  }

  /** When the server's index is right, the oldest pending request is at the front. */
  lemma OldestIsAtFront(s: System, n: nat)
    requires MemoryInv(s, n) && s.q.full > 0
    requires s.q.front == StartOf(s.q.size, s.sent, |s.got|)
    ensures AtFront(s.q, s.sent[|s.got|])
  {
    var r := s.sent[|s.got|];
    assert Pending(s)[0] == r;
    assert forall j :: 0 <= j <= |r| ==> Bytes(Pending(s))[j] == (r + [NUL])[j];
  }

  lemma FrontAfter(g: Guard, q: Queue, r: string)
    requires AtFront(q, r) && q.full > 0 && Fetched(g, q) == r
    ensures Dequeued(g, q).front == Cell(q.size, q.front, |r| + 1)
  {
    CellIsRemainder(q.size, q.front, |r| + 1);
  }

  // ------------------------------------------------------------------ the documented guard

  /** Where the first split among the requests stored from `at` on lies before the ring's end; 0 if
      none is split. */
  function SplitOffset(size: nat, at: nat, rs: seq<string>): nat
    decreases |rs|
  {
    if rs == [] then 0
    else if at + |rs[0]| + 1 > size && at < size then size - at
    else SplitOffset(size, Cell(size, at, |rs[0]| + 1), rs[1..])
  }

  /** Requests that end before the ring does are not split. */
  lemma {:induction false} NoSplit(size: nat, at: nat, rs: seq<string>)
    requires at < size && at + |Bytes(rs)| <= size
    ensures SplitOffset(size, at, rs) == 0
    decreases |rs|
  {
    if rs != [] {
      if at + |rs[0]| + 1 < size {
        NoSplit(size, at + |rs[0]| + 1, rs[1..]);
      } else {
        assert Bytes(rs[1..]) == [];
      }
    }
  }

  /** The first split starts at the place of one of the stored bytes. */
  lemma {:induction false} SplitIsInside(size: nat, at: nat, rs: seq<string>)
    requires at < size && |Bytes(rs)| <= size && SplitOffset(size, at, rs) != 0
    ensures exists b :: 0 <= b < |Bytes(rs)| && size - SplitOffset(size, at, rs) == Cell(size, at, b)
    decreases |rs|
  {
    var len := |rs[0]| + 1;
    if at + len > size {
      assert Cell(size, at, 0) == at;
    } else {
      var at' := Cell(size, at, len);
      SplitIsInside(size, at', rs[1..]);
      var b :| 0 <= b < |Bytes(rs[1..])| && size - SplitOffset(size, at, rs) == Cell(size, at', b);
      assert Cell(size, at', b) == Cell(size, at, len + b);
    }
  }

  /** Enqueueing records the new split, and never while an older one is still pending. */
  lemma {:induction false} SplitAppend(size: nat, at: nat, rs: seq<string>, r: string)
    requires at < size && |Bytes(rs)| + |r| + 1 <= size
    ensures var back := Cell(size, at, |Bytes(rs)|);
            SplitOffset(size, at, rs + [r]) ==
            if back + |r| + 1 > size then size - back else SplitOffset(size, at, rs)
    decreases |rs|
  {
    if rs == [] {
      assert rs + [r] == [r] && [r][1..] == [];
    } else {
      var len := |rs[0]| + 1;
      assert (rs + [r])[1..] == rs[1..] + [r];
      if at + len <= size {
        SplitAppend(size, Cell(size, at, len), rs[1..], r);
      }
    }
  }

  ghost predicate DocumentedInv(s: System, n: nat) {
    && MemoryInv(s, n)
    && s.got == s.sent[..|s.got|]
    && s.q.front == StartOf(s.q.size, s.sent, |s.got|)
    && s.q.overlap == SplitOffset(s.q.size, s.q.front, Pending(s))
  }

  /** The documented guard joins exactly the requests that were split. */
  lemma DocumentedGuardIsRight(s: System, n: nat)
    requires DocumentedInv(s, n) && s.q.full > 0
    ensures Joins(AsDocumented, s.q) <==> Splits(s.q.size, s.sent, |s.got|)
    ensures Fetched(AsDocumented, s.q) == s.sent[|s.got|]
  {
    var q, r := s.q, s.sent[|s.got|];
    OldestIsAtFront(s, n);
    assert Pending(s)[0] == r;
    if Splits(q.size, s.sent, |s.got|) {
      FetchJoined(q, r);
    } else {
      if q.overlap != 0 {
        var len := |r| + 1;
        var at' := Cell(q.size, q.front, len);
        assert |Bytes(Pending(s))| == len + |Bytes(Pending(s)[1..])|;
        SplitIsInside(q.size, at', Pending(s)[1..]);
        var b :| 0 <= b < |Bytes(Pending(s)[1..])| && q.size - q.overlap == Cell(q.size, at', b);
      }
      FetchWhole(q, r);
    }
  }

  lemma PutRecordsSplit(s: System, n: nat, r: string)
    requires DocumentedInv(s, n) && IsRequest(r) && s.q.empty > 0
    ensures Enqueued(s.q, r).overlap == SplitOffset(s.q.size, s.q.front, Pending(s) + [r])
  {
    RoomForOneMore(s, n, r);
    SplitAppend(s.q.size, s.q.front, Pending(s), r);
  }

  lemma PutKeepsFront(s: System, n: nat, r: string)
    requires DocumentedInv(s, n) && IsRequest(r)
    ensures s.got == (s.sent + [r])[..|s.got|]
    ensures s.q.front == StartOf(s.q.size, s.sent + [r], |s.got|)
    ensures (s.sent + [r])[|s.got|..] == Pending(s) + [r]
  {
    StartOfPrefix(s.q.size, s.sent, r, |s.got|);
  }

  lemma DocumentedPut(s: System, n: nat, r: string)
    requires DocumentedInv(s, n) && Enabled(s, Put(r))
    ensures DocumentedInv(Next(AsDocumented, s, Put(r)), n)
  {
    PutKeepsMemory(AsDocumented, s, n, r);
    PutKeepsFront(s, n, r);
    PutRecordsSplit(s, n, r);
  }

  lemma DocumentedGet(s: System, n: nat)
    requires DocumentedInv(s, n) && Enabled(s, Get)
    ensures DocumentedInv(Next(AsDocumented, s, Get), n)
  {
    var s' := Next(AsDocumented, s, Get);
    var r := s.sent[|s.got|];
    GetKeepsMemory(AsDocumented, s, n);
    OldestIsAtFront(s, n);
    DocumentedGuardIsRight(s, n);
    FrontAfter(AsDocumented, s.q, r);
    assert Pending(s') == Pending(s)[1..] && Pending(s)[0] == r;
    if Splits(s.q.size, s.sent, |s.got|) {
      NoSplit(s.q.size, s'.q.front, Pending(s'));
    }
  }

  lemma {:induction false} DocumentedRun(s: System, n: nat, ops: seq<Op>)
    requires DocumentedInv(s, n) && CanRun(AsDocumented, s, ops)
    ensures DocumentedInv(Exec(AsDocumented, s, ops), n)
    decreases |ops|
  {
    if ops != [] {
      if ops[0].Get? {
        DocumentedGet(s, n);
      } else {
        DocumentedPut(s, n, ops[0].request);
      }
      DocumentedRun(Next(AsDocumented, s, ops[0]), n, ops[1..]);
    }
  }

  /** With the guard the README documents, every run is FIFO with byte-exact requests. */
  lemma DocumentedQueueIsFifo(s: System, n: nat, ops: seq<Op>)
    requires Initial(s, n) && CanRun(AsDocumented, s, ops)
    ensures var e := Exec(AsDocumented, s, ops);
            |e.got| <= |e.sent| && e.got == e.sent[..|e.got|]
  {
    DocumentedRun(s, n, ops);
  }

  // ------------------------------------------------------------------ the guard as written

  ghost predicate NoneStraddles(size: nat, sent: seq<string>, k: nat)
    requires k <= |sent|
  {
    forall i :: 0 <= i < k ==> !Straddles(size, sent, i)
  }

  /** As long as no dequeued request straddled, everything is as documented; once one did, it was
      delivered wrong and stays wrong. */
  ghost predicate WrittenInv(s: System, n: nat) {
    && MemoryInv(s, n)
    && GotRight(s.q.size, s.sent, s.got, s.q.front)
  }

  lemma WrittenNeverJoins(q: Queue)
    requires Shape(q)
    ensures !Joins(AsWritten, q)
  {
  }

  /** A request at the front comes out whole exactly when no character lies beyond the end. */
  lemma WrittenFetch(q: Queue, r: string)
    requires AtFront(q, r)
    ensures Fetched(AsWritten, q) == if q.front + |r| > q.size then r[..q.size - q.front] else r
  {
    WrittenNeverJoins(q);
    if q.front + |r| + 1 <= q.size {
      FetchWhole(q, r);
    } else {
      FetchTruncated(q, r);
      assert |r| == q.size - q.front ==> r[..|r|] == r;
    }
  }

  lemma StraddlesAfterPut(size: nat, sent: seq<string>, r: string, k: nat)
    requires k <= |sent|
    ensures NoneStraddles(size, sent + [r], k) <==> NoneStraddles(size, sent, k)
  {
    forall i | 0 <= i < k
      ensures Straddles(size, sent + [r], i) <==> Straddles(size, sent, i)
    {
      StartOfPrefix(size, sent, r, i);
    }
  }

  lemma WrittenPut(s: System, n: nat, r: string)
    requires WrittenInv(s, n) && Enabled(s, Put(r))
    ensures WrittenInv(Next(AsWritten, s, Put(r)), n)
  {
    PutKeepsMemory(AsWritten, s, n, r);
    StartOfPrefix(s.q.size, s.sent, r, |s.got|);
    StraddlesAfterPut(s.q.size, s.sent, r, |s.got|);
    assert (s.sent + [r])[..|s.got|] == s.sent[..|s.got|];
  }

  /** What was got, and where the front is, agree with what was sent until one straddles. */
  ghost predicate GotRight(size: nat, sent: seq<string>, got: seq<string>, front: nat)
    requires |got| <= |sent|
  {
    if NoneStraddles(size, sent, |got|) then got == sent[..|got|] && front == StartOf(size, sent, |got|)
    else got != sent[..|got|]
  }

  lemma GotOneMore(size: nat, sent: seq<string>, got: seq<string>, r: string, front: nat)
    requires |got| < |sent| && got == sent[..|got|] && NoneStraddles(size, sent, |got|)
    requires r == sent[|got|] <==> !Straddles(size, sent, |got|)
    requires r == sent[|got|] ==> front == StartOf(size, sent, |got| + 1)
    ensures GotRight(size, sent, got + [r], front)
  {
    var k := |got|;
    assert sent[..k + 1] == sent[..k] + [sent[k]];
    assert (got + [r])[k] == r;
  }

  /** While none has straddled, the oldest request is read where it starts. */
  lemma WrittenGetInTime(s: System, n: nat)
    requires WrittenInv(s, n) && Enabled(s, Get) && NoneStraddles(s.q.size, s.sent, |s.got|)
    ensures WrittenInv(Next(AsWritten, s, Get), n)
  {
    var r := s.sent[|s.got|];
    GetKeepsMemory(AsWritten, s, n);
    OldestIsAtFront(s, n);
    WrittenFetch(s.q, r);
    if Fetched(AsWritten, s.q) == r {
      FrontAfter(AsWritten, s.q, r);
    }
    GotOneMore(s.q.size, s.sent, s.got, Fetched(AsWritten, s.q), Dequeued(AsWritten, s.q).front);
  }

  lemma WrittenGet(s: System, n: nat)
    requires WrittenInv(s, n) && Enabled(s, Get)
    ensures WrittenInv(Next(AsWritten, s, Get), n)
  {
    if NoneStraddles(s.q.size, s.sent, |s.got|) {
      WrittenGetInTime(s, n);
    } else {
      var s', k := Next(AsWritten, s, Get), |s.got|;
      GetKeepsMemory(AsWritten, s, n);
      assert s'.got[..k] == s.got && s.sent[..k + 1][..k] == s.sent[..k];
    }
  }

  lemma {:induction false} WrittenRun(s: System, n: nat, ops: seq<Op>)
    requires WrittenInv(s, n) && CanRun(AsWritten, s, ops)
    ensures WrittenInv(Exec(AsWritten, s, ops), n)
    decreases |ops|
  {
    if ops != [] {
      if ops[0].Get? {
        WrittenGet(s, n);
      } else {
        WrittenPut(s, n, ops[0].request);
      }
      WrittenRun(Next(AsWritten, s, ops[0]), n, ops[1..]);
    }
  }

  /** With the guard as written, a run is FIFO exactly when no dequeued request has a character
      beyond the ring's end.  Whether one has follows from the lengths of the requests alone. */
  lemma WrittenQueueIsFifoExactlyWhen(s: System, n: nat, ops: seq<Op>)
    requires Initial(s, n) && CanRun(AsWritten, s, ops)
    ensures var e := Exec(AsWritten, s, ops);
            && |e.got| <= |e.sent|
            && (e.got == e.sent[..|e.got|] <==>
                forall i :: 0 <= i < |e.got| ==> !Straddles(s.q.size, e.sent, i))
  {
    WrittenRun(s, n, ops);
    SizeIsFixed(AsWritten, s, ops);
  }

  lemma {:induction false} SizeIsFixed(g: Guard, s: System, ops: seq<Op>)
    requires CanRun(g, s, ops)
    ensures Exec(g, s, ops).q.size == s.q.size
    decreases |ops|
  {
    if ops != [] {
      SizeIsFixed(g, Next(g, s, ops[0]), ops[1..]);
    }
  }

  /** The joining branch is dead code in every reachable state of the code as written. */
  lemma WrittenJoinIsUnreachable(s: System, n: nat, ops: seq<Op>)
    requires Initial(s, n) && CanRun(AsWritten, s, ops)
    ensures Exec(AsWritten, s, ops).q.front < Exec(AsWritten, s, ops).q.size
    ensures !Joins(AsWritten, Exec(AsWritten, s, ops).q)
  {
    WrittenRun(s, n, ops);
    WrittenNeverJoins(Exec(AsWritten, s, ops).q);
  }

  lemma WrittenPutToEmpty(s: System, n: nat, r: string)
    requires WrittenInv(s, n) && |s.got| == |s.sent| && IsRequest(r)
    requires NoneStraddles(s.q.size, s.sent, |s.got|)
    ensures Enabled(s, Put(r))
    ensures var m := Next(AsWritten, s, Put(r));
            && WrittenInv(m, n) && m.q.size == s.q.size && m.q.front == s.q.front
            && m.sent == s.sent + [r] && m.got == s.got
            && NoneStraddles(m.q.size, m.sent, |m.got|)
  {
    WrittenPut(s, n, r);
    StraddlesAfterPut(s.q.size, s.sent, r, |s.got|);
  }

  lemma WrittenFetchesOldest(s: System, n: nat)
    requires WrittenInv(s, n) && s.q.full > 0
    requires NoneStraddles(s.q.size, s.sent, |s.got|)
    ensures var r := s.sent[|s.got|];
            Fetched(AsWritten, s.q)
            == if s.q.front + |r| > s.q.size then r[..s.q.size - s.q.front] else r
  {
    OldestIsAtFront(s, n);
    WrittenFetch(s.q, s.sent[|s.got|]);
  }

  lemma WrittenDelivers(s: System, n: nat)
    requires WrittenInv(s, n) && |s.got| < |s.sent|
    requires NoneStraddles(s.q.size, s.sent, |s.got|)
    ensures Enabled(s, Get)
    ensures var e := Next(AsWritten, s, Get);
            var r := s.sent[|s.got|];
            && WrittenInv(e, n) && e.q.size == s.q.size && e.sent == s.sent
            && e.got == s.got + [if s.q.front + |r| > s.q.size then r[..s.q.size - s.q.front] else r]
  {
    WrittenFetchesOldest(s, n);
    WrittenGet(s, n);
  }

  lemma WrittenFirstRound(s: System, a: string)
    requires Initial(s, 1) && IsRequest(a) && |a| == 1000
    ensures Enabled(s, Put(a)) && Enabled(Next(AsWritten, s, Put(a)), Get)
    ensures var m := Next(AsWritten, Next(AsWritten, s, Put(a)), Get);
            && WrittenInv(m, 1) && m.q.size == 1282 && m.sent == [a] && m.got == [a]
  {
    WrittenPutToEmpty(s, 1, a);
    WrittenDelivers(Next(AsWritten, s, Put(a)), 1);
  }

  lemma WrittenSecondRound(m: System, a: string, b: string)
    requires WrittenInv(m, 1) && m.q.size == 1282 && m.sent == [a] && m.got == [a]
    requires |a| == 1000 && IsRequest(b) && |b| == 500
    ensures Enabled(m, Put(b)) && Enabled(Next(AsWritten, m, Put(b)), Get)
    ensures Next(AsWritten, Next(AsWritten, m, Put(b)), Get).got == [a, b[..281]]
  {
    assert StartOf(1282, m.sent, 0) == 0 && StartOf(1282, m.sent, 1) == 1001;
    assert !Straddles(1282, m.sent, 0);
    WrittenPutToEmpty(m, 1, b);
    WrittenDelivers(Next(AsWritten, m, Put(b)), 1);
  }

  /** A queue of one line: after a request of 1000 characters, one of 500 starts at cell 1001 and is
      delivered as its first 281 characters. */
  lemma WrittenQueueTruncates(s: System, a: string, b: string)
    requires Initial(s, 1) && IsRequest(a) && IsRequest(b) && |a| == 1000 && |b| == 500
    ensures Enabled(s, Put(a)) && Enabled(Next(AsWritten, s, Put(a)), Get)
    ensures var m := Next(AsWritten, Next(AsWritten, s, Put(a)), Get);
            && Enabled(m, Put(b)) && Enabled(Next(AsWritten, m, Put(b)), Get)
            && Next(AsWritten, Next(AsWritten, m, Put(b)), Get).got == [a, b[..281]]
  {
    WrittenFirstRound(s, a);
    WrittenSecondRound(Next(AsWritten, Next(AsWritten, s, Put(a)), Get), a, b);
  }

  // ------------------------------------------------------------------ no interference in memory

  lemma {:induction false} MemoryRun(g: Guard, s: System, n: nat, ops: seq<Op>)
    requires MemoryInv(s, n) && CanRun(g, s, ops)
    ensures MemoryInv(Exec(g, s, ops), n)
    decreases |ops|
  {
    if ops != [] {
      if ops[0].Get? {
        GetKeepsMemory(g, s, n);
      } else {
        PutKeepsMemory(g, s, n, ops[0].request);
      }
      MemoryRun(g, Next(g, s, ops[0]), n, ops[1..]);
    }
  }

  /** In every reachable state the pending bytes fit the ring, and an enqueue that may go ahead
      writes none of them. */
  lemma EnqueueSparesPendingBytes(g: Guard, s: System, n: nat, ops: seq<Op>, r: string)
    requires Initial(s, n) && CanRun(g, s, ops)
    requires Enabled(Exec(g, s, ops), Put(r))
    ensures var e := Exec(g, s, ops);
            && |e.got| <= |e.sent|
            && |Bytes(Pending(e))| + |r| + 1 <= e.q.size
            && var start := StartOf(e.q.size, e.sent, |e.got|);
               forall j, k :: 0 <= j < |Bytes(Pending(e))| && 0 <= k <= |r| ==>
                 Cell(e.q.size, start, j) != Cell(e.q.size, e.q.back, k)
  {
    MemoryRun(g, s, n, ops);
    RoomForOneMore(Exec(g, s, ops), n, r);
  }

  lemma {:induction false} StartOfPending(size: nat, sent: seq<string>, i: nat, j: nat)
    requires 0 < size && i <= j <= |sent| && StartOf(size, sent, i) < size
    requires |Bytes(sent[i..])| <= size
    ensures |Bytes(sent[i..j])| <= |Bytes(sent[i..])|
    ensures StartOf(size, sent, j) == Cell(size, StartOf(size, sent, i), |Bytes(sent[i..j])|)
    ensures j < |sent| ==> |Bytes(sent[i..j])| + |sent[j]| + 1 <= |Bytes(sent[i..])|
  {
    if i == j {
      assert sent[i..j] == [];
    } else {
      StartOfPending(size, sent, i, j - 1);
      assert sent[i..j] == sent[i..j - 1] + [sent[j - 1]];
      BytesAppend(sent[i..j - 1], sent[j - 1]);
    }
    assert sent[i..] == sent[i..j] + sent[j..];
    BytesOfSum(sent[i..j], sent[j..]);
  }

  lemma {:induction false} BytesOfSum(a: seq<string>, b: seq<string>)
    ensures Bytes(a + b) == Bytes(a) + Bytes(b)
  {
    if a == [] {
      assert a + b == b;
    } else {
      assert (a + b)[1..] == a[1..] + b;
      BytesOfSum(a[1..], b);
    }
  }

  /** Two split requests are never pending together, so `overlap` is not overwritten while needed. */
  lemma AtMostOneSplitPending(g: Guard, s: System, n: nat, ops: seq<Op>, i: nat, j: nat)
    requires Initial(s, n) && CanRun(g, s, ops)
    requires |Exec(g, s, ops).got| <= i < j < |Exec(g, s, ops).sent|
    ensures var e := Exec(g, s, ops);
            !(Splits(e.q.size, e.sent, i) && Splits(e.q.size, e.sent, j))
  {
    var e := Exec(g, s, ops);
    MemoryRun(g, s, n, ops);
    OneSplitAmong(e.q.size, e.sent, |e.got|, i, j);
  }

  lemma OneSplitAmong(size: nat, sent: seq<string>, k: nat, i: nat, j: nat)
    requires k <= i < j < |sent| && |Bytes(sent[k..])| <= size && StartOf(size, sent, k) < size
    ensures !(Splits(size, sent, i) && Splits(size, sent, j))
  {
    StartOfPending(size, sent, k, i);
    StartOfPending(size, sent, k, j);
    assert sent[k..j] == sent[k..i] + sent[i..j];
    BytesOfSum(sent[k..i], sent[i..j]);
    assert sent[i..j][0] == sent[i];
    OneBoundary(size, StartOf(size, sent, k), |Bytes(sent[k..i])|, |sent[i]| + 1,
                |Bytes(sent[k..j])|, |sent[j]| + 1);
  }

  /** Among stretches that together fit the ring, only one can cross its end. */
  lemma OneBoundary(size: nat, at: nat, b: nat, len: nat, b': nat, len': nat)
    requires at < size && b + len <= b' && b' + len' <= size
    ensures !(Cell(size, at, b) + len > size && Cell(size, at, b') + len' > size)
  {
  }

  // ------------------------------------------------------------------ the code on shared memory

  /** The mapped region: `size` bytes, the extra byte, the overlap counter; and the semaphores. */
  class Region {
    const size: nat
    const buffer: array<char>
    var overlap: nat
    var empty: nat
    var full: nat

    constructor (n: nat)
      requires n > 0
      ensures fresh(buffer) && size == n * LINE_SIZE && buffer.Length == size + 1
      ensures buffer[size] == NUL && overlap == 0 && empty == n && full == 0
    {
      size := n * LINE_SIZE;
      buffer := new char[n * LINE_SIZE + 1](_ => NUL);
      overlap, empty, full := 0, n, 0;
    }
  }

  class ClientEnd {
    const region: Region
    var back: nat

    constructor (region: Region)
      ensures this.region == region && back == 0
    {
      this.region, back := region, 0;
    }
  }

  class ServerEnd {
    const region: Region
    var front: nat

    constructor (region: Region)
      ensures this.region == region && front == 0
    {
      this.region, front := region, 0;
    }
  }

  ghost function View(c: ClientEnd, s: ServerEnd): Queue
    requires c.region == s.region
    reads c, s, c.region, c.region.buffer
  {
    Queue(c.region.size, c.region.buffer[..], c.region.overlap, c.region.empty, c.region.full,
          c.back, s.front)
  }

  /** sprintf of one string, character by character, then the terminator. */
  method PrintString(buffer: array<char>, at: nat, s: string)
    requires at + |s| + 1 <= buffer.Length
    modifies buffer
    ensures buffer[..] == Stored(old(buffer[..]), at, s)
  {
    var i := 0;
    while i < |s|
      invariant 0 <= i <= |s|
      invariant buffer[..] == old(buffer[..at]) + s[..i] + old(buffer[at + i..])
    {
      buffer[at + i] := s[i];
      i := i + 1;
    }
    buffer[at + i] := NUL;
  }

  /** strcpy from shared memory: the characters up to the terminator. */
  method CopyString(buffer: array<char>, at: nat) returns (s: string)
    requires at < buffer.Length && buffer[buffer.Length - 1] == NUL
    ensures s == UpToNul(buffer[at..])
  {
    s := [];
    var i := at;
    while buffer[i] != NUL
      invariant at <= i < buffer.Length
      invariant s + UpToNul(buffer[i..]) == UpToNul(buffer[at..])
      decreases buffer.Length - i
    {
      assert buffer[i..][1..] == buffer[i + 1..];
      s := s + [buffer[i]];
      i := i + 1;
    }
  }

  method WriteRequest(region: Region, back: nat, request: string)
    requires back < region.size && region.buffer.Length == region.size + 1
    requires |request| < region.size
    modifies region`overlap, region.buffer
    ensures region.buffer[..] == Written(old(region.buffer[..]), region.size, back, request)
    ensures region.overlap == if back + |request| + 1 <= region.size then old(region.overlap)
                              else region.size - back
  {
    if back + |request| + 1 <= region.size {
      PrintString(region.buffer, back, request);
    } else {
      var offset := region.size - back;
      PrintString(region.buffer, back, request[..offset]);
      PrintString(region.buffer, 0, request[offset..]);
      region.overlap := offset;
    }
  }

  method Enqueue(c: ClientEnd, ghost s: ServerEnd, request: string)
    requires c.region == s.region && Shape(View(c, s)) && IsRequest(request)
    requires c.region.empty > 0
    modifies c, c.region, c.region.buffer
    ensures View(c, s) == Enqueued(old(View(c, s)), request)
  {
    var region := c.region;
    var reqlen := |request| + 1;
    region.empty := region.empty - 1;
    WriteRequest(region, c.back, request);
    region.full := region.full + 1;
    c.back := (c.back + reqlen) % region.size;
  }

  /** The copy out of the ring, with the guard's decision. */
  method FetchRequest(g: Guard, region: Region, front: nat, ghost q: Queue) returns (request: string)
    requires Shape(q) && q.size == region.size && q.mem == region.buffer[..] && q.overlap == region.overlap
    requires q.front == front
    modifies region`overlap
    ensures request == Fetched(g, q) && region.overlap == if Joins(g, q) then 0 else q.overlap
  {
    var joins :=
      match g
      case AsWritten => !(region.overlap != 0 || front != region.size - region.overlap)
      case AsDocumented => region.overlap != 0 && front == region.size - region.overlap;
    if !joins {
      request := CopyString(region.buffer, front);
      assert region.buffer[front..] == q.mem[front..];
    } else {
      var rest := CopyString(region.buffer, 0);
      assert region.buffer[0..] == q.mem;
      request := UpToNul(region.buffer[front..front + region.overlap] + rest);
      region.overlap := 0;
    }
  }

  method Dequeue(g: Guard, ghost c: ClientEnd, s: ServerEnd) returns (request: string)
    requires c.region == s.region && Shape(View(c, s))
    requires s.region.full > 0
    modifies s, s.region
    ensures request == Fetched(g, old(View(c, s)))
    ensures View(c, s) == Dequeued(g, old(View(c, s)))
  {
    ghost var q := View(c, s);
    var region := s.region;
    region.full := region.full - 1;
    request := FetchRequest(g, region, s.front, q);
    region.empty := region.empty + 1;
    var reqlen := (|request| + 1) % 0x1_0000;
    s.front := (s.front + reqlen) % region.size;
  }
}
