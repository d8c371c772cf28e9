/** Setting up an asynchronous I/O context and the methods that work on it (fs/aio.c).

The ring lies on pages behind a 32-byte header, so slot `i` is entry `i + 1` of the pages.  The
methods are the code on its own counters and pages; AioRing takes them apart into atomic steps.
*/
module AioContext {
  import opened Collections
  import opened Modulo
  import opened AioRing

  // ------------------------------------------------------------------ sizes

  const PAGE_SIZE: nat := 4096
  const RING_HEADER: nat := 32
  const EVENT_SIZE: nat := 32

  /** What an unsigned holds, and the most events a ring may be asked for. */
  const UNSIGNED: nat := 0x1_0000_0000
  const MOST_EVENTS: nat := 0x1000_0000 / EVENT_SIZE

  /** ioctx_alloc: the quota for a request of `nr` events on `cpus` possible CPUs.  The product is an
      unsigned. */
  function MaxReqs(nr: nat, cpus: nat): nat {
    (if nr < cpus * 4 then cpus * 4 else nr) * 2 % UNSIGNED
  }

  /** aio_setup_ring: PFN_UP of the header and the events plus two. */
  function RingPages(maxReqs: nat): nat {
    (RING_HEADER + EVENT_SIZE * (maxReqs + 2) + PAGE_SIZE - 1) / PAGE_SIZE
  }

  function NrEvents(pages: nat): nat
    requires pages > 0
  {
    (PAGE_SIZE * pages - RING_HEADER) / EVENT_SIZE
  }

  function BatchSize(n: nat, cpus: nat): nat
    requires n > 0 && cpus > 0
  {
    var b := (n - 1) / (cpus * 4);
    if b < 1 then 1 else b
  }

  /** The ring holds the quota and the two spare slots, and its slots fill the pages exactly. */
  lemma RingHoldsTheQuota(maxReqs: nat)
    ensures RingPages(maxReqs) > 0
    ensures NrEvents(RingPages(maxReqs)) >= maxReqs + 2
    ensures NrEvents(RingPages(maxReqs)) + EVENTS_OFFSET == EVENTS_PER_PAGE * RingPages(maxReqs)
  {
  }

  lemma BatchesLeaveHalf(n: nat, cpus: nat)
    requires cpus > 0 && n - 1 >= cpus * 4
    ensures 2 * (cpus * (2 * BatchSize(n, cpus))) <= n - 1
  {
    var b := (n - 1) / (cpus * 4);
    assert b * (cpus * 4) <= n - 1;
    assert b * (cpus * 4) == 2 * (cpus * (2 * b));
  }

  /** Room for `nr` events: two slots for each, and batches that leave half of the slots. */
  predicate RoomFor(nr: nat, n: nat, batch: nat, cpus: nat) {
    2 * nr <= n - 1 && 2 * (cpus * (2 * batch)) <= n - 1
  }

  lemma RingIsNotMuchLarger(maxReqs: nat)
    ensures NrEvents(RingPages(maxReqs)) <= maxReqs + 130
  {
    RingHoldsTheQuota(maxReqs);
  }

  /** The sizes ioctx_alloc and aio_setup_ring compute for io_setup(nr), if it does not refuse them, have
      room for `nr` events exactly when twice as many are an unsigned. */
  lemma SetupHasRoomExactlyWhen(nr: nat, cpus: nat)
    requires nr < UNSIGNED && 0 < cpus && cpus * 8 < UNSIGNED && MaxReqs(nr, cpus) <= MOST_EVENTS
    ensures var pages := RingPages(MaxReqs(nr, cpus));
            && pages > 0 && NrEvents(pages) >= 2
            && (RoomFor(nr, NrEvents(pages), BatchSize(NrEvents(pages), cpus), cpus) <==> 2 * nr < UNSIGNED)
  {
    RingHoldsTheQuota(MaxReqs(nr, cpus));
    RingIsNotMuchLarger(MaxReqs(nr, cpus));
    QuotaIsTwice(nr, cpus);
    RoomExactlyWhen(nr, cpus, MaxReqs(nr, cpus), NrEvents(RingPages(MaxReqs(nr, cpus))));
  }

  lemma QuotaIsTwice(nr: nat, cpus: nat)
    requires cpus * 8 < UNSIGNED
    ensures 2 * nr < UNSIGNED ==> MaxReqs(nr, cpus) >= 2 * nr && MaxReqs(nr, cpus) >= cpus * 8
  {
  }

  lemma RoomExactlyWhen(nr: nat, cpus: nat, maxReqs: nat, n: nat)
    requires 0 < cpus && maxReqs + 2 <= n <= maxReqs + 130 && maxReqs <= MOST_EVENTS
    requires 2 * nr < UNSIGNED ==> maxReqs >= 2 * nr && maxReqs >= cpus * 8
    ensures RoomFor(nr, n, BatchSize(n, cpus), cpus) <==> 2 * nr < UNSIGNED
  {
    if 2 * nr < UNSIGNED {
      BatchesLeaveHalf(n, cpus);
    }
  }

  /** A request that is not refused and gets one page: twice 2^31 + 1 is 2 in an unsigned. */
  lemma TooManyEventsWrap()
    ensures MaxReqs(0x8000_0001, 4) == 2 && RingPages(2) == 1
    ensures !RoomFor(0x8000_0001, NrEvents(1), BatchSize(NrEvents(1), 4), 4)
  {
    SetupHasRoomExactlyWhen(0x8000_0001, 4);
  }

  /** A context with room for `nr` events: on every run, a submission is refused for lack of credits
      only when at least `nr` requests are in flight, completed and not known to be read, or on
      their way through another CPU's credit operation; up to half the slots may sit in other pools. */
  lemma QuotaIsHonoured(trace: seq<State>, steps: seq<Step>, i: nat, c: nat, nr: nat)
    requires Run(trace, steps) && i < |trace| && Refuses(trace[i], c)
    requires RoomFor(nr, trace[i].n, trace[i].batch, |trace[i].cpus|)
    ensures trace[i].inflight + trace[i].completed + Held(trace[i].lock) + Busy(trace[i].cpus) >= nr
  {
    RefusalMeansQuotaUsed(trace, steps, i, c);
  }

  // ------------------------------------------------------------------ slots and pages

  /** A slot's page and index, and that different slots differ in one of them. */
  lemma SlotsAreDistinctEntries(pages: nat, i: nat, j: nat)
    requires 0 < pages && i < j < NrEvents(pages)
    ensures (i + EVENTS_OFFSET) / EVENTS_PER_PAGE < pages
    ensures (j + EVENTS_OFFSET) / EVENTS_PER_PAGE < pages
    ensures (i + EVENTS_OFFSET) / EVENTS_PER_PAGE != (j + EVENTS_OFFSET) / EVENTS_PER_PAGE
            || (i + EVENTS_OFFSET) % EVENTS_PER_PAGE != (j + EVENTS_OFFSET) % EVENTS_PER_PAGE
  {
  }

  /** The unread events between head and tail, oldest first. */
  function Unread(slots: seq<Event>, head: nat, tail: nat): seq<Event>
    requires head < |slots| && tail < |slots|
  {
    if head <= tail then slots[head..tail] else slots[head..] + slots[..tail]
  }

  /** Copying `k` events from the front leaves the rest. */
  lemma UnreadSplit(slots: seq<Event>, head: nat, tail: nat, k: nat)
    requires head < |slots| && tail < |slots| && head + k <= |slots|
    requires head <= tail ==> head + k <= tail
    requires head != tail
    ensures Unread(slots, head, tail)
         == slots[head..head + k] + Unread(slots, Mod(head + k, |slots|), tail)
  {
    ModSmall(head + k, |slots|);
  }

  /** put_reqs_available's loop. */
  function Drained(pool: nat, available: nat, batch: nat): (nat, nat)
    requires batch > 0
  {
    if pool < batch * 2 then (pool, available) else Drained(pool - batch, available + batch, batch)
  }

  /** It moves whole batches to the global counter and leaves at most one spare batch behind. */
  lemma {:induction false} DrainedProperties(pool: nat, available: nat, batch: nat)
    requires batch > 0
    ensures var r := Drained(pool, available, batch);
            && r.0 + r.1 == pool + available
            && r.0 < batch * 2 && r.1 >= available
            && (r.1 > available ==> r.0 >= batch)
            && Mod(r.1 - available, batch) == 0
  {
    if pool >= batch * 2 {
      DrainedProperties(pool - batch, available + batch, batch);
      var r := Drained(pool, available, batch);
      assert Mod(r.1 - available, batch) == Mod(r.1 - available - batch, batch);
    }
  }

  /** The pages of a new ring. */
  method NewPages(count: nat) returns (pages: seq<array<Event>>)
    ensures |pages| == count
    ensures forall p :: 0 <= p < count ==> fresh(pages[p]) && pages[p].Length == EVENTS_PER_PAGE
    ensures forall p, q :: 0 <= p < q < count ==> pages[p] != pages[q]
  {
    pages := [];
    while |pages| < count
      invariant |pages| <= count
      invariant forall p :: 0 <= p < |pages| ==> fresh(pages[p]) && pages[p].Length == EVENTS_PER_PAGE
      invariant forall p, q :: 0 <= p < q < |pages| ==> pages[p] != pages[q]
    {
      var page := new Event[EVENTS_PER_PAGE](_ => Event(0, 0, 0, 0));
      pages := pages + [page];
    }
  }

  class Kioctx {
    const n: nat
    const batch: nat
    const pages: seq<array<Event>>
    const pools: array<nat>
    var available: nat
    var completed: nat
    var tail: nat
    /** The head and tail in the ring's header, which userland maps. */
    var ringHead: nat
    var ringTail: nat

    ghost predicate Valid()
      reads this`tail
    {
      && 0 < |pages| && n == NrEvents(|pages|) && batch > 0
      && (forall p :: 0 <= p < |pages| ==> pages[p].Length == EVENTS_PER_PAGE)
      && (forall p, q :: 0 <= p < q < |pages| ==> pages[p] != pages[q])
      && tail < n
    }

    /** The context of ioctx_alloc and the ring of aio_setup_ring, on `cpus` possible CPUs. */
    constructor (maxReqs: nat, cpus: nat)
      requires cpus > 0
      ensures Valid() && fresh(pools) && (forall p :: 0 <= p < |pages| ==> fresh(pages[p]))
      ensures pools.Length == cpus && forall c :: 0 <= c < cpus ==> pools[c] == 0
      ensures available == n - 1 && completed == 0 && tail == 0 && ringHead == 0 && ringTail == 0
      ensures |pages| == RingPages(maxReqs) && batch == BatchSize(n, cpus)
    {
      RingHoldsTheQuota(maxReqs);
      var count := RingPages(maxReqs);
      var ring := NewPages(count);
      pages, pools := ring, new nat[cpus](_ => 0);
      n, batch := NrEvents(count), BatchSize(NrEvents(count), cpus);
      available, completed := NrEvents(count) - 1, 0;
      tail, ringHead, ringTail := 0, 0, 0;
    }

    ghost function Slots(): (s: seq<Event>)
      requires Valid()
      reads this`tail, pages
      ensures |s| == n
    {
      seq(n, i requires 0 <= i < n reads pages =>
        pages[(i + EVENTS_OFFSET) / EVENTS_PER_PAGE][(i + EVENTS_OFFSET) % EVENTS_PER_PAGE])
    }

    method PutReqsAvailable(cpu: nat, nr: nat)
      requires Valid() && cpu < pools.Length
      modifies this`available, pools
      ensures (pools[cpu], available) == Drained(old(pools[cpu]) + nr, old(available), batch)
      ensures forall c :: 0 <= c < pools.Length && c != cpu ==> pools[c] == old(pools[c])
    {
      pools[cpu] := pools[cpu] + nr;
      while pools[cpu] >= batch * 2
        invariant Drained(pools[cpu], available, batch)
               == Drained(old(pools[cpu]) + nr, old(available), batch)
        invariant forall c :: 0 <= c < pools.Length && c != cpu ==> pools[c] == old(pools[c])
        decreases pools[cpu]
      {
        pools[cpu] := pools[cpu] - batch;
        available := available + batch;
      }
    }

    /** get_reqs_available.  Other CPUs may change the shared counter between the read and the cmpxchg:
        `others` are the values they leave it with, one for each round until they stop.  `found` is the
        value this CPU acts on in the end. */
    method GetReqsAvailable(cpu: nat, others: seq<nat>) returns (ok: bool, found: nat)
      requires Valid() && cpu < pools.Length
      modifies this`available, pools
      ensures forall c :: 0 <= c < pools.Length && c != cpu ==> pools[c] == old(pools[c])
      ensures old(pools[cpu]) > 0 ==> ok && available == old(available) && pools[cpu] == old(pools[cpu]) - 1
      ensures old(pools[cpu]) == 0 ==>
                && (found == old(available) || found in others) && (ok <==> found >= batch)
                && available == found - (if ok then batch else 0)
                && pools[cpu] == if ok then batch - 1 else 0
    {
      found := available;
      if pools[cpu] == 0 {
        var avail, k := available, 0;
        while true
          invariant 0 <= k <= |others| && avail == available == found && pools[cpu] == 0
          invariant found == old(available) || found in others
          invariant forall c :: 0 <= c < pools.Length ==> pools[c] == old(pools[c])
          decreases |others| - k
        {
          if avail < batch {
            return false, found;
          }
          var expected := avail;
          if k < |others| {
            available := others[k];
            k := k + 1;
          }
          avail, found := available, available;
          if avail == expected {
            available := avail - batch;
            break;
          }
        }
        pools[cpu] := pools[cpu] + batch;
      }
      ok := true;
      pools[cpu] := pools[cpu] - 1;
    }

    method RefillReqsAvailable(cpu: nat, head: nat, tail: nat)
      requires Valid() && cpu < pools.Length && tail < n
      modifies this`available, this`completed, pools
      ensures var x := Excess(n, old(completed), head, tail);
              && completed == old(completed) - x
              && (pools[cpu], available) ==
                 (if x == 0 then (old(pools[cpu]), old(available))
                  else Drained(old(pools[cpu]) + x, old(available), batch))
      ensures forall c :: 0 <= c < pools.Length && c != cpu ==> pools[c] == old(pools[c])
    {
      var h := Reduce(head, n);
      var eventsInRing := if h <= tail then tail - h else n - (h - tail);
      var free := completed;
      if eventsInRing < free {
        free := free - eventsInRing;
      } else {
        free := 0;
      }
      if free == 0 {
        return;
      }
      completed := completed - free;
      PutReqsAvailable(cpu, free);
    }

    /** The stretch of one page that a chunk copies. */
    lemma PageHoldsChunk(head: nat, k: nat)
      requires Valid() && head + k <= n
      requires (head + EVENTS_OFFSET) % EVENTS_PER_PAGE + k <= EVENTS_PER_PAGE
      ensures 0 < k ==> (head + EVENTS_OFFSET) / EVENTS_PER_PAGE < |pages|
      ensures 0 < k ==>
                var page := pages[(head + EVENTS_OFFSET) / EVENTS_PER_PAGE];
                var pos := (head + EVENTS_OFFSET) % EVENTS_PER_PAGE;
                page[pos..pos + k] == Slots()[head..head + k]
    {
      if 0 < k {
        var page := pages[(head + EVENTS_OFFSET) / EVENTS_PER_PAGE];
        var pos := (head + EVENTS_OFFSET) % EVENTS_PER_PAGE;
        var a, b := page[pos..pos + k], Slots()[head..head + k];
        forall j | 0 <= j < k
          ensures a[j] == b[j]
        {
          assert (head + j + EVENTS_OFFSET) / EVENTS_PER_PAGE == (head + EVENTS_OFFSET) / EVENTS_PER_PAGE;
          assert (head + j + EVENTS_OFFSET) % EVENTS_PER_PAGE == pos + j;
        }
      }
    }

    /** The copy out of one mapped page. */
    method CopyFromPage(head: nat, k: nat) returns (chunk: seq<Event>)
      requires Valid() && 0 < k && head + k <= n
      requires (head + EVENTS_OFFSET) % EVENTS_PER_PAGE + k <= EVENTS_PER_PAGE
      ensures chunk == Slots()[head..head + k]
    {
      PageHoldsChunk(head, k);
      var pos := head + EVENTS_OFFSET;
      var page := pages[pos / EVENTS_PER_PAGE];
      pos := pos % EVENTS_PER_PAGE;
      chunk := page[pos..pos + k];
    }

    /** The copy loop of aio_read_events_ring, from reduced indices; a copy to userland may fault. */
    method CopyLoop(first: nat, tail: nat, nr: int) returns (fault: bool, events: seq<Event>, head: nat)
      requires Valid() && first < n && tail < n
      ensures Progress(Slots(), first, tail, head, events)
      ensures |events| <= Max(nr, 0)
      ensures if fault then |events| < nr && head != tail else |events| >= nr || head == tail
    {
      fault, events, head := false, [], first;
      ModSmall(first, n);
      while |events| < nr
        invariant !fault && Progress(Slots(), first, tail, head, events)
        invariant |events| <= Max(nr, 0)
      {
        if head == tail {
          break;
        }
        ChunkBounds(n, head, tail, nr - |events|);
        var avail := Chunk(n, head, tail, nr - |events|);
        var chunk := CopyFromPage(head, avail);
        fault := *;
        if fault {
          return;
        }
        var next := Reduce(head + avail, n);
        KeepsProgress(Slots(), first, tail, head, events, chunk, next);
        events, head := events + chunk, next;
      }
    }

    /** aio_read_events_ring: the oldest events, as many as wanted and there are, in order across page
        ends and the ring's end, and the head moves past them; or -EFAULT, and the head stays. */
    method ReadEventsRing(nr: int) returns (ret: Option<seq<Event>>)
      requires Valid()
      modifies this`ringHead
      ensures var unread := Unread(Slots(), Mod(old(ringHead), n), Mod(ringTail, n));
              if ret.Some? then
                && |ret.value| == Min(Max(nr, 0), |unread|) && ret.value == unread[..|ret.value|]
                && ringHead == if old(ringHead) == ringTail then old(ringHead)
                               else Mod(Mod(old(ringHead), n) + |ret.value|, n)
              else
                nr > 0 && unread != [] && ringHead == old(ringHead)
    {
      if ringHead == ringTail {
        return Some([]);
      }
      var first := Reduce(ringHead, n);
      var tail := Reduce(ringTail, n);
      var fault, events, head := CopyLoop(first, tail, nr);
      UnreadIsCut(Slots(), first, tail, head, events);
      if fault {
        return None;
      }
      ringHead := head;
      return Some(events);
    }
  }

  datatype Errno = EINVAL | EAGAIN | ENOMEM | EINTR

  /** ioctx_alloc(nr), with `aioNr` events in the system and `aioMaxNr` allowed.  `setup` is the error of
      the allocations and of the ring's mapping, and `adding` that of ioctx_add_table, if they fail. */
  method IoctxAlloc(nr: nat, cpus: nat, aioNr: nat, aioMaxNr: nat, setup: Option<Errno>, adding: Option<Errno>)
    returns (ctx: Kioctx?, error: Option<Errno>, aioNr': nat)
    requires nr < UNSIGNED && 0 < cpus && cpus * 8 < UNSIGNED
    ensures error == if MaxReqs(nr, cpus) > MOST_EVENTS then Some(EINVAL)
                     else if MaxReqs(nr, cpus) == 0 || MaxReqs(nr, cpus) > aioMaxNr * 2 then Some(EAGAIN)
                     else if setup.Some? then setup
                     else if aioNr + MaxReqs(nr, cpus) > aioMaxNr * 2 then Some(EAGAIN)
                     else adding
    ensures error.Some? ==> ctx == null && aioNr' == aioNr
    ensures error.None? ==>
              && aioNr' == aioNr + MaxReqs(nr, cpus)
              && ctx != null && fresh(ctx) && ctx.Valid() && ctx.pools.Length == cpus && ctx.available == ctx.n - 1
              && (RoomFor(nr, ctx.n, ctx.batch, cpus) <==> 2 * nr < UNSIGNED)
  {
    var events := MaxReqs(nr, cpus);
    if events > MOST_EVENTS {
      return null, Some(EINVAL), aioNr;
    }
    if events == 0 || events > aioMaxNr * 2 {
      return null, Some(EAGAIN), aioNr;
    }
    if setup.Some? {
      return null, setup, aioNr;
    }
    ctx := new Kioctx(events, cpus);
    SetupHasRoomExactlyWhen(nr, cpus);
    if aioNr + events > aioMaxNr * 2 {
      return null, Some(EAGAIN), aioNr;
    }
    aioNr' := aioNr + events;
    if adding.Some? {
      return null, adding, aioNr' - events;
    }
    error := None;
  }

  function Max(a: int, b: int): int {
    if a < b then b else a
  }

  /** After delivering `events` from position `first`, the reader stands at `head`. */
  ghost predicate Progress(slots: seq<Event>, first: nat, tail: nat, head: nat, events: seq<Event>) {
    && first < |slots| && tail < |slots| && head < |slots|
    && head == Mod(first + |events|, |slots|)
    && events + Unread(slots, head, tail) == Unread(slots, first, tail)
  }

  /** What is delivered is the first part of what was unread, and the rest is still unread. */
  lemma UnreadIsCut(slots: seq<Event>, first: nat, tail: nat, head: nat, events: seq<Event>)
    requires Progress(slots, first, tail, head, events)
    ensures var unread := Unread(slots, first, tail);
            && |events| <= |unread| && events == unread[..|events|]
            && (head == tail <==> |events| == |unread|)
  {
  }

  lemma KeepsProgress(slots: seq<Event>, first: nat, tail: nat, head: nat, events: seq<Event>,
                      chunk: seq<Event>, next: nat)
    requires Progress(slots, first, tail, head, events) && head != tail
    requires head + |chunk| <= |slots| && (head <= tail ==> head + |chunk| <= tail)
    requires chunk == slots[head..head + |chunk|] && next == Mod(head + |chunk|, |slots|)
    ensures Progress(slots, first, tail, next, events + chunk)
  {
    UnreadSplit(slots, head, tail, |chunk|);
    CutFurther(events, chunk, Unread(slots, next, tail), Unread(slots, head, tail), Unread(slots, first, tail));
    NextPosition(first + |events|, |chunk|, |slots|);
    assert first + |events| + |chunk| == first + |events + chunk|;
  }

  lemma CutFurther(done: seq<Event>, chunk: seq<Event>, later: seq<Event>, rest: seq<Event>, whole: seq<Event>)
    requires done + rest == whole && rest == chunk + later
    ensures (done + chunk) + later == whole
  {
    Regroup(done, chunk, later);
  }

  lemma NextPosition(k: nat, j: nat, n: nat)
    requires n > 0 && Mod(k, n) + j <= n
    ensures Mod(k + j, n) == Mod(Mod(k, n) + j, n)
  {
    ModAdvance(k, j, n);
    ModSmall(Mod(k, n) + j, n);
  }
}
