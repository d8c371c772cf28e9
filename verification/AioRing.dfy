/** The completion ring of an asynchronous I/O context and its slot credits (fs/aio.c).

A context has `n` event slots.  A request may be submitted only with a credit; credits sit in a
global pool, in per-CPU pools that trade with it in batches, with requests in flight, or in
`completed`, the slots of stored events not yet known to be read.  Completions store events at the
tail under a lock; readers copy them out chunk by chunk and then move the head, which lies in memory
that userland can write.

Every step below is one atomic action of one CPU, of the reader or of userland.  The main results,
over every interleaving: credits are conserved whatever userland writes to the head; and, when only
the reader moves the head, no unread event is ever overwritten, a full ring never looks empty, and
the delivered events are exactly the completed ones in order.
*/
module AioRing {
  import opened Modulo

  // ------------------------------------------------------------------ ring arithmetic of the code

  /** refill_reqs_available: how many completed slots are known to be free, for a head of any value. */
  function Excess(n: nat, completed: nat, head: nat, tail: nat): (x: nat)
    requires 0 < n && tail < n
    ensures x <= completed
  {
    var h := Mod(head, n);
    var eventsInRing := if h <= tail then tail - h else n - (h - tail);
    if eventsInRing < completed then completed - eventsInRing else 0
  }

  /** aio_complete: the tail after one more event. */
  function Bump(n: nat, tail: nat): nat {
    if tail + 1 >= n then 0 else tail + 1
  }

  const EVENTS_PER_PAGE: nat := 128
  const EVENTS_OFFSET: nat := 1

  function Min(a: int, b: int): int {
    if a < b then a else b
  }

  /** The events one iteration of aio_read_events_ring copies: up to the tail or the end of the ring,
      up to what is still wanted, and not beyond the page. */
  function Chunk(n: nat, head: nat, tail: nat, want: int): int
    requires head < n && tail < n
  {
    var avail := (if head <= tail then tail else n) - head;
    Min(Min(avail, want), EVENTS_PER_PAGE - (head + EVENTS_OFFSET) % EVENTS_PER_PAGE)
  }

  // ------------------------------------------------------------------ the state

  /** struct io_event. */
  datatype Event = Event(obj: nat, data: nat, res: int, res2: int)

  /** Where a CPU is inside get_reqs_available or put_reqs_available. */
  datatype Pc = Ready | Taking | Adding | Draining

  /** `hand`: credits the CPU has taken out of one place and not yet put into the next. */
  datatype Cpu = Cpu(pool: nat, hand: nat, pc: Pc)

  /** completion_lock.  `head` is the ring's head as read under the lock, possibly stale when it is
      used; `seen` records how many events had been delivered when it was read. */
  datatype Lock =
    | Free
    | Completing(cpu: nat, head: nat, seen: nat)
    | Refilling(cpu: nat, head: nat, seen: nat)
    | Returning(cpu: nat)

  /** `stop` records the number of events that had been stored when the reader read the tail. */
  datatype Reader =
    | Away
    | Reading(head: nat, tail: nat, want: int, got: seq<Event>, stop: nat)

  datatype State = State(
    n: nat, batch: nat,
    available: nat, cpus: seq<Cpu>, inflight: nat, completed: nat,
    slots: seq<Event>, tail: nat, head: nat,
    lock: Lock, reader: Reader,
    stored: seq<Event>, delivered: seq<Event>)

  datatype Step =
    | TakeLocal(cpu: nat)
    | Grab(cpu: nat)
    | Settle(cpu: nat)
    | Cancel(cpu: nat)
    | Add(cpu: nat)
    | Drain(cpu: nat)
    | Push(cpu: nat)
    | EndPut(cpu: nat)
    | Store(cpu: nat, event: Event)
    | Count(cpu: nat)
    | Inspect(cpu: nat)
    | Refill(cpu: nat)
    | Unlock(cpu: nat)
    | BeginRead(nr: int)
    | CopyChunk
    | EndRead
    | FaultRead
    | Scribble(value: nat)

  predicate IsIdle(s: State, c: nat) {
    c < |s.cpus| && s.cpus[c].pc == Ready
  }

  ghost predicate Enabled(s: State, step: Step) {
    match step
    // get_reqs_available
    case TakeLocal(c) => IsIdle(s, c) && s.cpus[c].pool > 0
    case Grab(c) => IsIdle(s, c) && s.cpus[c].pool == 0 && s.available >= s.batch
    case Settle(c) => c < |s.cpus| && s.cpus[c].pc == Taking
    // put_reqs_available for a request that was dropped before completion
    case Cancel(c) => IsIdle(s, c) && s.inflight > 0
    // the body of put_reqs_available
    case Add(c) => c < |s.cpus| && s.cpus[c].pc == Adding
    case Drain(c) =>
      && c < |s.cpus| && s.cpus[c].pc == Draining && s.cpus[c].hand == 0
      && s.cpus[c].pool >= s.batch * 2
    case Push(c) => c < |s.cpus| && s.cpus[c].pc == Draining && s.cpus[c].hand > 0
    case EndPut(c) =>
      && c < |s.cpus| && s.cpus[c].pc == Draining && s.cpus[c].hand == 0
      && s.cpus[c].pool < s.batch * 2
    // aio_complete and user_refill_reqs_available, under the lock
    case Store(c, _) =>
      && IsIdle(s, c) && s.lock == Free && s.inflight > 0
      && s.tail < s.n && |s.slots| == s.n
    case Count(c) => IsIdle(s, c) && s.lock.Completing? && s.lock.cpu == c && s.tail < s.n
    case Inspect(c) => IsIdle(s, c) && s.lock == Free && s.completed > 0
    case Refill(c) => IsIdle(s, c) && s.lock.Refilling? && s.lock.cpu == c && s.tail < s.n
    case Unlock(c) => IsIdle(s, c) && s.lock == Returning(c)
    // aio_read_events_ring, under ring_lock
    case BeginRead(_) => s.reader == Away && s.n > 0
    case CopyChunk =>
      && s.reader.Reading? && |s.reader.got| < s.reader.want && s.reader.head != s.reader.tail
      && s.reader.head < s.n && s.reader.tail < s.n && |s.slots| == s.n
    case EndRead =>
      s.reader.Reading? && (|s.reader.got| >= s.reader.want || s.reader.head == s.reader.tail)
    case FaultRead => s.reader.Reading?
    // userland
    case Scribble(_) => true
  }

  /** put_reqs_available(ctx, x) begins on CPU `c`. */
  function PutBegun(s: State, c: nat, x: nat): State
    requires c < |s.cpus|
  {
    s.(cpus := s.cpus[c := s.cpus[c].(hand := x, pc := Adding)])
  }

  /** refill_reqs_available with head `h`; the lock is kept until the put is over. */
  function Refilled(s: State, c: nat, h: nat): State
    requires c < |s.cpus| && s.tail < s.n
  {
    var x := Excess(s.n, s.completed, h, s.tail);
    var s' := s.(completed := s.completed - x, lock := Returning(c));
    if x == 0 then s' else PutBegun(s', c, x)
  }

  lemma ChunkBounds(n: nat, head: nat, tail: nat, want: int)
    requires head < n && tail < n && head != tail && want > 0
    ensures 1 <= Chunk(n, head, tail, want) <= want
    ensures head + Chunk(n, head, tail, want) <= n
    ensures head <= tail ==> head + Chunk(n, head, tail, want) <= tail
    ensures (head + EVENTS_OFFSET) % EVENTS_PER_PAGE + Chunk(n, head, tail, want) <= EVENTS_PER_PAGE
  {
  }

  /** The successful cmpxchg of get_reqs_available. */
  function AfterGrab(s: State, c: nat): State
    requires c < |s.cpus| && s.available >= s.batch
  {
    s.(available := s.available - s.batch,
       cpus := s.cpus[c := s.cpus[c].(hand := s.batch, pc := Taking)])
  }

  /** aio_complete up to reading the head. */
  function AfterStore(s: State, c: nat, event: Event): State
    requires s.inflight > 0 && s.tail < s.n && |s.slots| == s.n
  {
    s.(slots := s.slots[s.tail := event], tail := Bump(s.n, s.tail), inflight := s.inflight - 1,
       lock := Completing(c, s.head, |s.delivered|), stored := s.stored + [event])
  }

  /** aio_complete from counting the event on. */
  function AfterCount(s: State, c: nat): State
    requires c < |s.cpus| && s.lock.Completing? && s.tail < s.n
  {
    var s' := s.(completed := s.completed + 1);
    if s'.completed > 1 then Refilled(s', c, s.lock.head) else s'.(lock := Returning(c))
  }

  function AfterBegin(s: State, nr: int): State
    requires s.n > 0
  {
    if s.head == s.tail then s
    else s.(reader := Reading(Mod(s.head, s.n), Mod(s.tail, s.n), nr, [], |s.stored|))
  }

  /** The reader after copying `k` events that lie side by side. */
  function Advanced(r: Reader, slots: seq<Event>, n: nat, k: nat): Reader
    requires r.Reading? && 0 < n == |slots| && r.head + k <= n
  {
    r.(got := r.got + slots[r.head..r.head + k], head := Mod(r.head + k, n))
  }

  /** One iteration of the copy loop. */
  function AfterCopy(s: State): State
    requires s.reader.Reading? && |s.reader.got| < s.reader.want && s.reader.head != s.reader.tail
    requires s.reader.head < s.n && s.reader.tail < s.n && |s.slots| == s.n
  {
    var r := s.reader;
    ChunkBounds(s.n, r.head, r.tail, r.want - |r.got|);
    var k := Chunk(s.n, r.head, r.tail, r.want - |r.got|);
    s.(reader := Advanced(r, s.slots, s.n, k))
  }

  function AfterEnd(s: State): State
    requires s.reader.Reading?
  {
    s.(head := s.reader.head, reader := Away, delivered := s.delivered + s.reader.got)
  }

  /** The decrement that ends get_reqs_available would take the per-CPU counter below zero. */
  predicate Underflows(s: State, c: nat)
    requires c < |s.cpus|
  {
    s.cpus[c].pool + s.cpus[c].hand == 0
  }

  ghost function Apply(s: State, step: Step): State
    requires Enabled(s, step)
  {
    match step
    case TakeLocal(c) =>
      s.(cpus := s.cpus[c := s.cpus[c].(pool := s.cpus[c].pool - 1)], inflight := s.inflight + 1)
    case Grab(c) => AfterGrab(s, c)
    case Settle(c) =>
      if Underflows(s, c) then s
      else s.(cpus := s.cpus[c := Cpu(s.cpus[c].pool + s.cpus[c].hand - 1, 0, Ready)],
              inflight := s.inflight + 1)
    case Cancel(c) => PutBegun(s.(inflight := s.inflight - 1), c, 1)
    case Add(c) => s.(cpus := s.cpus[c := Cpu(s.cpus[c].pool + s.cpus[c].hand, 0, Draining)])
    case Drain(c) =>
      s.(cpus := s.cpus[c := s.cpus[c].(pool := s.cpus[c].pool - s.batch, hand := s.batch)])
    case Push(c) =>
      s.(available := s.available + s.cpus[c].hand, cpus := s.cpus[c := s.cpus[c].(hand := 0)])
    case EndPut(c) => s.(cpus := s.cpus[c := s.cpus[c].(pc := Ready)])
    case Store(c, event) => AfterStore(s, c, event)
    case Count(c) => AfterCount(s, c)
    case Inspect(c) => s.(lock := Refilling(c, s.head, |s.delivered|))
    case Refill(c) => Refilled(s, c, s.lock.head)
    case Unlock(_) => s.(lock := Free)
    case BeginRead(nr) => AfterBegin(s, nr)
    case CopyChunk => AfterCopy(s)
    case EndRead => AfterEnd(s)
    case FaultRead => s.(reader := Away)
    case Scribble(value) => s.(head := value)
  }

  /** A new context; `n` and `batch` are what ioctx_alloc computes, see AioContext. */
  ghost predicate Initial(s: State) {
    && s.n >= 2 && s.batch >= 1
    && s.available == s.n - 1
    && (forall c :: 0 <= c < |s.cpus| ==> s.cpus[c] == Cpu(0, 0, Ready))
    && s.inflight == 0 && s.completed == 0
    && |s.slots| == s.n && s.tail == 0 && s.head == 0
    && s.lock == Free && s.reader == Away
    && s.stored == [] && s.delivered == []
  }

  ghost predicate Run(trace: seq<State>, steps: seq<Step>) {
    && |trace| == |steps| + 1
    && Initial(trace[0])
    && forall i :: 0 <= i < |steps| ==>
         Enabled(trace[i], steps[i]) && trace[i + 1] == Apply(trace[i], steps[i])
  }

  // ------------------------------------------------------------------ credits

  function Of(cpu: Cpu): nat {
    cpu.pool + cpu.hand
  }

  function Credits(cpus: seq<Cpu>): nat {
    if cpus == [] then 0 else Of(cpus[0]) + Credits(cpus[1..])
  }

  lemma {:induction false} CreditsUpdate(cpus: seq<Cpu>, c: nat, x: Cpu)
    requires c < |cpus|
    ensures Credits(cpus[c := x]) + Of(cpus[c]) == Credits(cpus) + Of(x)
  {
    if c == 0 {
      assert cpus[c := x][1..] == cpus[1..];
    } else {
      assert cpus[c := x][1..] == cpus[1..][c - 1 := x];
      CreditsUpdate(cpus[1..], c - 1, x);
    }
  }

  lemma {:induction false} CreditsOfFresh(cpus: seq<Cpu>)
    requires forall c :: 0 <= c < |cpus| ==> cpus[c] == Cpu(0, 0, Ready)
    ensures Credits(cpus) == 0
  {
    if cpus != [] {
      CreditsOfFresh(cpus[1..]);
    }
  }

  /** A completion between storing its event and counting it still has its request's credit. */
  function Held(lock: Lock): nat {
    if lock.Completing? then 1 else 0
  }

  function Total(s: State): nat {
    s.available + Credits(s.cpus) + s.inflight + s.completed + Held(s.lock)
  }

  ghost predicate CpuOk(cpu: Cpu, batch: nat) {
    && (cpu.pc == Ready ==> cpu.hand == 0 && cpu.pool < 2 * batch)
    && (cpu.pc == Taking ==> cpu.hand == batch && cpu.pool == 0)
  }

  ghost predicate CreditInv(s: State) {
    && s.n >= 2 && s.batch >= 1 && s.tail < s.n && |s.slots| == s.n
    && (forall c :: 0 <= c < |s.cpus| ==> CpuOk(s.cpus[c], s.batch))
    && Total(s) == s.n - 1
  }

  lemma UpdateKeepsCredits(s: State, s': State, c: nat)
    requires CreditInv(s) && c < |s.cpus| && |s'.cpus| == |s.cpus|
    requires s'.cpus == s.cpus[c := s'.cpus[c]] && CpuOk(s'.cpus[c], s.batch)
    requires s'.n == s.n && s'.batch == s.batch && s'.tail == s.tail && s'.slots == s.slots
    requires s'.completed == s.completed && s'.lock == s.lock
    requires s'.available + Of(s'.cpus[c]) + s'.inflight == s.available + Of(s.cpus[c]) + s.inflight
    ensures CreditInv(s')
  {
    CreditsUpdate(s.cpus, c, s'.cpus[c]);
  }

  lemma TakeKeepsCredits(s: State, step: Step)
    requires CreditInv(s) && Enabled(s, step) && (step.TakeLocal? || step.Settle?)
    ensures CreditInv(Apply(s, step))
  {
    UpdateKeepsCredits(s, Apply(s, step), step.cpu);
  }

  lemma GrabKeepsTotal(s: State, c: nat)
    requires c < |s.cpus| && s.cpus[c].hand == 0 && s.available >= s.batch
    ensures Total(AfterGrab(s, c)) == Total(s)
  {
    CreditsUpdate(s.cpus, c, s.cpus[c].(hand := s.batch, pc := Taking));
  }

  lemma GrabKeepsCredits(s: State, c: nat)
    requires CreditInv(s) && IsIdle(s, c) && s.cpus[c].pool == 0 && s.available >= s.batch
    ensures CreditInv(AfterGrab(s, c))
  {
    assert CpuOk(s.cpus[c], s.batch);
    GrabKeepsTotal(s, c);
  }

  lemma CancelKeepsCredits(s: State, c: nat)
    requires CreditInv(s) && Enabled(s, Cancel(c))
    ensures CreditInv(Apply(s, Cancel(c)))
  {
    UpdateKeepsCredits(s, Apply(s, Cancel(c)), c);
  }

  lemma PutStepKeepsCredits(s: State, step: Step)
    requires CreditInv(s) && Enabled(s, step)
    requires step.Add? || step.Drain? || step.Push? || step.EndPut?
    ensures CreditInv(Apply(s, step))
  {
    UpdateKeepsCredits(s, Apply(s, step), step.cpu);
  }

  lemma RefillKeepsCredits(s: State, c: nat, h: nat)
    requires s.n >= 2 && s.batch >= 1 && s.tail < s.n && |s.slots| == s.n
    requires forall d :: 0 <= d < |s.cpus| ==> CpuOk(s.cpus[d], s.batch)
    requires IsIdle(s, c)
    requires s.available + Credits(s.cpus) + s.inflight + s.completed == s.n - 1
    ensures CreditInv(Refilled(s, c, h))
  {
    CreditsUpdate(s.cpus, c, Refilled(s, c, h).cpus[c]);
    assert Refilled(s, c, h).cpus == s.cpus[c := Refilled(s, c, h).cpus[c]];
  }

  /** Every step conserves the credits, Scribble with any value included. */
  lemma StepKeepsCredits(s: State, step: Step)
    requires CreditInv(s) && Enabled(s, step)
    ensures CreditInv(Apply(s, step))
  {
    match step
    case TakeLocal(_) => TakeKeepsCredits(s, step);
    case Grab(c) => GrabKeepsCredits(s, c);
    case Settle(_) => TakeKeepsCredits(s, step);
    case Cancel(c) => CancelKeepsCredits(s, c);
    case Add(_) => PutStepKeepsCredits(s, step);
    case Drain(_) => PutStepKeepsCredits(s, step);
    case Push(_) => PutStepKeepsCredits(s, step);
    case EndPut(_) => PutStepKeepsCredits(s, step);
    case Count(c) =>
      if s.completed > 0 {
        RefillKeepsCredits(s.(completed := s.completed + 1), c, s.lock.head);
      }
    case Refill(c) => RefillKeepsCredits(s, c, s.lock.head);
    case _ =>
  }

  lemma InitialTotal(s: State)
    requires Initial(s)
    ensures Total(s) == s.n - 1
  {
    CreditsOfFresh(s.cpus);
  }

  lemma InitialCredits(s: State)
    requires Initial(s)
    ensures CreditInv(s)
  {
    InitialTotal(s);
  }

  lemma {:induction false} RunsKeepCredits(trace: seq<State>, steps: seq<Step>, i: nat)
    requires Run(trace, steps) && i < |trace|
    ensures CreditInv(trace[i])
  {
    if i == 0 {
      InitialCredits(trace[0]);
    } else {
      RunsKeepCredits(trace, steps, i - 1);
      StepKeepsCredits(trace[i - 1], steps[i - 1]);
    }
  }

  /** Conservation: in every reachable state of every interleaving on any number of CPUs, whatever
      userland has written to the head, the slots are all accounted for. */
  lemma CreditsAreConserved(trace: seq<State>, steps: seq<Step>, i: nat)
    requires Run(trace, steps) && i < |trace|
    ensures trace[i].available + Credits(trace[i].cpus) + trace[i].inflight + trace[i].completed
            + Held(trace[i].lock) == trace[0].n - 1
  {
    RunsKeepCredits(trace, steps, i);
    SizeIsFixed(trace, steps, i);
  }

  lemma {:induction false} SizeIsFixed(trace: seq<State>, steps: seq<Step>, i: nat)
    requires Run(trace, steps) && i < |trace|
    ensures trace[i].n == trace[0].n && trace[i].batch == trace[0].batch
    ensures |trace[i].cpus| == |trace[0].cpus|
  {
    if i > 0 {
      SizeIsFixed(trace, steps, i - 1);
    }
  }

  /** The shared counter, a CPU's and completed_events, as numbers that could go below zero. */
  datatype Counters = Counters(available: int, pool: int, completed: int)

  function CountersOf(s: State, c: nat): Counters
    requires c < |s.cpus|
  {
    Counters(s.available, s.cpus[c].pool, s.completed)
  }

  predicate OfCpu(step: Step) {
    !step.BeginRead? && !step.CopyChunk? && !step.EndRead? && !step.FaultRead? && !step.Scribble?
  }

  /** What a CPU's step does to the counters by plain addition and subtraction. */
  function PlainCounters(s: State, step: Step, x: Counters): Counters
    requires 0 < s.n && s.tail < s.n && OfCpu(step) && step.cpu < |s.cpus|
  {
    match step
    case TakeLocal(_) => x.(pool := x.pool - 1)
    case Grab(_) => x.(available := x.available - s.batch)
    case Settle(c) => x.(pool := x.pool + s.cpus[c].hand - 1)
    case Add(c) => x.(pool := x.pool + s.cpus[c].hand)
    case Drain(_) => x.(pool := x.pool - s.batch)
    case Push(c) => x.(available := x.available + s.cpus[c].hand)
    case Count(_) =>
      if s.completed == 0 || !s.lock.Completing? then x.(completed := x.completed + 1)
      else x.(completed := x.completed + 1 - Excess(s.n, s.completed + 1, s.lock.head, s.tail))
    case Refill(_) =>
      if !s.lock.Refilling? then x
      else x.(completed := x.completed - Excess(s.n, s.completed, s.lock.head, s.tail))
    case _ => x
  }

  /** No counter of the code ever goes below zero: in every reachable state of every run, the plain
      additions and subtractions of every step give the counters of the next state. */
  lemma CountersNeverUnderflow(trace: seq<State>, steps: seq<Step>, i: nat, step: Step)
    requires Run(trace, steps) && i < |trace| && OfCpu(step) && Enabled(trace[i], step)
    ensures 0 < trace[i].n && trace[i].tail < trace[i].n && step.cpu < |Apply(trace[i], step).cpus|
    ensures CountersOf(Apply(trace[i], step), step.cpu)
            == PlainCounters(trace[i], step, CountersOf(trace[i], step.cpu))
  {
    RunsKeepCredits(trace, steps, i);
    StepIsPlain(trace[i], step);
  }

  lemma StepIsPlain(s: State, step: Step)
    requires CreditInv(s) && OfCpu(step) && Enabled(s, step)
    ensures step.cpu < |Apply(s, step).cpus|
    ensures CountersOf(Apply(s, step), step.cpu) == PlainCounters(s, step, CountersOf(s, step.cpu))
  {
  }

  /** Credits of the CPUs that are inside a credit operation. */
  function Busy(cpus: seq<Cpu>): nat {
    if cpus == [] then 0 else (if cpus[0].pc == Ready then 0 else Of(cpus[0])) + Busy(cpus[1..])
  }

  lemma {:induction false} BusyUpdate(cpus: seq<Cpu>, c: nat, x: Cpu)
    requires c < |cpus| && cpus[c].pc == x.pc == Ready
    ensures Busy(cpus[c := x]) == Busy(cpus)
  {
    if c == 0 {
      assert cpus[c := x][1..] == cpus[1..];
    } else {
      assert cpus[c := x][1..] == cpus[1..][c - 1 := x];
      BusyUpdate(cpus[1..], c - 1, x);
    }
  }

  lemma OneMoreTime(k: nat, x: nat)
    ensures (k + 1) * x == x + k * x
  {
  }

  lemma {:induction false} PoolsAreSmall(cpus: seq<Cpu>, batch: nat)
    requires forall c :: 0 <= c < |cpus| ==> CpuOk(cpus[c], batch)
    ensures Credits(cpus) <= |cpus| * (2 * batch) + Busy(cpus)
  {
    if cpus != [] {
      assert CpuOk(cpus[0], batch);
      PoolsAreSmall(cpus[1..], batch);
      OneMoreTime(|cpus[1..]|, 2 * batch);
    }
  }

  /** get_reqs_available refuses CPU `c`: its own pool is empty and the shared counter is too small. */
  predicate Refuses(s: State, c: nat) {
    IsIdle(s, c) && s.cpus[c].pool == 0 && s.available < s.batch
  }

  /** A refusal means that the quota is used: if the batches leave half the slots, then half the slots
      hold requests or events or are credits on their way through other CPUs' operations. */
  lemma RefusalMeansQuotaUsed(trace: seq<State>, steps: seq<Step>, i: nat, c: nat)
    requires Run(trace, steps) && i < |trace| && Refuses(trace[i], c)
    requires 2 * (|trace[i].cpus| * (2 * trace[i].batch)) <= trace[i].n - 1
    ensures var s := trace[i];
            2 * (s.inflight + s.completed + Held(s.lock) + Busy(s.cpus)) >= s.n - 1
  {
    var s := trace[i];
    RunsKeepCredits(trace, steps, i);
    var idle := s.cpus[c].(pool := 2 * s.batch - 1);
    PoolsAreSmall(s.cpus[c := idle], s.batch);
    CreditsUpdate(s.cpus, c, idle);
    BusyUpdate(s.cpus, c, idle);
  }

  // ------------------------------------------------------------------ the ring

  /** The head read under the lock was right when it was read, and the events since fit the ring. */
  ghost predicate LockOk(lock: Lock, n: nat, delivered: nat, stored: nat)
    requires n > 0
  {
    lock.Completing? || lock.Refilling? ==>
      && lock.seen <= delivered
      && lock.seen <= stored < lock.seen + n
      && lock.head == Mod(lock.seen, n)
  }

  /** The reader has the events from number `from` on, and none beyond the tail it saw. */
  ghost predicate ReaderOk(r: Reader, n: nat, from: nat, stored: seq<Event>)
    requires n > 0
  {
    r.Reading? ==>
      && from + |r.got| <= r.stop <= |stored|
      && r.head == Mod(from + |r.got|, n)
      && r.tail == Mod(r.stop, n)
      && r.got == stored[from..from + |r.got|]
  }

  /** Every unread event is in its slot. */
  ghost predicate SlotsOk(slots: seq<Event>, n: nat, from: nat, stored: seq<Event>)
    requires n > 0 && |slots| == n
  {
    forall k :: from <= k < |stored| ==> slots[Mod(k, n)] == stored[k]
  }

  ghost predicate RingOk(s: State) {
    && s.n >= 2 && |s.slots| == s.n
    && |s.delivered| <= |s.stored| && s.delivered == s.stored[..|s.delivered|]
    && s.tail == Mod(|s.stored|, s.n) && s.head == Mod(|s.delivered|, s.n)
    && |s.stored| - |s.delivered| <= s.completed + Held(s.lock)
    && LockOk(s.lock, s.n, |s.delivered|, |s.stored|)
    && ReaderOk(s.reader, s.n, |s.delivered|, s.stored)
    && SlotsOk(s.slots, s.n, |s.delivered|, s.stored)
  }

  ghost predicate RingInv(s: State) {
    CreditInv(s) && RingOk(s)
  }

  /** The slots that are unread are all accounted for as completed, so they never fill the ring. */
  lemma UnreadFits(s: State)
    requires RingInv(s)
    ensures |s.stored| - |s.delivered| <= s.n - 1
    ensures s.inflight > 0 ==> |s.stored| - |s.delivered| <= s.n - 2
  {
  }

  /** The next slot holds no unread event. */
  lemma NextSlotIsFree(n: nat, from: nat, stored: nat, k: nat)
    requires 0 < n && from <= k < stored < from + n
    ensures Mod(k, n) != Mod(stored, n)
  {
    ModDistance(k, stored, n);
  }

  lemma StoreKeepsSlots(slots: seq<Event>, n: nat, from: nat, stored: seq<Event>, event: Event)
    requires 0 < n && |slots| == n && from <= |stored| < from + n && SlotsOk(slots, n, from, stored)
    ensures SlotsOk(slots[Mod(|stored|, n) := event], n, from, stored + [event])
  {
    forall k | from <= k < |stored|
      ensures Mod(k, n) != Mod(|stored|, n)
    {
      NextSlotIsFree(n, from, |stored|, k);
    }
  }

  lemma StoreKeepsReader(r: Reader, n: nat, from: nat, stored: seq<Event>, event: Event)
    requires 0 < n && ReaderOk(r, n, from, stored)
    ensures ReaderOk(r, n, from, stored + [event])
  {
    if r.Reading? {
      assert (stored + [event])[from..from + |r.got|] == stored[from..from + |r.got|];
    }
  }

  lemma StoreKeepsRing(s: State, c: nat, event: Event)
    requires RingInv(s) && s.inflight > 0 && s.lock == Free
    ensures RingOk(AfterStore(s, c, event))
  {
    UnreadFits(s);
    ModAdvance(|s.stored|, 1, s.n);
    StoreKeepsSlots(s.slots, s.n, |s.delivered|, s.stored, event);
    StoreKeepsReader(s.reader, s.n, |s.delivered|, s.stored, event);
    assert (s.stored + [event])[..|s.delivered|] == s.stored[..|s.delivered|];
  }

  /** Refilling from a head that may be stale frees no slot of an unread event. */
  lemma ExcessSparesUnread(lock: Lock, n: nat, delivered: nat, stored: nat, completed: nat)
    requires n > 0 && LockOk(lock, n, delivered, stored) && (lock.Completing? || lock.Refilling?)
    requires delivered <= stored <= delivered + completed
    ensures stored - delivered <= completed - Excess(n, completed, lock.head, Mod(stored, n))
  {
    ModDistance(lock.seen, stored, n);
  }

  lemma CountKeepsRing(s: State, c: nat)
    requires RingInv(s) && c < |s.cpus| && s.lock.Completing?
    ensures RingOk(AfterCount(s, c))
  {
    ExcessSparesUnread(s.lock, s.n, |s.delivered|, |s.stored|, s.completed + 1);
  }

  lemma RefillKeepsRing(s: State, c: nat)
    requires RingInv(s) && c < |s.cpus| && s.lock.Refilling?
    ensures RingOk(Refilled(s, c, s.lock.head))
  {
    ExcessSparesUnread(s.lock, s.n, |s.delivered|, |s.stored|, s.completed);
  }

  lemma BeginReadKeepsRing(s: State, nr: int)
    requires RingInv(s)
    ensures RingOk(AfterBegin(s, nr))
  {
  }

  /** A stretch of slots that does not wrap holds consecutive events. */
  lemma ChunkIsNextEvents(slots: seq<Event>, n: nat, from: nat, stored: seq<Event>, first: nat, k: nat)
    requires 0 < n && |slots| == n && SlotsOk(slots, n, from, stored)
    requires from <= first && first + k <= |stored| && Mod(first, n) + k <= n
    ensures slots[Mod(first, n)..Mod(first, n) + k] == stored[first..first + k]
  {
    var a, b := slots[Mod(first, n)..Mod(first, n) + k], stored[first..first + k];
    forall j | 0 <= j < k
      ensures a[j] == b[j]
    {
      ModAdvance(first, j, n);
      assert slots[Mod(first + j, n)] == stored[first + j];
    }
  }

  lemma CopyKeepsReader(r: Reader, slots: seq<Event>, n: nat, from: nat, stored: seq<Event>, k: nat)
    requires 0 < n && |slots| == n && SlotsOk(slots, n, from, stored)
    requires ReaderOk(r, n, from, stored) && r.Reading?
    requires r.head + k <= n && from + |r.got| + k <= r.stop
    ensures ReaderOk(Advanced(r, slots, n, k), n, from, stored)
  {
    var first, r' := from + |r.got|, Advanced(r, slots, n, k);
    assert from + |r'.got| == first + k;
    assert r'.got == stored[from..first + k] by {
      ChunkIsNextEvents(slots, n, from, stored, first, k);
      assert stored[from..first + k] == stored[from..first] + stored[first..first + k];
    }
    assert r'.head == Mod(first + k, n) by {
      ModAdvance(first, k, n);
      ModSmall(r.head + k, n);
    }
  }

  /** The chunk stops at the tail the reader saw. */
  lemma ChunkStopsAtTail(n: nat, first: nat, stop: nat, want: int)
    requires 0 < n && first <= stop < first + n && Mod(first, n) != Mod(stop, n) && want > 0
    ensures var k := Chunk(n, Mod(first, n), Mod(stop, n), want);
            0 < k && Mod(first, n) + k <= n && first + k <= stop
  {
    ChunkBounds(n, Mod(first, n), Mod(stop, n), want);
    ModDistance(first, stop, n);
  }

  lemma ChunkFits(r: Reader, n: nat, from: nat, stored: seq<Event>)
    requires 0 < n && ReaderOk(r, n, from, stored) && |stored| < from + n
    requires r.Reading? && |r.got| < r.want && r.head != r.tail
    ensures var k := Chunk(n, r.head, r.tail, r.want - |r.got|);
            0 < k && r.head + k <= n && from + |r.got| + k <= r.stop
  {
    ChunkStopsAtTail(n, from + |r.got|, r.stop, r.want - |r.got|);
  }

  lemma NewReaderKeepsRing(s: State, r: Reader)
    requires RingOk(s) && ReaderOk(r, s.n, |s.delivered|, s.stored)
    ensures RingOk(s.(reader := r))
  {
  }

  lemma CopyKeepsRing(s: State)
    requires RingInv(s) && s.reader.Reading?
    requires |s.reader.got| < s.reader.want && s.reader.head != s.reader.tail
    ensures RingOk(AfterCopy(s))
  {
    var r := s.reader;
    var k := Chunk(s.n, r.head, r.tail, r.want - |r.got|);
    UnreadFits(s);
    ChunkFits(r, s.n, |s.delivered|, s.stored);
    CopyKeepsReader(r, s.slots, s.n, |s.delivered|, s.stored, k);
    var r' := Advanced(r, s.slots, s.n, k);
    NewReaderKeepsRing(s, r');
    assert AfterCopy(s) == s.(reader := r');
  }

  lemma EndReadKeepsRing(s: State)
    requires RingInv(s) && s.reader.Reading?
    ensures RingOk(AfterEnd(s))
  {
    var upTo := |s.delivered| + |s.reader.got|;
    assert s.stored[..upTo] == s.stored[..|s.delivered|] + s.stored[|s.delivered|..upTo];
  }

  /** Steps that touch neither the ring nor the lock's and reader's views of it. */
  lemma OtherStepKeepsRing(s: State, step: Step)
    requires RingInv(s) && Enabled(s, step)
    requires !step.Store? && !step.Count? && !step.Refill? && !step.BeginRead? && !step.CopyChunk?
             && !step.EndRead? && !step.Scribble?
    ensures RingOk(Apply(s, step))
  {
    UnreadFits(s);
  }

  lemma StepKeepsRing(s: State, step: Step)
    requires RingInv(s) && Enabled(s, step) && !step.Scribble?
    ensures RingInv(Apply(s, step))
  {
    StepKeepsCredits(s, step);
    match step
    case Store(c, event) => StoreKeepsRing(s, c, event);
    case Count(c) => CountKeepsRing(s, c);
    case Refill(c) => RefillKeepsRing(s, c);
    case BeginRead(nr) => BeginReadKeepsRing(s, nr);
    case CopyChunk => CopyKeepsRing(s);
    case EndRead => EndReadKeepsRing(s);
    case _ => OtherStepKeepsRing(s, step);
  }

  // ------------------------------------------------------------------ results for the ring

  /** A run in which userland leaves the head alone. */
  ghost predicate QuietRun(trace: seq<State>, steps: seq<Step>) {
    Run(trace, steps) && forall i :: 0 <= i < |steps| ==> !steps[i].Scribble?
  }

  lemma {:induction false} QuietRunsKeepRing(trace: seq<State>, steps: seq<Step>, i: nat)
    requires QuietRun(trace, steps) && i < |trace|
    ensures RingInv(trace[i])
  {
    if i == 0 {
      InitialCredits(trace[0]);
    } else {
      QuietRunsKeepRing(trace, steps, i - 1);
      StepKeepsRing(trace[i - 1], steps[i - 1]);
    }
  }

  /** The ring never overruns: no completion stores into the slot of an unread event. */
  lemma NoUnreadEventIsOverwritten(trace: seq<State>, steps: seq<Step>, i: nat, k: nat)
    requires QuietRun(trace, steps) && i < |trace|
    requires |trace[i].delivered| <= k < |trace[i].stored|
    ensures trace[i].n > 0 && Mod(k, trace[i].n) != trace[i].tail
  {
    QuietRunsKeepRing(trace, steps, i);
    UnreadFits(trace[i]);
    NextSlotIsFree(trace[i].n, |trace[i].delivered|, |trace[i].stored|, k);
  }

  /** Unread events are bounded by the completed count, and that by the ring less one slot; so head
      equals tail exactly when nothing is unread. */
  lemma FullIsNeverMistakenForEmpty(trace: seq<State>, steps: seq<Step>, i: nat)
    requires QuietRun(trace, steps) && i < |trace|
    ensures var s := trace[i];
            && 0 <= |s.stored| - |s.delivered| <= s.completed + Held(s.lock) <= s.n - 1
            && (s.head == s.tail <==> |s.stored| == |s.delivered|)
  {
    QuietRunsKeepRing(trace, steps, i);
    UnreadFits(trace[i]);
    ModDistance(|trace[i].delivered|, |trace[i].stored|, trace[i].n);
  }

  /** Delivery: the events readers received are the first completed ones, each once, in order. */
  lemma DeliveryIsFifo(trace: seq<State>, steps: seq<Step>, i: nat)
    requires QuietRun(trace, steps) && i < |trace|
    ensures |trace[i].delivered| <= |trace[i].stored|
    ensures trace[i].delivered == trace[i].stored[..|trace[i].delivered|]
  {
    QuietRunsKeepRing(trace, steps, i);
  }
}
