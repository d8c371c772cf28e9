/** The per-CPU buffer LRUs and the reference counts (fs/buffer.c): bh_lru_install, lookup_bh_lru,
invalidate_bh_lru and try_to_free_buffers.

An LRU holds the 16 most recently used buffers, most recent first; a buffer's count is the number of
callers that hold it plus the number of LRUs it is in; so no buffer that is in some LRU is freed.
*/
module BufferLru {

  import opened Collections

  /** BH_LRU_SIZE. */
  const SIZE := 16

  // ------------------------------------------------------------------ one LRU as a list

  function Take(s: seq<nat>, n: nat): seq<nat> {
    if |s| <= n then s else s[..n]
  }

  /** The new front; what falls off the end is evicted. */
  function Installed(lru: seq<nat>, bh: nat): seq<nat> {
    Take([bh] + Without(lru, bh), SIZE)
  }

  function Evicted(lru: seq<nat>, bh: nat): Option<nat> {
    if bh !in lru && |lru| == SIZE then Some(lru[SIZE - 1]) else None
  }

  /** An LRU keeps its size and holds nothing twice; it gains the buffer and loses the evicted one. */
  lemma InstalledHolds(lru: seq<nat>, bh: nat)
    requires Distinct(lru) && |lru| <= SIZE
    ensures Distinct(Installed(lru, bh)) && |Installed(lru, bh)| <= SIZE
    ensures forall y :: y in Installed(lru, bh) <==> y == bh || (y in lru && Evicted(lru, bh) != Some(y))
  {
    WithoutIsDistinct(lru, bh);
    DistinctCons(bh, Without(lru, bh));
    var all := [bh] + Without(lru, bh);
    if |all| > SIZE {
      assert all[..SIZE] == [bh] + lru[..SIZE - 1];
      assert lru == lru[..SIZE - 1] + [lru[SIZE - 1]];
    }
  }

  // ------------------------------------------------------------------ most recently used

  /** The distinct buffers of a log of uses, both with the latest first. */
  function Recent(log: seq<nat>): seq<nat> {
    if log == [] then [] else [log[0]] + Without(Recent(log[1..]), log[0])
  }

  lemma {:induction false} RecentIsDistinct(log: seq<nat>)
    ensures Distinct(Recent(log))
  {
    if log != [] {
      RecentIsDistinct(log[1..]);
      WithoutIsDistinct(Recent(log[1..]), log[0]);
      DistinctCons(log[0], Without(Recent(log[1..]), log[0]));
    }
  }

  lemma {:induction false} TakeWithout(s: seq<nat>, x: nat, n: nat)
    requires Distinct(s) && n > 0
    ensures Take(Without(s, x), n - 1) == Take(Without(Take(s, n), x), n - 1)
    decreases |s|
  {
    if s != [] {
      var x0, rest := s[0], s[1..];
      assert s == [x0] + rest && Distinct(rest) && x0 !in rest;
      TakeCons(x0, rest, n);
      assert ([x0] + Take(rest, n - 1))[1..] == Take(rest, n - 1);
      if x0 != x && n > 1 {
        TakeWithout(rest, x, n - 1);
        TakeCons(x0, Without(rest, x), n - 1);
        TakeCons(x0, Without(Take(rest, n - 1), x), n - 1);
      }
    }
  }

  /** Installing makes the LRU the 16 most recently used of the longer log. */
  lemma InstalledIsRecent(log: seq<nat>, bh: nat)
    ensures Installed(Take(Recent(log), SIZE), bh) == Take(Recent([bh] + log), SIZE)
  {
    RecentIsDistinct(log);
    TakeWithout(Recent(log), bh, SIZE);
    assert ([bh] + log)[1..] == log;
    TakeCons(bh, Without(Recent(log), bh), SIZE);
    TakeCons(bh, Without(Take(Recent(log), SIZE), bh), SIZE);
  }

  lemma TakeCons(x: nat, s: seq<nat>, n: nat)
    requires n > 0
    ensures Take([x] + s, n) == [x] + Take(s, n - 1)
  {
  }

  // ------------------------------------------------------------------ all CPUs

  /** `refs` counts the callers that hold a buffer; `logs` records the uses on each CPU since its LRU
      was last invalidated; `count` is b_count of the buffers that are not freed. */
  datatype State = State(lrus: seq<seq<nat>>, logs: seq<seq<nat>>, refs: map<nat, nat>, count: map<nat, int>)

  /** What the CPUs do, in any order: a buffer is created; __find_get_block_slow gives a caller a
      reference; a lookup hits in the LRU; a caller's buffer is installed; a caller lets go; an LRU is
      invalidated; a page's buffers are tried to be freed, some of them dirty or locked. */
  datatype Step = Create(bh: nat) | Acquire(bh: nat) | Hit(cpu: nat, bh: nat) | Install(cpu: nat, bh: nat)
                | Release(bh: nat) | Invalidate(cpu: nat) | Free(page: set<nat>, held: set<nat>)

  function Add(count: map<nat, int>, bh: nat, n: int): map<nat, int>
    requires bh in count
  {
    count[bh := count[bh] + n]
  }

  /** get_bh of the new buffer, brelse of the evicted one. */
  function InstalledCount(count: map<nat, int>, lru: seq<nat>, bh: nat): map<nat, int>
    requires bh in count && (Evicted(lru, bh).Some? ==> Evicted(lru, bh).value in count)
  {
    if bh in lru then count
    else if Evicted(lru, bh).Some? then Add(Add(count, bh, 1), Evicted(lru, bh).value, -1)
    else Add(count, bh, 1)
  }

  /** brelse of every buffer of the LRU. */
  function ReleasedAll(count: map<nat, int>, lru: seq<nat>): map<nat, int>
    requires forall i :: 0 <= i < |lru| ==> lru[i] in count
    decreases |lru|
  {
    if lru == [] then count else ReleasedAll(Add(count, lru[0], -1), lru[1..])
  }

  /** buffer_busy of some buffer of the page. */
  ghost predicate Busy(count: map<nat, int>, page: set<nat>, held: set<nat>) {
    exists bh :: bh in page && ((bh in count && count[bh] != 0) || bh in held)
  }

  ghost predicate Holds(s: State) {
    && |s.logs| == |s.lrus|
    && (forall c, bh :: 0 <= c < |s.lrus| && bh in s.lrus[c] ==> bh in s.count)
    && s.refs.Keys == s.count.Keys
  }

  ghost predicate Enabled(s: State, a: Step)
  {
    match a
    case Create(bh) => bh !in s.count
    case Acquire(bh) => bh in s.count && bh in s.refs
    case Hit(cpu, bh) => cpu < |s.lrus| && bh in s.lrus[cpu]
    case Install(cpu, bh) => cpu < |s.lrus| && bh in s.refs && s.refs[bh] > 0
    case Release(bh) => bh in s.refs && s.refs[bh] > 0
    case Invalidate(cpu) => cpu < |s.lrus|
    case Free(_, _) => true
  }

  /** A use of a buffer on a CPU. */
  function Used(s: State, cpu: nat, bh: nat): State
    requires cpu < |s.lrus| == |s.logs|
  {
    s.(lrus := s.lrus[cpu := Installed(s.lrus[cpu], bh)], logs := s.logs[cpu := [bh] + s.logs[cpu]])
  }

  ghost function Apply(s: State, a: Step): State
    requires Holds(s) && Enabled(s, a)
  {
    match a
    case Create(bh) => s.(refs := s.refs[bh := 0], count := s.count[bh := 0])
    case Acquire(bh) => s.(refs := s.refs[bh := s.refs[bh] + 1], count := Add(s.count, bh, 1))
    case Hit(cpu, bh) =>
      Used(s, cpu, bh).(refs := s.refs[bh := s.refs[bh] + 1], count := Add(s.count, bh, 1))
    case Install(cpu, bh) => Used(s, cpu, bh).(count := InstalledCount(s.count, s.lrus[cpu], bh))
    case Release(bh) => s.(refs := s.refs[bh := s.refs[bh] - 1], count := Add(s.count, bh, -1))
    case Invalidate(cpu) =>
      s.(lrus := s.lrus[cpu := []], logs := s.logs[cpu := []], count := ReleasedAll(s.count, s.lrus[cpu]))
    case Free(page, held) =>
      if Busy(s.count, page, held) then s else s.(refs := s.refs - page, count := s.count - page)
  }

  // ------------------------------------------------------------------ counts

  /** How many LRUs hold a buffer. */
  function InLrus(lrus: seq<seq<nat>>, bh: nat): nat {
    if lrus == [] then 0 else One(bh in lrus[0]) + InLrus(lrus[1..], bh)
  }

  lemma {:induction false} InLrusUpdated(lrus: seq<seq<nat>>, c: nat, x: seq<nat>, bh: nat)
    requires c < |lrus|
    ensures InLrus(lrus[c := x], bh) == InLrus(lrus, bh) - One(bh in lrus[c]) + One(bh in x)
    decreases |lrus|
  {
    if c == 0 {
      assert lrus[c := x][1..] == lrus[1..];
    } else {
      assert lrus[c := x][1..] == lrus[1..][c - 1 := x];
      InLrusUpdated(lrus[1..], c - 1, x, bh);
    }
  }

  lemma {:induction false} InLrusCounts(lrus: seq<seq<nat>>, c: nat, bh: nat)
    requires c < |lrus| && bh in lrus[c]
    ensures InLrus(lrus, bh) >= 1
    decreases |lrus|
  {
    if c > 0 {
      InLrusCounts(lrus[1..], c - 1, bh);
    }
  }

  /** b_count is the callers' references plus the LRUs' slots. */
  ghost predicate CountRight(lrus: seq<seq<nat>>, refs: map<nat, nat>, count: map<nat, int>, bh: nat) {
    bh in refs && bh in count && count[bh] == refs[bh] + InLrus(lrus, bh)
  }

  ghost predicate CountsRight(lrus: seq<seq<nat>>, refs: map<nat, nat>, count: map<nat, int>) {
    forall bh {:trigger CountRight(lrus, refs, count, bh)} :: bh in count ==> CountRight(lrus, refs, count, bh)
  }

  ghost predicate LruRight(lru: seq<nat>, log: seq<nat>) {
    Distinct(lru) && |lru| <= SIZE && lru == Take(Recent(log), SIZE)
  }

  ghost predicate LrusRight(lrus: seq<seq<nat>>, logs: seq<seq<nat>>) {
    && |logs| == |lrus|
    && forall c :: 0 <= c < |lrus| ==> LruRight(lrus[c], logs[c])
  }

  ghost predicate Inv(s: State) {
    Holds(s) && LrusRight(s.lrus, s.logs) && CountsRight(s.lrus, s.refs, s.count)
  }

  lemma UsedKeepsLrus(lrus: seq<seq<nat>>, logs: seq<seq<nat>>, cpu: nat, bh: nat)
    requires LrusRight(lrus, logs) && cpu < |lrus|
    ensures LrusRight(lrus[cpu := Installed(lrus[cpu], bh)], logs[cpu := [bh] + logs[cpu]])
  {
    assert LruRight(lrus[cpu], logs[cpu]);
    InstalledHolds(lrus[cpu], bh);
    InstalledIsRecent(logs[cpu], bh);
  }

  lemma InstallCounts(count: map<nat, int>, lru: seq<nat>, bh: nat, b: nat)
    requires Distinct(lru) && |lru| <= SIZE && bh in count && b in count
    requires forall i :: 0 <= i < |lru| ==> lru[i] in count
    ensures var count' := InstalledCount(count, lru, bh);
            && count'.Keys == count.Keys
            && count'[b] == count[b] + One(b in Installed(lru, bh)) - One(b in lru)
  {
    InstalledHolds(lru, bh);
  }

  lemma {:induction false} ReleaseCounts(count: map<nat, int>, lru: seq<nat>, b: nat)
    requires Distinct(lru) && b in count && forall i :: 0 <= i < |lru| ==> lru[i] in count
    ensures ReleasedAll(count, lru).Keys == count.Keys
    ensures ReleasedAll(count, lru)[b] == count[b] - One(b in lru)
    decreases |lru|
  {
    if lru != [] {
      assert Distinct(lru[1..]) && lru[0] !in lru[1..];
      assert b in lru <==> b == lru[0] || b in lru[1..];
      assert Add(count, lru[0], -1).Keys == count.Keys;
      ReleaseCounts(Add(count, lru[0], -1), lru[1..], b);
    }
  }

  // ------------------------------------------------------------------ every step keeps it

  /** A new LRU on one CPU, with counts changed by as much. */
  lemma CountsFollow(lrus: seq<seq<nat>>, refs: map<nat, nat>, count: map<nat, int>, cpu: nat, lru: seq<nat>,
                     refs': map<nat, nat>, count': map<nat, int>)
    requires CountsRight(lrus, refs, count) && cpu < |lrus| && count'.Keys == count.Keys
    requires refs.Keys == refs'.Keys == count.Keys
    requires forall b :: b in count ==>
               count'[b] - refs'[b] == count[b] - refs[b] + One(b in lru) - One(b in lrus[cpu])
    ensures CountsRight(lrus[cpu := lru], refs', count')
  {
    var lrus' := lrus[cpu := lru];
    forall b | b in count'
      ensures CountRight(lrus', refs', count', b)
    {
      assert CountRight(lrus, refs, count, b);
      InLrusUpdated(lrus, cpu, lru, b);
    }
  }

  lemma MembersFollow(s: State, cpu: nat, lru: seq<nat>, lrus': seq<seq<nat>>)
    requires Holds(s) && cpu < |s.lrus| && forall bh :: bh in lru ==> bh in s.count
    requires lrus' == s.lrus[cpu := lru]
    ensures forall c, bh :: 0 <= c < |lrus'| && bh in lrus'[c] ==> bh in s.count
  {
  }

  lemma HitKeepsInv(s: State, cpu: nat, bh: nat)
    requires Inv(s) && Enabled(s, Hit(cpu, bh))
    ensures Inv(Apply(s, Hit(cpu, bh)))
  {
    var lru := s.lrus[cpu];
    assert LruRight(lru, s.logs[cpu]);
    InstalledHolds(lru, bh);
    UsedKeepsLrus(s.lrus, s.logs, cpu, bh);
    MembersFollow(s, cpu, Installed(lru, bh), s.lrus[cpu := Installed(lru, bh)]);
    HitCounts(s.lrus, s.refs, s.count, cpu, Installed(lru, bh), bh);
  }

  /** A hit moves the buffer within the LRU and gives the caller a reference. */
  lemma HitCounts(lrus: seq<seq<nat>>, refs: map<nat, nat>, count: map<nat, int>, cpu: nat, lru: seq<nat>, bh: nat)
    requires CountsRight(lrus, refs, count) && cpu < |lrus| && refs.Keys == count.Keys && bh in count
    requires forall b :: b in lru <==> b in lrus[cpu]
    ensures CountsRight(lrus[cpu := lru], refs[bh := refs[bh] + 1], Add(count, bh, 1))
  {
    CountsFollow(lrus, refs, count, cpu, lru, refs[bh := refs[bh] + 1], Add(count, bh, 1));
  }

  lemma InstallKeepsInv(s: State, cpu: nat, bh: nat)
    requires Inv(s) && Enabled(s, Install(cpu, bh))
    ensures Inv(Apply(s, Install(cpu, bh)))
  {
    var lru := s.lrus[cpu];
    assert LruRight(lru, s.logs[cpu]);
    InstalledHolds(lru, bh);
    UsedKeepsLrus(s.lrus, s.logs, cpu, bh);
    MembersFollow(s, cpu, Installed(lru, bh), s.lrus[cpu := Installed(lru, bh)]);
    forall b | b in s.count
      ensures b in InstalledCount(s.count, lru, bh)
      ensures InstalledCount(s.count, lru, bh)[b] == s.count[b] + One(b in Installed(lru, bh)) - One(b in lru)
    {
      InstallCounts(s.count, lru, bh, b);
    }
    InstallCounts(s.count, lru, bh, bh);
    CountsFollow(s.lrus, s.refs, s.count, cpu, Installed(lru, bh), s.refs, InstalledCount(s.count, lru, bh));
  }

  lemma InvalidateKeepsInv(s: State, cpu: nat)
    requires Inv(s) && Enabled(s, Invalidate(cpu))
    ensures Inv(Apply(s, Invalidate(cpu)))
  {
    var lru := s.lrus[cpu];
    assert LruRight(lru, s.logs[cpu]);
    MembersFollow(s, cpu, [], s.lrus[cpu := []]);
    forall b | b in s.count
      ensures ReleasedAll(s.count, lru).Keys == s.count.Keys
      ensures ReleasedAll(s.count, lru)[b] == s.count[b] - One(b in lru)
    {
      ReleaseCounts(s.count, lru, b);
    }
    ReleasedKeys(s.count, lru);
    CountsFollow(s.lrus, s.refs, s.count, cpu, [], s.refs, ReleasedAll(s.count, lru));
  }

  lemma {:induction false} ReleasedKeys(count: map<nat, int>, lru: seq<nat>)
    requires forall i :: 0 <= i < |lru| ==> lru[i] in count
    ensures ReleasedAll(count, lru).Keys == count.Keys
    decreases |lru|
  {
    if lru != [] {
      assert Add(count, lru[0], -1).Keys == count.Keys;
      ReleasedKeys(Add(count, lru[0], -1), lru[1..]);
    }
  }

  /** Callers take and drop references. */
  lemma CallerKeepsInv(s: State, bh: nat, n: int)
    requires Inv(s) && bh in s.count && bh in s.refs && s.refs[bh] + n >= 0
    ensures Inv(s.(refs := s.refs[bh := s.refs[bh] + n], count := Add(s.count, bh, n)))
  {
    var refs, count := s.refs[bh := s.refs[bh] + n], Add(s.count, bh, n);
    forall b | b in count
      ensures CountRight(s.lrus, refs, count, b)
    {
      assert CountRight(s.lrus, s.refs, s.count, b);
    }
  }

  lemma {:induction false} NotInLrus(lrus: seq<seq<nat>>, bh: nat)
    requires forall c :: 0 <= c < |lrus| ==> bh !in lrus[c]
    ensures InLrus(lrus, bh) == 0
  {
    if lrus != [] {
      NotInLrus(lrus[1..], bh);
    }
  }

  lemma CreateKeepsInv(s: State, bh: nat)
    requires Inv(s) && bh !in s.count
    ensures Inv(Apply(s, Create(bh)))
  {
    var refs, count := s.refs[bh := 0], s.count[bh := 0];
    NotInLrus(s.lrus, bh);
    forall b | b in count
      ensures CountRight(s.lrus, refs, count, b)
    {
      assert b == bh || CountRight(s.lrus, s.refs, s.count, b);
    }
  }

  /** A buffer that is in an LRU is busy. */
  lemma InLruIsBusy(s: State, c: nat, bh: nat)
    requires Inv(s) && c < |s.lrus| && bh in s.lrus[c]
    ensures bh in s.count && s.count[bh] > 0
  {
    assert CountRight(s.lrus, s.refs, s.count, bh);
    InLrusCounts(s.lrus, c, bh);
  }

  lemma FreeKeepsInv(s: State, page: set<nat>, held: set<nat>)
    requires Inv(s) && !Busy(s.count, page, held)
    ensures Inv(s.(refs := s.refs - page, count := s.count - page))
    ensures forall c :: 0 <= c < |s.lrus| ==> forall bh :: bh in s.lrus[c] ==> bh !in page
  {
    forall c, bh | 0 <= c < |s.lrus| && bh in s.lrus[c]
      ensures bh !in page
    {
      InLruIsBusy(s, c, bh);
    }
    var refs, count := s.refs - page, s.count - page;
    forall b | b in count
      ensures CountRight(s.lrus, refs, count, b)
    {
      assert CountRight(s.lrus, s.refs, s.count, b);
    }
  }

  lemma StepKeepsInv(s: State, a: Step)
    requires Inv(s) && Enabled(s, a)
    ensures Inv(Apply(s, a))
  {
    match a
    case Create(bh) => CreateKeepsInv(s, bh);
    case Acquire(bh) => CallerKeepsInv(s, bh, 1);
    case Hit(cpu, bh) => HitKeepsInv(s, cpu, bh);
    case Install(cpu, bh) => InstallKeepsInv(s, cpu, bh);
    case Release(bh) => CallerKeepsInv(s, bh, -1);
    case Invalidate(cpu) => InvalidateKeepsInv(s, cpu);
    case Free(page, held) =>
      if !Busy(s.count, page, held) {
        FreeKeepsInv(s, page, held);
      }
  }

  // ------------------------------------------------------------------ all runs

  function Start(cpus: nat): State {
    State(seq(cpus, i => []), seq(cpus, i => []), map[], map[])
  }

  ghost predicate CanRun(s: State, run: seq<Step>)
    requires Inv(s)
    decreases |run|
  {
    run != [] ==> Enabled(s, run[0]) && (StepKeepsInv(s, run[0]); CanRun(Apply(s, run[0]), run[1..]))
  }

  ghost function Run(s: State, run: seq<Step>): (r: State)
    requires Inv(s) && CanRun(s, run)
    ensures Inv(r)
    decreases |run|
  {
    if run == [] then s else StepKeepsInv(s, run[0]); Run(Apply(s, run[0]), run[1..])
  }

  lemma StartHasInv(cpus: nat)
    ensures Inv(Start(cpus))
  {
  }

  ghost predicate Runs(cpus: nat, run: seq<Step>) {
    StartHasInv(cpus);
    CanRun(Start(cpus), run)
  }

  ghost function End(cpus: nat, run: seq<Step>): (r: State)
    requires Runs(cpus, run)
    ensures Inv(r)
  {
    StartHasInv(cpus);
    Run(Start(cpus), run)
  }

  /** After any run on any number of CPUs: every LRU is the 16 most recently used buffers of its CPU,
      each once; every count is the callers plus the LRUs; a buffer in an LRU is not freed; and no
      count is ever taken below zero. */
  lemma RunsAreRight(cpus: nat, run: seq<Step>)
    requires Runs(cpus, run)
    ensures var r := End(cpus, run);
            && (forall c :: 0 <= c < |r.lrus| ==>
                  Distinct(r.lrus[c]) && r.lrus[c] == Take(Recent(r.logs[c]), SIZE))
            && (forall c, bh :: 0 <= c < |r.lrus| && bh in r.lrus[c] ==> bh in r.count && r.count[bh] > 0)
            && (forall bh :: bh in r.count ==>
                  r.count[bh] == r.refs[bh] + InLrus(r.lrus, bh) && r.count[bh] >= 0)
  {
    var r := End(cpus, run);
    assert forall c :: 0 <= c < |r.lrus| ==> LruRight(r.lrus[c], r.logs[c]);
    forall c, bh | 0 <= c < |r.lrus| && bh in r.lrus[c]
      ensures bh in r.count && r.count[bh] > 0
    {
      InLruIsBusy(r, c, bh);
    }
    forall bh | bh in r.count
      ensures r.count[bh] == r.refs[bh] + InLrus(r.lrus, bh)
    {
      assert CountRight(r.lrus, r.refs, r.count, bh);
    }
  }

  // ------------------------------------------------------------------ one LRU in its array

  datatype Key = Key(block: nat, bdev: nat, size: nat)

  lemma {:induction false} WithoutAt(s: seq<nat>, i: nat)
    requires Distinct(s) && i < |s|
    ensures Without(s, s[i]) == s[..i] + s[i + 1..]
  {
    var x, rest := s[i], s[1..];
    assert Distinct(rest) && s[0] !in rest;
    if i == 0 {
      assert s[..0] + s[1..] == rest;
    } else {
      WithoutAt(rest, i - 1);
      assert rest[i - 1] == x && Without(s, x) == [s[0]] + Without(rest, x);
      assert s[..i] + s[i + 1..] == [s[0]] + (rest[..i - 1] + rest[i..]);
    }
  }

  function At(lru: seq<nat>, i: nat): Option<nat> {
    if i < |lru| then Some(lru[i]) else None
  }

  /** The list after `i` swaps of bh_lru_install: everything up to there is one place further. */
  function Shifted(lru: seq<nat>, bh: nat, i: nat, j: nat): Option<nat> {
    if j == 0 < i then Some(bh) else if j < i then At(lru, j - 1) else At(lru, j)
  }

  /** The swaps end at the buffer itself: it has moved to the front. */
  lemma ShiftedToFront(lru: seq<nat>, bh: nat, i: nat, j: nat)
    requires Distinct(lru) && |lru| <= SIZE && i < |lru| && lru[i] == bh
    ensures At(Installed(lru, bh), j) == Shifted(lru, bh, i + 1, j)
  {
    WithoutAt(lru, i);
  }

  /** The swaps go through to the end: the last buffer is evicted. */
  lemma ShiftedThrough(lru: seq<nat>, bh: nat, j: nat)
    requires |lru| <= SIZE && bh !in lru && j < SIZE
    ensures At(Installed(lru, bh), j) == Shifted(lru, bh, SIZE, j)
    ensures Evicted(lru, bh) == At(lru, SIZE - 1)
  {
  }

  /** get_bh and brelse on a map of counts; brelse(NULL) does nothing. */
  method Brelse(count: map<nat, int>, bh: Option<nat>) returns (count': map<nat, int>)
    requires bh.Some? ==> bh.value in count
    ensures count' == if bh.Some? then Add(count, bh.value, -1) else count
  {
    count' := if bh.Some? then count[bh.value := count[bh.value] - 1] else count;
  }

  class BhLru {
    const bhs: array<Option<nat>>

    ghost predicate Shows(lru: seq<nat>)
      reads bhs
    {
      && bhs.Length == SIZE && |lru| <= SIZE && Distinct(lru)
      && forall i :: 0 <= i < SIZE ==> bhs[i] == At(lru, i)
    }

    constructor ()
      ensures Shows([]) && fresh(bhs)
    {
      bhs := new Option<nat>[SIZE](i => None);
    }

    /** The swaps of bh_lru_install, up to the buffer itself or through to the end. */
    method SwapIn(bh: nat, ghost lru: seq<nat>) returns (evictee: Option<nat>)
      requires Shows(lru)
      modifies bhs
      ensures forall j :: 0 <= j < SIZE ==> bhs[j] == At(Installed(lru, bh), j)
      ensures evictee == if bh in lru then Some(bh) else Evicted(lru, bh)
    {
      evictee := Some(bh);
      for i := 0 to SIZE
        invariant forall j :: 0 <= j < SIZE ==> bhs[j] == Shifted(lru, bh, i, j)
        invariant evictee == if i == 0 then Some(bh) else At(lru, i - 1)
        invariant forall j :: 0 <= j < i && j < |lru| ==> lru[j] != bh
      {
        evictee, bhs[i] := bhs[i], evictee;
        if evictee == Some(bh) {
          forall j | 0 <= j < SIZE
            ensures bhs[j] == At(Installed(lru, bh), j)
          {
            ShiftedToFront(lru, bh, i, j);
          }
          return;
        }
      }
      forall j | 0 <= j < SIZE
        ensures bhs[j] == At(Installed(lru, bh), j)
      {
        ShiftedThrough(lru, bh, j);
      }
      ShiftedThrough(lru, bh, 0);
    }

    /** bh_lru_install. */
    method InstallBh(bh: nat, count: map<nat, int>, ghost lru: seq<nat>) returns (count': map<nat, int>)
      requires Shows(lru) && bh in count && forall i :: 0 <= i < |lru| ==> lru[i] in count
      modifies bhs
      ensures Shows(Installed(lru, bh)) && count' == InstalledCount(count, lru, bh)
    {
      InstalledHolds(lru, bh);
      var evictee := SwapIn(bh, lru);
      if evictee == Some(bh) {
        return count;
      }
      count' := count[bh := count[bh] + 1];
      count' := Brelse(count', evictee);
    }

    /** The shift of lookup_bh_lru, from slot `i` down. */
    method ShiftDown(i: nat, bh: nat, ghost lru: seq<nat>)
      requires Shows(lru) && i < |lru| && lru[i] == bh
      modifies bhs
      ensures Shows(Installed(lru, bh))
    {
      InstalledHolds(lru, bh);
      var k := i;
      while k > 0
        invariant 0 <= k <= i
        invariant forall j :: 0 <= j <= k ==> bhs[j] == At(lru, j)
        invariant forall j :: k < j <= i ==> bhs[j] == At(lru, j - 1)
        invariant forall j :: i < j < SIZE ==> bhs[j] == At(lru, j)
      {
        bhs[k] := bhs[k - 1];
        k := k - 1;
      }
      bhs[0] := Some(bh);
      forall j | 0 <= j < SIZE
        ensures bhs[j] == At(Installed(lru, bh), j)
      {
        ShiftedToFront(lru, bh, i, j);
      }
    }

    /** lookup_bh_lru. */
    method LookupBh(key: Key, keys: map<nat, Key>, count: map<nat, int>, ghost lru: seq<nat>)
      returns (ret: Option<nat>, count': map<nat, int>)
      requires Shows(lru) && forall i :: 0 <= i < |lru| ==> lru[i] in count && lru[i] in keys
      modifies bhs
      ensures ret.Some? <==> exists i :: 0 <= i < |lru| && keys[lru[i]] == key
      ensures ret.Some? ==>
                && ret.value in lru && keys[ret.value] == key && count' == Add(count, ret.value, 1)
                && Shows(Installed(lru, ret.value))
      ensures ret.None? ==> Shows(lru) && count' == count
    {
      var i := 0;
      while i < SIZE
        invariant 0 <= i <= SIZE && Shows(lru)
        invariant forall j :: 0 <= j < i && j < |lru| ==> keys[lru[j]] != key
      {
        var bh := bhs[i];
        if bh.Some? && keys[bh.value] == key {
          if i > 0 {
            ShiftDown(i, bh.value, lru);
          } else {
            InstalledHolds(lru, bh.value);
            forall j | 0 <= j < SIZE
              ensures At(Installed(lru, bh.value), j) == At(lru, j)
            {
              ShiftedToFront(lru, bh.value, 0, j);
            }
          }
          return bh, count[bh.value := count[bh.value] + 1];
        }
        i := i + 1;
      }
      return None, count;
    }

    /** invalidate_bh_lru. */
    method InvalidateBhs(count: map<nat, int>, ghost lru: seq<nat>) returns (count': map<nat, int>)
      requires Shows(lru) && forall i :: 0 <= i < |lru| ==> lru[i] in count
      modifies bhs
      ensures Shows([]) && count' == ReleasedAll(count, lru)
    {
      count' := count;
      for i := 0 to SIZE
        invariant forall j :: 0 <= j < i ==> bhs[j] == None
        invariant forall j :: i <= j < SIZE ==> bhs[j] == At(lru, j)
        invariant count'.Keys == count.Keys
        invariant ReleasedAll(count', Rest(lru, i)) == ReleasedAll(count, lru)
      {
        count' := Brelse(count', bhs[i]);
        bhs[i] := None;
      }
    }
  }

  function Rest(lru: seq<nat>, i: nat): seq<nat> {
    if i <= |lru| then lru[i..] else []
  }

  /** drop_buffers: the page's buffers may go only if none is busy. */
  method DropBuffers(page: seq<nat>, count: map<nat, int>, held: set<nat>) returns (ok: bool)
    requires forall i :: 0 <= i < |page| ==> page[i] in count
    ensures ok <==> !Busy(count, (set bh | bh in page), held)
  {
    var i := 0;
    while i < |page|
      invariant 0 <= i <= |page|
      invariant forall j :: 0 <= j < i ==> count[page[j]] == 0 && page[j] !in held
    {
      if count[page[i]] != 0 || page[i] in held {
        return false;
      }
      i := i + 1;
    }
    return true;
  }
}
