/** pardirlist: the listing with keyword counts, one thread per file (pardirlist/pardirlist.c).

The main thread creates and inserts the nodes, starts a thread for every file, sorts the list by
level, and prints it, joining a node's thread before printing the node.  A schedule interleaves its
steps with the threads' steps in any way.  Every schedule prints what the sequential mode prints, and
none gets stuck or runs for ever.
*/
module ParDirList {
  import opened Listing
  import opened Text

  // ------------------------------------------------------------------ counting in one file

  /** Characters a chunk can hold: the buffer has one more, for the terminator. */
  const ROOM := 1024

  function Count(tokens: seq<string>, keyword: string): nat {
    if tokens == [] then 0
    else (if tokens[0] == keyword then 1 else 0) + Count(tokens[1..], keyword)
  }

  /** What a search of the chunks of a file finds. */
  function Frequency(chunks: seq<string>, keyword: string): nat {
    if chunks == [] then 0
    else Count(Tokens(chunks[0]), keyword) + Frequency(chunks[1..], keyword)
  }

  /** seq_search_file and psf_runner. */
  method SearchFile(content: string, keyword: string) returns (frequency: nat)
    ensures frequency == Frequency(Chunks(content, ROOM), keyword)
  {
    frequency := 0;
    var chunks := Chunks(content, ROOM);
    while chunks != []
      invariant frequency + Frequency(chunks, keyword) == Frequency(Chunks(content, ROOM), keyword)
      decreases |chunks|
    {
      ghost var before := frequency;
      var tokens := Tokens(chunks[0]);
      while tokens != []
        invariant frequency + Count(tokens, keyword) == before + Count(Tokens(chunks[0]), keyword)
        decreases |tokens|
      {
        if tokens[0] == keyword {
          frequency := frequency + 1;
        }
        tokens := tokens[1..];
      }
      chunks := chunks[1..];
    }
  }

  lemma {:induction false} CountOfSum(a: seq<string>, b: seq<string>, keyword: string)
    ensures Count(a + b, keyword) == Count(a, keyword) + Count(b, keyword)
  {
    if a == [] {
      assert a + b == b;
    } else {
      assert (a + b)[1..] == a[1..] + b;
      CountOfSum(a[1..], b, keyword);
    }
  }

  function ChunkTokens(chunks: seq<string>): seq<string> {
    if chunks == [] then [] else Tokens(chunks[0]) + ChunkTokens(chunks[1..])
  }

  lemma {:induction false} FrequencyCountsTokens(chunks: seq<string>, keyword: string)
    ensures Frequency(chunks, keyword) == Count(ChunkTokens(chunks), keyword)
  {
    if chunks != [] {
      FrequencyCountsTokens(chunks[1..], keyword);
      CountOfSum(Tokens(chunks[0]), ChunkTokens(chunks[1..]), keyword);
    }
  }

  /** Every cut makes one token more. */
  lemma {:induction false} CutsMakeTokens(s: string, room: nat)
    requires room > 0
    ensures |ChunkTokens(Chunks(s, room))| == |Tokens(s)| + Cuts(s, room)
    ensures Cuts(s, room) == 0 ==> ChunkTokens(Chunks(s, room)) == Tokens(s)
    decreases |s|
  {
    if s != [] {
      var n := ChunkLength(s, room);
      CutsMakeTokens(s[n..], room);
      TokensOfParts(s[..n], s[n..]);
      assert s == s[..n] + s[n..];
      var first, later := s[..n], Chunks(s[n..], room);
      assert ([first] + later)[0] == first && ([first] + later)[1..] == later;
    }
  }

  lemma {:induction false} CountIsMultiplicity(tokens: seq<string>, keyword: string)
    ensures Count(tokens, keyword) == multiset(tokens)[keyword]
  {
    if tokens != [] {
      CountIsMultiplicity(tokens[1..], keyword);
      assert tokens == [tokens[0]] + tokens[1..];
    }
  }

  lemma SameCountsSameLength(a: seq<string>, b: seq<string>)
    requires forall keyword :: Count(a, keyword) == Count(b, keyword)
    ensures |a| == |b|
  {
    forall keyword
      ensures multiset(a)[keyword] == multiset(b)[keyword]
    {
      CountIsMultiplicity(a, keyword);
      CountIsMultiplicity(b, keyword);
      assert Count(a, keyword) == Count(b, keyword);
    }
    assert multiset(a) == multiset(b);
    assert |multiset(a)| == |a| && |multiset(b)| == |b|;
  }

  /** For every keyword, reading by chunks counts it among the tokens of the whole file. */
  ghost predicate CountsWholeTokens(s: string, room: nat)
    requires room > 0
  {
    forall keyword :: Frequency(Chunks(s, room), keyword) == Count(Tokens(s), keyword)
  }

  lemma WholeTokensMeanNoCuts(s: string, room: nat)
    requires room > 0 && CountsWholeTokens(s, room)
    ensures Cuts(s, room) == 0
  {
    var tokens := ChunkTokens(Chunks(s, room));
    forall keyword
      ensures Count(tokens, keyword) == Count(Tokens(s), keyword)
    {
      FrequencyCountsTokens(Chunks(s, room), keyword);
      assert Frequency(Chunks(s, room), keyword) == Count(Tokens(s), keyword);
    }
    SameCountsSameLength(tokens, Tokens(s));
    CutsMakeTokens(s, room);
  }

  /** This holds exactly when no chunk ends inside a token. */
  lemma ChunksCountWholeTokensExactlyWhen(s: string, room: nat)
    requires room > 0
    ensures CountsWholeTokens(s, room) <==> Cuts(s, room) == 0
  {
    if CountsWholeTokens(s, room) {
      WholeTokensMeanNoCuts(s, room);
    } else if Cuts(s, room) == 0 {
      CutsMakeTokens(s, room);
      forall keyword
        ensures Frequency(Chunks(s, room), keyword) == Count(Tokens(s), keyword)
      {
        FrequencyCountsTokens(Chunks(s, room), keyword);
      }
    }
  }

  /** A file where it fails: one word that is longer than a chunk. */
  lemma LongWordIsCut()
    ensures Cuts(seq(ROOM + 1, _ => 'a'), ROOM) == 1
  {
    var s := seq(ROOM + 1, _ => 'a');
    assert ChunkLength(s, ROOM) == ROOM;
    assert s[ROOM..] == "a" && s[..ROOM][ROOM - 1] == 'a';
    assert ChunkLength("a", ROOM) == 1 && "a"[1..] == [];
  }

  lemma {:induction false} ShortLinesAreNotCut(s: string, room: nat)
    requires room > 0 && ShortLines(s, room)
    ensures Cuts(s, room) == 0
    decreases |s|
  {
    if s != [] {
      var n := ChunkLength(s, room);
      ShortLinesBehind(s, room, n);
      ShortLinesAreNotCut(s[n..], room);
      if n < |s| {
        ChunkEndsInNewline(s, room);
      }
    }
  }

  /** With short lines, reading by chunks counts the keyword among the tokens of the whole file. */
  lemma ChunksCountWholeTokens(s: string, room: nat, keyword: string)
    requires room > 0 && ShortLines(s, room)
    ensures Frequency(Chunks(s, room), keyword) == Count(Tokens(s), keyword)
  {
    ShortLinesAreNotCut(s, room);
    ChunksCountWholeTokensExactlyWhen(s, room);
  }

  // ------------------------------------------------------------------ the machine

  /** A node to be created: what fgets will deliver if it is a file. */
  datatype Item = Item(entry: Entry, file: bool, chunks: seq<string>)

  datatype Job = Job(items: seq<Item>, keyword: string)

  function ItemFrequency(item: Item, keyword: string): nat {
    if item.file then Frequency(item.chunks, keyword) else 0
  }

  /** A node's thread; the node has a tid exactly when the thread is not absent. */
  datatype Worker = Absent | Running(rest: seq<string>, count: nat) | Stored

  datatype Phase = Insert(k: nat) | Search(k: nat) | Round(i: nat) | Print(j: nat) | Done

  datatype Row = Row(level: int, order: int, frequency: nat, path: string)

  /** `list` names the nodes by the order of their creation, `order` is the printing loop's. */
  datatype State = State(phase: Phase, list: seq<nat>, frequency: seq<nat>, workers: seq<Worker>,
                         order: int, out: seq<Row>)

  ghost predicate Named(job: Job, list: seq<nat>) {
    forall i :: 0 <= i < |list| ==> list[i] < |job.items|
  }

  function EntriesOf(job: Job, list: seq<nat>): seq<Entry>
    requires Named(job, list)
  {
    seq(|list|, i requires 0 <= i < |list| => job.items[list[i]].entry)
  }

  function InsertNode(job: Job, list: seq<nat>, k: nat): seq<nat>
    requires Named(job, list) && k < |job.items|
  {
    var p := Place(job.items[k].entry.path, EntriesOf(job, list));
    list[..p] + [k] + list[p..]
  }

  function MoveNode(job: Job, list: seq<nat>, i: nat): seq<nat>
    requires Named(job, list) && 0 < i < |list|
  {
    var j := Anchor(EntriesOf(job, list)[..i], job.items[list[i]].entry.level);
    list[..j + 1] + [list[i]] + list[j + 1..i] + list[i + 1..]
  }

  /** Sizes that every phase keeps. */
  ghost predicate Shape(job: Job, s: State) {
    && |s.frequency| == |s.workers| == |job.items| > 0
    && Named(job, s.list)
    && match s.phase
       case Insert(k) => |s.list| == k <= |job.items|
       case Search(k) => |s.list| == k + 1 <= |job.items|
       case Round(i) => |s.list| == |job.items| && 1 <= i <= |s.list|
       case Print(j) => |s.list| == |job.items| && j <= |s.list|
       case Done => |s.list| == |job.items|
  }

  function Start(job: Job): State {
    State(Insert(0), [], seq(|job.items|, i => 0), seq(|job.items|, i => Absent), 0, [])
  }

  /** The main thread waits only for the thread of the node it prints. */
  ghost predicate MainEnabled(job: Job, s: State)
    requires Shape(job, s)
  {
    match s.phase
    case Print(j) => j < |s.list| ==> !s.workers[s.list[j]].Running?
    case Done => false
    case _ => true
  }

  function PrintOne(job: Job, s: State, j: nat): State
    requires Named(job, s.list) && j < |s.list| && |s.frequency| == |job.items|
  {
    var e := job.items[s.list[j]].entry;
    var order := if j > 0 && e.level == job.items[s.list[j - 1]].entry.level then s.order + 1 else 1;
    s.(phase := Print(j + 1), order := order,
       out := s.out + [Row(e.level, order, s.frequency[s.list[j]], e.path)])
  }

  function StartSearch(job: Job, s: State, k: nat, parallel: bool): State
    requires k < |job.items| == |s.frequency| == |s.workers|
  {
    var item := job.items[k];
    if !item.file then s.(phase := Insert(k + 1))
    else if parallel then s.(phase := Insert(k + 1), workers := s.workers[k := Running(item.chunks, 0)])
    else s.(phase := Insert(k + 1), frequency := s.frequency[k := Frequency(item.chunks, job.keyword)])
  }

  /** The next step of the main thread. */
  ghost function Main(job: Job, s: State, parallel: bool): State
    requires Shape(job, s) && !s.phase.Done?
  {
    match s.phase
    case Insert(k) =>
      if k < |job.items| then s.(phase := Search(k), list := InsertNode(job, s.list, k))
      else s.(phase := Round(1))
    case Search(k) => StartSearch(job, s, k, parallel)
    case Round(i) =>
      if i < |s.list| then s.(phase := Round(i + 1), list := MoveNode(job, s.list, i))
      else s.(phase := Print(0))
    case Print(j) => if j < |s.list| then PrintOne(job, s, j) else s.(phase := Done)
  }

  /** A step of node `w`'s thread: one more chunk, or the final store. */
  function Work(job: Job, s: State, w: nat): State
    requires w < |s.workers| == |s.frequency| && s.workers[w].Running?
  {
    var Running(rest, count) := s.workers[w];
    if rest == [] then s.(frequency := s.frequency[w := count], workers := s.workers[w := Stored])
    else s.(workers := s.workers[w := Running(rest[1..], count + Count(Tokens(rest[0]), job.keyword))])
  }

  datatype Choice = MainMoves | WorkerMoves(w: nat)

  ghost predicate Enabled(job: Job, s: State, c: Choice)
    requires Shape(job, s)
  {
    match c
    case MainMoves => MainEnabled(job, s)
    case WorkerMoves(w) => w < |s.workers| && s.workers[w].Running?
  }

  ghost function Apply(job: Job, s: State, c: Choice, parallel: bool): State
    requires Shape(job, s) && Enabled(job, s, c)
  {
    match c
    case MainMoves => Main(job, s, parallel)
    case WorkerMoves(w) => Work(job, s, w)
  }

  lemma MainKeepsShape(job: Job, s: State, parallel: bool)
    requires Shape(job, s) && !s.phase.Done?
    ensures Shape(job, Main(job, s, parallel))
  {
  }

  lemma ApplyKeepsShape(job: Job, s: State, c: Choice, parallel: bool)
    requires Shape(job, s) && Enabled(job, s, c)
    ensures Shape(job, Apply(job, s, c, parallel))
  {
    if c.MainMoves? {
      MainKeepsShape(job, s, parallel);
    }
  }

  ghost predicate CanRun(job: Job, s: State, schedule: seq<Choice>, parallel: bool)
    requires Shape(job, s)
    decreases |schedule|
  {
    schedule != [] ==>
      && Enabled(job, s, schedule[0])
      && (ApplyKeepsShape(job, s, schedule[0], parallel);
          CanRun(job, Apply(job, s, schedule[0], parallel), schedule[1..], parallel))
  }

  ghost function Run(job: Job, s: State, schedule: seq<Choice>, parallel: bool): (r: State)
    requires Shape(job, s) && CanRun(job, s, schedule, parallel)
    ensures Shape(job, r)
    decreases |schedule|
  {
    if schedule == [] then s
    else
      ApplyKeepsShape(job, s, schedule[0], parallel);
      Run(job, Apply(job, s, schedule[0], parallel), schedule[1..], parallel)
  }

  // ------------------------------------------------------------------ parallel refines sequential

  /** The frequency a node has or is going to have. */
  function Owed(job: Job, s: State, k: nat): nat
    requires k < |s.workers| == |s.frequency|
  {
    match s.workers[k]
    case Running(rest, count) => count + Frequency(rest, job.keyword)
    case _ => s.frequency[k]
  }

  /** A parallel state `p` and a sequential state `q` that have come equally far. */
  ghost predicate Agree(job: Job, p: State, q: State) {
    && Shape(job, p) && Shape(job, q)
    && p.phase == q.phase && p.list == q.list && p.order == q.order && p.out == q.out
    && (forall k :: 0 <= k < |job.items| ==> Owed(job, p, k) == q.frequency[k])
    && (forall k :: 0 <= k < |job.items| ==> q.workers[k].Absent?)
  }

  lemma WorkAgrees(job: Job, p: State, q: State, w: nat)
    requires Agree(job, p, q) && Enabled(job, p, WorkerMoves(w))
    ensures Agree(job, Work(job, p, w), q)
  {
  }

  lemma MainAgrees(job: Job, p: State, q: State)
    requires Agree(job, p, q) && MainEnabled(job, p)
    ensures MainEnabled(job, q) && Agree(job, Main(job, p, true), Main(job, q, false))
  {
    MainKeepsShape(job, p, true);
    MainKeepsShape(job, q, false);
    if p.phase.Print? && p.phase.j < |p.list| {
      assert Owed(job, p, p.list[p.phase.j]) == p.frequency[p.list[p.phase.j]];
    }
  }

  /** The main thread's own moves of a schedule: what the sequential mode does. */
  function MainOnly(schedule: seq<Choice>): seq<Choice> {
    if schedule == [] then []
    else (if schedule[0].MainMoves? then [MainMoves] else []) + MainOnly(schedule[1..])
  }

  lemma {:induction false} RunsAgree(job: Job, p: State, q: State, schedule: seq<Choice>)
    requires Agree(job, p, q) && CanRun(job, p, schedule, true)
    ensures CanRun(job, q, MainOnly(schedule), false)
    ensures Agree(job, Run(job, p, schedule, true), Run(job, q, MainOnly(schedule), false))
    decreases |schedule|
  {
    if schedule != [] {
      ApplyKeepsShape(job, p, schedule[0], true);
      if schedule[0].MainMoves? {
        MainAgrees(job, p, q);
        assert MainOnly(schedule)[1..] == MainOnly(schedule[1..]);
        RunsAgree(job, Main(job, p, true), Main(job, q, false), schedule[1..]);
      } else {
        WorkAgrees(job, p, q, schedule[0].w);
        assert MainOnly(schedule) == MainOnly(schedule[1..]);
        RunsAgree(job, Work(job, p, schedule[0].w), q, schedule[1..]);
      }
    }
  }

  /** Two sequential runs that are both done are the same run. */
  lemma {:induction false} SequentialIsDeterministic(job: Job, q: State, a: seq<Choice>, b: seq<Choice>)
    requires Shape(job, q) && forall k :: 0 <= k < |job.items| ==> q.workers[k].Absent?
    requires CanRun(job, q, a, false) && CanRun(job, q, b, false)
    requires Run(job, q, a, false).phase.Done? && Run(job, q, b, false).phase.Done?
    ensures Run(job, q, a, false) == Run(job, q, b, false)
    decreases |a|
  {
    if a != [] && b != [] {
      ApplyKeepsShape(job, q, MainMoves, false);
      SequentialIsDeterministic(job, Main(job, q, false), a[1..], b[1..]);
    }
  }

  lemma StartAgrees(job: Job)
    requires job.items != []
    ensures Agree(job, Start(job), Start(job))
  {
  }

  /** For every schedule of the parallel mode that finishes, and every run of the sequential mode
      that finishes, the printed lines are the same. */
  lemma ParallelPrintsWhatSequentialPrints(job: Job, schedule: seq<Choice>, sequential: seq<Choice>)
    requires job.items != []
    requires CanRun(job, Start(job), schedule, true) && CanRun(job, Start(job), sequential, false)
    requires Run(job, Start(job), schedule, true).phase.Done?
    requires Run(job, Start(job), sequential, false).phase.Done?
    ensures Run(job, Start(job), schedule, true).out == Run(job, Start(job), sequential, false).out
  {
    StartAgrees(job);
    RunsAgree(job, Start(job), Start(job), schedule);
    SequentialIsDeterministic(job, Start(job), MainOnly(schedule), sequential);
  }

  // ------------------------------------------------------------------ no schedule gets stuck

  function MainLeft(n: nat, phase: Phase): int {
    match phase
    case Insert(k) => 2 * (n - k) + 2 * n + 4
    case Search(k) => 2 * (n - k) + 2 * n + 3
    case Round(i) => (n - i) + n + 3
    case Print(j) => n - j + 1
    case Done => 0
  }

  function WorkLeft(item: Item, w: Worker): nat {
    match w
    case Absent => |item.chunks| + 2
    case Running(rest, _) => |rest| + 1
    case Stored => 0
  }

  function AllWorkLeft(items: seq<Item>, workers: seq<Worker>): nat
    requires |items| == |workers|
  {
    if items == [] then 0
    else WorkLeft(items[0], workers[0]) + AllWorkLeft(items[1..], workers[1..])
  }

  function StepsLeft(job: Job, s: State): int
    requires |s.workers| == |job.items|
  {
    MainLeft(|job.items|, s.phase) + AllWorkLeft(job.items, s.workers)
  }

  lemma {:induction false} LessWorkLeft(items: seq<Item>, workers: seq<Worker>, w: nat, x: Worker)
    requires w < |items| == |workers| && WorkLeft(items[w], x) < WorkLeft(items[w], workers[w])
    ensures AllWorkLeft(items, workers[w := x]) < AllWorkLeft(items, workers)
    decreases |items|
  {
    if w == 0 {
      assert workers[w := x][1..] == workers[1..];
    } else {
      assert workers[w := x][1..] == workers[1..][w - 1 := x];
      LessWorkLeft(items[1..], workers[1..], w - 1, x);
    }
  }

  /** A node that is not yet searched has no thread. */
  ghost predicate NotYetSearched(job: Job, s: State)
    requires Shape(job, s)
  {
    match s.phase
    case Insert(k) => forall m :: k <= m < |s.workers| ==> s.workers[m].Absent?
    case Search(k) => forall m :: k <= m < |s.workers| ==> s.workers[m].Absent?
    case _ => true
  }

  lemma EveryStepGetsOn(job: Job, s: State, c: Choice)
    requires Shape(job, s) && NotYetSearched(job, s) && Enabled(job, s, c)
    ensures var s' := Apply(job, s, c, true);
            Shape(job, s') && NotYetSearched(job, s') && StepsLeft(job, s') < StepsLeft(job, s)
    ensures StepsLeft(job, s) >= 0
  {
    ApplyKeepsShape(job, s, c, true);
    match c
    case WorkerMoves(w) =>
      LessWorkLeft(job.items, s.workers, w, Work(job, s, w).workers[w]);
    case MainMoves =>
      if s.phase.Search? && job.items[s.phase.k].file {
        LessWorkLeft(job.items, s.workers, s.phase.k, Running(job.items[s.phase.k].chunks, 0));
      }
  }

  /** Until the main thread is done, someone can move: if it waits, the thread it waits for can. */
  lemma SomeoneCanMove(job: Job, s: State)
    requires Shape(job, s)
    ensures s.phase.Done? || exists c :: Enabled(job, s, c)
  {
    if !s.phase.Done? && !Enabled(job, s, MainMoves) {
      assert Enabled(job, s, WorkerMoves(s.list[s.phase.j]));
    }
  }

  lemma {:induction false} SchedulesAreBounded(job: Job, s: State, schedule: seq<Choice>)
    requires Shape(job, s) && NotYetSearched(job, s) && CanRun(job, s, schedule, true)
    ensures StepsLeft(job, s) >= 0 && |schedule| <= StepsLeft(job, s)
    decreases |schedule|
  {
    if schedule != [] {
      EveryStepGetsOn(job, s, schedule[0]);
      SchedulesAreBounded(job, Apply(job, s, schedule[0], true), schedule[1..]);
    }
  }

  // ------------------------------------------------------------------ what is printed

  function AllEntries(job: Job): seq<Entry> {
    seq(|job.items|, i requires 0 <= i < |job.items| => job.items[i].entry)
  }

  /** Nodes whose search has been started, and in the sequential mode finished. */
  function Searched(n: nat, phase: Phase): nat {
    match phase
    case Insert(k) => k
    case Search(k) => k
    case _ => n
  }

  ghost predicate FrequenciesRight(job: Job, s: State)
    requires Shape(job, s)
  {
    forall k :: 0 <= k < |job.items| ==>
      Owed(job, s, k)
      == if k < Searched(|job.items|, s.phase) then ItemFrequency(job.items[k], job.keyword) else 0
  }

  lemma WorkKeepsFrequencies(job: Job, s: State, w: nat)
    requires Shape(job, s) && FrequenciesRight(job, s) && NotYetSearched(job, s)
    requires w < |s.workers| && s.workers[w].Running? && Shape(job, Work(job, s, w))
    ensures FrequenciesRight(job, Work(job, s, w)) && NotYetSearched(job, Work(job, s, w))
  {
    assert forall k :: 0 <= k < |job.items| ==> Owed(job, Work(job, s, w), k) == Owed(job, s, k);
  }

  lemma StepKeepsFrequencies(job: Job, s: State, c: Choice, parallel: bool)
    requires Shape(job, s) && FrequenciesRight(job, s) && Enabled(job, s, c)
    requires NotYetSearched(job, s)
    ensures var s' := Apply(job, s, c, parallel);
            Shape(job, s') && FrequenciesRight(job, s') && NotYetSearched(job, s')
  {
    ApplyKeepsShape(job, s, c, parallel);
    if c.WorkerMoves? {
      WorkKeepsFrequencies(job, s, c.w);
    }
  }

  /** The list is where the insertions and the rounds of the sort have brought it. */
  ghost predicate ListRight(job: Job, phase: Phase, list: seq<nat>)
    requires Named(job, list)
  {
    var es, all := EntriesOf(job, list), AllEntries(job);
    match phase
    case Insert(k) => k <= |all| && es == InsertedAll([], all[..k])
    case Search(k) => k < |all| && es == InsertedAll([], all[..k + 1])
    case Round(i) =>
      && 1 <= i <= |list| && InsertedAll([], all) != []
      && Rounds(es[..i], es[i..]) == SortedByLevel(InsertedAll([], all))
    case _ => InsertedAll([], all) != [] && es == SortedByLevel(InsertedAll([], all))
  }

  lemma InsertKeepsList(job: Job, list: seq<nat>, k: nat)
    requires Named(job, list) && k < |job.items| && ListRight(job, Insert(k), list)
    ensures Named(job, InsertNode(job, list, k))
    ensures ListRight(job, Search(k), InsertNode(job, list, k))
  {
    var es, all := EntriesOf(job, list), AllEntries(job);
    var e := job.items[k].entry;
    var p := Place(e.path, es);
    assert EntriesOf(job, InsertNode(job, list, k)) == es[..p] + [e] + es[p..];
    assert all[..k + 1] == all[..k] + [e];
    InsertedAllOfSum([], all[..k], [e]);
    assert InsertedAll(es, [e]) == Inserted(e, es) by {
      assert [e][1..] == [];
    }
  }

  lemma MoveKeepsList(job: Job, list: seq<nat>, i: nat)
    requires Named(job, list) && i < |list| && ListRight(job, Round(i), list)
    ensures Named(job, MoveNode(job, list, i))
    ensures ListRight(job, Round(i + 1), MoveNode(job, list, i))
  {
    var es := EntriesOf(job, list);
    var moved := EntriesOf(job, MoveNode(job, list, i));
    assert moved[..i + 1] == PutBack(es[..i], es[i]);
    assert moved[i + 1..] == es[i..][1..];
  }

  lemma PhasesKeepList(job: Job, list: seq<nat>)
    requires Named(job, list) && |list| == |job.items| > 0
    ensures ListRight(job, Insert(|list|), list) ==> ListRight(job, Round(1), list)
    ensures ListRight(job, Round(|list|), list) ==> ListRight(job, Print(0), list)
  {
    var es := EntriesOf(job, list);
    assert AllEntries(job)[..|list|] == AllEntries(job);
    assert es[..|list|] == es && es[|list|..] == [];
  }

  lemma InsertionKeepsList(job: Job, s: State)
    requires Shape(job, s) && ListRight(job, s.phase, s.list) && s.phase.Insert?
    ensures var s' := Main(job, s, true);
            Named(job, s'.list) && ListRight(job, s'.phase, s'.list)
  {
    if s.phase.k < |job.items| {
      InsertKeepsList(job, s.list, s.phase.k);
    } else {
      PhasesKeepList(job, s.list);
    }
  }

  lemma RoundKeepsList(job: Job, s: State)
    requires Shape(job, s) && ListRight(job, s.phase, s.list) && s.phase.Round?
    ensures var s' := Main(job, s, true);
            Named(job, s'.list) && ListRight(job, s'.phase, s'.list)
  {
    if s.phase.i < |s.list| {
      MoveKeepsList(job, s.list, s.phase.i);
    } else {
      PhasesKeepList(job, s.list);
    }
  }

  /** Only insertions and rounds of the sort touch the list. */
  lemma MainKeepsList(job: Job, s: State, parallel: bool)
    requires Shape(job, s) && ListRight(job, s.phase, s.list) && !s.phase.Done?
    ensures var s' := Main(job, s, parallel);
            Named(job, s'.list) && ListRight(job, s'.phase, s'.list)
  {
    if s.phase.Insert? {
      InsertionKeepsList(job, s);
      assert Main(job, s, parallel) == Main(job, s, true);
    } else if s.phase.Round? {
      RoundKeepsList(job, s);
      assert Main(job, s, parallel) == Main(job, s, true);
    }
  }

  lemma StepKeepsList(job: Job, s: State, c: Choice, parallel: bool)
    requires Shape(job, s) && ListRight(job, s.phase, s.list) && Enabled(job, s, c)
    ensures var s' := Apply(job, s, c, parallel);
            Shape(job, s') && ListRight(job, s'.phase, s'.list)
  {
    ApplyKeepsShape(job, s, c, parallel);
    if c.MainMoves? {
      MainKeepsList(job, s, parallel);
    }
  }

  function RowOf(job: Job, list: seq<nat>, i: nat): Row
    requires Named(job, list) && i < |list|
  {
    var item := job.items[list[i]];
    Row(item.entry.level, Order(EntriesOf(job, list), i), ItemFrequency(item, job.keyword),
        item.entry.path)
  }

  ghost predicate RowsRight(job: Job, s: State)
    requires Shape(job, s)
  {
    match s.phase
    case Print(j) =>
      && |s.out| == j && (forall i :: 0 <= i < j ==> s.out[i] == RowOf(job, s.list, i))
      && (j > 0 ==> s.order == Order(EntriesOf(job, s.list), j - 1))
    case Done => |s.out| == |s.list| && forall i :: 0 <= i < |s.list| ==> s.out[i] == RowOf(job, s.list, i)
    case _ => s.out == []
  }

  lemma PrintKeepsRows(job: Job, s: State, j: nat)
    requires Shape(job, s) && s.phase == Print(j) && j < |s.list| && RowsRight(job, s)
    requires s.frequency[s.list[j]] == ItemFrequency(job.items[s.list[j]], job.keyword)
    ensures Shape(job, PrintOne(job, s, j)) && RowsRight(job, PrintOne(job, s, j))
  {
  }

  lemma StepKeepsRows(job: Job, s: State, c: Choice, parallel: bool)
    requires Shape(job, s) && FrequenciesRight(job, s) && RowsRight(job, s) && Enabled(job, s, c)
    ensures var s' := Apply(job, s, c, parallel);
            Shape(job, s') && RowsRight(job, s')
  {
    ApplyKeepsShape(job, s, c, parallel);
    if c.MainMoves? && s.phase.Print? && s.phase.j < |s.list| {
      var k := s.list[s.phase.j];
      assert Owed(job, s, k) == s.frequency[k] == ItemFrequency(job.items[k], job.keyword);
      PrintKeepsRows(job, s, s.phase.j);
    }
  }

  lemma {:induction false} RunPrintsRows(job: Job, s: State, schedule: seq<Choice>, parallel: bool)
    requires Shape(job, s) && FrequenciesRight(job, s) && NotYetSearched(job, s)
    requires ListRight(job, s.phase, s.list) && RowsRight(job, s)
    requires CanRun(job, s, schedule, parallel)
    ensures var r := Run(job, s, schedule, parallel);
            ListRight(job, r.phase, r.list) && RowsRight(job, r)
    decreases |schedule|
  {
    if schedule != [] {
      StepKeepsFrequencies(job, s, schedule[0], parallel);
      StepKeepsList(job, s, schedule[0], parallel);
      StepKeepsRows(job, s, schedule[0], parallel);
      RunPrintsRows(job, Apply(job, s, schedule[0], parallel), schedule[1..], parallel);
    }
  }

  // ------------------------------------------------------------------ from the directory tree

  /** The nodes populate_list creates, in order; `content` gives the bytes of the file at a path. */
  function ItemsBelow(path: string, children: seq<Tree>, level: int, content: string -> string): seq<Item>
    decreases children
  {
    if children == [] then []
    else ItemsOfOne(path, children[0], level, content) + ItemsBelow(path, children[1..], level, content)
  }

  function ItemsOfOne(path: string, t: Tree, level: int, content: string -> string): seq<Item>
    decreases t
  {
    if Hidden(t.name) then []
    else
      var p := Child(path, t.name);
      if t.Dir? then
        [Item(Entry(p, level), false, [])] + ItemsBelow(p, t.children, level + 1, content)
      else [Item(Entry(p, level), true, Chunks(content(p), ROOM))]
  }

  function JobOf(path: string, children: seq<Tree>, content: string -> string, keyword: string): Job {
    Job([Item(Entry(path, 1), false, [])] + ItemsBelow(path, children, 2, content), keyword)
  }

  function Unlabelled(items: seq<Item>): seq<Entry> {
    if items == [] then [] else [items[0].entry] + Unlabelled(items[1..])
  }

  lemma {:induction false} UnlabelledOfSum(a: seq<Item>, b: seq<Item>)
    ensures Unlabelled(a + b) == Unlabelled(a) + Unlabelled(b)
  {
    if a == [] {
      assert a + b == b;
    } else {
      assert (a + b)[1..] == a[1..] + b;
      UnlabelledOfSum(a[1..], b);
    }
  }

  lemma {:induction false} UnlabelledIsAllEntries(items: seq<Item>)
    ensures |Unlabelled(items)| == |items|
    ensures forall i :: 0 <= i < |items| ==> Unlabelled(items)[i] == items[i].entry
  {
    if items != [] {
      UnlabelledIsAllEntries(items[1..]);
    }
  }

  lemma {:induction false} ItemsBelowAreWalked(path: string, children: seq<Tree>, level: int,
                                               content: string -> string)
    ensures Unlabelled(ItemsBelow(path, children, level, content)) == Walk(path, children, level)
    decreases children
  {
    if children != [] {
      ItemsOfOneAreWalked(path, children[0], level, content);
      ItemsBelowAreWalked(path, children[1..], level, content);
      UnlabelledOfSum(ItemsOfOne(path, children[0], level, content),
                      ItemsBelow(path, children[1..], level, content));
    }
  }

  lemma {:induction false} ItemsOfOneAreWalked(path: string, t: Tree, level: int,
                                               content: string -> string)
    ensures Unlabelled(ItemsOfOne(path, t, level, content)) == WalkOne(path, t, level)
    decreases t
  {
    if !Hidden(t.name) && t.Dir? {
      var p := Child(path, t.name);
      var head := [Item(Entry(p, level), false, [])];
      ItemsBelowAreWalked(p, t.children, level + 1, content);
      UnlabelledOfSum(head, ItemsBelow(p, t.children, level + 1, content));
    }
  }

  lemma JobEntriesAreFound(path: string, children: seq<Tree>, content: string -> string, keyword: string)
    ensures AllEntries(JobOf(path, children, content, keyword)) == Found(path, children)
  {
    var job := JobOf(path, children, content, keyword);
    ItemsBelowAreWalked(path, children, 2, content);
    UnlabelledOfSum([Item(Entry(path, 1), false, [])], ItemsBelow(path, children, 2, content));
    UnlabelledIsAllEntries(job.items);
  }

  function Plain(row: Row): Line {
    Line(row.level, row.order, row.path)
  }

  /** Every finished run, of either mode and under any schedule, prints dirlist's lines, each with
      the frequency of the node it is for. */
  lemma EveryRunPrintsTheListing(path: string, children: seq<Tree>, content: string -> string,
                                 keyword: string, schedule: seq<Choice>, parallel: bool)
    requires CanRun(JobOf(path, children, content, keyword),
                    Start(JobOf(path, children, content, keyword)), schedule, parallel)
    requires Run(JobOf(path, children, content, keyword),
                 Start(JobOf(path, children, content, keyword)), schedule, parallel).phase.Done?
    ensures ListOf(path, children) != []
    ensures var job := JobOf(path, children, content, keyword);
            var out := Run(job, Start(job), schedule, parallel).out;
            && |out| == |Output(path, children)|
            && forall i :: 0 <= i < |out| ==>
                 && Plain(out[i]) == Output(path, children)[i]
                 && exists k :: 0 <= k < |job.items| && IsRowOf(out[i], job.items[k], keyword)
  {
    var job := JobOf(path, children, content, keyword);
    JobEntriesAreFound(path, children, content, keyword);
    RunPrintsRows(job, Start(job), schedule, parallel);
    var r := Run(job, Start(job), schedule, parallel);
    forall i | 0 <= i < |r.out|
      ensures Plain(r.out[i]) == Output(path, children)[i]
      ensures exists k :: 0 <= k < |job.items| && IsRowOf(r.out[i], job.items[k], keyword)
    {
      assert r.out[i] == RowOf(job, r.list, i);
      assert IsRowOf(r.out[i], job.items[r.list[i]], keyword);
    }
  }

  predicate IsRowOf(row: Row, item: Item, keyword: string) {
    && item.entry == Entry(row.path, row.level)
    && row.frequency == ItemFrequency(item, keyword)
  }
}
