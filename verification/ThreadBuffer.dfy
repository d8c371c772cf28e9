/** The server's thread buffer (client-server/server.c): one worker thread per file sends its matches
and then a sentinel through a ring guarded by three semaphores; one printer takes them out and stops
by counting sentinels.

Every semaphore operation, fill, get and test of threadcount is one step, and a schedule interleaves
the threads' steps in any way.  The printer's node is taken to be inserted before the printer first
reads threadcount, so that the count starts at the number of workers plus one.

`sent` and `got` record what was filled into and taken out of the ring; no step reads them.
*/
module ThreadBuffer {
  import opened Collections
  import opened Modulo
  import opened Text

  // ------------------------------------------------------------------ what a worker sends

  /** `owner` is the worker; the program keeps it as the file name of a match.  A sentinel is an item
      with line number -1. */
  datatype Item = Match(owner: nat, number: nat, text: string) | Sentinel(owner: nat)

  function Hit(owner: nat, number: nat, line: string, keyword: string): seq<Item> {
    if keyword in Tokens(line) then [Match(owner, number, line)] else []
  }

  /** The lines that have the keyword among their tokens, with their numbers from `from` + 1. */
  function Matches(owner: nat, lines: seq<string>, from: nat, keyword: string): seq<Item> {
    if lines == [] then []
    else Hit(owner, from + 1, lines[0], keyword) + Matches(owner, lines[1..], from + 1, keyword)
  }

  function Script(owner: nat, lines: seq<string>, keyword: string): seq<Item> {
    Matches(owner, lines, 0, keyword) + [Sentinel(owner)]
  }

  lemma {:induction false} MatchesOfMore(owner: nat, lines: seq<string>, line: string, from: nat,
                                         keyword: string)
    ensures Matches(owner, lines + [line], from, keyword)
            == Matches(owner, lines, from, keyword) + Hit(owner, from + |lines| + 1, line, keyword)
    decreases |lines|
  {
    var hit := Hit(owner, from + |lines| + 1, line, keyword);
    if lines == [] {
      assert [line][1..] == [] && hit + [] == hit;
    } else {
      var first, rest := Hit(owner, from + 1, lines[0], keyword), Matches(owner, lines[1..], from + 1, keyword);
      assert (lines + [line])[1..] == lines[1..] + [line];
      MatchesOfMore(owner, lines[1..], line, from + 1, keyword);
      assert first + (rest + hit) == first + rest + hit;
    }
  }

  /** Characters that fgets delivers at a time: the buffer has one more, for the terminator. */
  const ROOM: nat := 1023

  /** The stream stands behind `k` of the lines. */
  ghost predicate Behind(stream: string, lines: seq<string>, k: nat) {
    k <= |lines| && lines[k..] == Chunks(stream, ROOM)
  }

  /** fgets: the next piece of a stream, and what is left of it. */
  method Fgets(stream: string, ghost lines: seq<string>, ghost k: nat) returns (piece: string, rest: string)
    requires stream != [] && Behind(stream, lines, k)
    ensures k < |lines| && piece == lines[k] && Behind(rest, lines, k + 1) && |rest| < |stream|
  {
    var n := ChunkLength(stream, ROOM);
    piece, rest := stream[..n], stream[n..];
    assert lines[k..][0] == lines[k] && lines[k..][1..] == lines[k + 1..];
  }

  lemma MatchesUpTo(owner: nat, lines: seq<string>, k: nat, keyword: string)
    requires k < |lines|
    ensures Matches(owner, lines[..k + 1], 0, keyword)
            == Matches(owner, lines[..k], 0, keyword) + Hit(owner, k + 1, lines[k], keyword)
  {
    assert lines[..k + 1] == lines[..k] + [lines[k]];
    MatchesOfMore(owner, lines[..k], lines[k], 0, keyword);
  }

  /** retrieve_keyword without its semaphores.  It reads the file through two streams: one to be
      cut into tokens, which destroys the line, and one that catches up to the matching line. */
  method RetrieveKeyword(owner: nat, content: string, keyword: string) returns (items: seq<Item>)
    ensures items == Script(owner, Chunks(content, ROOM), keyword)
  {
    ghost var lines := Chunks(content, ROOM);
    items := [];
    var fileptr, lineptr := content, content;
    var lastSavedLine, currentLine := 0, 0;
    while fileptr != []
      invariant 0 <= lastSavedLine <= currentLine
      invariant Behind(fileptr, lines, currentLine) && Behind(lineptr, lines, lastSavedLine)
      invariant items == Matches(owner, lines[..currentLine], 0, keyword)
      decreases |fileptr|
    {
      var filebuffer;
      filebuffer, fileptr := Fgets(fileptr, lines, currentLine);
      MatchesUpTo(owner, lines, currentLine, keyword);
      currentLine := currentLine + 1;
      var found := HasToken(filebuffer, keyword);
      if found {
        var line;
        line, lineptr := CatchUp(lineptr, lines, lastSavedLine, currentLine);
        lastSavedLine := currentLine;
        items := items + [Match(owner, currentLine, line)];
      }
    }
    assert lines[..currentLine] == lines;
    items := items + [Sentinel(owner)];
  }

  /** The second stream: from behind line `from` through line `to`. */
  method CatchUp(stream: string, ghost lines: seq<string>, from: nat, to: nat)
    returns (line: string, lineptr: string)
    requires from < to <= |lines| && Behind(stream, lines, from)
    ensures line == lines[to - 1] && Behind(lineptr, lines, to)
  {
    line, lineptr := "", stream;
    for i := from to to
      invariant Behind(lineptr, lines, i)
      invariant i > from ==> line == lines[i - 1]
    {
      line, lineptr := Fgets(lineptr, lines, i);
    }
  }

  /** The token loop, left at the first hit. */
  method HasToken(line: string, keyword: string) returns (found: bool)
    ensures found <==> keyword in Tokens(line)
  {
    var tokens := Tokens(line);
    while tokens != []
      invariant keyword in tokens <==> keyword in Tokens(line)
      decreases |tokens|
    {
      if tokens[0] == keyword {
        return true;
      }
      tokens := tokens[1..];
    }
    return false;
  }

  // ------------------------------------------------------------------ the machine

  datatype WorkerPc = WaitEmpty | Lock | Fill | Unlock | PostFull | Finished

  datatype Worker = Worker(pc: WorkerPc, todo: seq<Item>)

  datatype Printer = Check | WaitFull | LockRing | Get | UnlockRing(item: Item) | PostEmpty(item: Item)
                   | Process(item: Item) | Leave | Stopped

  datatype State = State(slots: seq<Item>, filler: nat, use: nat, empty: nat, full: nat, mutex: bool,
                         workers: seq<Worker>, printer: Printer, threadcount: int,
                         printed: seq<Item>, sent: seq<Item>, got: seq<Item>)

  /** buffer_filler++ and buffer_use++, back to 0 at the end. */
  function Next(i: nat, n: nat): nat {
    if i + 1 == n then 0 else i + 1
  }

  predicate Ready(w: Worker) {
    w.pc in {WaitEmpty, Lock, Fill} ==> w.todo != []
  }

  ghost predicate Shape(s: State) {
    && s.filler < |s.slots| && s.use < |s.slots|
    && forall w :: 0 <= w < |s.workers| ==> Ready(s.workers[w])
  }

  predicate WorkerEnabled(s: State, w: nat) {
    w < |s.workers| &&
    match s.workers[w].pc
    case WaitEmpty => s.empty > 0
    case Lock => s.mutex
    case Finished => false
    case _ => true
  }

  function ApplyWorker(s: State, w: nat): State
    requires WorkerEnabled(s, w) && s.filler < |s.slots| && Ready(s.workers[w])
  {
    var Worker(pc, todo) := s.workers[w];
    match pc
    case WaitEmpty => s.(empty := s.empty - 1, workers := s.workers[w := Worker(Lock, todo)])
    case Lock => s.(mutex := false, workers := s.workers[w := Worker(Fill, todo)])
    case Fill =>
      s.(slots := s.slots[s.filler := todo[0]], filler := Next(s.filler, |s.slots|),
         sent := s.sent + [todo[0]], workers := s.workers[w := Worker(Unlock, todo[1..])])
    case Unlock => s.(mutex := true, workers := s.workers[w := Worker(PostFull, todo)])
    case PostFull =>
      s.(full := s.full + 1,
         workers := s.workers[w := Worker(if todo == [] then Finished else WaitEmpty, todo)])
  }

  predicate PrinterEnabled(s: State) {
    match s.printer
    case WaitFull => s.full > 0
    case LockRing => s.mutex
    case Stopped => false
    case _ => true
  }

  function ApplyPrinter(s: State): State
    requires PrinterEnabled(s) && s.use < |s.slots|
  {
    match s.printer
    case Check => s.(printer := if s.threadcount != 1 then WaitFull else Leave)
    case WaitFull => s.(full := s.full - 1, printer := LockRing)
    case LockRing => s.(mutex := false, printer := Get)
    case Get =>
      var item := s.slots[s.use];
      s.(use := Next(s.use, |s.slots|), got := s.got + [item], printer := UnlockRing(item))
    case UnlockRing(item) => s.(mutex := true, printer := PostEmpty(item))
    case PostEmpty(item) => s.(empty := s.empty + 1, printer := Process(item))
    case Process(item) =>
      if item.Match? then s.(printed := s.printed + [item], printer := Check)
      else s.(threadcount := s.threadcount - 1, printer := Check)
    case Leave => s.(threadcount := s.threadcount - 1, printer := Stopped)
  }

  /** sem_init, and a thread for every script. */
  function Start(scripts: seq<seq<Item>>, slots: seq<Item>): State {
    State(slots, 0, 0, |slots|, 0, true,
          seq(|scripts|, w requires 0 <= w < |scripts| => Worker(WaitEmpty, scripts[w])),
          Check, |scripts| + 1, [], [], [])
  }

  datatype Choice = PrinterMoves | WorkerMoves(w: nat)

  predicate Enabled(s: State, c: Choice) {
    match c
    case PrinterMoves => PrinterEnabled(s)
    case WorkerMoves(w) => WorkerEnabled(s, w)
  }

  ghost function Apply(s: State, c: Choice): State
    requires Shape(s) && Enabled(s, c)
  {
    match c
    case PrinterMoves => ApplyPrinter(s)
    case WorkerMoves(w) => ApplyWorker(s, w)
  }

  // ------------------------------------------------------------------ counting threads

  /** Where a worker is: holding an empty slot, having filled but not yet posted, in the mutex. */
  datatype Kind = Holding | Unposted | Inside

  predicate Of(kind: Kind, w: Worker) {
    match kind
    case Holding => w.pc.Lock? || w.pc.Fill?
    case Unposted => w.pc.Unlock? || w.pc.PostFull?
    case Inside => w.pc.Fill? || w.pc.Unlock?
  }

  function Number(kind: Kind, workers: seq<Worker>): nat {
    if workers == [] then 0 else One(Of(kind, workers[0])) + Number(kind, workers[1..])
  }

  lemma {:induction false} NumberUpdated(kind: Kind, workers: seq<Worker>, i: nat, x: Worker)
    requires i < |workers|
    ensures Number(kind, workers[i := x])
            == Number(kind, workers) - One(Of(kind, workers[i])) + One(Of(kind, x))
    decreases |workers|
  {
    if i == 0 {
      assert workers[i := x][1..] == workers[1..];
    } else {
      assert workers[i := x][1..] == workers[1..][i - 1 := x];
      NumberUpdated(kind, workers[1..], i - 1, x);
    }
  }

  lemma {:induction false} NumberCounts(kind: Kind, workers: seq<Worker>, i: nat)
    requires i < |workers| && Of(kind, workers[i])
    ensures Number(kind, workers) >= 1
    decreases |workers|
  {
    if i > 0 {
      NumberCounts(kind, workers[1..], i - 1);
    }
  }

  lemma {:induction false} NumberZero(kind: Kind, workers: seq<Worker>)
    requires forall w :: 0 <= w < |workers| ==> !Of(kind, workers[w])
    ensures Number(kind, workers) == 0
  {
    if workers != [] {
      NumberZero(kind, workers[1..]);
    }
  }

  // ------------------------------------------------------------------ the semaphores

  function Pending(s: State): int {
    |s.sent| - |s.got|
  }

  /** Every slot is free, held by a worker, filled, or emptied and not yet posted. */
  ghost predicate SlotsCounted(s: State) {
    s.empty + Number(Holding, s.workers) + Pending(s)
    + One(s.printer.UnlockRing? || s.printer.PostEmpty?) == |s.slots|
  }

  /** Every filled slot is posted, about to be posted, or claimed by the printer. */
  ghost predicate FillsCounted(s: State) {
    s.full + Number(Unposted, s.workers) + One(s.printer.LockRing? || s.printer.Get?) == Pending(s)
  }

  ghost predicate MutexHeldOnce(s: State) {
    Number(Inside, s.workers) + One(s.printer.Get? || s.printer.UnlockRing?) + One(s.mutex) == 1
  }

  ghost predicate Semaphores(s: State) {
    SlotsCounted(s) && FillsCounted(s) && MutexHeldOnce(s)
  }

  lemma WorkerKeepsSemaphores(s: State, w: nat)
    requires Shape(s) && Semaphores(s) && WorkerEnabled(s, w)
    ensures Semaphores(ApplyWorker(s, w))
  {
    var x := ApplyWorker(s, w).workers[w];
    NumberUpdated(Holding, s.workers, w, x);
    NumberUpdated(Unposted, s.workers, w, x);
    NumberUpdated(Inside, s.workers, w, x);
  }

  lemma PrinterKeepsSemaphores(s: State)
    requires Shape(s) && Semaphores(s) && PrinterEnabled(s)
    ensures Semaphores(ApplyPrinter(s))
  {
  }

  // ------------------------------------------------------------------ the ring

  ghost predicate RingHolds(slots: seq<Item>, filler: nat, use: nat, sent: seq<Item>, got: seq<Item>) {
    && |slots| > 0 && got <= sent && |sent| - |got| <= |slots|
    && filler == Mod(|sent|, |slots|) && use == Mod(|got|, |slots|)
    && forall k :: |got| <= k < |sent| ==> slots[Mod(k, |slots|)] == sent[k]
  }

  lemma NextIsMod(k: nat, n: nat)
    requires n > 0
    ensures Next(Mod(k, n), n) == Mod(k + 1, n)
  {
    ModAdvance(k, 1, n);
  }

  /** With a slot to spare, the slot to be filled holds no pending item. */
  lemma FillerIsFree(n: nat, sent: nat, got: nat, k: nat)
    requires n > 0 && got <= k < sent < got + n
    ensures Mod(k, n) != Mod(sent, n)
  {
    ModDistance(k, sent, n);
  }

  lemma FillKeepsRing(slots: seq<Item>, filler: nat, use: nat, sent: seq<Item>, got: seq<Item>, item: Item)
    requires RingHolds(slots, filler, use, sent, got) && |sent| - |got| < |slots|
    ensures RingHolds(slots[filler := item], Next(filler, |slots|), use, sent + [item], got)
  {
    var n := |slots|;
    NextIsMod(|sent|, n);
    forall k | |got| <= k < |sent|
      ensures Mod(k, n) != filler
    {
      FillerIsFree(n, |sent|, |got|, k);
    }
  }

  lemma GetKeepsRing(slots: seq<Item>, filler: nat, use: nat, sent: seq<Item>, got: seq<Item>)
    requires RingHolds(slots, filler, use, sent, got) && |sent| > |got|
    ensures slots[use] == sent[|got|]
    ensures RingHolds(slots, filler, Next(use, |slots|), sent, got + [slots[use]])
  {
    NextIsMod(|got|, |slots|);
  }

  ghost predicate RingRight(s: State) {
    RingHolds(s.slots, s.filler, s.use, s.sent, s.got)
  }

  lemma WorkerKeepsRing(s: State, w: nat)
    requires Shape(s) && Semaphores(s) && RingRight(s) && WorkerEnabled(s, w)
    ensures RingRight(ApplyWorker(s, w))
  {
    if s.workers[w].pc.Fill? {
      NumberCounts(Holding, s.workers, w);
      FillKeepsRing(s.slots, s.filler, s.use, s.sent, s.got, s.workers[w].todo[0]);
    }
  }

  lemma PrinterKeepsRing(s: State)
    requires Shape(s) && Semaphores(s) && RingRight(s) && PrinterEnabled(s)
    ensures RingRight(ApplyPrinter(s))
  {
    if s.printer.Get? {
      GetKeepsRing(s.slots, s.filler, s.use, s.sent, s.got);
    }
  }

  // ------------------------------------------------------------------ each worker's order

  /** The items of one worker, in order. */
  function Mine(items: seq<Item>, w: nat): seq<Item> {
    if items == [] then []
    else (if items[0].owner == w then [items[0]] else []) + Mine(items[1..], w)
  }

  lemma {:induction false} MineOfSum(a: seq<Item>, b: seq<Item>, w: nat)
    ensures Mine(a + b, w) == Mine(a, w) + Mine(b, w)
  {
    if a == [] {
      assert a + b == b;
    } else {
      assert (a + b)[0] == a[0] && (a + b)[1..] == a[1..] + b;
      MineOfSum(a[1..], b, w);
      Regroup(if a[0].owner == w then [a[0]] else [], Mine(a[1..], w), Mine(b, w));
    }
  }

  /** A worker's script: matches, then one sentinel, all its own. */
  ghost predicate IsScript(script: seq<Item>, w: nat) {
    && script != [] && script[|script| - 1] == Sentinel(w)
    && forall i :: 0 <= i < |script| - 1 ==> script[i].Match? && script[i].owner == w
  }

  ghost predicate AreScripts(scripts: seq<seq<Item>>) {
    forall w :: 0 <= w < |scripts| ==> IsScript(scripts[w], w)
  }

  lemma {:induction false} MatchesAreMatches(owner: nat, lines: seq<string>, from: nat, keyword: string)
    ensures forall i :: 0 <= i < |Matches(owner, lines, from, keyword)| ==>
              Matches(owner, lines, from, keyword)[i].Match?
              && Matches(owner, lines, from, keyword)[i].owner == owner
  {
    if lines != [] {
      MatchesAreMatches(owner, lines[1..], from + 1, keyword);
    }
  }

  /** What retrieve_keyword sends is a script. */
  lemma ScriptIsScript(owner: nat, lines: seq<string>, keyword: string)
    ensures IsScript(Script(owner, lines, keyword), owner)
  {
    MatchesAreMatches(owner, lines, 0, keyword);
  }

  /** What a worker has sent, followed by what it has to do, is its script. */
  ghost predicate InScript(scripts: seq<seq<Item>>, workers: seq<Worker>, sent: seq<Item>) {
    && |workers| == |scripts|
    && (forall w :: 0 <= w < |workers| ==> Mine(sent, w) + workers[w].todo == scripts[w])
    && (forall k :: 0 <= k < |sent| ==> sent[k].owner < |workers|)
    && (forall w :: 0 <= w < |workers| && workers[w].pc.Finished? ==> workers[w].todo == [])
  }

  lemma NextOwner(scripts: seq<seq<Item>>, workers: seq<Worker>, sent: seq<Item>, w: nat)
    requires AreScripts(scripts) && InScript(scripts, workers, sent) && w < |workers|
    requires workers[w].todo != []
    ensures workers[w].todo[0].owner == w
  {
    var k := |Mine(sent, w)|;
    assert scripts[w][k] == workers[w].todo[0];
  }

  lemma FillKeepsScript(scripts: seq<seq<Item>>, workers: seq<Worker>, sent: seq<Item>, w: nat)
    requires AreScripts(scripts) && InScript(scripts, workers, sent) && w < |workers|
    requires workers[w].todo != []
    ensures InScript(scripts, workers[w := Worker(Unlock, workers[w].todo[1..])],
                     sent + [workers[w].todo[0]])
  {
    var item, x := workers[w].todo[0], Worker(Unlock, workers[w].todo[1..]);
    NextOwner(scripts, workers, sent, w);
    forall v | 0 <= v < |workers|
      ensures Mine(sent + [item], v) + workers[w := x][v].todo == scripts[v]
    {
      MineOfSum(sent, [item], v);
      assert [item][1..] == [];
      assert v == w ==> Mine(sent, w) + [item] + x.todo == Mine(sent, w) + workers[w].todo;
    }
  }

  lemma MoveKeepsScript(scripts: seq<seq<Item>>, workers: seq<Worker>, sent: seq<Item>, w: nat, x: Worker)
    requires InScript(scripts, workers, sent) && w < |workers|
    requires x.todo == workers[w].todo && (x.pc.Finished? ==> x.todo == [])
    ensures InScript(scripts, workers[w := x], sent)
  {
  }

  lemma WorkerKeepsScript(scripts: seq<seq<Item>>, s: State, w: nat)
    requires AreScripts(scripts) && Shape(s) && InScript(scripts, s.workers, s.sent) && WorkerEnabled(s, w)
    ensures var t := ApplyWorker(s, w);
            InScript(scripts, t.workers, t.sent)
  {
    if s.workers[w].pc.Fill? {
      FillKeepsScript(scripts, s.workers, s.sent, w);
    } else {
      MoveKeepsScript(scripts, s.workers, s.sent, w, ApplyWorker(s, w).workers[w]);
    }
  }

  // ------------------------------------------------------------------ the printer

  function Sentinels(items: seq<Item>): nat {
    if items == [] then 0 else One(items[0].Sentinel?) + Sentinels(items[1..])
  }

  function OnlyMatches(items: seq<Item>): seq<Item> {
    if items == [] then []
    else (if items[0].Match? then [items[0]] else []) + OnlyMatches(items[1..])
  }

  lemma {:induction false} SplitsOfSum(a: seq<Item>, b: seq<Item>)
    ensures Sentinels(a + b) == Sentinels(a) + Sentinels(b)
    ensures OnlyMatches(a + b) == OnlyMatches(a) + OnlyMatches(b)
  {
    if a == [] {
      assert a + b == b;
    } else {
      assert (a + b)[1..] == a[1..] + b;
      SplitsOfSum(a[1..], b);
    }
  }

  predicate InHand(p: Printer) {
    p.UnlockRing? || p.PostEmpty? || p.Process?
  }

  /** What the printer has dealt with: all it got but the item in its hand. */
  function Processed(p: Printer, got: seq<Item>): seq<Item> {
    if InHand(p) && got != [] then got[..|got| - 1] else got
  }

  /** Where the printer can be for a threadcount. */
  ghost predicate CountFits(p: Printer, threadcount: int) {
    match p
    case Check => true
    case Leave => threadcount == 1
    case Stopped => threadcount == 0
    case _ => threadcount != 1
  }

  ghost predicate PrinterRight(n: nat, p: Printer, threadcount: int, printed: seq<Item>, got: seq<Item>) {
    && (InHand(p) ==> got != [] && p.item == got[|got| - 1])
    && CountFits(p, threadcount)
    && printed == OnlyMatches(Processed(p, got))
    && threadcount == n + 1 - Sentinels(Processed(p, got)) - One(p.Stopped?)
  }

  lemma ProcessKeepsPrinter(n: nat, p: Printer, threadcount: int, printed: seq<Item>, got: seq<Item>)
    requires p.Process? && PrinterRight(n, p, threadcount, printed, got)
    ensures p.item.Match? ==> PrinterRight(n, Check, threadcount, printed + [p.item], got)
    ensures p.item.Sentinel? ==> PrinterRight(n, Check, threadcount - 1, printed, got)
  {
    var done := got[..|got| - 1];
    assert got == done + [p.item];
    SplitsOfSum(done, [p.item]);
    assert [p.item][1..] == [];
  }

  lemma GetKeepsPrinter(n: nat, threadcount: int, printed: seq<Item>, got: seq<Item>, item: Item)
    requires PrinterRight(n, Get, threadcount, printed, got)
    ensures PrinterRight(n, UnlockRing(item), threadcount, printed, got + [item])
  {
    assert (got + [item])[..|got|] == got;
  }

  lemma PrinterKeepsPrinter(n: nat, s: State)
    requires Shape(s) && PrinterEnabled(s)
    requires PrinterRight(n, s.printer, s.threadcount, s.printed, s.got)
    ensures var t := ApplyPrinter(s);
            PrinterRight(n, t.printer, t.threadcount, t.printed, t.got)
  {
    if s.printer.Process? {
      ProcessKeepsPrinter(n, s.printer, s.threadcount, s.printed, s.got);
    } else if s.printer.Get? {
      GetKeepsPrinter(n, s.threadcount, s.printed, s.got, s.slots[s.use]);
    }
  }

  // ------------------------------------------------------------------ all runs

  ghost predicate Inv(scripts: seq<seq<Item>>, s: State) {
    && Shape(s) && Semaphores(s) && RingRight(s)
    && InScript(scripts, s.workers, s.sent) && PrinterRight(|scripts|, s.printer, s.threadcount, s.printed, s.got)
  }

  lemma StartHasInv(scripts: seq<seq<Item>>, slots: seq<Item>)
    requires AreScripts(scripts) && slots != []
    ensures Inv(scripts, Start(scripts, slots))
  {
    var ws := Start(scripts, slots).workers;
    NumberZero(Holding, ws);
    NumberZero(Unposted, ws);
    NumberZero(Inside, ws);
    assert forall w :: 0 <= w < |ws| ==> Mine([], w) + ws[w].todo == scripts[w];
  }

  lemma PrinterKeepsInv(scripts: seq<seq<Item>>, s: State)
    requires Inv(scripts, s) && PrinterEnabled(s)
    ensures Inv(scripts, ApplyPrinter(s))
  {
    var t := ApplyPrinter(s);
    assert t.workers == s.workers && t.sent == s.sent && t.slots == s.slots && t.filler == s.filler;
    PrinterKeepsSemaphores(s);
    PrinterKeepsRing(s);
    PrinterKeepsPrinter(|scripts|, s);
  }

  lemma WorkerKeepsShape(s: State, w: nat)
    requires Shape(s) && WorkerEnabled(s, w)
    ensures Shape(ApplyWorker(s, w))
  {
  }

  lemma WorkerKeepsInv(scripts: seq<seq<Item>>, s: State, w: nat)
    requires AreScripts(scripts) && Inv(scripts, s) && WorkerEnabled(s, w)
    ensures Inv(scripts, ApplyWorker(s, w))
  {
    var t := ApplyWorker(s, w);
    assert t.printer == s.printer && t.threadcount == s.threadcount && t.printed == s.printed
           && t.got == s.got;
    WorkerKeepsShape(s, w);
    WorkerKeepsSemaphores(s, w);
    WorkerKeepsRing(s, w);
    WorkerKeepsScript(scripts, s, w);
  }

  lemma StepKeepsInv(scripts: seq<seq<Item>>, s: State, c: Choice)
    requires AreScripts(scripts) && Inv(scripts, s) && Enabled(s, c)
    ensures Inv(scripts, Apply(s, c))
  {
    if c.PrinterMoves? {
      PrinterKeepsInv(scripts, s);
    } else {
      WorkerKeepsInv(scripts, s, c.w);
    }
  }

  /** The states a schedule can lead to. */
  ghost predicate CanRun(scripts: seq<seq<Item>>, s: State, schedule: seq<Choice>)
    requires AreScripts(scripts) && Inv(scripts, s)
    decreases |schedule|
  {
    schedule != [] ==>
      && Enabled(s, schedule[0])
      && (StepKeepsInv(scripts, s, schedule[0]); CanRun(scripts, Apply(s, schedule[0]), schedule[1..]))
  }

  ghost function Run(scripts: seq<seq<Item>>, s: State, schedule: seq<Choice>): (r: State)
    requires AreScripts(scripts) && Inv(scripts, s) && CanRun(scripts, s, schedule)
    ensures Inv(scripts, r)
    decreases |schedule|
  {
    if schedule == [] then s
    else StepKeepsInv(scripts, s, schedule[0]); Run(scripts, Apply(s, schedule[0]), schedule[1..])
  }

  /** A worker about to fill has a slot no pending item is in. */
  lemma NothingIsOverwritten(scripts: seq<seq<Item>>, s: State, w: nat, k: nat)
    requires Inv(scripts, s) && w < |s.workers| && s.workers[w].pc.Fill?
    requires |s.got| <= k < |s.sent|
    ensures s.slots[Mod(k, |s.slots|)] == s.sent[k] && Mod(k, |s.slots|) != s.filler
  {
    NumberCounts(Holding, s.workers, w);
    FillerIsFree(|s.slots|, |s.sent|, |s.got|, k);
  }

  /** A printer about to get finds the oldest pending item. */
  lemma NothingEmptyIsRead(scripts: seq<seq<Item>>, s: State)
    requires Inv(scripts, s) && s.printer.Get?
    ensures |s.got| < |s.sent| && s.slots[s.use] == s.sent[|s.got|]
  {
    GetKeepsRing(s.slots, s.filler, s.use, s.sent, s.got);
  }

  // ------------------------------------------------------------------ the end

  function SentinelsBy(items: seq<Item>, n: nat): nat {
    if n == 0 then 0 else SentinelsBy(items, n - 1) + Sentinels(Mine(items, n - 1))
  }

  lemma {:induction false} OneMoreSentinel(x: Item, items: seq<Item>, n: nat)
    ensures SentinelsBy([x] + items, n) == SentinelsBy(items, n) + One(x.Sentinel? && x.owner < n)
  {
    if n > 0 {
      OneMoreSentinel(x, items, n - 1);
      var mine := Mine(items, n - 1);
      assert ([x] + items)[1..] == items && ([x] + mine)[1..] == mine;
      assert Mine([x] + items, n - 1) == if x.owner == n - 1 then [x] + mine else mine;
    }
  }

  lemma {:induction false} SentinelsByWorker(items: seq<Item>, n: nat)
    requires forall k :: 0 <= k < |items| ==> items[k].owner < n
    ensures Sentinels(items) == SentinelsBy(items, n)
    decreases |items|
  {
    if items == [] {
      NoSentinels(n);
    } else {
      assert items == [items[0]] + items[1..];
      OneMoreSentinel(items[0], items[1..], n);
      SentinelsByWorker(items[1..], n);
    }
  }

  lemma {:induction false} NoSentinels(n: nat)
    ensures SentinelsBy([], n) == 0
  {
    if n > 0 {
      NoSentinels(n - 1);
    }
  }

  /** If nobody has sent more than one sentinel and there are `n`, everybody has sent one. */
  lemma {:induction false} OneFromEach(items: seq<Item>, n: nat)
    requires forall w :: 0 <= w < n ==> Sentinels(Mine(items, w)) <= 1
    ensures SentinelsBy(items, n) <= n
    ensures SentinelsBy(items, n) == n ==> forall w :: 0 <= w < n ==> Sentinels(Mine(items, w)) == 1
  {
    if n > 0 {
      OneFromEach(items, n - 1);
    }
  }

  /** A proper prefix of a script has no sentinel, the whole has one. */
  lemma {:induction false} SentinelEndsScript(script: seq<Item>, w: nat, prefix: seq<Item>)
    requires IsScript(script, w) && prefix <= script
    ensures Sentinels(prefix) == One(prefix == script)
    decreases |prefix|
  {
    if prefix != [] {
      var front, last := prefix[..|prefix| - 1], prefix[|prefix| - 1];
      assert prefix == front + [last];
      SplitsOfSum(front, [last]);
      assert [last][1..] == [];
      SentinelEndsScript(script, w, front);
      assert last == script[|prefix| - 1];
    }
  }

  lemma PrefixOfScript(got: seq<Item>, rest: seq<Item>, todo: seq<Item>, script: seq<Item>, w: nat)
    requires IsScript(script, w) && Mine(got + rest, w) + todo == script
    ensures Mine(got, w) + (Mine(rest, w) + todo) == script
    ensures Sentinels(Mine(got, w)) == One(Mine(got, w) == script)
  {
    MineOfSum(got, rest, w);
    assert Mine(got, w) + (Mine(rest, w) + todo) == script;
    SentinelEndsScript(script, w, Mine(got, w));
  }

  lemma GotIsInScript(scripts: seq<seq<Item>>, s: State, w: nat)
    requires AreScripts(scripts) && Inv(scripts, s) && w < |scripts|
    ensures var rest := s.sent[|s.got|..];
            Mine(s.got, w) + (Mine(rest, w) + s.workers[w].todo) == scripts[w]
    ensures Sentinels(Mine(s.got, w)) == One(Mine(s.got, w) == scripts[w])
  {
    var rest := s.sent[|s.got|..];
    assert s.sent == s.got + rest;
    PrefixOfScript(s.got, rest, s.workers[w].todo, scripts[w], w);
  }

  /** No more sentinels are taken out than there are workers, and if as many then one from each. */
  lemma SentinelsGot(scripts: seq<seq<Item>>, s: State)
    requires AreScripts(scripts) && Inv(scripts, s)
    ensures Sentinels(s.got) <= |scripts|
    ensures Sentinels(s.got) == |scripts| ==>
              forall w :: 0 <= w < |scripts| ==> Sentinels(Mine(s.got, w)) == 1
  {
    forall w | 0 <= w < |scripts|
      ensures Sentinels(Mine(s.got, w)) <= 1
    {
      GotIsInScript(scripts, s, w);
    }
    assert forall k :: 0 <= k < |s.got| ==> s.got[k] == s.sent[k];
    SentinelsByWorker(s.got, |scripts|);
    OneFromEach(s.got, |scripts|);
  }

  /** When as many sentinels have been taken out as there are workers, nothing is left anywhere. */
  lemma AllSentinelsMeanAllDone(scripts: seq<seq<Item>>, s: State)
    requires AreScripts(scripts) && Inv(scripts, s) && Sentinels(s.got) == |scripts|
    ensures s.got == s.sent
    ensures forall w :: 0 <= w < |scripts| ==> Mine(s.got, w) == scripts[w] && s.workers[w].todo == []
  {
    SentinelsGot(scripts, s);
    forall w | 0 <= w < |scripts|
      ensures Mine(s.got, w) == scripts[w] && s.workers[w].todo == []
      ensures Mine(s.sent[|s.got|..], w) == []
    {
      GotIsInScript(scripts, s, w);
    }
    var rest := s.sent[|s.got|..];
    assert rest != [] ==> rest[0].owner < |scripts| && Mine(rest, rest[0].owner) != [];
  }

  lemma LeavingMeansAllSentinels(scripts: seq<seq<Item>>, s: State)
    requires Inv(scripts, s) && (s.printer.Leave? || s.printer.Stopped?)
    ensures Sentinels(s.got) == |scripts|
  {
  }

  /** The printer stops exactly when the ring is empty and every worker has sent its whole script;
      what it printed keeps every worker's order and leaves nothing out. */
  lemma PrinterStopsAtTheEnd(scripts: seq<seq<Item>>, s: State)
    requires AreScripts(scripts) && Inv(scripts, s) && (s.printer.Leave? || s.printer.Stopped?)
    ensures s.got == s.sent && s.printed == OnlyMatches(s.sent)
    ensures forall w :: 0 <= w < |scripts| ==>
              && s.workers[w].todo == []
              && Mine(s.printed, w) == scripts[w][..|scripts[w]| - 1]
  {
    LeavingMeansAllSentinels(scripts, s);
    AllSentinelsMeanAllDone(scripts, s);
    forall w | 0 <= w < |scripts|
      ensures Mine(s.printed, w) == scripts[w][..|scripts[w]| - 1]
    {
      MineOfMatches(s.sent, w);
      MatchesOfScript(scripts[w], w);
    }
  }

  lemma {:induction false} MineOfMatches(items: seq<Item>, w: nat)
    ensures Mine(OnlyMatches(items), w) == OnlyMatches(Mine(items, w))
  {
    if items != [] {
      var x, rest := items[0], items[1..];
      MineOfMatches(rest, w);
      assert ([x] + OnlyMatches(rest))[1..] == OnlyMatches(rest);
      assert ([x] + Mine(rest, w))[1..] == Mine(rest, w);
      assert Mine(items, w) == if x.owner == w then [x] + Mine(rest, w) else Mine(rest, w);
      assert OnlyMatches(items) == if x.Match? then [x] + OnlyMatches(rest) else OnlyMatches(rest);
    }
  }

  lemma MatchesOfScript(script: seq<Item>, w: nat)
    requires IsScript(script, w)
    ensures OnlyMatches(script) == script[..|script| - 1]
  {
    var front := script[..|script| - 1];
    assert script == front + [Sentinel(w)];
    SplitsOfSum(front, [Sentinel(w)]);
    AllMatches(front);
  }

  lemma {:induction false} AllMatches(items: seq<Item>)
    requires forall k :: 0 <= k < |items| ==> items[k].Match?
    ensures OnlyMatches(items) == items
  {
    if items != [] {
      AllMatches(items[1..]);
    }
  }

  // ------------------------------------------------------------------ no deadlock, no endless run

  predicate Waiting(w: Worker) {
    w.pc.WaitEmpty? || w.pc.Finished?
  }

  predicate AtEnd(s: State) {
    s.printer.Stopped? && forall w :: 0 <= w < |s.workers| ==> s.workers[w].pc.Finished?
  }

  /** A worker that is not waiting for an empty slot can move, or waits for whoever is in the mutex. */
  lemma BusyWorkerMeansEnabled(s: State, w: nat)
    requires Semaphores(s) && w < |s.workers| && !Waiting(s.workers[w])
    ensures exists c :: Enabled(s, c)
  {
    if s.workers[w].pc.Lock? && !s.mutex {
      SomeoneInsideCanMove(s);
    } else {
      assert Enabled(s, WorkerMoves(w));
    }
  }

  lemma SomeoneInsideCanMove(s: State)
    requires MutexHeldOnce(s) && !s.mutex
    ensures exists c :: Enabled(s, c)
  {
    if s.printer.Get? || s.printer.UnlockRing? {
      assert Enabled(s, PrinterMoves);
    } else if forall w :: 0 <= w < |s.workers| ==> !Of(Inside, s.workers[w]) {
      NumberZero(Inside, s.workers);
    } else {
      var w :| 0 <= w < |s.workers| && Of(Inside, s.workers[w]);
      assert Enabled(s, WorkerMoves(w));
    }
  }

  /** Some thread can move until the printer has stopped and every worker has finished. */
  lemma NoDeadlock(scripts: seq<seq<Item>>, s: State)
    requires AreScripts(scripts) && Inv(scripts, s)
    ensures AtEnd(s) || exists c :: Enabled(s, c)
  {
    if w :| 0 <= w < |s.workers| && !Waiting(s.workers[w]) {
      BusyWorkerMeansEnabled(s, w);
    } else if s.printer.LockRing? && !s.mutex {
      SomeoneInsideCanMove(s);
    } else if s.printer.WaitFull? && s.full == 0 {
      PrinterWaitsForSomeone(scripts, s);
    } else if s.printer.Stopped? {
      PrinterStopsAtTheEnd(scripts, s);
    } else {
      assert Enabled(s, PrinterMoves);
    }
  }

  /** If the printer waits for an item and all workers wait or are finished, one can go on. */
  lemma PrinterWaitsForSomeone(scripts: seq<seq<Item>>, s: State)
    requires AreScripts(scripts) && Inv(scripts, s) && s.printer.WaitFull? && s.full == 0
    requires forall w :: 0 <= w < |s.workers| ==> Waiting(s.workers[w])
    ensures exists c :: Enabled(s, c)
  {
    NumberZero(Unposted, s.workers);
    NumberZero(Holding, s.workers);
    assert s.got == s.sent && s.empty == |s.slots| > 0;
    if w :| 0 <= w < |s.workers| && s.workers[w].pc.WaitEmpty? {
      assert Enabled(s, WorkerMoves(w));
    } else {
      forall w | 0 <= w < |scripts|
        ensures Sentinels(Mine(s.got, w)) == 1
      {
        GotIsInScript(scripts, s, w);
        assert Mine(s.got, w) + [] == scripts[w];
      }
      SentinelsByWorker(s.got, |scripts|);
      AllOnes(s.got, |scripts|);
    }
  }

  lemma {:induction false} AllOnes(items: seq<Item>, n: nat)
    requires forall w :: 0 <= w < n ==> Sentinels(Mine(items, w)) == 1
    ensures SentinelsBy(items, n) == n
  {
    if n > 0 {
      AllOnes(items, n - 1);
    }
  }

  function WorkerLeft(w: Worker): nat {
    14 * |w.todo| + match w.pc
                    case WaitEmpty => 3
                    case Lock => 2
                    case Fill => 1
                    case Unlock => 5
                    case PostFull => 4
                    case Finished => 0
  }

  function WorkersLeft(workers: seq<Worker>): nat {
    if workers == [] then 0 else WorkerLeft(workers[0]) + WorkersLeft(workers[1..])
  }

  function PrinterLeft(p: Printer): nat {
    match p
    case Check => 4
    case WaitFull => 3
    case LockRing => 2
    case Get => 1
    case UnlockRing(_) => 8
    case PostEmpty(_) => 7
    case Process(_) => 6
    case Leave => 1
    case Stopped => 0
  }

  function StepsLeft(s: State): int {
    WorkersLeft(s.workers) + 9 * Pending(s) + PrinterLeft(s.printer)
  }

  lemma {:induction false} WorkersLeftUpdated(workers: seq<Worker>, i: nat, x: Worker)
    requires i < |workers|
    ensures WorkersLeft(workers[i := x]) == WorkersLeft(workers) - WorkerLeft(workers[i]) + WorkerLeft(x)
    decreases |workers|
  {
    if i == 0 {
      assert workers[i := x][1..] == workers[1..];
    } else {
      assert workers[i := x][1..] == workers[1..][i - 1 := x];
      WorkersLeftUpdated(workers[1..], i - 1, x);
    }
  }

  lemma EveryStepGetsOn(s: State, c: Choice)
    requires Shape(s) && Enabled(s, c)
    ensures StepsLeft(Apply(s, c)) < StepsLeft(s)
  {
    if c.WorkerMoves? {
      WorkersLeftUpdated(s.workers, c.w, ApplyWorker(s, c.w).workers[c.w]);
    }
  }

  /** No schedule goes on for ever. */
  lemma {:induction false} SchedulesAreBounded(scripts: seq<seq<Item>>, s: State, schedule: seq<Choice>)
    requires AreScripts(scripts) && Inv(scripts, s) && CanRun(scripts, s, schedule)
    ensures StepsLeft(s) >= 0 && |schedule| <= StepsLeft(s)
    decreases |schedule|
  {
    if schedule != [] {
      EveryStepGetsOn(s, schedule[0]);
      StepKeepsInv(scripts, s, schedule[0]);
      SchedulesAreBounded(scripts, Apply(s, schedule[0]), schedule[1..]);
    }
  }

  /** handle_client_request waits for threadcount 0, which is there exactly when the printer has
      stopped: no worker and no item can still change anything. */
  lemma ZeroMeansStopped(scripts: seq<seq<Item>>, s: State)
    requires AreScripts(scripts) && Inv(scripts, s)
    ensures s.threadcount == 0 <==> s.printer.Stopped?
  {
    SentinelsGot(scripts, s);
    ProcessedHasNoMore(s.printer, s.got);
  }

  lemma ProcessedHasNoMore(p: Printer, got: seq<Item>)
    ensures Sentinels(Processed(p, got)) <= Sentinels(got)
  {
    if InHand(p) && got != [] {
      var n := |got| - 1;
      assert got == got[..n] + [got[n]];
      SplitsOfSum(got[..n], [got[n]]);
    }
  }

  /** The schedule can be run from the start; and where it leads. */
  ghost predicate Runs(scripts: seq<seq<Item>>, slots: seq<Item>, schedule: seq<Choice>)
    requires AreScripts(scripts) && slots != []
  {
    StartHasInv(scripts, slots);
    CanRun(scripts, Start(scripts, slots), schedule)
  }

  ghost function End(scripts: seq<seq<Item>>, slots: seq<Item>, schedule: seq<Choice>): (r: State)
    requires AreScripts(scripts) && slots != [] && Runs(scripts, slots, schedule)
    ensures Inv(scripts, r)
  {
    StartHasInv(scripts, slots);
    Run(scripts, Start(scripts, slots), schedule)
  }

  /** For any number of workers, any ring and any schedule: a run that cannot go on has the printer
      stopped, every worker finished, the ring empty, and every worker's matches printed once each and
      in the worker's order. */
  lemma EveryMaximalRunPrintsEverything(scripts: seq<seq<Item>>, slots: seq<Item>, schedule: seq<Choice>)
    requires AreScripts(scripts) && slots != [] && Runs(scripts, slots, schedule)
    requires !exists c :: Enabled(End(scripts, slots, schedule), c)
    ensures var r := End(scripts, slots, schedule);
            && AtEnd(r) && r.threadcount == 0 && r.got == r.sent && r.empty == |r.slots| && r.full == 0
            && forall w :: 0 <= w < |scripts| ==> Mine(r.printed, w) == scripts[w][..|scripts[w]| - 1]
  {
    var r := End(scripts, slots, schedule);
    NoDeadlock(scripts, r);
    PrinterStopsAtTheEnd(scripts, r);
    NumberZero(Holding, r.workers);
    NumberZero(Unposted, r.workers);
  }

  // ------------------------------------------------------------------ from files to output

  lemma AllAreScripts(files: seq<string>, keyword: string)
    ensures forall w :: 0 <= w < |files| ==> IsScript(Script(w, Chunks(files[w], ROOM), keyword), w)
  {
    forall w | 0 <= w < |files|
      ensures IsScript(Script(w, Chunks(files[w], ROOM), keyword), w)
    {
      ScriptIsScript(w, Chunks(files[w], ROOM), keyword);
    }
  }

  /** A worker for every file. */
  ghost function FileScripts(files: seq<string>, keyword: string): (scripts: seq<seq<Item>>)
    ensures |scripts| == |files| && AreScripts(scripts)
  {
    AllAreScripts(files, keyword);
    seq(|files|, w requires 0 <= w < |files| => Script(w, Chunks(files[w], ROOM), keyword))
  }

  lemma {:induction false} MatchesHaveOwners(items: seq<Item>, n: nat)
    requires forall k :: 0 <= k < |items| ==> items[k].owner < n
    ensures forall k :: 0 <= k < |OnlyMatches(items)| ==> OnlyMatches(items)[k].owner < n
  {
    if items != [] {
      MatchesHaveOwners(items[1..], n);
    }
  }

  /** The server's search, end to end: for any files, keyword, ring and schedule, a run that cannot go on
      has printed for each file exactly the pieces of it that have the keyword, numbered and in order,
      and nothing else. */
  lemma SearchPrintsTheMatches(files: seq<string>, keyword: string, slots: seq<Item>, schedule: seq<Choice>)
    requires slots != [] && Runs(FileScripts(files, keyword), slots, schedule)
    requires !exists c :: Enabled(End(FileScripts(files, keyword), slots, schedule), c)
    ensures var r := End(FileScripts(files, keyword), slots, schedule);
            && (forall w :: 0 <= w < |files| ==>
                  Mine(r.printed, w) == Matches(w, Chunks(files[w], ROOM), 0, keyword))
            && (forall k :: 0 <= k < |r.printed| ==> r.printed[k].owner < |files|)
  {
    var scripts := FileScripts(files, keyword);
    var r := End(scripts, slots, schedule);
    EveryMaximalRunPrintsEverything(scripts, slots, schedule);
    PrinterStopsAtTheEnd(scripts, r);
    MatchesHaveOwners(r.sent, |files|);
    forall w | 0 <= w < |files|
      ensures Mine(r.printed, w) == Matches(w, Chunks(files[w], ROOM), 0, keyword)
    {
      var matches := Matches(w, Chunks(files[w], ROOM), 0, keyword);
      assert scripts[w] == matches + [Sentinel(w)];
    }
  }

  // ------------------------------------------------------------------ the ring in memory

  /** The shared buffer and its two indices. */
  class Buffer {
    const buffer: array<Item>
    var filler: nat
    var use: nat

    constructor (buffer: array<Item>)
      ensures this.buffer == buffer && filler == 0 && use == 0
    {
      this.buffer, filler, use := buffer, 0, 0;
    }

    /** buffer_fill: with a slot to spare, the pending items gain one at the end. */
    method BufferFill(item: Item, ghost sent: seq<Item>, ghost got: seq<Item>)
      requires RingHolds(buffer[..], filler, use, sent, got) && |sent| - |got| < buffer.Length
      modifies buffer, this`filler
      ensures RingHolds(buffer[..], filler, use, sent + [item], got)
    {
      FillKeepsRing(buffer[..], filler, use, sent, got, item);
      ghost var before := buffer[..];
      buffer[filler] := item;
      assert buffer[..] == before[filler := item];
      filler := filler + 1;
      if filler == buffer.Length {
        filler := 0;
      }
    }

    /** buffer_get: the oldest pending item. */
    method BufferGet(ghost sent: seq<Item>, ghost got: seq<Item>) returns (tmp: Item)
      requires RingHolds(buffer[..], filler, use, sent, got) && |got| < |sent|
      modifies this`use
      ensures tmp == sent[|got|] && RingHolds(buffer[..], filler, use, sent, got + [tmp])
    {
      GetKeepsRing(buffer[..], filler, use, sent, got);
      tmp := buffer[use];
      use := use + 1;
      if use == buffer.Length {
        use := 0;
      }
    }
  }
}
