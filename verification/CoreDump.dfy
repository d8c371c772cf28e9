/** The ELF core dumper (fs/binfmt_elf.c, the variant with register sets): notesize and writenote,
fill_note_info and write_note_info, and elf_core_dump itself.

Pass one adds up sizes and fixes the offsets that go into the headers; pass two writes.  A dump that
goes through has the length that was planned, however its writes are cut; where writes are not cut
short, it has everything where the headers say it is, or is a prefix of that file.  The note format is
that of chapter 5 of the System V gABI, "Note Section", under "Program Header".
*/
module CoreDump {
  import opened Collections
  import opened CoreFile

  // ------------------------------------------------------------------ encodings

  function Digit(n: nat, i: nat): byte {
    if i == 0 then n % 256 else Digit(n / 256, i - 1)
  }

  /** A field of a header: a value of so many bytes, the least significant first. */
  datatype Field = Field(value: nat, width: nat)

  function ByteAt(fields: seq<Field>, i: nat): byte {
    if fields == [] then 0
    else if i < fields[0].width then Digit(fields[0].value, i)
    else ByteAt(fields[1..], i - fields[0].width)
  }

  /** The fields one after the other, `n` bytes in all. */
  function Encoded(fields: seq<Field>, n: nat): (b: seq<byte>)
    ensures |b| == n
  {
    seq(n, i requires 0 <= i < n => ByteAt(fields, i))
  }

  const EHDR: nat := 64
  const PHDR: nat := 56
  const SHDR: nat := 64
  const NOTE: nat := 12
  const PN_XNUM: nat := 0xffff

  /** The fields of struct elfhdr that a dump sets to something it computes. */
  datatype Ehdr = Ehdr(machine: nat, flags: nat, shoff: nat, phnum: nat, shentsize: nat, shnum: nat)

  /** ELFMAG, class, data encoding, version and OS ABI, padded to 16; then ET_CORE and so on. */
  function EhdrFields(e: Ehdr): seq<Field> {
    [Field(0x464c457f, 4), Field(0x010102, 4), Field(0, 8), Field(4, 2)]
    + [Field(e.machine, 2), Field(1, 4), Field(0, 8), Field(EHDR, 8)]
    + [Field(e.shoff, 8), Field(e.flags, 4), Field(EHDR, 2), Field(PHDR, 2)]
    + [Field(e.phnum, 2), Field(e.shentsize, 2), Field(e.shnum, 2), Field(0, 2)]
  }

  function EhdrBytes(e: Ehdr): (b: seq<byte>)
    ensures |b| == EHDR
  {
    Encoded(EhdrFields(e), EHDR)
  }

  datatype Phdr = Phdr(kind: nat, flags: nat, offset: nat, vaddr: nat, filesz: nat, memsz: nat, align: nat)

  function PhdrFields(p: Phdr): seq<Field> {
    [Field(p.kind, 4), Field(p.flags, 4), Field(p.offset, 8), Field(p.vaddr, 8)]
    + [Field(0, 8), Field(p.filesz, 8), Field(p.memsz, 8), Field(p.align, 8)]
  }

  function PhdrBytes(p: Phdr): (b: seq<byte>)
    ensures |b| == PHDR
  {
    Encoded(PhdrFields(p), PHDR)
  }

  /** The extra section header whose sh_info holds the number of program headers. */
  function ShdrFields(segs: nat): seq<Field> {
    [Field(0, 4), Field(0, 4), Field(0, 8), Field(0, 8)] + [Field(0, 8), Field(1, 8), Field(0, 4), Field(segs, 4)]
    + [Field(0, 8), Field(0, 8)]
  }

  function ShdrBytes(segs: nat): (b: seq<byte>)
    ensures |b| == SHDR
  {
    Encoded(ShdrFields(segs), SHDR)
  }

  function NoteFields(namesz: nat, descsz: nat, kind: nat): seq<Field> {
    [Field(namesz, 4), Field(descsz, 4), Field(kind, 4)]
  }

  // ------------------------------------------------------------------ notes

  /** struct memelfnote; `name` without its terminator. */
  datatype Note = Note(name: seq<byte>, kind: nat, data: seq<byte>)

  /** roundup(n, 4). */
  function Roundup4(n: nat): (r: nat)
    ensures r % 4 == 0 && n <= r < n + 4
  {
    (n + 3) / 4 * 4
  }

  /** notesize. */
  function NoteSize(n: Note): (sz: nat)
    ensures sz % 4 == 0 && sz >= NOTE
  {
    NOTE + Roundup4(|n.name| + 1) + Roundup4(|n.data|)
  }

  function NoteHeader(n: Note): (b: seq<byte>)
    ensures |b| == NOTE
  {
    Encoded(NoteFields(|n.name| + 1, |n.data|, n.kind), NOTE)
  }

  function Padded(data: seq<byte>): (b: seq<byte>)
    ensures |b| == Roundup4(|data|)
  {
    data + Zeros(Roundup4(|data|) - |data|)
  }

  /** The format: header, name with terminator, data, each padded to a multiple of 4. */
  function NoteBytes(n: Note): (b: seq<byte>)
    ensures |b| == NoteSize(n)
  {
    NoteHeader(n) + Padded(n.name + [0]) + Padded(n.data)
  }

  /** On a multiple of 4 the padding is that of the length. */
  lemma PaddingIsRoundup(pos: nat, n: nat)
    requires pos % 4 == 0
    ensures Padding(pos + n, 4) == Roundup4(n) - n
  {
  }

  // ------------------------------------------------------------------ stretches of the file

  /** A stretch of the file: its bytes, and how many of them count against the limit. */
  datatype Stretch = Stretch(bytes: seq<byte>, cost: nat)

  function Plain(bytes: seq<byte>): Stretch {
    Stretch(bytes, |bytes|)
  }

  /** Zeros that dump_skip goes over. */
  function Hole(n: nat, seekable: bool): Stretch {
    Stretch(Zeros(n), SkipCost(n, seekable))
  }

  function Then(a: Stretch, b: Stretch): Stretch {
    Stretch(a.bytes + b.bytes, a.cost + b.cost)
  }

  lemma Rejoin(a: Stretch, b: Stretch, c: Stretch)
    ensures Then(Then(a, b), c) == Then(a, Then(b, c))
  {
    Regroup(a.bytes, b.bytes, c.bytes);
  }

  lemma NothingThen(a: Stretch)
    ensures Then(Plain([]), a) == a
  {
  }

  /** The file is to become as long as `full`, and `left` of it is left; where writes are not cut short
      it is to become `full`. */
  ghost predicate Owes(cprm: Cprm, left: Stretch, full: Stretch)
    reads cprm
  {
    && cprm.Valid() && cprm.pos + |left.bytes| == |full.bytes| && cprm.written + left.cost == full.cost
    && (cprm.whole ==> cprm.Image() + left.bytes == full.bytes)
  }

  /** How a step ends that is to bring the file to where `left` is left: the file gets no longer than
      planned, and stays a prefix where writes are not cut short; only a failing write or seek, a signal
      or the limit can stop it. */
  ghost predicate Went(cprm: Cprm, ok: bool, left: Stretch, full: Stretch)
    reads cprm
  {
    && cprm.Valid()
    && (if ok then Owes(cprm, left, full)
        else cprm.pos <= |full.bytes| && (cprm.whole ==> cprm.Image() <= full.bytes))
    && (cprm.calm && full.cost <= cprm.limit ==> ok)
  }

  method Emit(cprm: Cprm, data: seq<byte>, ghost rest: Stretch, ghost full: Stretch) returns (ok: bool)
    requires Owes(cprm, Then(Plain(data), rest), full)
    modifies cprm
    ensures Went(cprm, ok, rest, full)
    ensures ok ==> cprm.pos == old(cprm.pos) + |data| && (data != [] ==> cprm.file == cprm.Image())
  {
    ghost var before := cprm.Image();
    Regroup(before, data, rest.bytes);
    ghost var lens;
    ok, lens := cprm.DumpEmit(data);
  }

  method Skip(cprm: Cprm, nr: nat, ghost rest: Stretch, ghost full: Stretch) returns (ok: bool)
    requires Owes(cprm, Then(Hole(nr, cprm.seekable), rest), full)
    modifies cprm
    ensures Went(cprm, ok, rest, full)
    ensures ok ==> cprm.pos == old(cprm.pos) + nr
  {
    ghost var before := cprm.Image();
    Regroup(before, Zeros(nr), rest.bytes);
    ok := cprm.DumpSkip(nr);
  }

  method Align4(cprm: Cprm, ghost rest: Stretch, ghost full: Stretch) returns (ok: bool)
    requires Owes(cprm, Then(Hole(Padding(cprm.pos, 4), cprm.seekable), rest), full)
    modifies cprm
    ensures Went(cprm, ok, rest, full)
    ensures ok ==> cprm.pos == old(cprm.pos) + Padding(old(cprm.pos), 4)
  {
    ghost var before := cprm.Image();
    ghost var pad := Hole(Padding(cprm.pos, 4), cprm.seekable);
    Regroup(before, pad.bytes, rest.bytes);
    assert PowerOfTwo(4) by {
      assert PowerOfTwo(2) && PowerOfTwo(1);
    }
    ok := cprm.DumpAlign(4);
  }

  /** Data and its padding, which is skipped. */
  function PaddedStretch(data: seq<byte>, seekable: bool): (s: Stretch)
    ensures s.bytes == Padded(data)
  {
    Then(Plain(data), Hole(Roundup4(|data|) - |data|, seekable))
  }

  function NoteStretch(n: Note, seekable: bool): (s: Stretch)
    ensures s.bytes == NoteBytes(n)
  {
    Then(Then(Plain(NoteHeader(n)), PaddedStretch(n.name + [0], seekable)), PaddedStretch(n.data, seekable))
  }

  /** A part of a note and its padding. */
  method EmitPadded(cprm: Cprm, data: seq<byte>, ghost rest: Stretch, ghost full: Stretch) returns (ok: bool)
    requires Owes(cprm, Then(PaddedStretch(data, cprm.seekable), rest), full) && cprm.pos % 4 == 0
    modifies cprm
    ensures Went(cprm, ok, rest, full)
    ensures ok ==> cprm.pos == old(cprm.pos) + Roundup4(|data|) && cprm.pos % 4 == 0
  {
    ghost var pad := Hole(Roundup4(|data|) - |data|, cprm.seekable);
    PaddingIsRoundup(cprm.pos, |data|);
    Rejoin(Plain(data), pad, rest);
    ok := Emit(cprm, data, Then(pad, rest), full);
    if ok {
      ok := Align4(cprm, rest, full);
    }
  }

  /** writenote, from a multiple of 4. */
  method WriteNote(cprm: Cprm, n: Note, ghost rest: Stretch, ghost full: Stretch) returns (ok: bool)
    requires Owes(cprm, Then(NoteStretch(n, cprm.seekable), rest), full) && cprm.pos % 4 == 0
    modifies cprm
    ensures Went(cprm, ok, rest, full)
    ensures ok ==> cprm.pos == old(cprm.pos) + NoteSize(n) && cprm.pos % 4 == 0
  {
    ghost var header, name := Plain(NoteHeader(n)), PaddedStretch(n.name + [0], cprm.seekable);
    ghost var data := PaddedStretch(n.data, cprm.seekable);
    Rejoin(Then(header, name), data, rest);
    Rejoin(header, name, Then(data, rest));
    ok := Emit(cprm, NoteHeader(n), Then(name, Then(data, rest)), full);
    if !ok { return; }
    ok := EmitPadded(cprm, n.name + [0], Then(data, rest), full);
    if !ok { return; }
    ok := EmitPadded(cprm, n.data, rest, full);
  }

  // ------------------------------------------------------------------ register sets

  const NT_PRSTATUS: nat := 1
  const NT_PRFPREG: nat := 2

  /** "CORE" and "LINUX". */
  const CORE_NAME: seq<byte> := [67, 79, 82, 69]
  const LINUX_NAME: seq<byte> := [76, 73, 78, 85, 88]

  /** A task: its prstatus note, with register set 0 inside, and by index the contents of the register
      sets that are active and can be read. */
  datatype Task = Task(prstatus: Note, sets: map<nat, seq<byte>>)

  /** `view` is the note type of each register set, 0 for one without a note. */
  datatype NoteInfo = NoteInfo(view: seq<nat>, tasks: seq<Task>, psinfo: Note, signote: Note,
                               auxv: Note, files: Option<Note>)

  /** There is the dumping task at least. */
  predicate InfoOk(info: NoteInfo) {
    info.tasks != []
  }

  /** thread_notes: how many register sets have a note type. */
  function Noted(view: seq<nat>): (n: nat)
    ensures n <= |view|
  {
    if view == [] then 0 else One(view[0] != 0) + Noted(view[1..])
  }

  method CountNoted(view: seq<nat>) returns (n: nat)
    ensures n == Noted(view)
  {
    n := 0;
    var i := 0;
    while i < |view|
      invariant 0 <= i <= |view| && n + Noted(view[i..]) == Noted(view)
    {
      assert view[i..][1..] == view[i + 1..];
      if view[i] != 0 {
        n := n + 1;
      }
      i := i + 1;
    }
  }

  /** The view passes fill_note_info's check. */
  predicate Sane(view: seq<nat>) {
    view != [] && view[0] == NT_PRSTATUS
  }

  /** The register sets with a note type come before those without. */
  ghost predicate NotedFirst(view: seq<nat>) {
    forall i, j :: 0 <= i < j < |view| && view[j] != 0 ==> view[i] != 0
  }

  ghost predicate NoneFrom(view: seq<nat>, k: nat) {
    forall j :: k <= j < |view| ==> view[j] == 0
  }

  lemma {:induction false} NotedAtLeast(view: seq<nat>, k: nat)
    requires k <= |view| && forall i :: 0 <= i < k ==> view[i] != 0
    ensures Noted(view) >= k
  {
    if k > 0 {
      NotedAtLeast(view[1..], k - 1);
    }
  }

  lemma {:induction false} NotedAtMost(view: seq<nat>, k: nat)
    requires k <= |view| && NoneFrom(view, k)
    ensures Noted(view) <= k
  {
    if view != [] {
      NotedAtMost(view[1..], if k > 0 then k - 1 else 0);
    }
  }

  lemma {:induction false} NotedBelow(view: seq<nat>, i: nat, k: nat)
    requires i < k <= |view| && view[i] == 0 && NoneFrom(view, k)
    ensures Noted(view) < k
  {
    if i == 0 {
      NotedAtMost(view[1..], k - 1);
    } else {
      NotedBelow(view[1..], i - 1, k - 1);
    }
  }

  /** They come first exactly when there is none from index thread_notes on. */
  lemma NotedFirstMeansNoneBehind(view: seq<nat>)
    ensures NotedFirst(view) <==> NoneFrom(view, Noted(view))
  {
    var n := Noted(view);
    if !NoneFrom(view, n) {
      var j :| n <= j < |view| && view[j] != 0;
      if forall i :: 0 <= i < j ==> view[i] != 0 {
        NotedAtLeast(view, j + 1);
      }
    } else if !NotedFirst(view) {
      var i, j :| 0 <= i < j < |view| && view[j] != 0 && view[i] == 0;
      NotedBelow(view, i, n);
    }
  }

  /** The note of register set `i`, if it yields one. */
  function RegsetNote(view: seq<nat>, sets: map<nat, seq<byte>>, i: nat): Option<Note>
    requires i < |view|
  {
    if view[i] == 0 || i !in sets then None
    else Some(Note(if view[i] == NT_PRFPREG then CORE_NAME else LINUX_NAME, view[i], sets[i]))
  }

  // ------------------------------------------------------------------ all notes

  /** A thread's notes by register set: prstatus for the first, an empty slot for one without a note. */
  datatype Thread = Thread(prstatus: Note, others: seq<Option<Note>>)

  function ThreadOf(view: seq<nat>, task: Task): Thread {
    Thread(task.prstatus,
           if view == [] then []
           else seq(|view| - 1, i requires 0 <= i < |view| - 1 => RegsetNote(view, task.sets, i + 1)))
  }

  function Threads(view: seq<nat>, tasks: seq<Task>): (threads: seq<Thread>)
    ensures |threads| == |tasks|
  {
    seq(|tasks|, k requires 0 <= k < |tasks| => ThreadOf(view, tasks[k]))
  }

  function SlotsSize(slots: seq<Option<Note>>): nat {
    if slots == [] then 0
    else (if slots[0].Some? then NoteSize(slots[0].value) else 0) + SlotsSize(slots[1..])
  }

  function SlotsBytes(slots: seq<Option<Note>>): (b: seq<byte>)
    ensures |b| == SlotsSize(slots)
  {
    if slots == [] then [] else SlotBytes(slots[0]) + SlotsBytes(slots[1..])
  }

  function SlotBytes(slot: Option<Note>): (b: seq<byte>)
    ensures |b| == if slot.Some? then NoteSize(slot.value) else 0
  {
    if slot.Some? then NoteBytes(slot.value) else []
  }

  lemma {:induction false} SlotsSizeOfSum(a: seq<Option<Note>>, b: seq<Option<Note>>)
    ensures SlotsSize(a + b) == SlotsSize(a) + SlotsSize(b)
  {
    if a == [] {
      assert a + b == b;
    } else {
      assert (a + b)[1..] == a[1..] + b;
      SlotsSizeOfSum(a[1..], b);
    }
  }

  /** The process-wide notes. */
  function Common(info: NoteInfo): seq<Option<Note>> {
    [Some(info.psinfo), Some(info.signote), Some(info.auxv), info.files]
  }

  /** What fill_thread_core_info adds up for the threads. */
  function ThreadsSize(threads: seq<Thread>): nat {
    if threads == [] then 0
    else NoteSize(threads[0].prstatus) + SlotsSize(threads[0].others) + ThreadsSize(threads[1..])
  }

  /** info->size. */
  function InfoSize(info: NoteInfo): nat {
    ThreadsSize(Threads(info.view, info.tasks)) + SlotsSize(Common(info))
  }

  /** The slots write_note_info looks at: the first is prstatus. */
  function Looked(t: Thread, threadNotes: nat): seq<Option<Note>> {
    if 1 <= threadNotes <= |t.others| then t.others[..threadNotes - 1] else t.others
  }

  /** And those it does not look at. */
  function Unlooked(t: Thread, threadNotes: nat): seq<Option<Note>> {
    if 1 <= threadNotes <= |t.others| then t.others[threadNotes - 1..] else []
  }

  /** The notes as they are written: the process-wide ones come after the first. */
  function ThreadsBytes(threads: seq<Thread>, threadNotes: nat, common: seq<Option<Note>>): seq<byte> {
    if threads == [] then []
    else NoteBytes(threads[0].prstatus) + SlotsBytes(common) + SlotsBytes(Looked(threads[0], threadNotes))
         + ThreadsBytes(threads[1..], threadNotes, [])
  }

  function InfoBytes(info: NoteInfo): seq<byte> {
    ThreadsBytes(Threads(info.view, info.tasks), Noted(info.view), Common(info))
  }

  /** Notes that are counted but not written. */
  function Lost(threads: seq<Thread>, threadNotes: nat): nat {
    if threads == [] then 0 else SlotsSize(Unlooked(threads[0], threadNotes)) + Lost(threads[1..], threadNotes)
  }

  lemma {:induction false} WrittenAndLost(threads: seq<Thread>, threadNotes: nat, common: seq<Option<Note>>)
    ensures threads != [] ==>
              |ThreadsBytes(threads, threadNotes, common)| + Lost(threads, threadNotes)
              == ThreadsSize(threads) + SlotsSize(common)
    ensures threads == [] ==> ThreadsBytes(threads, threadNotes, common) == [] && Lost(threads, threadNotes) == 0
    decreases |threads|
  {
    if threads != [] {
      var t := threads[0];
      assert t.others == Looked(t, threadNotes) + Unlooked(t, threadNotes);
      SlotsSizeOfSum(Looked(t, threadNotes), Unlooked(t, threadNotes));
      WrittenAndLost(threads[1..], threadNotes, []);
    }
  }

  ghost predicate Emptied(slots: seq<Option<Note>>) {
    forall j :: 0 <= j < |slots| ==> slots[j].None?
  }

  /** No note belongs behind the slots that are allocated. */
  ghost predicate AllInside(threads: seq<Thread>, threadNotes: nat) {
    forall i :: 0 <= i < |threads| ==> Emptied(Unlooked(threads[i], threadNotes))
  }

  /** Every note is stored inside the slots that are allocated for its thread. */
  ghost predicate StoresInside(info: NoteInfo) {
    AllInside(Threads(info.view, info.tasks), Noted(info.view))
  }

  lemma {:induction false} EmptySlots(slots: seq<Option<Note>>)
    ensures SlotsSize(slots) == 0 <==> Emptied(slots)
  {
    if slots != [] {
      EmptySlots(slots[1..]);
      assert Emptied(slots) ==> Emptied(slots[1..]);
      assert slots[0].None? && Emptied(slots[1..]) ==> Emptied(slots) by {
        assert forall j :: 0 < j < |slots| ==> slots[j] == slots[1..][j - 1];
      }
    }
  }

  lemma {:induction false} NothingLost(threads: seq<Thread>, threadNotes: nat)
    ensures Lost(threads, threadNotes) == 0 <==> AllInside(threads, threadNotes)
    decreases |threads|
  {
    if threads != [] {
      EmptySlots(Unlooked(threads[0], threadNotes));
      NothingLost(threads[1..], threadNotes);
      assert AllInside(threads, threadNotes) ==> AllInside(threads[1..], threadNotes);
      assert Emptied(Unlooked(threads[0], threadNotes)) && AllInside(threads[1..], threadNotes)
             ==> AllInside(threads, threadNotes) by {
        assert forall i :: 0 < i < |threads| ==> threads[i] == threads[1..][i - 1];
      }
    }
  }

  /** A dump counts in pass one what it writes in pass two exactly when it stores inside its slots. */
  lemma NotesSizeIsRightExactlyWhenInside(info: NoteInfo)
    requires InfoOk(info)
    ensures |InfoBytes(info)| == InfoSize(info) <==> StoresInside(info)
  {
    WrittenAndLost(Threads(info.view, info.tasks), Noted(info.view), Common(info));
    NothingLost(Threads(info.view, info.tasks), Noted(info.view));
  }

  ghost predicate DumpOf(info: NoteInfo, view: seq<nat>) {
    InfoOk(info) && info.view == view
  }

  /** Every dump of the view stores inside its slots and writes what it counted. */
  ghost predicate AllDumpsAreRight(view: seq<nat>) {
    forall info :: DumpOf(info, view) ==> StoresInside(info) && |InfoBytes(info)| == InfoSize(info)
  }

  lemma NothingBehind(view: seq<nat>, task: Task)
    requires Sane(view) && NoneFrom(view, Noted(view))
    ensures Emptied(Unlooked(ThreadOf(view, task), Noted(view)))
  {
    NotedAtLeast(view, 1);
    var others, n := ThreadOf(view, task).others, Noted(view);
    assert forall j :: n - 1 <= j < |others| ==> others[j] == RegsetNote(view, task.sets, j + 1);
  }

  /** A dump of one task whose register set `j` alone is active. */
  function DumpWith(view: seq<nat>, j: nat): NoteInfo {
    var n := Note(CORE_NAME, NT_PRSTATUS, []);
    NoteInfo(view, [Task(n, map[j := []])], n, n, n, None)
  }

  lemma SomethingBehind(view: seq<nat>, j: nat)
    requires Sane(view) && Noted(view) <= j < |view| && view[j] != 0
    ensures !StoresInside(DumpWith(view, j))
  {
    NotedAtLeast(view, 1);
    var info, n := DumpWith(view, j), Noted(view);
    var t := Threads(view, info.tasks)[0];
    assert t.others[j - 1] == RegsetNote(view, info.tasks[0].sets, j);
    assert Unlooked(t, n)[j - n] == t.others[j - 1];
  }

  /** The exact condition, on the view alone: every dump is right exactly when the register sets with a
      note type come first. */
  lemma DumpsAreRightExactlyWhenNotedFirst(view: seq<nat>)
    requires Sane(view)
    ensures AllDumpsAreRight(view) <==> NotedFirst(view)
  {
    NotedFirstMeansNoneBehind(view);
    if NotedFirst(view) {
      forall info | DumpOf(info, view)
        ensures StoresInside(info) && |InfoBytes(info)| == InfoSize(info)
      {
        forall k | 0 <= k < |info.tasks|
          ensures Emptied(Unlooked(Threads(view, info.tasks)[k], Noted(view)))
        {
          NothingBehind(view, info.tasks[k]);
        }
        NotesSizeIsRightExactlyWhenInside(info);
      }
    } else {
      var j :| Noted(view) <= j < |view| && view[j] != 0;
      SomethingBehind(view, j);
      assert DumpOf(DumpWith(view, j), view);
    }
  }

  lemma NotedOfThree(a: nat, b: nat, c: nat)
    ensures Noted([a, b, c]) == One(a != 0) + One(b != 0) + One(c != 0)
  {
    assert [c][1..] == [] && Noted([c]) == One(c != 0);
    assert [b, c][1..] == [c] && Noted([b, c]) == One(b != 0) + Noted([c]);
    assert [a, b, c][1..] == [b, c];
  }

  lemma OneNoteLost(threads: seq<Thread>, threadNotes: nat, common: seq<Option<Note>>, note: Note)
    requires |threads| == 1 && Unlooked(threads[0], threadNotes) == [Some(note)]
    ensures ThreadsSize(threads) + SlotsSize(common)
            == |ThreadsBytes(threads, threadNotes, common)| + NoteSize(note)
  {
    WrittenAndLost(threads, threadNotes, common);
    assert threads[1..] == [] && SlotsSize([Some(note)]) == NoteSize(note);
  }

  lemma LastSetIsUnlooked(view: seq<nat>, task: Task, note: Note)
    requires |view| == 3 && RegsetNote(view, task.sets, 2) == Some(note)
    ensures Unlooked(ThreadOf(view, task), 2) == [Some(note)]
  {
    var others := ThreadOf(view, task).others;
    assert others[1..] == [others[1]];
  }

  /** A view that fails: a floating-point set behind a set without a note.  Of two slots the note wants
      the third, and its 20 bytes are counted but not written. */
  lemma GapInTheViewFails()
    ensures var view := [NT_PRSTATUS, 0, NT_PRFPREG];
            var info := DumpWith(view, 2);
            Sane(view) && InfoOk(info) && !StoresInside(info) && InfoSize(info) == |InfoBytes(info)| + 20
  {
    var view := [NT_PRSTATUS, 0, NT_PRFPREG];
    var info := DumpWith(view, 2);
    NotedOfThree(NT_PRSTATUS, 0, NT_PRFPREG);
    SomethingBehind(view, 2);
    var note := Note(CORE_NAME, NT_PRFPREG, []);
    LastSetIsUnlooked(view, info.tasks[0], note);
    OneNoteLost(Threads(view, info.tasks), 2, Common(info), note);
    assert NoteSize(note) == 20;
  }

  // ------------------------------------------------------------------ filling the notes

  /** The slots of a thread as fill_thread_core_info leaves them. */
  function NoteSlots(t: Thread, threadNotes: nat): seq<Option<Note>> {
    [Some(t.prstatus)] + Looked(t, threadNotes)
  }

  function AllNoteSlots(threads: seq<Thread>, threadNotes: nat): (all: seq<seq<Option<Note>>>)
    ensures |all| == |threads|
  {
    seq(|threads|, k requires 0 <= k < |threads| => NoteSlots(threads[k], threadNotes))
  }

  /** What the slots hold when the register sets before `i` are done. */
  ghost predicate SlotsUpTo(notes: seq<Option<Note>>, t: Thread, i: nat)
    requires 1 <= |notes| && 1 <= i <= |t.others| + 1
  {
    && (forall j :: 1 <= j < |notes| ==> notes[j] == if j < i then t.others[j - 1] else None)
    && (forall j :: |notes| - 1 <= j < i - 1 ==> t.others[j].None?)
  }

  lemma FilledSlots(notes: seq<Option<Note>>, t: Thread)
    requires 1 <= |notes| <= |t.others| + 1
    requires notes[0] == Some(t.prstatus) && SlotsUpTo(notes, t, |t.others| + 1)
    ensures notes == NoteSlots(t, |notes|) && Emptied(Unlooked(t, |notes|))
  {
  }

  lemma StrayNote(t: Thread, threadNotes: nat, i: nat)
    requires 1 <= threadNotes <= i <= |t.others| && t.others[i - 1].Some?
    ensures !Emptied(Unlooked(t, threadNotes))
  {
    assert Unlooked(t, threadNotes)[i - threadNotes] == t.others[i - 1];
  }

  /** fill_thread_core_info: by index into the slots that were allocated.  An index outside them ends
      the model; binfmt_elf.c has no such test. */
  method FillThread(view: seq<nat>, task: Task, threadNotes: nat)
    returns (inside: bool, slots: seq<Option<Note>>, size: nat)
    requires 1 <= threadNotes <= |view|
    ensures inside <==> Emptied(Unlooked(ThreadOf(view, task), threadNotes))
    ensures inside ==> slots == NoteSlots(ThreadOf(view, task), threadNotes)
    ensures inside ==> size == NoteSize(task.prstatus) + SlotsSize(ThreadOf(view, task).others)
  {
    ghost var t := ThreadOf(view, task);
    var notes := new Option<Note>[threadNotes](_ => None);
    notes[0] := Some(task.prstatus);
    slots, size := [], NoteSize(task.prstatus);
    var i := 1;
    assert t.others[0..] == t.others;
    while i < |view|
      invariant 1 <= i <= |view|
      invariant notes[0] == Some(task.prstatus) && SlotsUpTo(notes[..], t, i)
      invariant size + SlotsSize(t.others[i - 1..]) == NoteSize(task.prstatus) + SlotsSize(t.others)
    {
      assert t.others[i - 1] == RegsetNote(view, task.sets, i);
      assert t.others[i - 1..][1..] == t.others[i..];
      if view[i] != 0 && i in task.sets {
        if i >= threadNotes {
          StrayNote(t, threadNotes, i);
          return false, [], 0;
        }
        var name := if view[i] != NT_PRFPREG then LINUX_NAME else CORE_NAME;
        notes[i] := Some(Note(name, view[i], task.sets[i]));
        size := size + NoteSize(notes[i].value);
      }
      i := i + 1;
    }
    slots := notes[..];
    FilledSlots(slots, t);
    inside := true;
  }

  /** How fill_note_info ends: the view is refused, a note belongs outside its slots, or all is there. */
  datatype Filling = Refused | Outside | Filled(size: nat, notes: seq<seq<Option<Note>>>)

  ghost predicate FillingIs(r: Filling, info: NoteInfo) {
    && (r.Refused? <==> !Sane(info.view))
    && (r.Outside? <==> Sane(info.view) && !StoresInside(info))
    && (r.Filled? ==> r.size == InfoSize(info)
                      && r.notes == AllNoteSlots(Threads(info.view, info.tasks), Noted(info.view)))
  }

  /** fill_note_info. */
  method FillNoteInfo(info: NoteInfo) returns (r: Filling)
    ensures FillingIs(r, info)
  {
    var threadNotes := CountNoted(info.view);
    if info.view != [] && info.view[0] != 0 {
      NotedAtLeast(info.view, 1);
    }
    if threadNotes == 0 || info.view[0] != NT_PRSTATUS {
      return Refused;
    }
    var inside, size, notes := FillThreads(info.view, info.tasks, threadNotes);
    if !inside {
      return Outside;
    }
    var common := AddSlots(Common(info));
    return Filled(size + common, notes);
  }

  /** Its loop over the threads. */
  method FillThreads(view: seq<nat>, tasks: seq<Task>, threadNotes: nat)
    returns (inside: bool, size: nat, notes: seq<seq<Option<Note>>>)
    requires 1 <= threadNotes <= |view|
    ensures inside <==> AllInside(Threads(view, tasks), threadNotes)
    ensures inside ==> size == ThreadsSize(Threads(view, tasks))
    ensures inside ==> notes == AllNoteSlots(Threads(view, tasks), threadNotes)
  {
    ghost var threads := Threads(view, tasks);
    inside, size, notes := true, 0, [];
    var k := 0;
    assert threads[0..] == threads && AllNoteSlots(threads[..0], threadNotes) == [];
    while k < |tasks|
      invariant 0 <= k <= |tasks| && AllInside(threads[..k], threadNotes)
      invariant size + ThreadsSize(threads[k..]) == ThreadsSize(threads)
      invariant notes == AllNoteSlots(threads[..k], threadNotes)
    {
      assert threads[k] == ThreadOf(view, tasks[k]);
      assert threads[k..][1..] == threads[k + 1..] && threads[..k + 1] == threads[..k] + [threads[k]];
      var slots, counted;
      inside, slots, counted := FillThread(view, tasks[k], threadNotes);
      if !inside { return; }
      size, notes := size + counted, notes + [slots];
      k := k + 1;
    }
    assert threads[..k] == threads;
  }

  method AddSlots(slots: seq<Option<Note>>) returns (size: nat)
    ensures size == SlotsSize(slots)
  {
    size := 0;
    var i := 0;
    while i < |slots|
      invariant 0 <= i <= |slots|
      invariant size + SlotsSize(slots[i..]) == SlotsSize(slots)
    {
      assert slots[i..][1..] == slots[i + 1..];
      if slots[i].Some? {
        size := size + NoteSize(slots[i].value);
      }
      i := i + 1;
    }
  }

  // ------------------------------------------------------------------ writing the notes

  function SlotStretch(slot: Option<Note>, seekable: bool): (s: Stretch)
    ensures s.bytes == SlotBytes(slot)
  {
    if slot.Some? then NoteStretch(slot.value, seekable) else Plain([])
  }

  function SlotsStretch(slots: seq<Option<Note>>, seekable: bool): (s: Stretch)
    ensures s.bytes == SlotsBytes(slots)
  {
    if slots == [] then Plain([]) else Then(SlotStretch(slots[0], seekable), SlotsStretch(slots[1..], seekable))
  }

  function ThreadsStretch(threads: seq<Thread>, threadNotes: nat, common: seq<Option<Note>>, seekable: bool):
      (s: Stretch)
    ensures s.bytes == ThreadsBytes(threads, threadNotes, common)
  {
    if threads == [] then Plain([])
    else Then(Then(Then(NoteStretch(threads[0].prstatus, seekable), SlotsStretch(common, seekable)),
                   SlotsStretch(Looked(threads[0], threadNotes), seekable)),
              ThreadsStretch(threads[1..], threadNotes, [], seekable))
  }

  function InfoStretch(info: NoteInfo, seekable: bool): (s: Stretch)
    ensures s.bytes == InfoBytes(info)
  {
    ThreadsStretch(Threads(info.view, info.tasks), Noted(info.view), Common(info), seekable)
  }

  /** The slots from `i` on, and then the rest. */
  function SlotsLeft(slots: seq<Option<Note>>, i: nat, rest: Stretch, seekable: bool): Stretch
    requires i <= |slots|
    decreases |slots| - i
  {
    if i == |slots| then rest
    else Then(SlotStretch(slots[i], seekable), SlotsLeft(slots, i + 1, rest, seekable))
  }

  lemma {:induction false} SlotsLeftIs(slots: seq<Option<Note>>, i: nat, rest: Stretch, seekable: bool)
    requires i <= |slots|
    ensures SlotsLeft(slots, i, rest, seekable) == Then(SlotsStretch(slots[i..], seekable), rest)
    decreases |slots| - i
  {
    if i == |slots| {
      NothingThen(rest);
    } else {
      SlotsLeftIs(slots, i + 1, rest, seekable);
      assert slots[i..][1..] == slots[i + 1..] && slots[i..][0] == slots[i];
      Rejoin(SlotStretch(slots[i], seekable), SlotsStretch(slots[i + 1..], seekable), rest);
    }
  }

  method WriteSlot(cprm: Cprm, slots: seq<Option<Note>>, i: nat, ghost rest: Stretch, ghost full: Stretch)
    returns (ok: bool)
    requires i < |slots| && Owes(cprm, SlotsLeft(slots, i, rest, cprm.seekable), full) && cprm.pos % 4 == 0
    modifies cprm
    ensures Went(cprm, ok, SlotsLeft(slots, i + 1, rest, cprm.seekable), full) && (ok ==> cprm.pos % 4 == 0)
  {
    ghost var left := SlotsLeft(slots, i + 1, rest, cprm.seekable);
    if slots[i].Some? {
      ok := WriteNote(cprm, slots[i].value, left, full);
    } else {
      NothingThen(left);
      ok := true;
    }
  }

  /** The notes in some slots. */
  method WriteSlots(cprm: Cprm, slots: seq<Option<Note>>, ghost rest: Stretch, ghost full: Stretch)
    returns (ok: bool)
    requires Owes(cprm, Then(SlotsStretch(slots, cprm.seekable), rest), full) && cprm.pos % 4 == 0
    modifies cprm
    ensures Went(cprm, ok, rest, full) && (ok ==> cprm.pos % 4 == 0)
  {
    ok := true;
    var i := 0;
    SlotsLeftIs(slots, 0, rest, cprm.seekable);
    assert slots[0..] == slots;
    while ok && i < |slots|
      invariant 0 <= i <= |slots| && (ok ==> cprm.pos % 4 == 0)
      invariant Went(cprm, ok, SlotsLeft(slots, i, rest, cprm.seekable), full)
      decreases |slots| - i
    {
      ok := WriteSlot(cprm, slots, i, rest, full);
      i := i + 1;
    }
  }

  /** A thread's notes, with others behind the first, and then the rest. */
  function RoundStretch(notes: seq<Option<Note>>, common: seq<Option<Note>>, rest: Stretch, seekable: bool): Stretch
    requires notes != [] && notes[0].Some?
  {
    Then(NoteStretch(notes[0].value, seekable),
         Then(SlotsStretch(common, seekable), Then(SlotsStretch(notes[1..], seekable), rest)))
  }

  /** One round of write_note_info. */
  method WriteThread(cprm: Cprm, notes: seq<Option<Note>>, common: seq<Option<Note>>,
                     ghost rest: Stretch, ghost full: Stretch)
    returns (ok: bool)
    requires notes != [] && notes[0].Some? && cprm.pos % 4 == 0
    requires Owes(cprm, RoundStretch(notes, common, rest, cprm.seekable), full)
    modifies cprm
    ensures Went(cprm, ok, rest, full) && (ok ==> cprm.pos % 4 == 0)
  {
    ghost var others := Then(SlotsStretch(notes[1..], cprm.seekable), rest);
    ok := WriteNote(cprm, notes[0].value, Then(SlotsStretch(common, cprm.seekable), others), full);
    if !ok { return; }
    ok := WriteSlots(cprm, common, others, full);
    if !ok { return; }
    ok := WriteSlots(cprm, notes[1..], rest, full);
  }

  /** The loop of write_note_info. */
  method WriteThreads(cprm: Cprm, notes: seq<seq<Option<Note>>>, common: seq<Option<Note>>,
                      ghost threads: seq<Thread>, ghost threadNotes: nat, ghost rest: Stretch, ghost full: Stretch)
    returns (ok: bool)
    requires notes == AllNoteSlots(threads, threadNotes) && notes != []
    requires Owes(cprm, Then(ThreadsStretch(threads, threadNotes, common, cprm.seekable), rest), full)
    requires cprm.pos % 4 == 0
    modifies cprm
    ensures Went(cprm, ok, rest, full)
  {
    var k, first := 0, common;
    ghost var left := Then(ThreadsStretch(threads, threadNotes, common, cprm.seekable), rest);
    assert threads[0..] == threads;
    while k < |notes|
      invariant 0 <= k <= |notes| && (k > 0 ==> first == [])
      invariant left == Then(ThreadsStretch(threads[k..], threadNotes, first, cprm.seekable), rest)
      invariant Owes(cprm, left, full) && cprm.pos % 4 == 0
    {
      ThreadsStep(threads, k, threadNotes, first, rest, cprm.seekable);
      left := Then(ThreadsStretch(threads[k + 1..], threadNotes, [], cprm.seekable), rest);
      ok := WriteThread(cprm, notes[k], first, left, full);
      if !ok { return; }
      k, first := k + 1, [];
    }
    NothingThen(rest);
    ok := true;
  }

  /** write_note_info, from the slots that were filled. */
  method WriteNoteInfo(cprm: Cprm, info: NoteInfo, notes: seq<seq<Option<Note>>>,
                       ghost rest: Stretch, ghost full: Stretch)
    returns (ok: bool)
    requires InfoOk(info) && notes == AllNoteSlots(Threads(info.view, info.tasks), Noted(info.view))
    requires Owes(cprm, Then(InfoStretch(info, cprm.seekable), rest), full) && cprm.pos % 4 == 0
    modifies cprm
    ensures Went(cprm, ok, rest, full)
  {
    ok := WriteThreads(cprm, notes, Common(info), Threads(info.view, info.tasks), Noted(info.view), rest, full);
  }

  lemma ThreadsStep(threads: seq<Thread>, k: nat, threadNotes: nat, common: seq<Option<Note>>, rest: Stretch,
                    seekable: bool)
    requires k < |threads|
    ensures var notes := AllNoteSlots(threads, threadNotes)[k];
            && notes != [] && notes[0].Some?
            && Then(ThreadsStretch(threads[k..], threadNotes, common, seekable), rest)
               == RoundStretch(notes, common, Then(ThreadsStretch(threads[k + 1..], threadNotes, [], seekable), rest),
                               seekable)
  {
    assert threads[k..][1..] == threads[k + 1..] && threads[k..][0] == threads[k];
    assert NoteSlots(threads[k], threadNotes)[1..] == Looked(threads[k], threadNotes);
    RejoinFive(NoteStretch(threads[k].prstatus, seekable), SlotsStretch(common, seekable),
               SlotsStretch(Looked(threads[k], threadNotes), seekable),
               ThreadsStretch(threads[k + 1..], threadNotes, [], seekable), rest);
  }

  lemma RejoinFive(a: Stretch, b: Stretch, c: Stretch, d: Stretch, e: Stretch)
    ensures Then(Then(Then(Then(a, b), c), d), e) == Then(a, Then(b, Then(c, Then(d, e))))
  {
    Rejoin(Then(Then(a, b), c), d, e);
    Rejoin(Then(a, b), c, Then(d, e));
    Rejoin(a, b, Then(c, Then(d, e)));
  }

  // ------------------------------------------------------------------ memory

  /** A mapping and what of it is dumped: page by page, an absent page as zeros. */
  datatype Vma = Vma(start: nat, len: nat, flags: nat, pages: seq<Option<seq<byte>>>)

  ghost predicate VmaOk(v: Vma) {
    forall i :: 0 <= i < |v.pages| && v.pages[i].Some? ==> |v.pages[i].value| == PAGE
  }

  /** vma_dump_size: whole pages. */
  function FileSize(v: Vma): nat {
    PAGE * |v.pages|
  }

  /** Where first_vma and next_vma are: in mm->mmap, at the gate, or through. */
  datatype Cursor = In(i: nat) | AtGate | Through

  function FirstVma(mmap: seq<Vma>, gate: Option<Vma>): Cursor {
    if mmap != [] then In(0) else if gate.Some? then AtGate else Through
  }

  function NextVma(c: Cursor, mmap: seq<Vma>, gate: Option<Vma>): Cursor {
    match c
    case In(i) => if i + 1 < |mmap| then In(i + 1) else if gate.Some? then AtGate else Through
    case _ => Through
  }

  function AllVmas(mmap: seq<Vma>, gate: Option<Vma>): seq<Vma> {
    mmap + if gate.Some? then [gate.value] else []
  }

  predicate Points(c: Cursor, mmap: seq<Vma>, gate: Option<Vma>) {
    match c
    case In(i) => i < |mmap|
    case AtGate => gate.Some?
    case Through => true
  }

  function Current(c: Cursor, mmap: seq<Vma>, gate: Option<Vma>): Vma
    requires Points(c, mmap, gate) && !c.Through?
  {
    if c.In? then mmap[c.i] else gate.value
  }

  function ToVisit(c: Cursor, mmap: seq<Vma>): nat {
    match c
    case In(i) => if i < |mmap| then |mmap| - i + 1 else 2
    case AtGate => 1
    case Through => 0
  }

  /** What the iteration visits from a cursor on. */
  function Visited(c: Cursor, mmap: seq<Vma>, gate: Option<Vma>): seq<Vma>
    requires Points(c, mmap, gate)
    decreases ToVisit(c, mmap)
  {
    if c.Through? then [] else [Current(c, mmap, gate)] + Visited(NextVma(c, mmap, gate), mmap, gate)
  }

  lemma VisitNext(c: Cursor, mmap: seq<Vma>, gate: Option<Vma>)
    requires Points(c, mmap, gate) && !c.Through?
    ensures Points(NextVma(c, mmap, gate), mmap, gate)
    ensures ToVisit(NextVma(c, mmap, gate), mmap) < ToVisit(c, mmap)
    ensures Visited(c, mmap, gate) == [Current(c, mmap, gate)] + Visited(NextVma(c, mmap, gate), mmap, gate)
  {
  }

  lemma {:induction false} VisitedFrom(i: nat, mmap: seq<Vma>, gate: Option<Vma>)
    requires i < |mmap|
    ensures Visited(In(i), mmap, gate) == AllVmas(mmap[i..], gate)
    decreases |mmap| - i
  {
    if i + 1 < |mmap| {
      VisitedFrom(i + 1, mmap, gate);
      assert mmap[i..] == [mmap[i]] + mmap[i + 1..];
    } else {
      assert mmap[i..] == [mmap[i]];
      assert gate.Some? ==> Visited(AtGate, mmap, gate) == [gate.value] + Visited(Through, mmap, gate);
    }
  }

  /** The iteration visits mm->mmap in order and then the gate, if there is one. */
  lemma AllAreVisited(mmap: seq<Vma>, gate: Option<Vma>)
    ensures Visited(FirstVma(mmap, gate), mmap, gate) == AllVmas(mmap, gate)
  {
    if mmap != [] {
      VisitedFrom(0, mmap, gate);
      assert mmap[0..] == mmap;
    } else if gate.Some? {
      assert Visited(AtGate, mmap, gate) == [gate.value] + Visited(Through, mmap, gate);
    }
  }

  /** vma_filesz. */
  function Sizes(vmas: seq<Vma>): (sizes: seq<nat>)
    ensures |sizes| == |vmas|
  {
    if vmas == [] then [] else [FileSize(vmas[0])] + Sizes(vmas[1..])
  }

  function DataSize(vmas: seq<Vma>): nat {
    if vmas == [] then 0 else FileSize(vmas[0]) + DataSize(vmas[1..])
  }

  /** The program header of a mapping whose data is at `offset`; PT_LOAD is 1. */
  function Load(v: Vma, offset: nat): Phdr {
    Phdr(1, v.flags, offset, v.start, FileSize(v), v.len, PAGE)
  }

  function LoadsBytes(vmas: seq<Vma>, offset: nat): (b: seq<byte>)
    ensures |b| == PHDR * |vmas|
  {
    if vmas == [] then []
    else PhdrBytes(Load(vmas[0], offset)) + LoadsBytes(vmas[1..], offset + FileSize(vmas[0]))
  }

  function PageBytes(page: Option<seq<byte>>): seq<byte> {
    if page.Some? then page.value else Zeros(PAGE)
  }

  function PagesBytes(pages: seq<Option<seq<byte>>>): seq<byte> {
    if pages == [] then [] else PageBytes(pages[0]) + PagesBytes(pages[1..])
  }

  function DataBytes(vmas: seq<Vma>): seq<byte> {
    if vmas == [] then [] else PagesBytes(vmas[0].pages) + DataBytes(vmas[1..])
  }

  lemma {:induction false} PagesSize(pages: seq<Option<seq<byte>>>)
    requires forall i :: 0 <= i < |pages| && pages[i].Some? ==> |pages[i].value| == PAGE
    ensures |PagesBytes(pages)| == PAGE * |pages|
  {
    if pages != [] {
      PagesSize(pages[1..]);
    }
  }

  lemma {:induction false} DataSizeIsRight(vmas: seq<Vma>)
    requires forall i :: 0 <= i < |vmas| ==> VmaOk(vmas[i])
    ensures |DataBytes(vmas)| == DataSize(vmas)
  {
    if vmas != [] {
      assert VmaOk(vmas[0]);
      PagesSize(vmas[0].pages);
      DataSizeIsRight(vmas[1..]);
    }
  }

  // ------------------------------------------------------------------ the layout

  /** What is dumped; map_count is the number of mappings. */
  datatype Core = Core(info: NoteInfo, mmap: seq<Vma>, gate: Option<Vma>, machine: nat, flags: nat)

  function RoundupPage(n: nat): (r: nat)
    ensures r % PAGE == 0 && n <= r < n + PAGE
  {
    (n + (PAGE - 1)) / PAGE * PAGE
  }

  function Vmas(c: Core): seq<Vma> {
    AllVmas(c.mmap, c.gate)
  }

  function Segs(c: Core): nat {
    |Vmas(c)| + 1
  }

  function PhNum(c: Core): nat {
    if Segs(c) > PN_XNUM then PN_XNUM else Segs(c)
  }

  function NoteOffset(c: Core): nat {
    EHDR + Segs(c) * PHDR
  }

  function DataOffset(c: Core): nat {
    RoundupPage(NoteOffset(c) + InfoSize(c.info))
  }

  function ShOff(c: Core): nat {
    DataOffset(c) + DataSize(Vmas(c))
  }

  function Header(c: Core): Ehdr {
    if PhNum(c) == PN_XNUM then Ehdr(c.machine, c.flags, ShOff(c), PhNum(c), SHDR, 1)
    else Ehdr(c.machine, c.flags, 0, PhNum(c), 0, 0)
  }

  /** PT_NOTE is 4. */
  function NotePhdr(c: Core): Phdr {
    Phdr(4, 0, NoteOffset(c), 0, InfoSize(c.info), 0, 0)
  }

  function Tail(c: Core): seq<byte> {
    if PhNum(c) == PN_XNUM then ShdrBytes(Segs(c)) else []
  }

  ghost predicate CoreOk(c: Core) {
    InfoOk(c.info) && forall i :: 0 <= i < |Vmas(c)| ==> VmaOk(Vmas(c)[i])
  }

  /** The gap between the notes and the first page. */
  ghost function Gap(c: Core): nat
    requires CoreOk(c)
  {
    WrittenAndLost(Threads(c.info.view, c.info.tasks), Noted(c.info.view), Common(c.info));
    DataOffset(c) - NoteOffset(c) - |InfoBytes(c.info)|
  }

  /** The whole file, as it is written. */
  ghost function FullImage(c: Core): seq<byte>
    requires CoreOk(c)
  {
    EhdrBytes(Header(c))
    + (PhdrBytes(NotePhdr(c))
       + (LoadsBytes(Vmas(c), DataOffset(c))
          + (InfoBytes(c.info) + (Zeros(Gap(c)) + (DataBytes(Vmas(c)) + Tail(c))))))
  }

  lemma NotePartsAt(e: seq<byte>, p: seq<byte>, l: seq<byte>, i: seq<byte>, z: seq<byte>)
    ensures var image := e + (p + (l + (i + z)));
            var at := |e| + |p| + |l|;
            && at + |i| <= |image|
            && image[|e|..|e| + |p|] == p && image[at..at + |i|] == i
  {
  }

  lemma {:induction false} LoadsAt(vmas: seq<Vma>, offset: nat, k: nat)
    requires k < |vmas|
    ensures PHDR * (k + 1) <= |LoadsBytes(vmas, offset)|
    ensures LoadsBytes(vmas, offset)[PHDR * k..PHDR * (k + 1)]
            == PhdrBytes(Load(vmas[k], offset + DataSize(vmas[..k])))
  {
    if k > 0 {
      LoadsAt(vmas[1..], offset + FileSize(vmas[0]), k - 1);
      assert vmas[..k][1..] == vmas[1..][..k - 1];
      var head, tail := PhdrBytes(Load(vmas[0], offset)), LoadsBytes(vmas[1..], offset + FileSize(vmas[0]));
      assert (head + tail)[PHDR * k..PHDR * (k + 1)] == tail[PHDR * (k - 1)..PHDR * k];
    }
  }

  lemma DataSizeStep(vmas: seq<Vma>, k: nat)
    requires 0 < k <= |vmas|
    ensures DataSize(vmas[..k]) == FileSize(vmas[0]) + DataSize(vmas[1..][..k - 1])
  {
    assert vmas[..k][1..] == vmas[1..][..k - 1];
  }

  lemma SliceLater(head: seq<byte>, tail: seq<byte>, a: nat, b: nat)
    requires a <= b <= |tail|
    ensures (head + tail)[|head| + a..|head| + b] == tail[a..b]
  {
  }

  lemma {:induction false} DataAt(vmas: seq<Vma>, k: nat, a: nat, b: nat)
    requires k < |vmas| && forall i :: 0 <= i < |vmas| ==> VmaOk(vmas[i])
    requires a == DataSize(vmas[..k]) && b == a + FileSize(vmas[k])
    ensures b <= |DataBytes(vmas)| && DataBytes(vmas)[a..b] == PagesBytes(vmas[k].pages)
    decreases k
  {
    var head, tail := PagesBytes(vmas[0].pages), DataBytes(vmas[1..]);
    assert VmaOk(vmas[0]);
    PagesSize(vmas[0].pages);
    if k == 0 {
      assert vmas[..0] == [];
      assert (head + tail)[0..|head|] == head;
    } else {
      DataSizeStep(vmas, k);
      DataAt(vmas[1..], k - 1, a - |head|, b - |head|);
      SliceLater(head, tail, a - |head|, b - |head|);
    }
  }

  lemma SplitParts(e: seq<byte>, p: seq<byte>, l: seq<byte>, i: seq<byte>, z: seq<byte>, d: seq<byte>)
    ensures e + (p + (l + (i + (z + d)))) == e + (p + (l + (i + z))) + d
  {
  }

  /** Everything before the data. */
  ghost function Front(c: Core): (front: seq<byte>)
    requires CoreOk(c)
    ensures |front| == DataOffset(c)
  {
    EhdrBytes(Header(c)) + (PhdrBytes(NotePhdr(c)) + (LoadsBytes(Vmas(c), DataOffset(c))
    + (InfoBytes(c.info) + Zeros(Gap(c)))))
  }

  lemma SplitImage(c: Core)
    requires CoreOk(c)
    ensures FullImage(c) == Front(c) + (DataBytes(Vmas(c)) + Tail(c))
  {
    SplitParts(EhdrBytes(Header(c)), PhdrBytes(NotePhdr(c)), LoadsBytes(Vmas(c), DataOffset(c)),
               InfoBytes(c.info), Zeros(Gap(c)), DataBytes(Vmas(c)) + Tail(c));
  }

  /** p_offset of a segment. */
  function SegmentOffset(c: Core, k: nat): nat
    requires k < |Vmas(c)|
  {
    DataOffset(c) + DataSize(Vmas(c)[..k])
  }

  /** The header of a segment is in its place behind the notes' header, and says SegmentOffset. */
  ghost predicate HeaderIsInPlace(c: Core, k: nat, image: seq<byte>) {
    && k < |Vmas(c)| && EHDR + PHDR * (k + 2) <= |image|
    && image[EHDR + PHDR * (k + 1)..EHDR + PHDR * (k + 2)] == PhdrBytes(Load(Vmas(c)[k], SegmentOffset(c, k)))
  }

  /** Where the header of a segment says, there are its bytes, as many as it says. */
  ghost predicate DataIsThere(c: Core, k: nat, image: seq<byte>) {
    && k < |Vmas(c)|
    && var phdr := Load(Vmas(c)[k], SegmentOffset(c, k));
       && phdr.offset + phdr.filesz <= |image|
       && image[phdr.offset..phdr.offset + phdr.filesz] == PagesBytes(Vmas(c)[k].pages)
  }

  lemma SegmentHeadersAreInPlace(c: Core, k: nat)
    requires CoreOk(c) && k < |Vmas(c)|
    ensures HeaderIsInPlace(c, k, FullImage(c))
  {
    HeaderAt(c, k, InfoBytes(c.info) + (Zeros(Gap(c)) + (DataBytes(Vmas(c)) + Tail(c))), FullImage(c));
  }

  lemma SegmentsAreWhereTheHeadersSay(c: Core, k: nat)
    requires CoreOk(c) && k < |Vmas(c)|
    ensures DataIsThere(c, k, FullImage(c))
  {
    SplitImage(c);
    SegmentAt(c, k, Front(c), FullImage(c));
  }

  lemma SegmentsArePageAligned(c: Core, k: nat)
    requires k < |Vmas(c)|
    ensures SegmentOffset(c, k) % PAGE == 0
  {
    PagesAlign(Vmas(c)[..k]);
  }

  lemma SegmentAt(c: Core, k: nat, front: seq<byte>, image: seq<byte>)
    requires CoreOk(c) && k < |Vmas(c)|
    requires |front| == DataOffset(c) && image == front + (DataBytes(Vmas(c)) + Tail(c))
    ensures DataIsThere(c, k, image)
  {
    var vmas := Vmas(c);
    var size := DataSize(vmas[..k]);
    DataAt(vmas, k, size, size + FileSize(vmas[k]));
    SliceBehind(front, DataBytes(vmas), Tail(c), size, size + FileSize(vmas[k]));
  }

  lemma SliceBehind(front: seq<byte>, data: seq<byte>, tail: seq<byte>, a: nat, b: nat)
    requires a <= b <= |data|
    ensures (front + (data + tail))[|front| + a..|front| + b] == data[a..b]
  {
  }

  lemma HeaderIn(e: seq<byte>, p: seq<byte>, l: seq<byte>, rest: seq<byte>, image: seq<byte>, k: nat)
    requires image == e + (p + (l + rest)) && |e| == EHDR && |p| == PHDR && PHDR * (k + 1) <= |l|
    ensures EHDR + PHDR * (k + 2) <= |image|
    ensures image[EHDR + PHDR * (k + 1)..EHDR + PHDR * (k + 2)] == l[PHDR * k..PHDR * (k + 1)]
  {
    var a := PHDR * k;
    assert image == (e + p) + (l + rest);
    SliceBehind(e + p, l, rest, a, a + PHDR);
  }

  lemma HeaderAt(c: Core, k: nat, rest: seq<byte>, image: seq<byte>)
    requires CoreOk(c) && k < |Vmas(c)|
    requires image == EhdrBytes(Header(c))
                      + (PhdrBytes(NotePhdr(c)) + (LoadsBytes(Vmas(c), DataOffset(c)) + rest))
    ensures HeaderIsInPlace(c, k, image)
  {
    LoadsAt(Vmas(c), DataOffset(c), k);
    HeaderIn(EhdrBytes(Header(c)), PhdrBytes(NotePhdr(c)), LoadsBytes(Vmas(c), DataOffset(c)), rest, image, k);
  }

  lemma {:induction false} PagesAlign(vmas: seq<Vma>)
    ensures DataSize(vmas) % PAGE == 0
  {
    if vmas != [] {
      PagesAlign(vmas[1..]);
    }
  }

  ghost predicate NotesAreThere(c: Core, image: seq<byte>) {
    && NoteOffset(c) + |InfoBytes(c.info)| <= |image| && EHDR + PHDR <= |image|
    && image[EHDR..EHDR + PHDR] == PhdrBytes(NotePhdr(c))
    && image[NoteOffset(c)..NoteOffset(c) + |InfoBytes(c.info)|] == InfoBytes(c.info)
  }

  lemma NotesIn(c: Core, i: seq<byte>, rest: seq<byte>, image: seq<byte>)
    requires i == InfoBytes(c.info)
    requires image == EhdrBytes(Header(c))
                      + (PhdrBytes(NotePhdr(c)) + (LoadsBytes(Vmas(c), DataOffset(c)) + (i + rest)))
    ensures NotesAreThere(c, image)
  {
    NotePartsAt(EhdrBytes(Header(c)), PhdrBytes(NotePhdr(c)), LoadsBytes(Vmas(c), DataOffset(c)), i, rest);
  }

  /** The notes are at p_offset of their header, and p_filesz is their size, exactly when they were
      stored inside their slots. */
  lemma NotesAreWhereTheHeaderSays(c: Core)
    requires CoreOk(c)
    ensures NotesAreThere(c, FullImage(c)) && NotePhdr(c).offset == NoteOffset(c)
    ensures NotePhdr(c).filesz == |InfoBytes(c.info)| <==> StoresInside(c.info)
  {
    NotesSizeIsRightExactlyWhenInside(c.info);
    NotesIn(c, InfoBytes(c.info), Zeros(Gap(c)) + (DataBytes(Vmas(c)) + Tail(c)), FullImage(c));
  }

  /** The extra section header, when there is one, is at e_shoff, and ends the file. */
  lemma SectionHeaderIsAtShOff(c: Core)
    requires CoreOk(c)
    ensures |FullImage(c)| == ShOff(c) + |Tail(c)|
    ensures FullImage(c)[ShOff(c)..] == Tail(c)
    ensures PhNum(c) == PN_XNUM <==> Header(c).shnum == 1
    ensures PhNum(c) == PN_XNUM ==> Header(c).shoff == ShOff(c) && Tail(c) == ShdrBytes(Segs(c))
  {
    SplitImage(c);
    DataSizeIsRight(Vmas(c));
    TailBehind(Front(c), DataBytes(Vmas(c)), Tail(c));
  }

  lemma TailBehind(front: seq<byte>, data: seq<byte>, tail: seq<byte>)
    ensures (front + (data + tail))[|front| + |data|..] == tail
  {
  }

  // ------------------------------------------------------------------ pass one

  /** The loop that fills vma_filesz and adds it up. */
  method SizeVmas(mmap: seq<Vma>, gate: Option<Vma>, ghost all: seq<Vma>) returns (filesz: seq<nat>, total: nat)
    requires all == Visited(FirstVma(mmap, gate), mmap, gate)
    ensures filesz == Sizes(all) && total == DataSize(all)
  {
    filesz, total := [], 0;
    var c := FirstVma(mmap, gate);
    while !c.Through?
      invariant Points(c, mmap, gate)
      invariant filesz + Sizes(Visited(c, mmap, gate)) == Sizes(all)
      invariant total + DataSize(Visited(c, mmap, gate)) == DataSize(all)
      decreases ToVisit(c, mmap)
    {
      ghost var rest := Visited(NextVma(c, mmap, gate), mmap, gate);
      var size := FileSize(Current(c, mmap, gate));
      SizesStep(Current(c, mmap, gate), rest, filesz);
      filesz := filesz + [size];
      total := total + size;
      c := NextVma(c, mmap, gate);
    }
  }

  lemma SizesStep(v: Vma, rest: seq<Vma>, done: seq<nat>)
    ensures done + Sizes([v] + rest) == done + [FileSize(v)] + Sizes(rest)
    ensures Sizes([v] + rest)[0] == FileSize(v) && Sizes([v] + rest)[1..] == Sizes(rest)
    ensures DataSize([v] + rest) == FileSize(v) + DataSize(rest)
  {
    assert ([v] + rest)[1..] == rest;
  }

  lemma SizeAt(filesz: seq<nat>, i: nat, v: Vma, later: seq<Vma>)
    requires i <= |filesz| && filesz[i..] == Sizes([v] + later)
    ensures i < |filesz| && filesz[i] == FileSize(v) && filesz[i + 1..] == Sizes(later)
  {
    SizesStep(v, later, []);
    assert filesz[i] == filesz[i..][0] && filesz[i..][1..] == filesz[i + 1..];
  }

  /** The cursor and the index into vma_filesz are at the same mapping. */
  ghost predicate InStep(c: Cursor, mmap: seq<Vma>, gate: Option<Vma>, filesz: seq<nat>, i: nat) {
    Points(c, mmap, gate) && i <= |filesz| && filesz[i..] == Sizes(Visited(c, mmap, gate))
  }

  /** The mapping at the cursor, its saved size, and where the iteration goes on. */
  lemma NextSize(c: Cursor, mmap: seq<Vma>, gate: Option<Vma>, filesz: seq<nat>, i: nat)
    requires InStep(c, mmap, gate, filesz, i) && !c.Through?
    ensures InStep(NextVma(c, mmap, gate), mmap, gate, filesz, i + 1)
    ensures ToVisit(NextVma(c, mmap, gate), mmap) < ToVisit(c, mmap)
    ensures Visited(c, mmap, gate) == [Current(c, mmap, gate)] + Visited(NextVma(c, mmap, gate), mmap, gate)
    ensures filesz[i] == FileSize(Current(c, mmap, gate))
  {
    VisitNext(c, mmap, gate);
    SizeAt(filesz, i, Current(c, mmap, gate), Visited(NextVma(c, mmap, gate), mmap, gate));
  }

  // ------------------------------------------------------------------ pass two

  /** The program headers from the cursor on, and then the rest. */
  function LoadsLeft(c: Cursor, mmap: seq<Vma>, gate: Option<Vma>, offset: nat, rest: Stretch): Stretch
    requires Points(c, mmap, gate)
  {
    Then(Plain(LoadsBytes(Visited(c, mmap, gate), offset)), rest)
  }

  /** The program header of one segment. */
  method WriteLoad(cprm: Cprm, c: Cursor, mmap: seq<Vma>, gate: Option<Vma>, filesz: seq<nat>, i: nat, offset: nat,
                   ghost rest: Stretch, ghost full: Stretch)
    returns (ok: bool)
    requires InStep(c, mmap, gate, filesz, i) && !c.Through? && Owes(cprm, LoadsLeft(c, mmap, gate, offset, rest), full)
    modifies cprm
    ensures InStep(NextVma(c, mmap, gate), mmap, gate, filesz, i + 1)
    ensures ToVisit(NextVma(c, mmap, gate), mmap) < ToVisit(c, mmap)
    ensures Went(cprm, ok, LoadsLeft(NextVma(c, mmap, gate), mmap, gate, offset + filesz[i], rest), full)
  {
    var v := Current(c, mmap, gate);
    NextSize(c, mmap, gate, filesz, i);
    LoadsStep(v, Visited(NextVma(c, mmap, gate), mmap, gate), offset, rest);
    var phdr := Phdr(1, v.flags, offset, v.start, filesz[i], v.len, PAGE);
    ok := Emit(cprm, PhdrBytes(phdr), LoadsLeft(NextVma(c, mmap, gate), mmap, gate, offset + filesz[i], rest), full);
  }

  /** The program headers of the segments, with a running offset. */
  method WriteLoads(cprm: Cprm, mmap: seq<Vma>, gate: Option<Vma>, ghost all: seq<Vma>, filesz: seq<nat>,
                    dataoff: nat, ghost rest: Stretch, ghost full: Stretch)
    returns (ok: bool)
    requires all == Visited(FirstVma(mmap, gate), mmap, gate) && filesz == Sizes(all)
    requires Owes(cprm, Then(Plain(LoadsBytes(all, dataoff)), rest), full)
    modifies cprm
    ensures Went(cprm, ok, rest, full)
  {
    var i, offset := 0, dataoff;
    var c := FirstVma(mmap, gate);
    while !c.Through?
      invariant 0 <= i && InStep(c, mmap, gate, filesz, i)
      invariant Owes(cprm, LoadsLeft(c, mmap, gate, offset, rest), full)
      decreases ToVisit(c, mmap)
    {
      ok := WriteLoad(cprm, c, mmap, gate, filesz, i, offset, rest, full);
      if !ok { return; }
      offset := offset + filesz[i];
      c, i := NextVma(c, mmap, gate), i + 1;
    }
    NothingThen(rest);
    ok := true;
  }

  lemma LoadsStep(v: Vma, later: seq<Vma>, offset: nat, rest: Stretch)
    ensures Then(Plain(LoadsBytes([v] + later, offset)), rest)
            == Then(Plain(PhdrBytes(Load(v, offset))), Then(Plain(LoadsBytes(later, offset + FileSize(v))), rest))
  {
    assert ([v] + later)[1..] == later;
    Rejoin(Plain(PhdrBytes(Load(v, offset))), Plain(LoadsBytes(later, offset + FileSize(v))), rest);
  }

  function PageStretch(page: Option<seq<byte>>, seekable: bool): (s: Stretch)
    ensures s.bytes == PageBytes(page)
  {
    if page.Some? then Plain(page.value) else Hole(PAGE, seekable)
  }

  function PagesStretch(pages: seq<Option<seq<byte>>>, seekable: bool): (s: Stretch)
    ensures s.bytes == PagesBytes(pages)
  {
    if pages == [] then Plain([]) else Then(PageStretch(pages[0], seekable), PagesStretch(pages[1..], seekable))
  }

  function DataStretch(vmas: seq<Vma>, seekable: bool): (s: Stretch)
    ensures s.bytes == DataBytes(vmas)
  {
    if vmas == [] then Plain([]) else Then(PagesStretch(vmas[0].pages, seekable), DataStretch(vmas[1..], seekable))
  }

  /** The pages from `k` on, and then the rest. */
  function PagesLeft(pages: seq<Option<seq<byte>>>, k: nat, rest: Stretch, seekable: bool): Stretch
    requires k <= |pages|
    decreases |pages| - k
  {
    if k == |pages| then rest
    else Then(PageStretch(pages[k], seekable), PagesLeft(pages, k + 1, rest, seekable))
  }

  lemma {:induction false} PagesLeftIs(pages: seq<Option<seq<byte>>>, k: nat, rest: Stretch, seekable: bool)
    requires k <= |pages|
    ensures PagesLeft(pages, k, rest, seekable) == Then(PagesStretch(pages[k..], seekable), rest)
    decreases |pages| - k
  {
    if k == |pages| {
      NothingThen(rest);
    } else {
      PagesLeftIs(pages, k + 1, rest, seekable);
      assert pages[k..][1..] == pages[k + 1..] && pages[k..][0] == pages[k];
      Rejoin(PageStretch(pages[k], seekable), PagesStretch(pages[k + 1..], seekable), rest);
    }
  }

  method WritePage(cprm: Cprm, pages: seq<Option<seq<byte>>>, k: nat, ghost rest: Stretch, ghost full: Stretch)
    returns (ok: bool)
    requires k < |pages| && Owes(cprm, PagesLeft(pages, k, rest, cprm.seekable), full)
    modifies cprm
    ensures Went(cprm, ok, PagesLeft(pages, k + 1, rest, cprm.seekable), full)
  {
    if pages[k].Some? {
      ok := Emit(cprm, pages[k].value, PagesLeft(pages, k + 1, rest, cprm.seekable), full);
    } else {
      ok := Skip(cprm, PAGE, PagesLeft(pages, k + 1, rest, cprm.seekable), full);
    }
  }

  /** The pages of one mapping, up to its dump size. */
  method WritePages(cprm: Cprm, v: Vma, filesz: nat, ghost rest: Stretch, ghost full: Stretch)
    returns (ok: bool)
    requires filesz == FileSize(v) && Owes(cprm, Then(PagesStretch(v.pages, cprm.seekable), rest), full)
    modifies cprm
    ensures Went(cprm, ok, rest, full)
  {
    var end := v.start + filesz;
    var addr := v.start;
    ghost var k := 0;
    PagesLeftIs(v.pages, 0, rest, cprm.seekable);
    assert v.pages[0..] == v.pages;
    while addr < end
      invariant 0 <= k <= |v.pages| && addr == v.start + PAGE * k
      invariant Owes(cprm, PagesLeft(v.pages, k, rest, cprm.seekable), full)
      decreases end - addr
    {
      ok := WritePage(cprm, v.pages, (addr - v.start) / PAGE, rest, full);
      if !ok { return; }
      addr := addr + PAGE;
      k := k + 1;
    }
    ok := true;
  }

  /** The segments from the cursor on, and then the rest. */
  function DataLeft(c: Cursor, mmap: seq<Vma>, gate: Option<Vma>, rest: Stretch, seekable: bool): Stretch
    requires Points(c, mmap, gate)
  {
    Then(DataStretch(Visited(c, mmap, gate), seekable), rest)
  }

  method WriteSegment(cprm: Cprm, c: Cursor, mmap: seq<Vma>, gate: Option<Vma>, filesz: seq<nat>, i: nat,
                      ghost rest: Stretch, ghost full: Stretch)
    returns (ok: bool)
    requires InStep(c, mmap, gate, filesz, i) && !c.Through?
    requires Owes(cprm, DataLeft(c, mmap, gate, rest, cprm.seekable), full)
    modifies cprm
    ensures InStep(NextVma(c, mmap, gate), mmap, gate, filesz, i + 1)
    ensures ToVisit(NextVma(c, mmap, gate), mmap) < ToVisit(c, mmap)
    ensures Went(cprm, ok, DataLeft(NextVma(c, mmap, gate), mmap, gate, rest, cprm.seekable), full)
  {
    var v := Current(c, mmap, gate);
    NextSize(c, mmap, gate, filesz, i);
    DataStep(v, Visited(NextVma(c, mmap, gate), mmap, gate), rest, cprm.seekable);
    ok := WritePages(cprm, v, filesz[i], DataLeft(NextVma(c, mmap, gate), mmap, gate, rest, cprm.seekable), full);
  }

  method WriteData(cprm: Cprm, mmap: seq<Vma>, gate: Option<Vma>, ghost all: seq<Vma>, filesz: seq<nat>,
                   ghost rest: Stretch, ghost full: Stretch)
    returns (ok: bool)
    requires all == Visited(FirstVma(mmap, gate), mmap, gate) && filesz == Sizes(all)
    requires Owes(cprm, Then(DataStretch(all, cprm.seekable), rest), full)
    modifies cprm
    ensures Went(cprm, ok, rest, full)
  {
    var i := 0;
    var c := FirstVma(mmap, gate);
    while !c.Through?
      invariant 0 <= i && InStep(c, mmap, gate, filesz, i)
      invariant Owes(cprm, DataLeft(c, mmap, gate, rest, cprm.seekable), full)
      decreases ToVisit(c, mmap)
    {
      ok := WriteSegment(cprm, c, mmap, gate, filesz, i, rest, full);
      if !ok { return; }
      c, i := NextVma(c, mmap, gate), i + 1;
    }
    NothingThen(rest);
    ok := true;
  }

  lemma DataStep(v: Vma, later: seq<Vma>, rest: Stretch, seekable: bool)
    ensures Then(DataStretch([v] + later, seekable), rest)
            == Then(PagesStretch(v.pages, seekable), Then(DataStretch(later, seekable), rest))
  {
    assert ([v] + later)[1..] == later;
    Rejoin(PagesStretch(v.pages, seekable), DataStretch(later, seekable), rest);
  }

  /** Pass one: everything that goes into the headers. */
  method Plan(c: Core, segs: nat, size: nat)
    returns (ehdr: Ehdr, phdr: Phdr, filesz: seq<nat>, dataoff: nat)
    requires segs == Segs(c) && size == InfoSize(c.info)
    ensures ehdr == Header(c) && phdr == NotePhdr(c) && dataoff == DataOffset(c) && filesz == Sizes(Vmas(c))
  {
    var phnum := if segs > PN_XNUM then PN_XNUM else segs;
    var offset := EHDR + segs * PHDR;
    phdr := Phdr(4, 0, offset, 0, size, 0, 0);
    dataoff := RoundupPage(offset + size);
    var total;
    AllAreVisited(c.mmap, c.gate);
    filesz, total := SizeVmas(c.mmap, c.gate, Vmas(c));
    if phnum == PN_XNUM {
      ehdr := Ehdr(c.machine, c.flags, dataoff + total, phnum, SHDR, 1);
    } else {
      ehdr := Ehdr(c.machine, c.flags, 0, phnum, 0, 0);
    }
  }

  // ------------------------------------------------------------------ the whole dump

  /** The data and what is behind it. */
  function BackStretch(c: Core, seekable: bool): (s: Stretch)
    ensures s.bytes == DataBytes(Vmas(c)) + Tail(c)
  {
    Then(DataStretch(Vmas(c), seekable), Plain(Tail(c)))
  }

  /** Headers, notes and the rest. */
  function Laid(ehdr: Ehdr, phdr: Phdr, loads: seq<byte>, info: Stretch, rest: Stretch): Stretch {
    Then(Plain(EhdrBytes(ehdr)), Then(Plain(PhdrBytes(phdr)), Then(Plain(loads), Then(info, rest))))
  }

  /** The whole file.  A seekable file does not pay for the paddings of notes, the gap before the first
      page, and absent pages. */
  ghost function FullStretch(c: Core, seekable: bool): (s: Stretch)
    requires CoreOk(c)
    ensures s.bytes == FullImage(c)
  {
    Laid(Header(c), NotePhdr(c), LoadsBytes(Vmas(c), DataOffset(c)), InfoStretch(c.info, seekable),
         Then(Hole(Gap(c), seekable), BackStretch(c, seekable)))
  }

  lemma {:induction false} SlotsAreWritten(slots: seq<Option<Note>>)
    ensures SlotsStretch(slots, false).cost == |SlotsBytes(slots)|
  {
    if slots != [] {
      SlotsAreWritten(slots[1..]);
    }
  }

  lemma {:induction false} ThreadsAreWritten(threads: seq<Thread>, threadNotes: nat, common: seq<Option<Note>>)
    ensures ThreadsStretch(threads, threadNotes, common, false).cost == |ThreadsBytes(threads, threadNotes, common)|
    decreases |threads|
  {
    if threads != [] {
      SlotsAreWritten(common);
      SlotsAreWritten(Looked(threads[0], threadNotes));
      ThreadsAreWritten(threads[1..], threadNotes, []);
    }
  }

  lemma {:induction false} PagesAreWritten(pages: seq<Option<seq<byte>>>)
    ensures PagesStretch(pages, false).cost == |PagesBytes(pages)|
  {
    if pages != [] {
      PagesAreWritten(pages[1..]);
    }
  }

  lemma {:induction false} DataIsWritten(vmas: seq<Vma>)
    ensures DataStretch(vmas, false).cost == |DataBytes(vmas)|
  {
    if vmas != [] {
      PagesAreWritten(vmas[0].pages);
      DataIsWritten(vmas[1..]);
    }
  }

  /** A file that cannot seek pays for every byte. */
  lemma UnseekablePaysForAll(c: Core)
    requires CoreOk(c)
    ensures FullStretch(c, false).cost == |FullImage(c)|
  {
    ThreadsAreWritten(Threads(c.info.view, c.info.tasks), Noted(c.info.view), Common(c.info));
    DataIsWritten(Vmas(c));
  }

  /** elf_core_dump: a dump that goes through is as long as the file laid out above, and where writes are
      not cut short it is that file; one that stops is no longer, or a prefix of it.  If no write, seek or
      signal gets in the way it goes through exactly when the view is sane, all notes are stored inside
      their slots and the bytes to be written are within the limit.  Nothing is written for a view that is
      refused. */
  method ElfCoreDump(cprm: Cprm, c: Core) returns (ok: bool)
    requires CoreOk(c) && cprm.Valid() && cprm.Image() == [] && cprm.written == 0
    modifies cprm
    ensures cprm.Valid() && cprm.pos <= |FullImage(c)| && (ok ==> |cprm.file| == |FullImage(c)|)
    ensures cprm.whole ==> cprm.Image() <= FullImage(c) && (ok ==> cprm.file == FullImage(c))
    ensures ok ==> Sane(c.info.view) && StoresInside(c.info) && FullStretch(c, cprm.seekable).cost <= cprm.limit
    ensures && cprm.calm && Sane(c.info.view) && StoresInside(c.info)
            && FullStretch(c, cprm.seekable).cost <= cprm.limit
            ==> ok
    ensures !Sane(c.info.view) ==> cprm.Image() == []
  {
    var segs := |c.mmap|;
    if c.gate.Some? {
      segs := segs + 1;
    }
    segs := segs + 1;
    var filling := FillNoteInfo(c.info);
    if !filling.Filled? {
      return false;
    }
    ok := WriteCore(cprm, c, segs, filling.size, filling.notes, FullStretch(c, cprm.seekable));
  }

  /** There are ways to cut the writes under which not even the header of a dump comes out. */
  lemma HeaderMayComeOutWrong(e: Ehdr)
    ensures !AlwaysRight(EhdrBytes(e))
  {
    var b := EhdrBytes(e);
    assert EhdrFields(e)[0] == Field(0x464c457f, 4);
    assert Digit(0x464c457f, 1) == Digit(0x464c457f / 256, 0);
    assert b[0] == 0x7f && b[1] == 0x45;
    EmitIsRightExactlyWhenUniform(b);
  }

  /** elf_core_dump from the notes on. */
  method WriteCore(cprm: Cprm, c: Core, segs: nat, size: nat, notes: seq<seq<Option<Note>>>, ghost full: Stretch)
    returns (ok: bool)
    requires CoreOk(c) && cprm.Valid() && cprm.Image() == [] && cprm.written == 0
    requires segs == Segs(c) && size == InfoSize(c.info) && full == FullStretch(c, cprm.seekable)
    requires notes == AllNoteSlots(Threads(c.info.view, c.info.tasks), Noted(c.info.view))
    modifies cprm
    ensures Went(cprm, ok, Plain([]), full)
    ensures ok ==> cprm.file == cprm.Image() && full.cost <= cprm.limit
  {
    ghost var back := BackStretch(c, cprm.seekable);
    var ehdr, phdr, filesz, dataoff := Plan(c, segs, size);
    AllAreVisited(c.mmap, c.gate);
    ghost var gap := Hole(Gap(c), cprm.seekable);
    ok := WriteFront(cprm, c, notes, Vmas(c), ehdr, phdr, filesz, dataoff, Then(gap, back), full);
    if ok {
      ok := SkipAndWriteBack(cprm, c, dataoff, filesz, ehdr.phnum, segs, full);
    }
  }

  /** elf_core_dump from the seek to the first page on. */
  method SkipAndWriteBack(cprm: Cprm, c: Core, dataoff: nat, filesz: seq<nat>, phnum: nat, segs: nat,
                          ghost full: Stretch)
    returns (ok: bool)
    requires CoreOk(c) && dataoff == DataOffset(c) && phnum == PhNum(c) && segs == Segs(c)
    requires filesz == Sizes(Vmas(c)) && full == FullStretch(c, cprm.seekable)
    requires Owes(cprm, Then(Hole(Gap(c), cprm.seekable), BackStretch(c, cprm.seekable)), full)
    modifies cprm
    ensures Went(cprm, ok, Plain([]), full)
    ensures ok ==> cprm.file == cprm.Image() && full.cost <= cprm.limit
  {
    AllAreVisited(c.mmap, c.gate);
    ok := SkipGap(cprm, c, dataoff, BackStretch(c, cprm.seekable), full);
    if ok {
      ok := WriteBack(cprm, c, Vmas(c), filesz, phnum, segs, full);
    }
  }

  /** The seek to the first page. */
  method SkipGap(cprm: Cprm, ghost c: Core, dataoff: nat, ghost back: Stretch, ghost full: Stretch) returns (ok: bool)
    requires CoreOk(c) && dataoff == DataOffset(c)
    requires back == BackStretch(c, cprm.seekable) && full == FullStretch(c, cprm.seekable)
    requires Owes(cprm, Then(Hole(Gap(c), cprm.seekable), back), full)
    modifies cprm
    ensures Went(cprm, ok, back, full)
  {
    GapIs(c, cprm.pos, back.bytes);
    ok := Skip(cprm, dataoff - cprm.pos, back, full);
  }

  lemma GapIs(c: Core, pos: nat, back: seq<byte>)
    requires CoreOk(c) && back == DataBytes(Vmas(c)) + Tail(c) && pos + Gap(c) + |back| == |FullImage(c)|
    ensures pos + Gap(c) == DataOffset(c)
  {
    SplitImage(c);
  }

  method WriteHeaders(cprm: Cprm, ehdr: Ehdr, phdr: Phdr, ghost rest: Stretch, ghost full: Stretch)
    returns (ok: bool)
    requires cprm.Valid() && cprm.Image() == [] && cprm.written == 0
    requires full == Then(Plain(EhdrBytes(ehdr)), Then(Plain(PhdrBytes(phdr)), rest))
    modifies cprm
    ensures Went(cprm, ok, rest, full)
  {
    assert cprm.Image() + full.bytes == full.bytes;
    ok := Emit(cprm, EhdrBytes(ehdr), Then(Plain(PhdrBytes(phdr)), rest), full);
    if !ok { return; }
    ok := Emit(cprm, PhdrBytes(phdr), rest, full);
  }

  /** The notes begin on a multiple of 4. */
  lemma HeadersAlign(pos: nat, e: seq<byte>, p: seq<byte>, l: seq<byte>, rest: seq<byte>, n: nat)
    requires pos + |rest| == |e + (p + (l + rest))| && |e| == EHDR && |p| == PHDR && |l| == PHDR * n
    ensures pos % 4 == 0
  {
    assert pos == 4 * (30 + 14 * n);
  }

  /** The headers and the notes. */
  method WriteFront(cprm: Cprm, c: Core, notes: seq<seq<Option<Note>>>, ghost all: seq<Vma>, ehdr: Ehdr, phdr: Phdr,
                    filesz: seq<nat>, dataoff: nat, ghost rest: Stretch, ghost full: Stretch)
    returns (ok: bool)
    requires InfoOk(c.info) && cprm.Valid() && cprm.Image() == [] && cprm.written == 0
    requires notes == AllNoteSlots(Threads(c.info.view, c.info.tasks), Noted(c.info.view))
    requires filesz == Sizes(all) && all == Vmas(c) == Visited(FirstVma(c.mmap, c.gate), c.mmap, c.gate)
    requires full == Laid(ehdr, phdr, LoadsBytes(all, dataoff), InfoStretch(c.info, cprm.seekable), rest)
    modifies cprm
    ensures Went(cprm, ok, rest, full)
  {
    ghost var noted := Then(InfoStretch(c.info, cprm.seekable), rest);
    ok := WriteHeaders(cprm, ehdr, phdr, Then(Plain(LoadsBytes(all, dataoff)), noted), full);
    if !ok { return; }
    ok := WriteLoads(cprm, c.mmap, c.gate, all, filesz, dataoff, noted, full);
    if !ok { return; }
    HeadersAlign(cprm.pos, EhdrBytes(ehdr), PhdrBytes(phdr), LoadsBytes(all, dataoff), noted.bytes, |all|);
    ok := WriteNoteInfo(cprm, c.info, notes, rest, full);
  }

  /** The segments and the extra section header. */
  method WriteBack(cprm: Cprm, c: Core, ghost all: seq<Vma>, filesz: seq<nat>, phnum: nat, segs: nat,
                   ghost full: Stretch)
    returns (ok: bool)
    requires phnum == PhNum(c) && segs == Segs(c)
    requires filesz == Sizes(all) && all == Vmas(c) == Visited(FirstVma(c.mmap, c.gate), c.mmap, c.gate)
    requires Owes(cprm, Then(DataStretch(all, cprm.seekable), Plain(Tail(c))), full)
    modifies cprm
    ensures Went(cprm, ok, Plain([]), full)
    ensures ok ==> cprm.file == cprm.Image() && full.cost <= cprm.limit
  {
    ok := WriteData(cprm, c.mmap, c.gate, all, filesz, Plain(Tail(c)), full);
    if !ok { return; }
    cprm.DumpTruncate();
    if phnum == PN_XNUM {
      ghost var shdr := Plain(ShdrBytes(segs));
      assert Then(shdr, Plain([])) == shdr;
      ok := Emit(cprm, ShdrBytes(segs), Plain([]), full);
    }
  }
}
