/** What a debugger gets out of a core file that fs/binfmt_elf.c wrote, going by the headers alone.

The reader knows only the ELF format: it counts the program headers, with the extended numbering for
more than 0xfffe of them, takes the bytes each header points at, and parses the notes.  From every
complete dump it gets back the segments and the notes that went in.
*/
module CoreReader {
  import opened Collections
  import opened CoreFile
  import opened CoreDump

  // ------------------------------------------------------------------ fields

  /** A number of `|b|` bytes, the least significant first. */
  function Value(b: seq<byte>): nat {
    if b == [] then 0 else b[0] + 256 * Value(b[1..])
  }

  /** The first number that does not fit `k` bytes. */
  function Limit(k: nat): nat {
    if k == 0 then 1 else 256 * Limit(k - 1)
  }

  function Digits(n: nat, k: nat): (b: seq<byte>)
    ensures |b| == k
  {
    seq(k, i requires 0 <= i < k => Digit(n, i))
  }

  lemma {:induction false} DigitsReadBack(n: nat, k: nat)
    requires n < Limit(k)
    ensures Value(Digits(n, k)) == n
  {
    if k > 0 {
      assert Digits(n, k)[1..] == Digits(n / 256, k - 1);
      DigitsReadBack(n / 256, k - 1);
    }
  }

  /** Where field `k` begins. */
  function Offset(fields: seq<Field>, k: nat): nat
    requires k <= |fields|
  {
    if k == 0 then 0 else Offset(fields, k - 1) + fields[k - 1].width
  }

  lemma {:induction false} ByteBehind(fields: seq<Field>, k: nat, i: nat)
    requires k <= |fields|
    ensures ByteAt(fields, Offset(fields, k) + i) == ByteAt(fields[k..], i)
  {
    if k == 0 {
      assert fields[0..] == fields;
    } else {
      ByteBehind(fields, k - 1, fields[k - 1].width + i);
      assert fields[k - 1..][1..] == fields[k..];
    }
  }

  /** A field is read back from its place. */
  lemma FieldReadsBack(fields: seq<Field>, n: nat, k: nat, a: nat, b: nat)
    requires k < |fields| && a == Offset(fields, k) && b == a + fields[k].width <= n
    requires fields[k].value < Limit(fields[k].width)
    ensures Value(Encoded(fields, n)[a..b]) == fields[k].value
  {
    var bytes, digits := Encoded(fields, n)[a..b], Digits(fields[k].value, fields[k].width);
    forall i | 0 <= i < b - a
      ensures bytes[i] == digits[i]
    {
      ByteBehind(fields, k, i);
    }
    assert bytes == digits;
    DigitsReadBack(fields[k].value, fields[k].width);
  }

  lemma PhdrOffsets(f: seq<Field>, p: Phdr)
    requires f == PhdrFields(p)
    ensures |f| == 8 && Offset(f, 2) == 8 && Offset(f, 5) == 32 && Offset(f, 8) == PHDR
  {
    assert Offset(f, 1) == 4 && Offset(f, 2) == 8 && Offset(f, 3) == 16 && Offset(f, 4) == 24;
    assert Offset(f, 5) == 32 && Offset(f, 6) == 40 && Offset(f, 7) == 48;
  }

  lemma EhdrOffsets(f: seq<Field>, e: Ehdr)
    requires f == EhdrFields(e)
    ensures |f| == 16 && Offset(f, 8) == 40 && Offset(f, 12) == 56 && Offset(f, 16) == EHDR
  {
    assert Offset(f, 1) == 4 && Offset(f, 2) == 8 && Offset(f, 3) == 16 && Offset(f, 4) == 18;
    assert Offset(f, 5) == 20 && Offset(f, 6) == 24 && Offset(f, 7) == 32 && Offset(f, 8) == 40;
    assert Offset(f, 9) == 48 && Offset(f, 10) == 52 && Offset(f, 11) == 54 && Offset(f, 12) == 56;
    assert Offset(f, 13) == 58 && Offset(f, 14) == 60 && Offset(f, 15) == 62;
  }

  lemma ShdrOffsets(f: seq<Field>, segs: nat)
    requires f == ShdrFields(segs)
    ensures |f| == 10 && Offset(f, 7) == 44 && Offset(f, 10) == SHDR
  {
    assert Offset(f, 1) == 4 && Offset(f, 2) == 8 && Offset(f, 3) == 16 && Offset(f, 4) == 24;
    assert Offset(f, 5) == 32 && Offset(f, 6) == 40 && Offset(f, 7) == 44 && Offset(f, 8) == 48;
    assert Offset(f, 9) == 56;
  }

  lemma NoteOffsets(f: seq<Field>, namesz: nat, descsz: nat, kind: nat)
    requires f == NoteFields(namesz, descsz, kind)
    ensures |f| == 3 && Offset(f, 0) == 0 && Offset(f, 1) == 4 && Offset(f, 2) == 8 && Offset(f, 3) == NOTE
  {
    assert Offset(f, 1) == 4 && Offset(f, 2) == 8;
  }

  lemma SliceOfSlice(image: seq<byte>, at: nat, n: nat, a: nat, b: nat)
    requires at + n <= |image| && a <= b <= n
    ensures image[at..at + n][a..b] == image[at + a..at + b]
  {
    var x, y := image[at..at + n][a..b], image[at + a..at + b];
    assert forall i :: 0 <= i < b - a ==> x[i] == image[at + a + i] == y[i];
  }

  // ------------------------------------------------------------------ the reader

  /** The bytes that program header `k` points at. */
  function Contents(image: seq<byte>, k: nat): Option<seq<byte>> {
    var at := EHDR + PHDR * k;
    if at + PHDR > |image| then None
    else
      var offset, size := Value(image[at + 8..at + 16]), Value(image[at + 32..at + 40]);
      if offset + size <= |image| then Some(image[offset..offset + size]) else None
  }

  /** e_phnum, or sh_info of the section header at e_shoff. */
  function HeaderCount(image: seq<byte>): Option<nat> {
    if |image| < EHDR then None
    else
      var phnum, shoff := Value(image[56..58]), Value(image[40..48]);
      if phnum != PN_XNUM then Some(phnum)
      else if shoff + SHDR <= |image| then Some(Value(image[shoff + 44..shoff + 48]))
      else None
  }

  /** The first note, and where the next begins. */
  function ReadNote(b: seq<byte>): (r: Option<(Note, nat)>)
    ensures r.Some? ==> NOTE <= r.value.1 <= |b|
  {
    if |b| < NOTE then None
    else
      var namesz, descsz, kind := Value(b[0..4]), Value(b[4..8]), Value(b[8..12]);
      var desc := NOTE + Roundup4(namesz);
      var end := desc + Roundup4(descsz);
      if namesz == 0 || end > |b| then None
      else Some((Note(b[NOTE..NOTE + namesz - 1], kind, b[desc..desc + descsz]), end))
  }

  /** The notes of a PT_NOTE segment. */
  function ReadNotes(b: seq<byte>): Option<seq<Note>>
    decreases |b|
  {
    if b == [] then Some([])
    else
      var first := ReadNote(b);
      if first.None? then None
      else
        var later := ReadNotes(b[first.value.1..]);
        if later.None? then None else Some([first.value.0] + later.value)
  }

  /** The dump is small enough for the fields: file offsets have 8 bytes and sh_info has 4. */
  ghost predicate Fits(c: Core)
    requires CoreOk(c)
  {
    |FullImage(c)| < Limit(8) && Segs(c) < Limit(4)
  }

  // ------------------------------------------------------------------ segments

  lemma PhdrReadsBack(p: Phdr)
    requires p.offset < Limit(8) && p.filesz < Limit(8)
    ensures Value(PhdrBytes(p)[8..16]) == p.offset && Value(PhdrBytes(p)[32..40]) == p.filesz
  {
    var f := PhdrFields(p);
    PhdrOffsets(f, p);
    FieldReadsBack(f, PHDR, 2, 8, 16);
    FieldReadsBack(f, PHDR, 5, 32, 40);
  }

  lemma ContentsAre(image: seq<byte>, k: nat, p: Phdr, data: seq<byte>)
    requires EHDR + PHDR * k + PHDR <= |image| && p.offset + p.filesz <= |image| < Limit(8)
    requires image[EHDR + PHDR * k..EHDR + PHDR * k + PHDR] == PhdrBytes(p)
    requires image[p.offset..p.offset + p.filesz] == data
    ensures Contents(image, k) == Some(data)
  {
    var at := EHDR + PHDR * k;
    PhdrReadsBack(p);
    SliceOfSlice(image, at, PHDR, 8, 16);
    SliceOfSlice(image, at, PHDR, 32, 40);
  }

  /** The reader gets the pages of every mapping. */
  lemma ReaderFindsSegments(c: Core, k: nat)
    requires CoreOk(c) && Fits(c) && k < |Vmas(c)|
    ensures Contents(FullImage(c), k + 1) == Some(PagesBytes(Vmas(c)[k].pages))
  {
    SegmentHeadersAreInPlace(c, k);
    SegmentsAreWhereTheHeadersSay(c, k);
    ContentsAre(FullImage(c), k + 1, Load(Vmas(c)[k], SegmentOffset(c, k)), PagesBytes(Vmas(c)[k].pages));
  }

  // ------------------------------------------------------------------ the number of headers

  lemma EhdrReadsBack(e: Ehdr)
    requires e.phnum <= PN_XNUM && e.shoff < Limit(8)
    ensures Value(EhdrBytes(e)[56..58]) == e.phnum && Value(EhdrBytes(e)[40..48]) == e.shoff
  {
    var f := EhdrFields(e);
    EhdrOffsets(f, e);
    assert Limit(1) == 256 && Limit(2) == 65536;
    FieldReadsBack(f, EHDR, 8, 40, 48);
    FieldReadsBack(f, EHDR, 12, 56, 58);
  }

  lemma ShdrReadsBack(segs: nat)
    requires segs < Limit(4)
    ensures Value(ShdrBytes(segs)[44..48]) == segs
  {
    var f := ShdrFields(segs);
    ShdrOffsets(f, segs);
    FieldReadsBack(f, SHDR, 7, 44, 48);
  }

  lemma CountReadsBack(image: seq<byte>, e: Ehdr, segs: nat)
    requires |image| >= EHDR && image[0..EHDR] == EhdrBytes(e)
    requires e.phnum <= PN_XNUM && e.shoff < Limit(8) && segs < Limit(4)
    requires if e.phnum == PN_XNUM then e.shoff <= |image| && image[e.shoff..] == ShdrBytes(segs)
             else e.phnum == segs
    ensures HeaderCount(image) == Some(segs)
  {
    EhdrReadsBack(e);
    SliceOfSlice(image, 0, EHDR, 56, 58);
    SliceOfSlice(image, 0, EHDR, 40, 48);
    if e.phnum == PN_XNUM {
      ShdrReadsBack(segs);
      SliceOfSlice(image, e.shoff, SHDR, 44, 48);
      assert image[e.shoff..e.shoff + SHDR] == image[e.shoff..];
    }
  }

  lemma EhdrIsFirst(c: Core)
    requires CoreOk(c)
    ensures |FullImage(c)| >= EHDR && FullImage(c)[0..EHDR] == EhdrBytes(Header(c))
  {
  }

  /** The reader counts the notes' header and one for every mapping, however many there are. */
  lemma ReaderCountsHeaders(c: Core)
    requires CoreOk(c) && Fits(c)
    ensures HeaderCount(FullImage(c)) == Some(|Vmas(c)| + 1)
  {
    SectionHeaderIsAtShOff(c);
    EhdrIsFirst(c);
    CountReadsBack(FullImage(c), Header(c), Segs(c));
  }

  // ------------------------------------------------------------------ notes

  function Present(slots: seq<Option<Note>>): seq<Note> {
    if slots == [] then []
    else (if slots[0].Some? then [slots[0].value] else []) + Present(slots[1..])
  }

  /** The notes of a dump in the order of the file. */
  function NotesOf(threads: seq<Thread>, threadNotes: nat, common: seq<Option<Note>>): seq<Note> {
    if threads == [] then []
    else [threads[0].prstatus] + Present(common) + Present(Looked(threads[0], threadNotes))
         + NotesOf(threads[1..], threadNotes, [])
  }

  function NotesBytes(notes: seq<Note>): seq<byte> {
    if notes == [] then [] else NoteBytes(notes[0]) + NotesBytes(notes[1..])
  }

  lemma {:induction false} NotesBytesOfSum(a: seq<Note>, b: seq<Note>)
    ensures NotesBytes(a + b) == NotesBytes(a) + NotesBytes(b)
  {
    if a == [] {
      assert a + b == b;
    } else {
      assert (a + b)[1..] == a[1..] + b;
      NotesBytesOfSum(a[1..], b);
      Regroup(NoteBytes(a[0]), NotesBytes(a[1..]), NotesBytes(b));
    }
  }

  lemma SlotIsNote(slot: Option<Note>, later: seq<Note>)
    ensures NotesBytes((if slot.Some? then [slot.value] else []) + later) == SlotBytes(slot) + NotesBytes(later)
  {
    if slot.Some? {
      assert ([slot.value] + later)[1..] == later;
    } else {
      assert [] + later == later;
    }
  }

  lemma {:induction false} SlotsAreNotes(slots: seq<Option<Note>>)
    ensures SlotsBytes(slots) == NotesBytes(Present(slots))
  {
    if slots != [] {
      SlotsAreNotes(slots[1..]);
      SlotIsNote(slots[0], Present(slots[1..]));
    }
  }

  lemma OneNote(n: Note)
    ensures NotesBytes([n]) == NoteBytes(n)
  {
    assert [n][1..] == [];
  }

  lemma {:induction false} ThreadsAreNotes(threads: seq<Thread>, threadNotes: nat, common: seq<Option<Note>>)
    ensures ThreadsBytes(threads, threadNotes, common) == NotesBytes(NotesOf(threads, threadNotes, common))
    decreases |threads|
  {
    if threads != [] {
      var looked := Looked(threads[0], threadNotes);
      var first, later := [threads[0].prstatus], NotesOf(threads[1..], threadNotes, []);
      ThreadsAreNotes(threads[1..], threadNotes, []);
      SlotsAreNotes(common);
      SlotsAreNotes(looked);
      OneNote(threads[0].prstatus);
      NotesBytesOfSum(first + Present(common) + Present(looked), later);
      NotesBytesOfSum(first + Present(common), Present(looked));
      NotesBytesOfSum(first, Present(common));
    }
  }

  /** The fields of a note's header have 4 bytes. */
  ghost predicate NoteFits(n: Note) {
    |n.name| + 1 < Limit(4) && |n.data| < Limit(4) && n.kind < Limit(4)
  }

  lemma NoteHeaderReadsBack(n: Note)
    requires NoteFits(n)
    ensures Value(NoteHeader(n)[0..4]) == |n.name| + 1 && Value(NoteHeader(n)[4..8]) == |n.data|
    ensures Value(NoteHeader(n)[8..12]) == n.kind
  {
    var f := NoteFields(|n.name| + 1, |n.data|, n.kind);
    NoteOffsets(f, |n.name| + 1, |n.data|, n.kind);
    FieldReadsBack(f, NOTE, 0, 0, 4);
    FieldReadsBack(f, NOTE, 1, 4, 8);
    FieldReadsBack(f, NOTE, 2, 8, 12);
  }

  /** The parts of a note lie where the reader looks for them. */
  lemma NoteParts(h: seq<byte>, name: seq<byte>, data: seq<byte>, rest: seq<byte>, b: seq<byte>)
    requires |h| == NOTE && b == h + Padded(name + [0]) + Padded(data) + rest
    ensures var desc := NOTE + Roundup4(|name| + 1);
            var end := desc + Roundup4(|data|);
            && end <= |b| && b[end..] == rest && b[0..NOTE] == h
            && b[NOTE..NOTE + |name|] == name && b[desc..desc + |data|] == data
  {
  }

  lemma HeaderReadsBack(n: Note, b: seq<byte>)
    requires NoteFits(n) && |b| >= NOTE && b[0..NOTE] == NoteHeader(n)
    ensures Value(b[0..4]) == |n.name| + 1 && Value(b[4..8]) == |n.data| && Value(b[8..12]) == n.kind
  {
    NoteHeaderReadsBack(n);
    SliceOfSlice(b, 0, NOTE, 0, 4);
    SliceOfSlice(b, 0, NOTE, 4, 8);
    SliceOfSlice(b, 0, NOTE, 8, 12);
  }

  lemma NoteReadsBack(n: Note, rest: seq<byte>, b: seq<byte>)
    requires NoteFits(n) && b == NoteBytes(n) + rest
    ensures ReadNote(b) == Some((n, NoteSize(n))) && b[NoteSize(n)..] == rest
  {
    NoteParts(NoteHeader(n), n.name, n.data, rest, b);
    HeaderReadsBack(n, b);
  }

  lemma {:induction false} NotesReadBack(notes: seq<Note>)
    requires forall i :: 0 <= i < |notes| ==> NoteFits(notes[i])
    ensures ReadNotes(NotesBytes(notes)) == Some(notes)
  {
    if notes != [] {
      NotesReadBack(notes[1..]);
      assert NoteFits(notes[0]);
      NoteReadsBack(notes[0], NotesBytes(notes[1..]), NotesBytes(notes));
      assert [notes[0]] + notes[1..] == notes;
    }
  }

  /** The notes of a dump. */
  function AllNotes(info: NoteInfo): seq<Note> {
    NotesOf(Threads(info.view, info.tasks), Noted(info.view), Common(info))
  }

  /** The reader gets all notes, in the order of the file, from every dump of a view whose noted
      register sets come first. */
  lemma ReaderFindsNotes(c: Core)
    requires CoreOk(c) && Fits(c) && Sane(c.info.view) && NotedFirst(c.info.view)
    requires forall i :: 0 <= i < |AllNotes(c.info)| ==> NoteFits(AllNotes(c.info)[i])
    ensures Contents(FullImage(c), 0).Some?
    ensures ReadNotes(Contents(FullImage(c), 0).value) == Some(AllNotes(c.info))
  {
    NotesAreWhereTheHeaderSays(c);
    DumpsAreRightExactlyWhenNotedFirst(c.info.view);
    assert DumpOf(c.info, c.info.view);
    ContentsAre(FullImage(c), 0, NotePhdr(c), InfoBytes(c.info));
    ThreadsAreNotes(Threads(c.info.view, c.info.tasks), Noted(c.info.view), Common(c.info));
    NotesReadBack(AllNotes(c.info));
  }
}
