/** The heap twin of the payload store, and the two in lockstep
    (src/editor.rs, src/fixed_patch.rs). */
module HeapStore {
  import opened Sequences
  import opened Varints
  import opened Wire
  import opened Stores
  import opened PatchStore

  const MAX_U32: nat := 0xFFFF_FFFF

  /** A column's coordinates and the pool's end are both `u32` words. */
  const HEAP_CAPS := Caps(MAX_U32 + 1, MAX_U32)

  class GrowingStore {
    var copied: seq<Byte>
    var slots: seq<Slot>
    ghost var mark: Option<nat>

    ghost predicate Valid()
      reads this
    {
      Disciplined(copied, slots, mark) && |copied| <= MAX_U32
    }

    ghost function Meaning(): Book
      requires Valid()
      reads this
    {
      BookOf(copied, slots, mark)
    }

    constructor ()
      ensures Valid() && mark.None? && Meaning() == Book([], 0, None)
    {
      copied, slots, mark := [], [], None;
    }

    method Mint() returns (at: Option<nat>)
      ensures at == if |slots| <= MAX_U32 then Some(|slots|) else None
    {
      at := if |slots| <= MAX_U32 then Some(|slots|) else None;
    }

    method PushSlot(slot: Slot) returns (r: Option<nat>)
      requires Valid() && mark.None? && !slot.Copied?
      modifies this
      ensures Valid() && mark == old(mark)
      ensures var (book, answer) := Pushed(HEAP_CAPS, old(Meaning()), Content(old(copied), slot), 0);
              Meaning() == book && r == Coordinate(answer)
    {
      hide Disciplined, BookOf;
      BookSizes(copied, slots, mark);
      r := Mint();
      if r.Some? {
        SlotPushed(HEAP_CAPS, copied, slots, slot);
        slots := slots + [slot];
      }
    }

    /** Appends unless the column's end would leave the offset domain. */
    method Stage(payload: seq<Byte>) returns (slot: Option<Slot>)
      requires |copied| <= MAX_U32
      modifies this`copied
      ensures slot == if old(|copied|) + |payload| <= MAX_U32 then Some(Copied(old(|copied|), |payload|)) else None
      ensures copied == if slot.Some? then old(copied) + payload else old(copied)
    {
      var end := |copied| + |payload|;
      if end > MAX_U32 {
        return None;
      }
      copied := copied + payload;
      slot := Some(Copied(end - |payload|, |payload|));
    }

    method PushCopiedBytes(payload: seq<Byte>) returns (r: Option<nat>)
      requires Valid() && mark.None?
      modifies this
      ensures Valid() && mark == old(mark)
      ensures var (book, answer) := Pushed(HEAP_CAPS, old(Meaning()), payload, |payload|);
              Meaning() == book && r == Coordinate(answer)
    {
      hide Disciplined, BookOf;
      ghost var pool, held := copied, slots;
      BookSizes(pool, held, mark);
      r := Mint();
      if r.None? {
        return;
      }
      var slot := Stage(payload);
      if slot.None? {
        return None;
      }
      slots := slots + [slot.value];
      CopyPushed(pool, held, payload);
    }

    method SetSlot(at: nat, slot: Slot)
      requires Valid() && mark.None? && !slot.Copied? && at < |Meaning().payloads|
      modifies this
      ensures Valid() && mark == old(mark)
      ensures Meaning() == old(Meaning()).(payloads := old(Meaning()).payloads[at := Content(old(copied), slot)])
    {
      hide Disciplined, BookOf;
      BookSizes(copied, slots, mark);
      SlotSet(copied, slots, at, slot);
      slots := slots[at := slot];
    }

    method SetCopiedBytes(at: nat, payload: seq<Byte>) returns (ok: bool)
      requires Valid() && mark.None? && at < |Meaning().payloads|
      modifies this
      ensures Valid() && mark == old(mark)
      ensures var (book, answer) := Step(HEAP_CAPS, old(Meaning()), SetCopied(at, payload));
              Meaning() == book && ok == answer.Done?
    {
      hide Disciplined, BookOf;
      ghost var pool, held := copied, slots;
      BookSizes(pool, held, mark);
      var slot := Stage(payload);
      if slot.None? {
        return false;
      }
      slots := slots[at := slot.value];
      CopySet(pool, held, at, payload);
      ok := true;
    }

    method StageMark() returns (start: nat)
      requires Valid() && mark.None?
      modifies this
      ensures Valid() && mark == Some(start) && Meaning() == old(Meaning()).(frame := Some([]))
    {
      hide Disciplined, BookOf;
      FrameOpened(copied, slots);
      start := |copied|;
      mark := Some(start);
    }

    method StageChunk(chunk: seq<Byte>) returns (ok: bool)
      requires Valid() && mark.Some?
      modifies this`copied
      ensures Valid()
      ensures var (book, answer) := Step(HEAP_CAPS, old(Meaning()), Chunk(chunk));
              Meaning() == book && ok == answer.Done?
    {
      hide Disciplined, BookOf;
      BookSizes(copied, slots, mark);
      FrameGrown(copied, slots, mark.value, chunk);
      if |copied| + |chunk| > MAX_U32 {
        return false;
      }
      copied := copied + chunk;
      ok := true;
    }

    method StageAbandon(start: nat)
      requires Valid() && mark == Some(start)
      modifies this
      ensures Valid() && mark.None? && Meaning() == old(Meaning()).(frame := None)
    {
      hide Disciplined, BookOf;
      BookSizes(copied, slots, mark);
      FrameAbandoned(copied, slots, start);
      copied := copied[..start];
      mark := None;
    }

    method StageFinishPush(start: nat) returns (r: Option<nat>)
      requires Valid() && mark == Some(start)
      modifies this
      ensures Valid() && mark == if r.Some? then None else Some(start)
      ensures var (book, answer) := Step(HEAP_CAPS, old(Meaning()), FinishPush);
              Meaning() == book && r == Coordinate(answer)
    {
      hide Disciplined, BookOf;
      ghost var held := slots;
      BookSizes(copied, held, mark);
      var len := |copied| - start;
      r := Mint();
      if r.Some? {
        slots := slots + [Copied(start, len)];
        FrameFinished(copied, held, start, slots, |held|);
        mark := None;
      }
    }

    method StageFinishSet(start: nat, at: nat)
      requires Valid() && mark == Some(start) && at < |Meaning().payloads|
      modifies this
      ensures Valid() && mark.None? && Meaning() == Step(HEAP_CAPS, old(Meaning()), FinishSet(at)).0
    {
      hide Disciplined, BookOf;
      ghost var held := slots;
      BookSizes(copied, held, mark);
      slots := slots[at := Copied(start, |copied| - start)];
      FrameFinished(copied, held, start, slots, at);
      mark := None;
    }
  }

  function Coordinate(answer: Answer): Option<nat> {
    if answer.At? then Some(answer.coordinate) else None
  }

  // ─── laws of the book ───

  function Addressed(c: Command): Option<nat> {
    match c
    case SetBorrowed(at, _) => Some(at)
    case SetParts(at, _) => Some(at)
    case SetCopied(at, _) => Some(at)
    case FinishSet(at) => Some(at)
    case _ => None
  }

  /** A refusal changes nothing; any command keeps every payload but the one
      it addresses, and mints only past the end. */
  lemma OnlyTheAddressed(caps: Caps, book: Book, c: Command, k: nat)
    requires Allowed(book, c) && k < |book.payloads|
    ensures var (after, answer) := Step(caps, book, c);
            && (answer.Spent? ==> after == book)
            && k < |after.payloads| <= |book.payloads| + 1
            && (Addressed(c) != Some(k) ==> after.payloads[k] == book.payloads[k])
            && (answer.At? ==> answer.coordinate == |book.payloads| == |after.payloads| - 1)
  {}

  /** What a smaller store accepts, a larger one answers alike. */
  lemma WiderAgrees(caps: Caps, wider: Caps, book: Book, c: Command)
    requires Allowed(book, c) && caps.slots <= wider.slots && caps.bytes <= wider.bytes
    requires !Step(caps, book, c).1.Spent?
    ensures Step(wider, book, c) == Step(caps, book, c)
  {}

  // ─── whole runs ───

  /** Pool bytes in use, an open frame's included. */
  function InUse(book: Book): nat {
    book.pool + if book.frame.Some? then |book.frame.value| else 0
  }

  datatype Record = Record(book: Book, answers: seq<Answer>, used: seq<nat>)

  /** The first `n` commands on an empty book: what was accepted, and the pool
      length after each. Commands out of frame discipline are skipped. */
  function Played(caps: Caps, script: seq<Command>, n: nat): Record
    requires n <= |script|
  {
    if n == 0 then Record(Book([], 0, None), [], [])
    else
      var before := Played(caps, script, n - 1);
      if !Allowed(before.book, script[n - 1]) then before
      else
        var (book, answer) := Step(caps, before.book, script[n - 1]);
        Record(book, if answer.Spent? then before.answers else before.answers + [answer], before.used + [InUse(book)])
  }

  /** Over any run a published payload keeps its coordinate and its bytes for as
      long as no command addresses it. */
  lemma {:induction false} PayloadsKept(caps: Caps, script: seq<Command>, m: nat, n: nat, k: nat)
    requires m <= n <= |script| && k < |Played(caps, script, m).book.payloads|
    requires forall i :: m <= i < n ==> Addressed(script[i]) != Some(k)
    ensures k < |Played(caps, script, n).book.payloads|
    ensures Played(caps, script, n).book.payloads[k] == Played(caps, script, m).book.payloads[k]
    decreases n
  {
    hide Step;
    if m < n {
      PayloadsKept(caps, script, m, n - 1, k);
      var before := Played(caps, script, n - 1);
      if Allowed(before.book, script[n - 1]) {
        OnlyTheAddressed(caps, before.book, script[n - 1], k);
      }
    }
  }

  lemma {:induction false} AcceptedWithinUsed(caps: Caps, script: seq<Command>, n: nat)
    requires n <= |script|
    ensures |Played(caps, script, n).answers| <= |Played(caps, script, n).used|
  {
    if n > 0 {
      AcceptedWithinUsed(caps, script, n - 1);
    }
  }

  /** Within the plan the sizes are invisible: a run no command of which was
      refused is, on any larger store, the same run. */
  lemma {:induction false} WithinCapacityAgrees(caps: Caps, wider: Caps, script: seq<Command>, n: nat)
    requires n <= |script| && caps.slots <= wider.slots && caps.bytes <= wider.bytes
    requires |Played(caps, script, n).answers| == |Played(caps, script, n).used|
    ensures Played(wider, script, n) == Played(caps, script, n)
  {
    hide Step;
    if n > 0 {
      AcceptedWithinUsed(caps, script, n - 1);
      WithinCapacityAgrees(caps, wider, script, n - 1);
      var before := Played(caps, script, n - 1);
      if Allowed(before.book, script[n - 1]) {
        WiderAgrees(caps, wider, before.book, script[n - 1]);
      }
    }
  }

  // ─── staged frames ───

  /** An opened frame fed its first `n` chunks, refused ones dropped. */
  function Fed(caps: Caps, book: Book, chunks: seq<seq<Byte>>, n: nat): (r: Book)
    requires book.frame.None? && n <= |chunks|
    ensures r.frame.Some? && r.payloads == book.payloads && r.pool == book.pool
  {
    if n == 0 then Step(caps, book, Open).0 else Step(caps, Fed(caps, book, chunks, n - 1), Chunk(chunks[n - 1])).0
  }

  /** Whatever was staged, abandoning restores the book from before the frame. */
  lemma AbandonUndoes(caps: Caps, book: Book, chunks: seq<seq<Byte>>)
    requires book.frame.None?
    ensures Step(caps, Fed(caps, book, chunks, |chunks|), Abandon) == (book, Done)
  {
    hide Fed;
  }

  function ChunkCommands(chunks: seq<seq<Byte>>): seq<Command> {
    seq(|chunks|, i requires 0 <= i < |chunks| => Chunk(chunks[i]))
  }

  /** A run whose last frame is abandoned leaves the book of the run without it. */
  lemma AbandonedFrameIsInvisible(caps: Caps, script: seq<Command>, chunks: seq<seq<Byte>>)
    requires Played(caps, script, |script|).book.frame.None?
    ensures var more := script + [Open] + ChunkCommands(chunks) + [Abandon];
            Played(caps, more, |more|).book == Played(caps, script, |script|).book
  {
    hide Step, Played, Fed;
    var more := script + [Open] + ChunkCommands(chunks) + [Abandon];
    FramePlayed(caps, script, chunks, |chunks|);
    PlayedStep(caps, more, |more|);
    AbandonUndoes(caps, Played(caps, script, |script|).book, chunks);
  }

  lemma {:induction false} FramePlayed(caps: Caps, script: seq<Command>, chunks: seq<seq<Byte>>, n: nat)
    requires n <= |chunks| && Played(caps, script, |script|).book.frame.None?
    ensures Played(caps, script + [Open] + ChunkCommands(chunks) + [Abandon], |script| + 1 + n).book
         == Fed(caps, Played(caps, script, |script|).book, chunks, n)
  {
    hide Step, Played;
    var more := script + [Open] + ChunkCommands(chunks) + [Abandon];
    PlayedStep(caps, more, |script| + 1 + n);
    if n == 0 {
      PlayedPrefix(caps, script, more, |script|);
    } else {
      FramePlayed(caps, script, chunks, n - 1);
    }
  }

  lemma {:induction false} PlayedPrefix(caps: Caps, a: seq<Command>, b: seq<Command>, n: nat)
    requires n <= |a| <= |b| && forall i :: 0 <= i < n ==> a[i] == b[i]
    ensures Played(caps, a, n) == Played(caps, b, n)
  {
    hide Step;
    if n > 0 {
      PlayedPrefix(caps, a, b, n - 1);
    }
  }

  /** Chunk `i` is refused where it comes. */
  predicate ChunkRefused(caps: Caps, book: Book, chunks: seq<seq<Byte>>, i: nat)
    requires book.frame.None? && i < |chunks|
  {
    Step(caps, Fed(caps, book, chunks, i), Chunk(chunks[i])).1.Spent?
  }

  /** The pool takes the bytes; no bytes take no pool. */
  predicate FitsPool(caps: Caps, book: Book, bytes: seq<Byte>) {
    bytes == [] || book.pool + |bytes| <= caps.bytes
  }

  lemma {:induction false} FedWhole(caps: Caps, book: Book, chunks: seq<seq<Byte>>, n: nat)
    requires book.frame.None? && n <= |chunks|
    ensures (exists i: nat :: i < n && ChunkRefused(caps, book, chunks, i))
            <==> !FitsPool(caps, book, Flat(chunks[..n]))
    ensures FitsPool(caps, book, Flat(chunks[..n])) ==> Fed(caps, book, chunks, n).frame == Some(Flat(chunks[..n]))
  {
    if n > 0 {
      assert chunks[..n][..n - 1] == chunks[..n - 1];
      FedWhole(caps, book, chunks, n - 1);
      if FitsPool(caps, book, Flat(chunks[..n - 1])) && !FitsPool(caps, book, Flat(chunks[..n])) {
        assert ChunkRefused(caps, book, chunks, n - 1);
      }
    }
  }

  /** A payload cut into any chunks publishes exactly as the whole copy does: some
      chunk is refused if and only if the pool cannot take the whole, which is
      then refused too; else one coordinate, bytes and pool, or one refusal. */
  lemma ChunkingIsInvisible(caps: Caps, book: Book, chunks: seq<seq<Byte>>)
    requires book.frame.None?
    ensures var whole := Step(caps, book, PushCopied(Flat(chunks)));
            var parts := Step(caps, Fed(caps, book, chunks, |chunks|), FinishPush);
            var refused := exists i: nat :: i < |chunks| && ChunkRefused(caps, book, chunks, i);
            && (refused <==> Flat(chunks) != [] && book.pool + |Flat(chunks)| > caps.bytes)
            && (refused ==> whole.1.Spent? && whole.0 == book)
            && (!refused ==>
                  && parts.1 == whole.1 && parts.0.payloads == whole.0.payloads
                  && (whole.1.At? ==> parts.0 == whole.0))
  {
    hide ChunkRefused;
    assert chunks[..|chunks|] == chunks;
    FedWhole(caps, book, chunks, |chunks|);
  }

  // ─── one command on either machine ───

  method RunFixed(s: FixedStore, c: Command, start: nat) returns (r: Answer, start': nat)
    requires s.Valid() && Allowed(s.Meaning(), c) && (s.mark.Some? ==> s.mark.value == start)
    modifies s, s.copied, s.copied.bytes, s.slots, s.slots.slots
    ensures s.Valid() && (s.Meaning(), r) == Step(s.Capacity(), old(s.Meaning()), c)
    ensures s.mark.Some? ==> s.mark.value == start'
    ensures s.copied.peak >= old(s.copied.peak) && s.copied.len <= s.copied.peak <= s.copied.bytes.Length
    ensures s.copied.peak == Higher(old(s.copied.peak), s.copied.len)
  {
    hide Disciplined, BookOf;
    BookSizes(s.copied.Held(), s.slots.Held(), s.mark);
    start' := start;
    r := Done;
    match c
    case PushBorrowed(bytes) => r := s.PushBorrowedSlot(Slot.Borrowed(bytes));
    case PushParts(parts) => r := s.PushBorrowedSlot(Slot.BorrowedParts(parts));
    case PushCopied(bytes) => r := s.PushCopiedBytes(bytes);
    case SetBorrowed(at, bytes) => s.SetBorrowedSlot(at, Slot.Borrowed(bytes));
    case SetParts(at, parts) => s.SetBorrowedSlot(at, Slot.BorrowedParts(parts));
    case SetCopied(at, bytes) => r := s.SetCopiedBytes(at, bytes);
    case Open => start' := s.StageMark();
    case Chunk(bytes) => r := s.StageChunk(bytes);
    case Abandon => s.StageAbandon(start);
    case FinishPush => r := s.StageFinishPush(start);
    case FinishSet(at) => s.StageFinishSet(start, at);
  }

  method RunHeap(s: GrowingStore, c: Command, start: nat) returns (r: Answer, start': nat)
    requires s.Valid() && Allowed(s.Meaning(), c) && (s.mark.Some? ==> s.mark.value == start)
    modifies s
    ensures s.Valid() && s.Meaning() == Step(HEAP_CAPS, old(s.Meaning()), c).0
    ensures var answer := Step(HEAP_CAPS, old(s.Meaning()), c).1;
            (r.Spent? <==> answer.Spent?) && (!r.Spent? ==> r == answer)
    ensures s.mark.Some? ==> s.mark.value == start'
  {
    hide Disciplined, BookOf;
    BookSizes(s.copied, s.slots, s.mark);
    start' := start;
    r := Done;
    match c
    case PushBorrowed(bytes) =>
      var at := s.PushSlot(Slot.Borrowed(bytes));
      r := Told(at);
    case PushParts(parts) =>
      var at := s.PushSlot(Slot.BorrowedParts(parts));
      r := Told(at);
    case PushCopied(bytes) =>
      var at := s.PushCopiedBytes(bytes);
      r := Told(at);
    case SetBorrowed(at, bytes) => s.SetSlot(at, Slot.Borrowed(bytes));
    case SetParts(at, parts) => s.SetSlot(at, Slot.BorrowedParts(parts));
    case SetCopied(at, bytes) =>
      var ok := s.SetCopiedBytes(at, bytes);
      r := if ok then Done else Spent(StagedBytes);
    case Open => start' := s.StageMark();
    case Chunk(bytes) =>
      var ok := s.StageChunk(bytes);
      r := if ok then Done else Spent(StagedBytes);
    case Abandon => s.StageAbandon(start);
    case FinishPush =>
      var at := s.StageFinishPush(start);
      r := Told(at);
    case FinishSet(at) => s.StageFinishSet(start, at);
  }

  /** The heap twin refuses without a role. */
  function Told(at: Option<nat>): Answer {
    if at.Some? then At(at.value) else Spent(PayloadSlots)
  }

  /** Any script on a plan-sized store, its accepted commands on the heap twin:
      the same answers, the same payloads at every coordinate. Commands out of
      frame discipline are skipped. The pool's high-water mark bounds every
      length the run reached, was reached, and fits the plan. */
  method Lockstep(script: seq<Command>, slotCount: nat, byteCount: nat)
    returns (fixed: FixedStore, heap: GrowingStore, answers: seq<Answer>, twin: seq<Answer>, used: seq<nat>)
    requires slotCount <= MAX_U32 && byteCount <= MAX_U32
    ensures fixed.Valid() && heap.Valid() && fixed.Meaning() == heap.Meaning()
    ensures Record(fixed.Meaning(), answers, used) == Played(Caps(slotCount, byteCount), script, |script|)
    ensures answers == twin
    ensures forall i :: 0 <= i < |used| ==> used[i] <= fixed.copied.peak <= byteCount
    ensures fixed.copied.peak == 0 || fixed.copied.peak in used
  {
    hide Step, Disciplined, BookOf, FixedStore.Valid, GrowingStore.Valid, Allowed, Played;
    ghost var caps := Caps(slotCount, byteCount);
    PlayedNothing(caps, script);
    fixed := new FixedStore(slotCount, byteCount);
    heap := new GrowingStore();
    answers, twin, used := [], [], [];
    var a, b, open := 0, 0, false;
    var i := 0;
    while i < |script|
      invariant 0 <= i <= |script| && answers == twin
      invariant fixed.Valid() && heap.Valid() && fixed.Meaning() == heap.Meaning()
      invariant fixed.Capacity() == Caps(slotCount, byteCount)
      invariant open <==> fixed.Meaning().frame.Some?
      invariant Record(fixed.Meaning(), answers, used) == Played(caps, script, i)
      invariant fresh(fixed) && fresh(heap) && fresh(fixed.copied) && fresh(fixed.copied.bytes)
      invariant fresh(fixed.slots) && fresh(fixed.slots.slots)
      invariant (fixed.mark.Some? ==> fixed.mark.value == a) && (heap.mark.Some? ==> heap.mark.value == b)
      invariant fixed.copied.bytes.Length == byteCount && fixed.copied.peak <= byteCount
      invariant forall k :: 0 <= k < |used| ==> used[k] <= fixed.copied.peak
      invariant fixed.copied.peak == 0 || fixed.copied.peak in used
    {
      PlayedStep(caps, script, i + 1);
      DisciplineAllows(fixed.Meaning(), open, script[i]);
      BookShape(fixed);
      if InDiscipline(open, fixed.slots.len, script[i]) {
        var x, y;
        x, y, a, b, open := BothRun(fixed, heap, script[i], a, b, open);
        used := used + [fixed.copied.len];
        assert used[|used| - 1] == fixed.copied.len;
        if !x.Spent? {
          answers, twin := answers + [x], twin + [y];
        }
      }
      i := i + 1;
    }
  }

  /** One command on the plan-sized store and, unless refused, on its twin. */
  method BothRun(fixed: FixedStore, heap: GrowingStore, c: Command, a: nat, b: nat, open: bool)
    returns (x: Answer, y: Answer, a': nat, b': nat, open': bool)
    requires fixed.Valid() && heap.Valid() && fixed.Meaning() == heap.Meaning() && Allowed(fixed.Meaning(), c)
    requires fixed.Capacity().bytes <= MAX_U32 && fixed.Capacity().slots <= MAX_U32
    requires (fixed.mark.Some? ==> fixed.mark.value == a) && (heap.mark.Some? ==> heap.mark.value == b)
    requires open <==> fixed.Meaning().frame.Some?
    modifies fixed, fixed.copied, fixed.copied.bytes, fixed.slots, fixed.slots.slots, heap
    ensures fixed.Valid() && heap.Valid() && fixed.Meaning() == heap.Meaning()
    ensures (fixed.Meaning(), x) == Step(fixed.Capacity(), old(fixed.Meaning()), c)
    ensures !x.Spent? ==> x == y
    ensures (fixed.mark.Some? ==> fixed.mark.value == a') && (heap.mark.Some? ==> heap.mark.value == b')
    ensures open' <==> fixed.Meaning().frame.Some?
    ensures InUse(fixed.Meaning()) == fixed.copied.len
    ensures fixed.copied.peak == Higher(old(fixed.copied.peak), fixed.copied.len) <= fixed.copied.bytes.Length
  {
    hide Step, Disciplined, BookOf, FixedStore.Valid, GrowingStore.Valid, Allowed;
    ghost var book := fixed.Meaning();
    x, a' := RunFixed(fixed, c, a);
    FrameAfter(fixed.Capacity(), book, c);
    open' := OpenAfter(open, c, x);
    BookShape(fixed);
    if !x.Spent? {
      WiderAgrees(fixed.Capacity(), HEAP_CAPS, book, c);
      y, b' := RunHeap(heap, c, b);
    } else {
      RefusalKeepsBook(fixed.Capacity(), book, c);
      y, b' := x, b;
    }
  }

  /** The frame discipline, read off what the caller holds. */
  predicate InDiscipline(open: bool, count: nat, c: Command) {
    && (c.Chunk? || c.Abandon? || c.FinishPush? || c.FinishSet? <==> open)
    && (c.SetBorrowed? || c.SetParts? || c.SetCopied? || c.FinishSet? ==> c.at < count)
  }

  function OpenAfter(open: bool, c: Command, answer: Answer): bool {
    if answer.Spent? then open else (open && c.Chunk?) || c.Open?
  }

  lemma DisciplineAllows(book: Book, open: bool, c: Command)
    requires open <==> book.frame.Some?
    ensures Allowed(book, c) <==> InDiscipline(open, |book.payloads|, c)
  {}

  lemma FrameAfter(caps: Caps, book: Book, c: Command)
    requires Allowed(book, c)
    ensures Step(caps, book, c).0.frame.Some? <==> OpenAfter(book.frame.Some?, c, Step(caps, book, c).1)
  {}

  lemma BookShape(s: FixedStore)
    requires s.Valid()
    ensures |s.Meaning().payloads| == s.slots.len && (s.Meaning().frame.Some? <==> s.mark.Some?)
    ensures InUse(s.Meaning()) == s.copied.len
  {
    BookSizes(s.copied.Held(), s.slots.Held(), s.mark);
  }

  lemma PlayedNothing(caps: Caps, script: seq<Command>)
    ensures Played(caps, script, 0) == Record(Book([], 0, None), [], [])
  {}

  lemma PlayedStep(caps: Caps, script: seq<Command>, n: nat)
    requires 0 < n <= |script|
    ensures var before := Played(caps, script, n - 1);
            Played(caps, script, n) ==
            if !Allowed(before.book, script[n - 1]) then before
            else Record(Step(caps, before.book, script[n - 1]).0,
                        if Step(caps, before.book, script[n - 1]).1.Spent? then before.answers
                        else before.answers + [Step(caps, before.book, script[n - 1]).1],
                        before.used + [InUse(Step(caps, before.book, script[n - 1]).0)])
  {
    hide Step;
  }

  lemma RefusalKeepsBook(caps: Caps, book: Book, c: Command)
    requires Allowed(book, c) && Step(caps, book, c).1.Spent?
    ensures Step(caps, book, c).0 == book
  {}
}
