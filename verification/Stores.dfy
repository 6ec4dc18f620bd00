/** Authored payloads: the plan-sized store, its heap twin, and the abstract
    book both refine (src/fixed_patch.rs, src/editor.rs). */
module Stores {
  import opened Sequences
  import opened Varints
  import opened Wire

  // ─── the abstract book ───

  /** What a coordinate means: the live payload bytes, one entry per mint.
      `pool` counts the published pool bytes, superseded extents included;
      an open frame holds bytes nothing references yet. */
  datatype Book = Book(payloads: seq<seq<Byte>>, pool: nat, frame: Option<seq<Byte>>)

  datatype Caps = Caps(slots: nat, bytes: nat)

  datatype Role = PayloadSlots | StagedBytes

  datatype Answer = At(coordinate: nat) | Done | Spent(role: Role)

  datatype Command =
    | PushBorrowed(bytes: seq<Byte>)
    | PushParts(parts: seq<seq<Byte>>)
    | PushCopied(bytes: seq<Byte>)
    | SetBorrowed(at: nat, bytes: seq<Byte>)
    | SetParts(at: nat, parts: seq<seq<Byte>>)
    | SetCopied(at: nat, bytes: seq<Byte>)
    | Open
    | Chunk(bytes: seq<Byte>)
    | Abandon
    | FinishPush
    | FinishSet(at: nat)

  /** A staged frame borrows the machine: only its own faces run until it
      finishes or abandons. Coordinates come from earlier mints. */
  predicate Allowed(book: Book, c: Command) {
    && (c.Chunk? || c.Abandon? || c.FinishPush? || c.FinishSet? <==> book.frame.Some?)
    && (c.SetBorrowed? || c.SetParts? || c.SetCopied? || c.FinishSet? ==> c.at < |book.payloads|)
  }

  function Pushed(caps: Caps, book: Book, bytes: seq<Byte>, pooled: nat): (Book, Answer) {
    if |book.payloads| >= caps.slots then (book, Spent(PayloadSlots))
    else if pooled > 0 && book.pool + pooled > caps.bytes then (book, Spent(StagedBytes))
    else (Book(book.payloads + [bytes], book.pool + pooled, None), At(|book.payloads|))
  }

  /** One command: the new book and the answer; a refusal changes nothing. */
  function Step(caps: Caps, book: Book, c: Command): (Book, Answer)
    requires Allowed(book, c)
  {
    match c
    case PushBorrowed(bytes) => Pushed(caps, book, bytes, 0)
    case PushParts(parts) => Pushed(caps, book, Flat(parts), 0)
    case PushCopied(bytes) => Pushed(caps, book, bytes, |bytes|)
    case SetBorrowed(at, bytes) => (book.(payloads := book.payloads[at := bytes]), Done)
    case SetParts(at, parts) => (book.(payloads := book.payloads[at := Flat(parts)]), Done)
    case SetCopied(at, bytes) =>
      if |bytes| > 0 && book.pool + |bytes| > caps.bytes then (book, Spent(StagedBytes))
      else (book.(payloads := book.payloads[at := bytes], pool := book.pool + |bytes|), Done)
    case Open => (book.(frame := Some([])), Done)
    case Chunk(bytes) =>
      var staged := book.frame.value;
      if |bytes| > 0 && book.pool + |staged| + |bytes| > caps.bytes then (book, Spent(StagedBytes))
      else (book.(frame := Some(staged + bytes)), Done)
    case Abandon => (book.(frame := None), Done)
    case FinishPush =>
      if |book.payloads| >= caps.slots then (book, Spent(PayloadSlots))
      else (Book(book.payloads + [book.frame.value], book.pool + |book.frame.value|, None), At(|book.payloads|))
    case FinishSet(at) =>
      (Book(book.payloads[at := book.frame.value], book.pool + |book.frame.value|, None), Done)
  }

  // ─── slots over a pool ───

  datatype Slot = Borrowed(bytes: seq<Byte>) | BorrowedParts(parts: seq<seq<Byte>>) | Copied(start: nat, len: nat)

  function Content(pool: seq<Byte>, slot: Slot): seq<Byte> {
    match slot
    case Borrowed(bytes) => bytes
    case BorrowedParts(parts) => Flat(parts)
    case Copied(start, len) => if start + len <= |pool| then pool[start..start + len] else []
  }

  function View(pool: seq<Byte>, slots: seq<Slot>): (r: seq<seq<Byte>>)
    ensures |r| == |slots| && forall i :: 0 <= i < |r| ==> r[i] == Content(pool, slots[i])
  {
    seq(|slots|, i requires 0 <= i < |slots| => Content(pool, slots[i]))
  }

  /** Every published extent lies below `mark`. */
  predicate Below(slots: seq<Slot>, mark: nat) {
    forall i :: 0 <= i < |slots| && slots[i].Copied? ==> slots[i].start + slots[i].len <= mark
  }

  /** Pool bytes past every published extent are invisible. */
  lemma ViewIgnoresTail(a: seq<Byte>, b: seq<Byte>, slots: seq<Slot>, mark: nat)
    requires Below(slots, mark) && mark <= |a| && mark <= |b| && a[..mark] == b[..mark]
    ensures View(a, slots) == View(b, slots)
  {
    forall i | 0 <= i < |slots| ensures Content(a, slots[i]) == Content(b, slots[i]) {
      if slots[i].Copied? {
        var lo, hi := slots[i].start, slots[i].start + slots[i].len;
        forall k | lo <= k < hi ensures a[k] == b[k] {
          assert a[..mark][k] == b[..mark][k];
        }
        assert a[lo..hi] == b[lo..hi];
      }
    }
  }

  lemma ViewPushed(pool: seq<Byte>, slots: seq<Slot>, slot: Slot)
    ensures View(pool, slots + [slot]) == View(pool, slots) + [Content(pool, slot)]
  {}

  lemma ViewSet(pool: seq<Byte>, slots: seq<Slot>, at: nat, slot: Slot)
    requires at < |slots|
    ensures View(pool, slots[at := slot]) == View(pool, slots)[at := Content(pool, slot)]
  {}

  function BookOf(pool: seq<Byte>, slots: seq<Slot>, mark: Option<nat>): Book
    requires mark.Some? ==> mark.value <= |pool|
  {
    if mark.None? then Book(View(pool, slots), |pool|, None)
    else Book(View(pool, slots), mark.value, Some(pool[mark.value..]))
  }

  predicate Disciplined(pool: seq<Byte>, slots: seq<Slot>, mark: Option<nat>) {
    && (mark.Some? ==> mark.value <= |pool|)
    && Below(slots, if mark.Some? then mark.value else |pool|)
  }

  // ─── each face, over values ───

  lemma SlotPushed(caps: Caps, pool: seq<Byte>, slots: seq<Slot>, slot: Slot)
    requires Disciplined(pool, slots, None) && !slot.Copied? && |slots| < caps.slots
    ensures Disciplined(pool, slots + [slot], None)
    ensures BookOf(pool, slots + [slot], None) == Pushed(caps, BookOf(pool, slots, None), Content(pool, slot), 0).0
  {
    ViewPushed(pool, slots, slot);
  }

  lemma SlotSet(pool: seq<Byte>, slots: seq<Slot>, at: nat, slot: Slot)
    requires Disciplined(pool, slots, None) && !slot.Copied? && at < |slots|
    ensures Disciplined(pool, slots[at := slot], None)
    ensures BookOf(pool, slots[at := slot], None)
         == BookOf(pool, slots, None).(payloads := View(pool, slots)[at := Content(pool, slot)])
  {
    ViewSet(pool, slots, at, slot);
  }

  /** A staged copy is an extent past everything published. */
  lemma CopyStaged(pool: seq<Byte>, slots: seq<Slot>, bytes: seq<Byte>)
    requires Disciplined(pool, slots, None)
    ensures Disciplined(pool + bytes, slots, None) && View(pool + bytes, slots) == View(pool, slots)
    ensures Content(pool + bytes, Copied(|pool|, |bytes|)) == bytes
  {
    ViewIgnoresTail(pool, pool + bytes, slots, |pool|);
  }

  lemma CopyPushed(pool: seq<Byte>, slots: seq<Slot>, bytes: seq<Byte>)
    requires Disciplined(pool, slots, None)
    ensures var slots' := slots + [Copied(|pool|, |bytes|)];
            && Disciplined(pool + bytes, slots', None)
            && BookOf(pool + bytes, slots', None) == Book(View(pool, slots) + [bytes], |pool| + |bytes|, None)
  {
    CopyStaged(pool, slots, bytes);
    ViewPushed(pool + bytes, slots, Copied(|pool|, |bytes|));
  }

  lemma CopySet(pool: seq<Byte>, slots: seq<Slot>, at: nat, bytes: seq<Byte>)
    requires Disciplined(pool, slots, None) && at < |slots|
    ensures var slots' := slots[at := Copied(|pool|, |bytes|)];
            && Disciplined(pool + bytes, slots', None)
            && BookOf(pool + bytes, slots', None) == Book(View(pool, slots)[at := bytes], |pool| + |bytes|, None)
  {
    CopyStaged(pool, slots, bytes);
    ViewSet(pool + bytes, slots, at, Copied(|pool|, |bytes|));
  }

  lemma FrameOpened(pool: seq<Byte>, slots: seq<Slot>)
    requires Disciplined(pool, slots, None)
    ensures Disciplined(pool, slots, Some(|pool|))
    ensures BookOf(pool, slots, Some(|pool|)) == BookOf(pool, slots, None).(frame := Some([]))
  {
    assert pool[|pool|..] == [];
  }

  lemma FrameGrown(pool: seq<Byte>, slots: seq<Slot>, mark: nat, chunk: seq<Byte>)
    requires Disciplined(pool, slots, Some(mark))
    ensures Disciplined(pool + chunk, slots, Some(mark))
    ensures BookOf(pool + chunk, slots, Some(mark))
         == BookOf(pool, slots, Some(mark)).(frame := Some(pool[mark..] + chunk))
  {
    ViewIgnoresTail(pool, pool + chunk, slots, mark);
    assert (pool + chunk)[mark..] == pool[mark..] + chunk;
  }

  /** Abandoning reclaims exactly the frame's bytes. */
  lemma FrameAbandoned(pool: seq<Byte>, slots: seq<Slot>, mark: nat)
    requires Disciplined(pool, slots, Some(mark))
    ensures Disciplined(pool[..mark], slots, None)
    ensures BookOf(pool[..mark], slots, None) == BookOf(pool, slots, Some(mark)).(frame := None)
  {
    ViewIgnoresTail(pool, pool[..mark], slots, mark);
  }

  lemma FrameFinished(pool: seq<Byte>, slots: seq<Slot>, mark: nat, slots': seq<Slot>, at: nat)
    requires Disciplined(pool, slots, Some(mark))
    requires var slot := Copied(mark, |pool| - mark);
             slots' == slots + [slot] || (at < |slots| && slots' == slots[at := slot])
    ensures Disciplined(pool, slots', None)
    ensures slots' == slots + [Copied(mark, |pool| - mark)] ==>
              BookOf(pool, slots', None) == Book(View(pool, slots) + [pool[mark..]], |pool|, None)
    ensures at < |slots| && slots' == slots[at := Copied(mark, |pool| - mark)] ==>
              BookOf(pool, slots', None) == Book(View(pool, slots)[at := pool[mark..]], |pool|, None)
  {
    var slot := Copied(mark, |pool| - mark);
    assert Content(pool, slot) == pool[mark..];
    ViewPushed(pool, slots, slot);
    if at < |slots| {
      ViewSet(pool, slots, at, slot);
    }
  }
}
