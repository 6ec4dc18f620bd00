/** The payload store over plan-sized lanes (src/fixed_patch.rs). */
module PatchStore {
  import opened Sequences
  import opened Varints
  import opened Wire
  import opened Stores

  function Higher(a: nat, b: nat): nat {
    if a > b then a else b
  }

  /** A fixed array, the length in use, and the longest that length has been. */
  class Lane<T(0)> {
    const slots: array<T>
    var len: nat
    var peak: nat

    ghost predicate Valid()
      reads this
    {
      len <= peak <= slots.Length
    }

    function Held(): seq<T>
      requires Valid()
      reads this, slots
    {
      slots[..len]
    }

    constructor (count: nat)
      ensures Valid() && len == 0 && peak == 0 && slots.Length == count && fresh(slots)
    {
      slots := new T[count];
      len, peak := 0, 0;
    }

    /** Asks for a coordinate without taking it. */
    method Mint() returns (at: Option<nat>)
      requires Valid()
      ensures at == if len < slots.Length then Some(len) else None
    {
      at := if len < slots.Length then Some(len) else None;
    }

    method PushMinted(value: T)
      requires Valid() && len < slots.Length
      modifies this, slots
      ensures Valid() && Held() == old(Held()) + [value] && peak == Higher(old(peak), len)
    {
      slots[len] := value;
      len := len + 1;
      if len > peak {
        peak := len;
      }
    }

    /** Takes the next coordinate; a full lane stays as it was. */
    method Push(value: T) returns (at: Option<nat>)
      requires Valid()
      modifies this, slots
      ensures Valid() && at == if old(len) < slots.Length then Some(old(len)) else None
      ensures Held() == if at.Some? then old(Held()) + [value] else old(Held())
      ensures peak == Higher(old(peak), len)
    {
      at := Mint();
      if at.Some? {
        PushMinted(value);
      }
    }

    /** Overwrites a minted slot. */
    method Set(at: nat, value: T)
      requires Valid() && at < len
      modifies slots
      ensures Valid() && Held() == old(Held())[at := value]
    {
      slots[at] := value;
    }
  }

  /** The byte pool: the lane's shape over raw extents. */
  class ByteLane {
    const bytes: array<Byte>
    var len: nat
    var peak: nat

    ghost predicate Valid()
      reads this
    {
      len <= peak <= bytes.Length
    }

    function Held(): seq<Byte>
      requires Valid()
      reads this, bytes
    {
      bytes[..len]
    }

    constructor (count: nat)
      ensures Valid() && len == 0 && peak == 0 && bytes.Length == count && fresh(bytes)
    {
      bytes := new Byte[count];
      len, peak := 0, 0;
    }

    predicate Fits(more: nat)
      reads this
    {
      len + more <= bytes.Length
    }

    method ExtendJudged(chunk: seq<Byte>)
      requires Valid() && Fits(|chunk|)
      modifies this, bytes
      ensures Valid() && Held() == old(Held()) + chunk && peak == Higher(old(peak), len)
    {
      forall k | 0 <= k < |chunk| {
        bytes[len + k] := chunk[k];
      }
      len := len + |chunk|;
      if len > peak {
        peak := len;
      }
    }

    /** Judges and appends; a pool that cannot hold the chunk is left as it was. */
    method Extend(chunk: seq<Byte>) returns (ok: bool)
      requires Valid()
      modifies this, bytes
      ensures Valid() && ok == (old(len) + |chunk| <= bytes.Length)
      ensures Held() == if ok then old(Held()) + chunk else old(Held())
      ensures peak == Higher(old(peak), len)
    {
      ok := Fits(|chunk|);
      if ok {
        ExtendJudged(chunk);
      }
    }

    /** Back to an earlier mark; the high-water mark keeps what was used. */
    method Truncate(mark: nat)
      requires Valid() && mark <= len
      modifies this`len
      ensures Valid() && Held() == old(Held())[..mark]
    {
      len := mark;
    }

    method ExtentAt(start: nat, count: nat) returns (extent: seq<Byte>)
      requires Valid() && start + count <= len
      ensures extent == Held()[start..start + count]
    {
      extent := bytes[start..start + count];
    }
  }

  class FixedStore {
    const copied: ByteLane
    const slots: Lane<Slot>

    /** Where the open staged frame begins. */
    ghost var mark: Option<nat>

    ghost predicate Valid()
      reads this, copied, copied.bytes, slots, slots.slots
    {
      copied.Valid() && slots.Valid() && Disciplined(copied.Held(), slots.Held(), mark)
    }

    ghost function Meaning(): Book
      requires Valid()
      reads this, copied, copied.bytes, slots, slots.slots
    {
      BookOf(copied.Held(), slots.Held(), mark)
    }

    function Capacity(): Caps
    {
      Caps(slots.slots.Length, copied.bytes.Length)
    }

    constructor (slotCount: nat, byteCount: nat)
      ensures Valid() && mark.None? && Meaning() == Book([], 0, None) && Capacity() == Caps(slotCount, byteCount)
      ensures fresh(copied) && fresh(copied.bytes) && fresh(slots) && fresh(slots.slots)
      ensures copied.peak == 0 && slots.peak == 0
    {
      copied := new ByteLane(byteCount);
      slots := new Lane(slotCount);
      mark := None;
    }

    /** A borrowed payload, whole or scattered, occupies its slot only. */
    method PushBorrowedSlot(slot: Slot) returns (r: Answer)
      requires Valid() && mark.None? && !slot.Copied?
      modifies slots, slots.slots
      ensures Valid()
      ensures (Meaning(), r) == Pushed(Capacity(), old(Meaning()), Content(old(copied.Held()), slot), 0)
      ensures slots.peak == Higher(old(slots.peak), slots.len)
    {
      hide Disciplined, BookOf;
      ghost var pool, held := copied.Held(), slots.Held();
      BookSizes(pool, held, None);
      var at := slots.Push(slot);
      if at.None? {
        return Spent(PayloadSlots);
      }
      SlotPushed(Capacity(), pool, held, slot);
      r := At(at.value);
    }

    /** Appends to the pool and shapes the slot; refuses before occupying. */
    method Stage(payload: seq<Byte>) returns (slot: Option<Slot>)
      requires copied.Valid()
      modifies copied, copied.bytes
      ensures copied.Valid()
      ensures slot == if old(copied.len)
              + |payload| <= copied.bytes.Length then Some(Copied(old(copied.len), |payload|)) else None
      ensures copied.Held() == if slot.Some? then old(copied.Held()) + payload else old(copied.Held())
      ensures copied.peak == Higher(old(copied.peak), copied.len)
    {
      var start := copied.len;
      var ok := copied.Extend(payload);
      slot := if ok then Some(Copied(start, |payload|)) else None;
    }

    method PushCopiedBytes(payload: seq<Byte>) returns (r: Answer)
      requires Valid() && mark.None?
      modifies copied, copied.bytes, slots, slots.slots
      ensures Valid() && (Meaning(), r) == Pushed(Capacity(), old(Meaning()), payload, |payload|)
      ensures slots.peak == Higher(old(slots.peak), slots.len) && copied.peak == Higher(old(copied.peak), copied.len)
    {
      hide Disciplined, BookOf;
      ghost var pool, held := copied.Held(), slots.Held();
      BookSizes(pool, held, None);
      var at := slots.Mint();
      if at.None? {
        return Spent(PayloadSlots);
      }
      var slot := Stage(payload);
      if slot.None? {
        return Spent(StagedBytes);
      }
      slots.PushMinted(slot.value);
      CopyPushed(pool, held, payload);
      r := At(at.value);
    }

    /** Overwrites a minted slot; a replaced extent stays behind inert. */
    method SetBorrowedSlot(at: nat, slot: Slot)
      requires Valid() && mark.None? && !slot.Copied? && at < |Meaning().payloads|
      modifies slots.slots
      ensures Valid()
      ensures Meaning() == old(Meaning()).(payloads := old(Meaning()).payloads[at := Content(old(copied.Held()), slot)])
    {
      hide Disciplined, BookOf;
      ghost var pool, held := copied.Held(), slots.Held();
      BookSizes(pool, held, None);
      slots.Set(at, slot);
      SlotSet(pool, held, at, slot);
    }

    method SetCopiedBytes(at: nat, payload: seq<Byte>) returns (r: Answer)
      requires Valid() && mark.None? && at < |Meaning().payloads|
      modifies copied, copied.bytes, slots.slots
      ensures Valid() && (Meaning(), r) == Step(Capacity(), old(Meaning()), SetCopied(at, payload))
      ensures copied.peak == Higher(old(copied.peak), copied.len)
    {
      hide Disciplined, BookOf;
      ghost var pool, held := copied.Held(), slots.Held();
      BookSizes(pool, held, None);
      var slot := Stage(payload);
      if slot.None? {
        return Spent(StagedBytes);
      }
      slots.Set(at, slot.value);
      CopySet(pool, held, at, payload);
      r := Done;
    }

    // ─── the staged frame ───

    /** The frame's start mark; publishing or abandoning hands it back. */
    method StageMark() returns (start: nat)
      requires Valid() && mark.None?
      modifies this
      ensures Valid() && start == copied.len && mark == Some(start)
      ensures Meaning() == old(Meaning()).(frame := Some([]))
    {
      hide Disciplined, BookOf;
      FrameOpened(copied.Held(), slots.Held());
      start := copied.len;
      mark := Some(start);
    }

    method StageChunk(chunk: seq<Byte>) returns (r: Answer)
      requires Valid() && mark.Some?
      modifies copied, copied.bytes
      ensures Valid() && (Meaning(), r) == Step(Capacity(), old(Meaning()), Chunk(chunk))
      ensures copied.peak == Higher(old(copied.peak), copied.len)
    {
      hide Disciplined, BookOf;
      ghost var pool, held := copied.Held(), slots.Held();
      BookSizes(pool, held, mark);
      FrameGrown(pool, held, mark.value, chunk);
      var ok := copied.Extend(chunk);
      r := if ok then Done else Spent(StagedBytes);
    }

    method StageAbandon(start: nat)
      requires Valid() && mark == Some(start)
      modifies this, copied`len
      ensures Valid() && mark.None? && Meaning() == old(Meaning()).(frame := None)
    {
      hide Disciplined, BookOf;
      ghost var pool, held := copied.Held(), slots.Held();
      BookSizes(pool, held, mark);
      FrameAbandoned(pool, held, start);
      copied.Truncate(start);
      mark := None;
    }

    method StageFinishPush(start: nat) returns (r: Answer)
      requires Valid() && mark == Some(start)
      modifies this, slots, slots.slots
      ensures Valid() && (Meaning(), r) == Step(Capacity(), old(Meaning()), FinishPush)
      ensures mark == if r.At? then None else Some(start)
      ensures slots.peak == Higher(old(slots.peak), slots.len)
    {
      hide Disciplined, BookOf;
      ghost var pool, held := copied.Held(), slots.Held();
      BookSizes(pool, held, mark);
      var at := slots.Push(Copied(start, copied.len - start));
      if at.None? {
        return Spent(PayloadSlots);
      }
      FrameFinished(pool, held, start, slots.Held(), |held|);
      mark := None;
      r := At(at.value);
    }

    method StageFinishSet(start: nat, at: nat)
      requires Valid() && mark == Some(start) && at < |Meaning().payloads|
      modifies this, slots.slots
      ensures Valid() && mark.None? && Meaning() == Step(Capacity(), old(Meaning()), FinishSet(at)).0
    {
      hide Disciplined, BookOf;
      ghost var pool, held := copied.Held(), slots.Held();
      BookSizes(pool, held, mark);
      slots.Set(at, Copied(start, copied.len - start));
      FrameFinished(pool, held, start, slots.Held(), at);
      mark := None;
    }

    // ─── reads ───

    /** Hands the payload over piece by piece, in emission order. */
    method Pieces(at: nat) returns (pieces: seq<seq<Byte>>, len: nat)
      requires Valid() && at < |Meaning().payloads|
      ensures Flat(pieces) == Meaning().payloads[at] && len == |Meaning().payloads[at]|
    {
      var slot := slots.slots[at];
      assert slot == slots.Held()[at];
      match slot
      case Borrowed(bytes) =>
        FlatOne(bytes);
        return [bytes], |bytes|;
      case BorrowedParts(parts) =>
        return parts, |Flat(parts)|;
      case Copied(start, count) =>
        var extent := copied.ExtentAt(start, count);
        FlatOne(extent);
        return [extent], count;
    }
  }

  lemma FlatOne(bytes: seq<Byte>)
    ensures Flat([bytes]) == bytes
  {
    assert [bytes][..0] == [];
    assert Flat([]) + bytes == bytes;
  }

  /** What a book says of the lanes under it. */
  lemma BookSizes(pool: seq<Byte>, slots: seq<Slot>, mark: Option<nat>)
    requires Disciplined(pool, slots, mark)
    ensures mark.Some? ==> mark.value <= |pool|
    ensures var book := BookOf(pool, slots, mark);
            && book.payloads == View(pool, slots) && |book.payloads| == |slots|
            && (mark.None? ==> book.pool == |pool| && book.frame == None)
            && (mark.Some? ==> book.pool == mark.value && book.frame == Some(pool[mark.value..]))
  {}
}
