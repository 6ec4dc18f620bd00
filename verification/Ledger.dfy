/** What a payload store holds after a run, told by the run alone: at every
    coordinate the bytes last given there (src/fixed_patch.rs, src/editor.rs). */
module Ledger {
  import opened Sequences
  import opened Varints
  import opened Wire
  import opened Stores
  import opened PatchStore
  import opened HeapStore

  // ─── what a run gave, read off its script ───

  /** Command `i` ran and was answered other than by a refusal. */
  predicate Accepted(caps: Caps, script: seq<Command>, i: nat)
    requires i < |script|
  {
    |Played(caps, script, i + 1).answers| > |Played(caps, script, i).answers|
  }

  predicate Mints(c: Command) {
    c.PushBorrowed? || c.PushParts? || c.PushCopied? || c.FinishPush?
  }

  /** Coordinates handed out by the first `n` commands. */
  function Minted(caps: Caps, script: seq<Command>, n: nat): nat
    requires n <= |script|
  {
    if n == 0 then 0
    else Minted(caps, script, n - 1) + if Accepted(caps, script, n - 1) && Mints(script[n - 1]) then 1 else 0
  }

  /** The accepted chunks since a frame was last opened. */
  function Staged(caps: Caps, script: seq<Command>, n: nat): seq<Byte>
    requires n <= |script|
  {
    if n == 0 then []
    else if Accepted(caps, script, n - 1) && script[n - 1].Open? then []
    else
      Staged(caps, script, n - 1)
      + if Accepted(caps, script, n - 1) && script[n - 1].Chunk? then script[n - 1].bytes else []
  }

  predicate FrameOpen(caps: Caps, script: seq<Command>, n: nat)
    requires n <= |script|
  {
    n > 0 && if Accepted(caps, script, n - 1)
             then script[n - 1].Open? || script[n - 1].Chunk?
             else FrameOpen(caps, script, n - 1)
  }

  /** The bytes a command gives some coordinate. */
  function Given(caps: Caps, script: seq<Command>, i: nat): Option<seq<Byte>>
    requires i < |script|
  {
    match script[i]
    case PushBorrowed(bytes) => Some(bytes)
    case PushCopied(bytes) => Some(bytes)
    case SetBorrowed(_, bytes) => Some(bytes)
    case SetCopied(_, bytes) => Some(bytes)
    case PushParts(parts) => Some(Flat(parts))
    case SetParts(_, parts) => Some(Flat(parts))
    case FinishPush => Some(Staged(caps, script, i))
    case FinishSet(_) => Some(Staged(caps, script, i))
    case _ => None
  }

  /** The coordinate it gives them to: the one it names, or the next one. */
  function Where(caps: Caps, script: seq<Command>, i: nat): nat
    requires i < |script|
  {
    if Addressed(script[i]).Some? then Addressed(script[i]).value else Minted(caps, script, i)
  }

  predicate Writes(caps: Caps, script: seq<Command>, i: nat, k: nat)
    requires i < |script|
  {
    Accepted(caps, script, i) && Given(caps, script, i).Some? && Where(caps, script, i) == k
  }

  /** The bytes the last accepted command to write `k` gave it. */
  function Latest(caps: Caps, script: seq<Command>, n: nat, k: nat): Option<seq<Byte>>
    requires n <= |script|
  {
    if n == 0 then None
    else if Writes(caps, script, n - 1, k) then Given(caps, script, n - 1)
    else Latest(caps, script, n - 1, k)
  }

  /** Pool bytes the accepted copies took, superseded ones included. */
  function Taken(caps: Caps, script: seq<Command>, n: nat): nat
    requires n <= |script|
  {
    if n == 0 then 0
    else
      Taken(caps, script, n - 1)
      + if !Accepted(caps, script, n - 1) then 0
        else
          match script[n - 1]
          case PushCopied(bytes) => |bytes|
          case SetCopied(_, bytes) => |bytes|
          case FinishPush => |Staged(caps, script, n - 1)|
          case FinishSet(_) => |Staged(caps, script, n - 1)|
          case _ => 0
  }

  // ─── the book is what the run gave ───

  /** Every coordinate handed out holds the bytes last given it. */
  ghost predicate Kept(caps: Caps, script: seq<Command>, n: nat)
    requires n <= |script|
  {
    var book := Played(caps, script, n).book;
    && |book.payloads| == Minted(caps, script, n) && book.pool == Taken(caps, script, n)
    && (forall k: nat :: k < |book.payloads| ==> Latest(caps, script, n, k) == Some(book.payloads[k]))
    && (forall k: nat :: k >= |book.payloads| ==> Latest(caps, script, n, k) == None)
    && (book.frame.Some? <==> FrameOpen(caps, script, n))
    && (book.frame.Some? ==> book.frame.value == Staged(caps, script, n))
  }

  /** Over any run the book is told by the script: the last writer of every
      coordinate, the bytes the pool took, the chunks of an open frame. */
  lemma {:induction false} LastWriterHolds(caps: Caps, script: seq<Command>, n: nat)
    requires n <= |script|
    ensures Kept(caps, script, n)
  {
    hide Played;
    if n == 0 {
      PlayedNothing(caps, script);
    } else {
      LastWriterHolds(caps, script, n - 1);
      KeptOn(caps, script, n);
    }
  }

  /** One more command. */
  lemma KeptOn(caps: Caps, script: seq<Command>, n: nat)
    requires 0 < n <= |script| && Kept(caps, script, n - 1)
    ensures Kept(caps, script, n)
  {
    hide Played, Latest, Writes, Taken, Staged;
    PlayedStep(caps, script, n);
    StagedStep(caps, script, n);
    var book := Played(caps, script, n).book;
    forall k: nat
      ensures Latest(caps, script, n, k) == if k < |book.payloads| then Some(book.payloads[k]) else None
    {
      LatestStep(caps, script, n, k);
    }
  }

  lemma StagedStep(caps: Caps, script: seq<Command>, n: nat)
    requires 0 < n <= |script|
    ensures var c, took := script[n - 1], Accepted(caps, script, n - 1);
            && Staged(caps, script, n)
               == (if took && c.Open? then []
                   else Staged(caps, script, n - 1) + if took && c.Chunk? then c.bytes else [])
            && Taken(caps, script, n) == Taken(caps, script, n - 1)
               + (if !took then 0
                  else if c.PushCopied? || c.SetCopied? then |c.bytes|
                  else if c.FinishPush? || c.FinishSet? then |Staged(caps, script, n - 1)|
                  else 0)
  {
    hide Accepted;
  }

  lemma LatestStep(caps: Caps, script: seq<Command>, n: nat, k: nat)
    requires 0 < n <= |script|
    ensures var i := n - 1;
            Latest(caps, script, n, k)
            == if Accepted(caps, script, i) && Given(caps, script, i).Some? && Where(caps, script, i) == k
               then Given(caps, script, i) else Latest(caps, script, i, k)
  {
    hide Accepted, Given, Where;
  }

  /** The law in one sentence: what an accepted command gave a coordinate stays
      there while no later accepted command writes it. */
  lemma {:induction false} GivenStays(caps: Caps, script: seq<Command>, m: nat, n: nat, k: nat)
    requires m < n <= |script| && Writes(caps, script, m, k)
    requires forall i :: m < i < n ==> !Writes(caps, script, i, k)
    ensures k < |Played(caps, script, n).book.payloads|
    ensures Given(caps, script, m) == Some(Played(caps, script, n).book.payloads[k])
  {
    hide Played;
    LatestIs(caps, script, m, n, k);
    LastWriterHolds(caps, script, n);
  }

  lemma {:induction false} LatestIs(caps: Caps, script: seq<Command>, m: nat, n: nat, k: nat)
    requires m < n <= |script| && Writes(caps, script, m, k)
    requires forall i :: m < i < n ==> !Writes(caps, script, i, k)
    ensures Latest(caps, script, n, k) == Given(caps, script, m)
    decreases n
  {
    hide Writes;
    if m + 1 < n {
      LatestIs(caps, script, m, n - 1, k);
    }
  }

  // ─── refusals ───

  function CopiedBy(c: Command): nat {
    match c
    case PushCopied(bytes) => |bytes|
    case SetCopied(_, bytes) => |bytes|
    case Chunk(bytes) => |bytes|
    case _ => 0
  }

  /** A slot for every coordinate, a place for every copied byte. */
  predicate HasRoom(caps: Caps, script: seq<Command>, i: nat)
    requires i < |script|
  {
    var open := if FrameOpen(caps, script, i) then |Staged(caps, script, i)| else 0;
    && (Mints(script[i]) ==> Minted(caps, script, i) < caps.slots)
    && (CopiedBy(script[i]) > 0 ==> Taken(caps, script, i) + open + CopiedBy(script[i]) <= caps.bytes)
  }

  /** A command in frame discipline is refused exactly where the run so far has
      left it no room, and one out of discipline never runs. */
  lemma AcceptedIffRoom(caps: Caps, script: seq<Command>, i: nat)
    requires i < |script|
    ensures Accepted(caps, script, i)
       <==> && InDiscipline(FrameOpen(caps, script, i), Minted(caps, script, i), script[i])
            && HasRoom(caps, script, i)
  {
    hide Played;
    LastWriterHolds(caps, script, i);
    PlayedStep(caps, script, i + 1);
    DisciplineAllows(Played(caps, script, i).book, FrameOpen(caps, script, i), script[i]);
  }

  /** A refusal names what is spent, slots before bytes. */
  lemma RefusalNamesRole(caps: Caps, book: Book, c: Command)
    requires Allowed(book, c)
    ensures Step(caps, book, c).1 == Spent(PayloadSlots) <==> Mints(c) && |book.payloads| >= caps.slots
    ensures Step(caps, book, c).1 == Spent(StagedBytes)
       <==> && !(Mints(c) && |book.payloads| >= caps.slots)
            && CopiedBy(c) > 0 && InUse(book) + CopiedBy(c) > caps.bytes
    ensures Step(caps, book, c).1.At? <==> Mints(c) && !Step(caps, book, c).1.Spent?
    ensures Step(caps, book, c).1.At? ==> Step(caps, book, c).1.coordinate == |book.payloads|
  {}

  // ─── what the store hands over ───

  /** Any script on a plan-sized store, then one payload read back: the pieces are
      the bytes last given that coordinate. */
  method ReadBack(script: seq<Command>, slotCount: nat, byteCount: nat, k: nat) returns (pieces: seq<seq<Byte>>)
    requires slotCount <= MAX_U32 && byteCount <= MAX_U32
    requires k < Minted(Caps(slotCount, byteCount), script, |script|)
    ensures Some(Flat(pieces)) == Latest(Caps(slotCount, byteCount), script, |script|, k)
  {
    hide Played, Latest, Minted;
    ghost var caps := Caps(slotCount, byteCount);
    var fixed, heap, answers, twin, used := Lockstep(script, slotCount, byteCount);
    LastWriterHolds(caps, script, |script|);
    assert fixed.Meaning() == Played(caps, script, |script|).book;
    var len;
    pieces, len := fixed.Pieces(k);
  }
}
