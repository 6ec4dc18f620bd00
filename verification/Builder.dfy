/** The construction machine: every push charges the account, then lands its
    bytes in the replay program (src/construct.rs). */
module Builder {
  import opened Sequences
  import opened Varints
  import opened Wire
  import opened Construct
  import opened Refusal

  datatype Outcome = Emitted | Refused(over: OverCap) | Abandoned

  /** Every payload face takes its `_copy` twin: the copy-only machine. */
  predicate AllCopied(ps: seq<Push>)
    decreases ps
  {
    ps == [] || (Copied(ps[0]) && AllCopied(ps[1..]))
  }

  predicate Copied(p: Push)
    decreases p
  {
    match p
    case PushLen(_, _, copied) => copied
    case RawBytes(chunk) => chunk.copied
    case BytesFrame(_, chunks) => forall i :: 0 <= i < |chunks| ==> chunks[i].copied
    case Message(_, body) => AllCopied(body)
    case GroupOf(_, body) => AllCopied(body)
    case _ => true
  }

  lemma {:induction false} PackedVarintsCount(words: seq<Word64>)
    ensures |words| <= |PackedVarints(words)|
  {
    if words != [] {
      PackedVarintsCount(words[..|words| - 1]);
    }
  }

  lemma {:induction false} PackedFixed32Size(fixed: seq<Word32>)
    ensures |PackedFixed32(fixed)| == 4 * |fixed|
  {
    if fixed != [] {
      PackedFixed32Size(fixed[..|fixed| - 1]);
    }
  }

  /** What a packed varint push charges: its words alone when they are already
      too many, else its whole record. */
  function PackedCharge(head: Word32, words: seq<Word64>): nat {
    if |words| > MAX_LEN then |words|
    else EncodedLen(head) + EncodedLen(|PackedVarints(words)|) + |PackedVarints(words)|
  }

  class Core {
    var owned: seq<Byte>
    var borrows: seq<seq<Byte>>
    var events: seq<Event>
    var stack: seq<Frame>
    var total: nat
    var over: Option<OverCap>

    /** Payloads shorter than this stage instead of registering a borrow. */
    const BORROW_MIN := 64

    function S(): State
      reads this
    {
      State(owned, borrows, events, stack, total, over)
    }

    ghost predicate Valid()
      reads this
    {
      Reachable(S())
    }

    constructor ()
      ensures Valid() && S() == State([], [], [], [], 0, None)
    {
      owned, borrows, events, stack, total, over := [], [], [], [], 0, None;
    }

    /** Charges the account; the first charge past the cap poisons and is
        recorded with the innermost open frame. */
    method Account(bytes: nat) returns (ok: bool)
      modifies this`total, this`over
      ensures ok == (old(over).None? && old(total) + bytes <= MAX_LEN)
      ensures S() == if old(over).Some? then old(S())
                     else if ok then old(S()).(total := old(total) + bytes)
                     else Poisoned(old(S()), bytes)
    {
      if over.Some? {
        return false;
      }
      var attempted := total + bytes;
      if attempted > MAX_LEN {
        over := Some(OverCap(InnermostField(stack), attempted));
        return false;
      }
      total := attempted;
      return true;
    }

    method PushRun(bytes: nat)
      modifies this`events
      ensures events == WithRun(old(events), bytes)
    {
      if events != [] && events[|events| - 1].Owned? {
        events := events[|events| - 1 := Event.Owned(events[|events| - 1].run + bytes)];
        return;
      }
      events := events + [Event.Owned(bytes)];
    }

    // ─── records ───

    method PutVarint(head: Word32, value: Word64)
      requires Valid()
      modifies this
      ensures Valid() && borrows == old(borrows)
      ensures Wrote(old(S()), S(), Minimal(head) + Minimal(value))
      ensures over == Report(old(S()), Charged(InnermostField(old(stack)), old(total),
                                               EncodedLen(head) + EncodedLen(value)))
    {
      hide Spell, EncodedLen, Replay, Runs;
      ghost var s := S();
      ghost var bytes := Minimal(head) + Minimal(value);
      var ok := Account(EncodedLen(head) + EncodedLen(value));
      if !ok {
        return;
      }
      PushRun(EncodedLen(head) + EncodedLen(value));
      owned := owned + Minimal(head);
      owned := owned + Minimal(value);
      Landed(s, Minimal(head), Minimal(value));
    }

    /** A refused charge writes nothing and keeps the first report. */
    lemma RefusedCharge(s: State, bytes: seq<Byte>)
      requires Reachable(s) && (s.over.Some? || s.total + |bytes| > MAX_LEN)
      requires S() == if s.over.Some? then s else Poisoned(s, |bytes|)
      ensures Valid() && Wrote(s, S(), bytes)
    {
      hide Spell, EncodedLen, Replay, Runs, Sound;
    }

    /** The shared close of every literal push. */
    lemma Landed(s: State, a: seq<Byte>, b: seq<Byte>)
      requires Sound(s) && a + b != [] && s.total + |a| + |b| <= MAX_LEN
      requires S() == s.(owned := s.owned + a + b, events := WithRun(s.events, |a| + |b|), total := s.total + |a| + |b|)
      ensures Valid() && Wrote(s, S(), a + b)
    {
      hide Spell, EncodedLen, Replay, Runs;
      Associative(s.owned, a, b);
      LiteralWrote(s, a + b);
    }

    method PutI32(head: Word32, bits: Word32)
      requires Valid()
      modifies this
      ensures Valid() && borrows == old(borrows)
      ensures Wrote(old(S()), S(), Minimal(head) + LittleEndian(bits, 4))
      ensures over == Report(old(S()), Charged(InnermostField(old(stack)), old(total), EncodedLen(head) + 4))
    {
      hide Spell, EncodedLen, Replay, Runs, LittleEndian;
      ghost var s := S();
      var ok := Account(EncodedLen(head) + 4);
      if !ok {
        return;
      }
      PushRun(EncodedLen(head) + 4);
      owned := owned + Minimal(head);
      owned := owned + LittleEndian(bits, 4);
      Landed(s, Minimal(head), LittleEndian(bits, 4));
    }

    method PutI64(head: Word32, bits: Word64)
      requires Valid()
      modifies this
      ensures Valid() && borrows == old(borrows)
      ensures Wrote(old(S()), S(), Minimal(head) + LittleEndian(bits, 8))
      ensures over == Report(old(S()), Charged(InnermostField(old(stack)), old(total), EncodedLen(head) + 8))
    {
      hide Spell, EncodedLen, Replay, Runs, LittleEndian;
      ghost var s := S();
      var ok := Account(EncodedLen(head) + 8);
      if !ok {
        return;
      }
      PushRun(EncodedLen(head) + 8);
      owned := owned + Minimal(head);
      owned := owned + LittleEndian(bits, 8);
      Landed(s, Minimal(head), LittleEndian(bits, 8));
    }

    method PutLenCopy(head: Word32, payload: seq<Byte>)
      requires Valid()
      modifies this
      ensures Valid() && borrows == old(borrows)
      ensures Wrote(old(S()), S(), Minimal(head) + Minimal(|payload|) + payload)
      ensures over == Report(old(S()), Charged(InnermostField(old(stack)), old(total),
                                               EncodedLen(head) + EncodedLen(|payload|) + |payload|))
    {
      hide Spell, EncodedLen, Replay, Runs;
      ghost var s := S();
      var charge := EncodedLen(head) + EncodedLen(|payload|) + |payload|;
      var ok := Account(charge);
      if !ok {
        return;
      }
      PushRun(charge);
      owned := owned + Minimal(head);
      owned := owned + Minimal(|payload|);
      owned := owned + payload;
      Associative(s.owned, Minimal(head), Minimal(|payload|));
      Landed(s, Minimal(head) + Minimal(|payload|), payload);
    }

    /** One LEN record. Payloads from `BORROW_MIN` bytes up are kept by reference,
        shorter ones copied; an empty one is its head and a zero length. */
    method PutLen(head: Word32, payload: seq<Byte>)
      requires Valid()
      modifies this
      ensures Valid()
      ensures borrows == if over.None? && |payload| >= 64 then old(borrows) + [payload] else old(borrows)
      ensures Wrote(old(S()), S(), Minimal(head) + Minimal(|payload|) + payload)
      ensures over == Report(old(S()), Charged(InnermostField(old(stack)), old(total),
                                               EncodedLen(head) + EncodedLen(|payload|) + |payload|))
    {
      hide Spell, EncodedLen, Replay, Runs, Sound, Wrote, InnermostField, WithRun;
      ghost var s := S();
      ghost var framing := Minimal(head) + Minimal(|payload|);
      var ok := Account(EncodedLen(head) + EncodedLen(|payload|) + |payload|);
      if !ok {
        RefusedCharge(s, framing + payload);
        return;
      }
      PushRun(EncodedLen(head) + EncodedLen(|payload|));
      owned := owned + Minimal(head);
      owned := owned + Minimal(|payload|);
      Associative(s.owned, Minimal(head), Minimal(|payload|));
      ghost var t := Literal(s, framing);
      LiteralWrote(s, framing);
      if |payload| >= BORROW_MIN {
        RegisterBorrow(payload);
        RegisteredWrote(t, payload);
        WroteBoth(s, t, S(), framing, payload);
      } else if payload != [] {
        PushRun(|payload|);
        owned := owned + payload;
        LiteralWrote(t, payload);
        WroteBoth(s, t, S(), framing, payload);
      } else {
        assert framing + payload == framing;
      }
    }

    method RegisterBorrow(payload: seq<Byte>)
      modifies this`borrows, this`events
      ensures borrows == old(borrows) + [payload]
      ensures events == old(events) + [Event.Borrowed(|old(borrows)|)]
    {
      var at := |borrows|;
      borrows := borrows + [payload];
      events := events + [Event.Borrowed(at)];
    }

    // ─── raw words ───

    method PutRawWord(word: seq<Byte>)
      requires Valid() && word != []
      modifies this
      ensures Valid() && borrows == old(borrows)
      ensures Wrote(old(S()), S(), word)
      ensures over == Report(old(S()), Charged(InnermostField(old(stack)), old(total), |word|))
    {
      hide Replay, Runs;
      ghost var s := S();
      var ok := Account(|word|);
      if ok {
        PushRun(|word|);
        owned := owned + word;
        LiteralWrote(s, word);
      }
    }

    /** Caller bytes, staged or borrowed; an empty append is a no-op. */
    method PutRawBytes(chunk: Chunk)
      requires Valid()
      modifies this
      ensures Valid()
      ensures borrows == if over.None? && !chunk.copied && |chunk.bytes| >= 64
                         then old(borrows) + [chunk.bytes] else old(borrows)
      ensures Wrote(old(S()), S(), chunk.bytes)
      ensures over == Report(old(S()), Charged(InnermostField(old(stack)), old(total), |chunk.bytes|))
    {
      hide Replay, Runs;
      ghost var s := S();
      if chunk.bytes == [] {
        WroteNothing(s);
        return;
      }
      if chunk.copied || |chunk.bytes| < BORROW_MIN {
        PutRawWord(chunk.bytes);
        return;
      }
      var ok := Account(|chunk.bytes|);
      if ok {
        RegisterBorrow(chunk.bytes);
        RegisteredWrote(s, chunk.bytes);
      }
    }

    // ─── packed families ───

    method PutPackedVarints(head: Word32, words: seq<Word64>)
      requires Valid()
      modifies this
      ensures Valid() && borrows == old(borrows)
      ensures Wrote(old(S()), S(), Minimal(head) + Minimal(|PackedVarints(words)|) + PackedVarints(words))
      ensures over == Report(old(S()), Charged(InnermostField(old(stack)), old(total), PackedCharge(head, words)))
    {
      hide Spell, EncodedLen, Replay, Runs, PackedVarints;
      ghost var s := S();
      PackedVarintsCount(words);
      if |words| > MAX_LEN {
        var _ := Account(|words|);
        return;
      }
      var body := PackedSize(words);
      var ok := Account(EncodedLen(head) + EncodedLen(body) + body);
      if !ok {
        return;
      }
      PushRun(EncodedLen(head) + EncodedLen(body) + body);
      owned := owned + Minimal(head);
      owned := owned + Minimal(body);
      AppendPacked(words);
      Associative(s.owned, Minimal(head), Minimal(body));
      Landed(s, Minimal(head) + Minimal(body), PackedVarints(words));
    }

    method PackedSize(words: seq<Word64>) returns (body: nat)
      ensures body == |PackedVarints(words)|
    {
      body := 0;
      var i := 0;
      while i < |words|
        invariant 0 <= i <= |words| && body == |PackedVarints(words[..i])|
      {
        body := body + EncodedLen(words[i]);
        assert words[..i + 1][..i] == words[..i];
        i := i + 1;
      }
      assert words[..i] == words;
    }

    method AppendPacked(words: seq<Word64>)
      modifies this`owned
      ensures owned == old(owned) + PackedVarints(words)
    {
      hide Spell, EncodedLen;
      ghost var framed := owned;
      var i := 0;
      assert framed + PackedVarints(words[..0]) == framed;
      while i < |words|
        invariant 0 <= i <= |words| && owned == framed + PackedVarints(words[..i])
      {
        Associative(framed, PackedVarints(words[..i]), Minimal(words[i]));
        owned := owned + Minimal(words[i]);
        assert words[..i + 1][..i] == words[..i];
        i := i + 1;
      }
      assert words[..i] == words;
    }

    method PutPackedFixed32(head: Word32, fixed: seq<Word32>)
      requires Valid()
      modifies this
      ensures Valid() && borrows == old(borrows)
      ensures Wrote(old(S()), S(), Minimal(head) + Minimal(|PackedFixed32(fixed)|) + PackedFixed32(fixed))
      ensures over == Report(old(S()), Charged(InnermostField(old(stack)), old(total),
                                               EncodedLen(head) + EncodedLen(|PackedFixed32(fixed)|)
                                                 + |PackedFixed32(fixed)|))
    {
      hide Spell, EncodedLen, Replay, Runs, Sound, Wrote, InnermostField, WithRun, PackedFixed32;
      ghost var s := S();
      PackedFixed32Size(fixed);
      var body := 4 * |fixed|;
      var ok := Account(EncodedLen(head) + EncodedLen(body) + body);
      if !ok {
        RefusedCharge(s, Minimal(head) + Minimal(body) + PackedFixed32(fixed));
        return;
      }
      PushRun(EncodedLen(head) + EncodedLen(body) + body);
      owned := owned + Minimal(head);
      owned := owned + Minimal(body);
      AppendFixed(fixed);
      Associative(s.owned, Minimal(head), Minimal(body));
      Landed(s, Minimal(head) + Minimal(body), PackedFixed32(fixed));
    }

    method AppendFixed(fixed: seq<Word32>)
      modifies this`owned
      ensures owned == old(owned) + PackedFixed32(fixed)
    {
      hide Spell, EncodedLen, LittleEndian;
      ghost var framed := owned;
      var i := 0;
      assert framed + PackedFixed32(fixed[..0]) == framed;
      while i < |fixed|
        invariant 0 <= i <= |fixed| && owned == framed + PackedFixed32(fixed[..i])
      {
        Associative(framed, PackedFixed32(fixed[..i]), LittleEndian(fixed[i], 4));
        owned := owned + LittleEndian(fixed[i], 4);
        assert fixed[..i + 1][..i] == fixed[..i];
        i := i + 1;
      }
      assert fixed[..i] == fixed;
    }

    // ─── frames ───

    /** The head's bytes, a slot for the length to come, and the frame on the
        stack; a poisoned machine takes the frame alone. */
    method BeginLen(head: Word32)
      requires Valid() && head % 8 == LEN_CODE
      modifies this
      ensures Valid() && S() == BegunLen(old(S()), head) && borrows == old(borrows)
    {
      hide Spell, EncodedLen, Replay, Runs, Sound, OpenLens, OpenEnds;
      ghost var s := S();
      var begin := 0;
      var ok := Account(EncodedLen(head));
      if ok {
        PushRun(EncodedLen(head));
        owned := owned + Minimal(head);
        begin := |events|;
        events := events + [PLACEHOLDER];
      }
      stack := stack + [Frame(head, begin, total)];
      BegunLenReachable(s, head);
    }

    /** Pops a LEN frame, charges the prefix of what was charged since its
        opening, and writes that length into the frame's slot. */
    method EndLen()
      requires Valid() && stack != [] && stack[|stack| - 1].IsLen()
      modifies this
      ensures old(over).None? ==>
                old(stack)[|old(stack)| - 1].begin < |old(events)|
                  && old(stack)[|old(stack)| - 1].startTotal <= old(total)
      ensures Valid() && S() == EndedLen(old(S())) && borrows == old(borrows)
    {
      hide Spell, EncodedLen, Replay, Runs;
      ghost var s := S();
      var frame := stack[|stack| - 1];
      if over.None? {
        var body := total - frame.startTotal;
        var width := EncodedLen(body);
        var _ := Account(width);
        events := events[frame.begin := LenPrefix(body, width)];
      }
      stack := stack[..|stack| - 1];
      EndedLenReachable(s);
    }

    /** `group_frame` up to its body: both tags charged, the open tag landed. */
    method BeginGroup(open: Word32)
      requires Valid() && open % 8 == GROUP_CODE
      modifies this
      ensures Valid() && S() == BegunGroup(old(S()), open) && borrows == old(borrows)
    {
      hide Spell, EncodedLen, Replay, Runs, Sound, OpenLens, OpenEnds;
      ghost var s := S();
      var ok := Account(2 * EncodedLen(open));
      if ok {
        PushRun(EncodedLen(open));
        owned := owned + Minimal(open);
      }
      stack := stack + [Frame(open, 0, total)];
      BegunGroupReachable(s, open);
    }

    /** `group_frame` after its body: the prepaid end tag lands. */
    method EndGroup(end: Word32)
      requires Valid() && stack != [] && !stack[|stack| - 1].IsLen()
      requires EncodedLen(end) == EncodedLen(stack[|stack| - 1].head)
      modifies this
      ensures Valid() && S() == EndedGroup(old(S()), end) && borrows == old(borrows)
    {
      hide Spell, EncodedLen, Replay, Runs;
      ghost var s := S();
      stack := stack[..|stack| - 1];
      if over.None? {
        PushRun(EncodedLen(end));
        owned := owned + Minimal(end);
      }
      EndedGroupReachable(s, end);
    }

    // ─── programs ───

    /** One face call; frame bodies run between the two halves of their frame. */
    method Execute(p: Push)
      requires Valid()
      modifies this
      ensures Valid() && (Copied(p) ==> borrows == old(borrows))
      ensures Wrote(old(S()), S(), Encode(p))
      ensures over == Report(old(S()), Quoted(InnermostField(old(stack)), old(total), p))
      decreases p, 1
    {
      hide Spell, EncodedLen, Replay, Runs, Sound, Wrote, BegunLen, EndedLen, BegunGroup, EndedGroup;
      match p
      case PushVarint(f, value) => PutVarint(TagWord(f, VARINT_CODE), value);
      case PushI32(f, bits) => PutI32(TagWord(f, I32_CODE), bits);
      case PushI64(f, bits) => PutI64(TagWord(f, I64_CODE), bits);
      case PushLen(f, payload, copied) =>
        if copied {
          PutLenCopy(TagWord(f, LEN_CODE), payload);
        } else {
          PutLen(TagWord(f, LEN_CODE), payload);
        }
      case PushPackedVarints(f, words) => PutPackedVarints(TagWord(f, LEN_CODE), words);
      case PushPackedFixed32(f, fixed) => PutPackedFixed32(TagWord(f, LEN_CODE), fixed);
      case RawVarint(value) => PutRawWord(Minimal(value));
      case RawI32(bits) => PutRawWord(LittleEndian(bits, 4));
      case RawI64(bits) => PutRawWord(LittleEndian(bits, 8));
      case RawBytes(chunk) => PutRawBytes(chunk);
      case Message(f, body) => ExecuteMessage(f, body, p);
      case BytesFrame(f, chunks) => ExecuteBytes(f, chunks);
      case GroupOf(f, body) => ExecuteGroup(f, body, p);
    }

    method ExecuteMessage(f: Field, body: seq<Push>, ghost p: Push)
      requires Valid() && p == Message(f, body)
      modifies this
      ensures Valid() && (AllCopied(body) ==> borrows == old(borrows))
      ensures Wrote(old(S()), S(), LenRecord(f, EncodeAll(body)))
      ensures over == Report(old(S()), Quoted(InnermostField(old(stack)), old(total), p))
      decreases p, 0
    {
      hide Spell, EncodedLen, Replay, Runs, Sound, Wrote, BegunLen, EndedLen, InnermostField;
      ghost var s := S();
      FrameOpens(s, f);
      BeginLen(TagWord(f, LEN_CODE));
      ExecuteAll(body);
      ghost var t := S();
      WroteKeepsStack(BegunLen(s, TagWord(f, LEN_CODE)), t, EncodeAll(body));
      LenFrameHeld(s, t, TagWord(f, LEN_CODE));
      LenFrameReports(s, t, f, EncodeAll(body), QuotedAll(Some(f), s.total + EncodedLen(TagWord(f, LEN_CODE)), body));
      EndLen();
      LenFrameWrote(s, t, TagWord(f, LEN_CODE), EncodeAll(body));
    }

    method ExecuteBytes(f: Field, chunks: seq<Chunk>)
      requires Valid()
      modifies this
      ensures Valid() && ((forall i :: 0 <= i < |chunks| ==> chunks[i].copied) ==> borrows == old(borrows))
      ensures Wrote(old(S()), S(), LenRecord(f, Joined(chunks)))
      ensures over == Report(old(S()), Quoted(InnermostField(old(stack)), old(total), BytesFrame(f, chunks)))
    {
      hide Spell, EncodedLen, Replay, Runs, Sound, Wrote, BegunLen, EndedLen, InnermostField;
      ghost var s := S();
      FrameOpens(s, f);
      BeginLen(TagWord(f, LEN_CODE));
      WriteChunks(chunks);
      ghost var t := S();
      WroteKeepsStack(BegunLen(s, TagWord(f, LEN_CODE)), t, Joined(chunks));
      LenFrameHeld(s, t, TagWord(f, LEN_CODE));
      LenFrameReports(s, t, f, Joined(chunks),
                      QuotedChunks(Some(f), s.total + EncodedLen(TagWord(f, LEN_CODE)), chunks, |chunks|));
      EndLen();
      LenFrameWrote(s, t, TagWord(f, LEN_CODE), Joined(chunks));
    }

    method ExecuteGroup(f: Field, body: seq<Push>, ghost p: Push)
      requires Valid() && p == GroupOf(f, body)
      modifies this
      ensures Valid() && (AllCopied(body) ==> borrows == old(borrows))
      ensures Wrote(old(S()), S(), Encode(p))
      ensures over == Report(old(S()), Quoted(InnermostField(old(stack)), old(total), p))
      decreases p, 0
    {
      hide Spell, EncodedLen, Replay, Runs, Sound, Wrote, BegunGroup, EndedGroup, InnermostField;
      ghost var s := S();
      FrameOpens(s, f);
      TagWidthIgnoresCode(f, GROUP_CODE, END_CODE);
      BeginGroup(TagWord(f, GROUP_CODE));
      ExecuteAll(body);
      ghost var t := S();
      WroteKeepsStack(BegunGroup(s, TagWord(f, GROUP_CODE)), t, EncodeAll(body));
      GroupFrameHeld(s, t, TagWord(f, GROUP_CODE));
      GroupFrameReports(s, t, f, EncodeAll(body),
                        QuotedAll(Some(f), s.total + 2 * EncodedLen(TagWord(f, GROUP_CODE)), body));
      EndGroup(TagWord(f, END_CODE));
      GroupFrameWrote(s, t, TagWord(f, GROUP_CODE), TagWord(f, END_CODE), EncodeAll(body));
    }

    method ExecuteAll(ps: seq<Push>)
      requires Valid()
      modifies this
      ensures Valid() && (AllCopied(ps) ==> borrows == old(borrows))
      ensures Wrote(old(S()), S(), EncodeAll(ps))
      ensures over == Report(old(S()), QuotedAll(InnermostField(old(stack)), old(total), ps))
      decreases ps, 2
    {
      hide Spell, EncodedLen, Replay, Runs;
      ghost var s := S();
      if ps == [] {
        WroteNothing(s);
        return;
      }
      Execute(ps[0]);
      ghost var t := S();
      ReportsInTurn(s, t, InnermostField(s.stack), ps[0], ps[1..]);
      assert [ps[0]] + ps[1..] == ps;
      ExecuteAll(ps[1..]);
      WroteBoth(s, t, S(), Encode(ps[0]), EncodeAll(ps[1..]));
    }

    method WriteChunks(chunks: seq<Chunk>)
      requires Valid()
      modifies this
      ensures Valid() && ((forall i :: 0 <= i < |chunks| ==> chunks[i].copied) ==> borrows == old(borrows))
      ensures Wrote(old(S()), S(), Joined(chunks))
      ensures over == Report(old(S()), QuotedChunks(InnermostField(old(stack)), old(total), chunks, |chunks|))
    {
      hide Spell, EncodedLen, Replay, Runs;
      ghost var s := S();
      WroteNothing(s);
      var i := 0;
      while i < |chunks|
        invariant 0 <= i <= |chunks| && Valid()
        invariant Wrote(s, S(), Joined(chunks[..i]))
        invariant over == Report(s, QuotedChunks(InnermostField(s.stack), s.total, chunks, i))
        invariant (forall j :: 0 <= j < i ==> chunks[j].copied) ==> borrows == old(borrows)
      {
        ghost var t := S();
        PutRawBytes(chunks[i]);
        WroteBoth(s, t, S(), Joined(chunks[..i]), chunks[i].bytes);
        assert chunks[..i + 1][..i] == chunks[..i];
        i := i + 1;
      }
      assert chunks[..i] == chunks;
    }

    // ─── emission ───

    /** Appends the replay to `out`, whose spare room is the total itself; a
        refused or abandoned program appends nothing. */
    method EmitInto(out: seq<Byte>) returns (outcome: Outcome, result: seq<Byte>)
      requires Valid()
      ensures outcome == if over.Some? then Refused(over.value) else if stack != [] then Abandoned else Emitted
      ensures result == if outcome.Emitted? then out + Out(S()) else out
      ensures outcome.Emitted? ==> |Out(S())| == total
    {
      hide Spell, Replay, Runs, EventBytes, LiveEvent;
      if over.Some? {
        return Refused(over.value), out;
      }
      if stack != [] {
        return Abandoned, out;
      }
      ReplayEmpty(owned, borrows, events);
      var spare := new Byte[total];
      var dst, cursor, i := 0, 0, 0;
      while i < |events|
        modifies spare
        invariant 0 <= i <= |events| && cursor == Runs(events, i)
        invariant dst == |Replay(owned, borrows, events, i)| <= spare.Length
        invariant spare[..dst] == Replay(owned, borrows, events, i)
      {
        EventFits(i);
        ReplayStep(owned, borrows, events, i + 1);
        RunsStep(events, i + 1);
        dst, cursor := EmitOne(spare, dst, events[i], cursor);
        i := i + 1;
      }
      assert spare[..dst] == spare[..];
      return Emitted, out + spare[..];
    }

    /** One event at the destination cursor. */
    method EmitOne(spare: array<Byte>, dst: nat, e: Event, cursor: nat) returns (dst': nat, cursor': nat)
      requires LiveEvent(borrows, e) && (e.Owned? ==> cursor + e.run <= |owned|)
      requires dst + |EventBytes(owned, borrows, e, cursor)| <= spare.Length
      modifies spare
      ensures dst' == dst + |EventBytes(owned, borrows, e, cursor)|
      ensures spare[..dst'] == old(spare[..dst]) + EventBytes(owned, borrows, e, cursor)
      ensures cursor' == cursor + if e.Owned? then e.run else 0
    {
      hide Spell;
      cursor' := cursor;
      match e
      case Owned(run) =>
        CopyTo(spare, dst, owned[cursor..cursor + run]);
        cursor' := cursor + run;
        dst' := dst + run;
      case Borrowed(at) =>
        CopyTo(spare, dst, borrows[at]);
        dst' := dst + |borrows[at]|;
      case LenPrefix(body, width) =>
        WriteAt(spare, dst, body, width);
        dst' := dst + width;
    }

    /** The replayed prefix, the next event's bytes and the total. */
    lemma EventFits(i: nat)
      requires Valid() && over.None? && stack == [] && i < |events|
      ensures LiveEvent(borrows, events[i])
      ensures events[i].Owned? ==> Runs(events, i) + events[i].run <= |owned|
      ensures |Replay(owned, borrows, events, i + 1)| <= |Out(S())| == total
    {
      RunsMonotone(events, i + 1, |events|);
      ReplayMonotone(owned, borrows, events, i + 1, |events|);
    }

    /** Replays slice by slice: what `emit_sink` hands its sink. */
    method EmitSink() returns (outcome: Outcome, slices: seq<seq<Byte>>)
      requires Valid()
      ensures outcome == if over.Some? then Refused(over.value) else if stack != [] then Abandoned else Emitted
      ensures !outcome.Emitted? ==> slices == []
      ensures outcome.Emitted? ==> Flat(slices) == Out(S()) && forall i :: 0 <= i < |slices| ==> slices[i] != []
    {
      hide Spell, Replay, Runs;
      slices := [];
      if over.Some? {
        return Refused(over.value), [];
      }
      if stack != [] {
        return Abandoned, [];
      }
      ReplayEmpty(owned, borrows, events);
      var cursor, i := 0, 0;
      while i < |events|
        invariant 0 <= i <= |events| && cursor == Runs(events, i)
        invariant Flat(slices) == Replay(owned, borrows, events, i)
        invariant forall k :: 0 <= k < |slices| ==> slices[k] != []
      {
        EventFits(i);
        ReplayStep(owned, borrows, events, i + 1);
        RunsStep(events, i + 1);
        ghost var before := slices;
        var slice;
        match events[i] {
          case Owned(run) =>
            slice := owned[cursor..cursor + run];
            cursor := cursor + run;
          case Borrowed(at) =>
            slice := borrows[at];
          case LenPrefix(body, width) =>
            slice := Spell(body, width);
        }
        slices := slices + [slice];
        assert slices[..|before|] == before;
        i := i + 1;
      }
      outcome := Emitted;
    }

    /** The account's verdict, priced without a walk. */
    method Planned() returns (outcome: Outcome, price: nat)
      requires Valid()
      ensures outcome == if over.Some? then Refused(over.value) else if stack != [] then Abandoned else Emitted
      ensures outcome.Emitted? ==> price == |Out(S())|
    {
      price := total;
      outcome := if over.Some? then Refused(over.value) else if stack != [] then Abandoned else Emitted;
    }
  }

  /** Between its two halves a frame's body runs with that frame on top. */
  lemma LenFrameHeld(s: State, t: State, head: Word32)
    requires t.stack == BegunLen(s, head).stack
    ensures t.stack != [] && t.stack[|t.stack| - 1].head == head
  {}

  lemma GroupFrameHeld(s: State, t: State, open: Word32)
    requires t.stack == BegunGroup(s, open).stack
    ensures t.stack != [] && t.stack[|t.stack| - 1].head == open
  {}

  lemma WroteKeepsStack(s: State, t: State, bytes: seq<Byte>)
    requires Reachable(s) && Reachable(t) && Wrote(s, t, bytes)
    ensures t.stack == s.stack
  {}

  lemma ReplayEmpty(owned: seq<Byte>, borrows: seq<seq<Byte>>, events: seq<Event>)
    ensures Replay(owned, borrows, events, 0) == [] && Runs(events, 0) == 0
  {}

  lemma {:induction false} ReplayMonotone(owned: seq<Byte>, borrows: seq<seq<Byte>>, events: seq<Event>, m: nat, n: nat)
    requires m <= n <= |events|
    ensures |Replay(owned, borrows, events, m)| <= |Replay(owned, borrows, events, n)|
    decreases n - m
  {
    hide Spell, Replay, Runs;
    if m < n {
      ReplayStep(owned, borrows, events, n);
      ReplayMonotone(owned, borrows, events, m, n - 1);
    }
  }

  method CopyTo(buf: array<Byte>, at: nat, bytes: seq<Byte>)
    requires at + |bytes| <= buf.Length
    modifies buf
    ensures buf[..at + |bytes|] == old(buf[..at]) + bytes
    ensures buf[at + |bytes|..] == old(buf[at + |bytes|..])
  {
    forall k | 0 <= k < |bytes| {
      buf[at + k] := bytes[k];
    }
  }

  // ─── the builder, end to end ───

  /** Authoring a whole program and finishing it: refused exactly when the
      reference encoding is longer than the cap, and then with the report of
      the first charge that crosses it; else that encoding appended to an
      untouched `out`, with the price and the sink agreeing. */
  method Build(ps: seq<Push>, out: seq<Byte>)
    returns (outcome: Outcome, result: seq<Byte>, price: nat, slices: seq<seq<Byte>>)
    ensures outcome.Emitted? <==> |EncodeAll(ps)| <= MAX_LEN
    ensures outcome.Emitted? ==>
              result == out + EncodeAll(ps) && price == |EncodeAll(ps)| && Flat(slices) == EncodeAll(ps)
    ensures !outcome.Emitted? ==> outcome.Refused? && result == out && slices == []
    ensures outcome.Refused? ==> QuotedAll(None, 0, ps) == Some(outcome.over)
  {
    hide Spell, EncodedLen, Replay, Runs;
    var core := new Core();
    ReplayEmpty([], [], []);
    core.ExecuteAll(ps);
    assert [] + EncodeAll(ps) == EncodeAll(ps);
    var verdict;
    verdict, price := core.Planned();
    verdict, slices := core.EmitSink();
    outcome, result := core.EmitInto(out);
  }
}
