/** What comes back out of the builder: the record tree a typed program pushed,
    the same bytes from every backing, and the event bound as the code keeps it
    (src/construct.rs). */
module ParseBack {
  import opened Sequences
  import opened Varints
  import opened Wire
  import opened Construct
  import opened Refusal
  import Builder

  // ─── the record tree of a typed program ───

  /** No raw words: every push is a whole record or a frame of them. */
  predicate Typed(p: Push)
    decreases p
  {
    match p
    case RawVarint(_) => false
    case RawI32(_) => false
    case RawI64(_) => false
    case RawBytes(_) => false
    case Message(_, body) => TypedAll(body)
    case GroupOf(_, body) => TypedAll(body)
    case _ => true
  }

  predicate TypedAll(ps: seq<Push>)
    decreases ps
  {
    ps == [] || (Typed(ps[0]) && TypedAll(ps[1..]))
  }

  function TagWidth(field: Field): (t: WordWidth)
    ensures forall code: nat :: code < 8 ==> EncodedLen(TagWord(field, code)) == t
  {
    forall code: nat | code < 8 ensures EncodedLen(TagWord(field, code)) == EncodedLen(TagWord(field, 0)) <= 5 {
      TagWidthIgnoresCode(field, code, 0);
    }
    EncodedLen(TagWord(field, 0))
  }

  function PrefixWidth(len: nat): (p: WordWidth)
    requires len <= MAX_LEN
    ensures p == EncodedLen(len)
  {
    EncodedLenSteps(len);
    EncodedLen(len)
  }

  lemma EncodeParts(p: Push)
    ensures match p
            case Message(_, body) => |EncodeAll(body)| <= |Encode(p)|
            case GroupOf(_, body) => |EncodeAll(body)| <= |Encode(p)|
            case PushLen(_, payload, _) => |payload| <= |Encode(p)|
            case PushPackedVarints(_, words) => |PackedVarints(words)| <= |Encode(p)|
            case PushPackedFixed32(_, fixed) => |PackedFixed32(fixed)| <= |Encode(p)|
            case BytesFrame(_, chunks) => |Joined(chunks)| <= |Encode(p)|
            case _ => true
  {
    hide Spell, EncodedLen;
  }

  function LenItem(field: Field, payload: seq<Byte>): Item
    requires |payload| <= MAX_LEN
  {
    Len(field, TagWidth(field), PrefixWidth(|payload|), payload)
  }

  /** The record a typed push means, every width minimal. */
  function Canon(p: Push): Item
    requires Typed(p) && |Encode(p)| <= MAX_LEN
    decreases p
  {
    EncodeParts(p);
    match p
    case PushVarint(f, v) =>
      EncodedLenIsLeast(v);
      Varint(f, TagWidth(f), v, EncodedLen(v))
    case PushI32(f, bits) => I32(f, TagWidth(f), bits)
    case PushI64(f, bits) => I64(f, TagWidth(f), bits)
    case PushLen(f, payload, _) => LenItem(f, payload)
    case PushPackedVarints(f, words) => LenItem(f, PackedVarints(words))
    case PushPackedFixed32(f, fixed) => LenItem(f, PackedFixed32(fixed))
    case BytesFrame(f, chunks) => LenItem(f, Joined(chunks))
    case Message(f, body) => Msg(f, TagWidth(f), PrefixWidth(|EncodeAll(body)|), CanonAll(body))
    case GroupOf(f, body) => Group(f, TagWidth(f), TagWidth(f), CanonAll(body))
  }

  function CanonAll(ps: seq<Push>): seq<Item>
    requires TypedAll(ps) && |EncodeAll(ps)| <= MAX_LEN
    decreases ps
  {
    if ps == [] then [] else [Canon(ps[0])] + CanonAll(ps[1..])
  }

  lemma LenItemSpells(field: Field, payload: seq<Byte>)
    requires |payload| <= MAX_LEN
    ensures ItemBytes(LenItem(field, payload)) == LenRecord(field, payload) && Lawful(true, LenItem(field, payload))
  {
    hide Spell, EncodedLen;
    Associative(Minimal(TagWord(field, LEN_CODE)), Minimal(|payload|), payload);
  }

  lemma {:induction false} CanonSpells(p: Push)
    requires Typed(p) && |Encode(p)| <= MAX_LEN
    ensures ItemBytes(Canon(p)) == Encode(p) && Lawful(true, Canon(p))
    decreases p
  {
    hide Spell, EncodedLen, PackedVarints, PackedFixed32, Joined;
    EncodeParts(p);
    match p
    case PushLen(f, payload, _) => LenItemSpells(f, payload);
    case PushPackedVarints(f, words) => LenItemSpells(f, PackedVarints(words));
    case PushPackedFixed32(f, fixed) => LenItemSpells(f, PackedFixed32(fixed));
    case BytesFrame(f, chunks) => LenItemSpells(f, Joined(chunks));
    case Message(f, body) =>
      CanonAllSpells(body);
      Associative(Minimal(TagWord(f, LEN_CODE)), Minimal(|EncodeAll(body)|), EncodeAll(body));
    case GroupOf(f, body) =>
      CanonAllSpells(body);
      Associative(Minimal(TagWord(f, GROUP_CODE)), EncodeAll(body), Minimal(TagWord(f, END_CODE)));
    case _ =>
  }

  lemma {:induction false} CanonAllSpells(ps: seq<Push>)
    requires TypedAll(ps) && |EncodeAll(ps)| <= MAX_LEN
    ensures BodyBytes(CanonAll(ps)) == EncodeAll(ps) && LawfulBody(true, CanonAll(ps))
    decreases ps
  {
    hide Spell, EncodedLen, Encode, ItemBytes;
    if ps != [] {
      CanonSpells(ps[0]);
      CanonAllSpells(ps[1..]);
      assert CanonAll(ps)[1..] == CanonAll(ps[1..]);
    }
  }

  /** The minimal-standard parser accepts every typed program the builder
      emits and recovers exactly its record tree, groups and nested messages
      included, for any route that commits just the pushed messages. */
  lemma ParsesBack(route: Route, budget: nat, ps: seq<Push>)
    requires TypedAll(ps) && |EncodeAll(ps)| <= MAX_LEN
    requires BodyConforms(route, [], CanonAll(ps)) && BodyDepth(CanonAll(ps)) <= budget
    ensures Parse(true, route, budget, EncodeAll(ps)) == Some(CanonAll(ps))
  {
    CanonAllSpells(ps);
    ParseSpelled(true, route, budget, CanonAll(ps));
  }

  /** Without a route the same bytes read as the same records, payloads opaque. */
  lemma ParsesBackOpaquely(budget: nat, ps: seq<Push>)
    requires TypedAll(ps) && |EncodeAll(ps)| <= MAX_LEN && BodyDepth(CanonAll(ps)) <= budget
    ensures Parse(true, NO_ROUTE, budget, EncodeAll(ps)) == Some(OpaqueBody(CanonAll(ps)))
  {
    CanonAllSpells(ps);
    ReadsOpaquely(true, budget, CanonAll(ps));
  }

  /** So the bytes determine the records: no two typed programs collide. */
  lemma BytesDetermineRecords(route: Route, ps: seq<Push>, qs: seq<Push>)
    requires TypedAll(ps) && TypedAll(qs) && |EncodeAll(ps)| <= MAX_LEN
    requires EncodeAll(ps) == EncodeAll(qs)
    requires BodyConforms(route, [], CanonAll(ps)) && BodyConforms(route, [], CanonAll(qs))
    ensures CanonAll(ps) == CanonAll(qs)
  {
    var a, b := BodyDepth(CanonAll(ps)), BodyDepth(CanonAll(qs));
    var budget := if a > b then a else b;
    ParsesBack(route, budget, ps);
    ParsesBack(route, budget, qs);
  }

  /** One finished build: emitted bytes parse back to the pushed records. */
  method BuildParsesBack(route: Route, budget: nat, ps: seq<Push>) returns (outcome: Builder.Outcome, bytes: seq<Byte>)
    requires TypedAll(ps)
    ensures outcome.Emitted? <==> |EncodeAll(ps)| <= MAX_LEN
    ensures outcome.Emitted? && BodyConforms(route, [], CanonAll(ps)) && BodyDepth(CanonAll(ps)) <= budget ==>
              Parse(true, route, budget, bytes) == Some(CanonAll(ps))
  {
    hide Parse, CanonAll, EncodeAll, TypedAll;
    var price, slices;
    outcome, bytes, price, slices := Builder.Build(ps, []);
    if outcome.Emitted? {
      assert [] + EncodeAll(ps) == EncodeAll(ps);
      if BodyConforms(route, [], CanonAll(ps)) && BodyDepth(CanonAll(ps)) <= budget {
        ParsesBack(route, budget, ps);
      }
    }
  }

  // ─── when a route can recover a program ───

  /** The words at which a program pushes payloads, and those at which it pushes
      messages; groups only lead deeper. */
  function PayloadWords(trail: seq<Field>, ps: seq<Push>): set<seq<Field>>
    decreases ps
  {
    if ps == [] then {} else PushedWords(false, trail, ps[0]) + PayloadWords(trail, ps[1..])
  }

  function MessageWords(trail: seq<Field>, ps: seq<Push>): set<seq<Field>>
    decreases ps
  {
    if ps == [] then {} else PushedWords(true, trail, ps[0]) + MessageWords(trail, ps[1..])
  }

  function PushedWords(messages: bool, trail: seq<Field>, p: Push): set<seq<Field>>
    decreases p
  {
    match p
    case PushLen(f, _, _) => if messages then {} else {trail + [f]}
    case PushPackedVarints(f, _) => if messages then {} else {trail + [f]}
    case PushPackedFixed32(f, _) => if messages then {} else {trail + [f]}
    case BytesFrame(f, _) => if messages then {} else {trail + [f]}
    case Message(f, body) =>
      if messages then {trail + [f]} + MessageWords(trail + [f], body) else PayloadWords(trail + [f], body)
    case GroupOf(f, body) => if messages then MessageWords(trail + [f], body) else PayloadWords(trail + [f], body)
    case _ => {}
  }

  /** A route conforms exactly when it commits every message word and no payload
      word. */
  predicate Sorts(route: Route, payloads: set<seq<Field>>, messages: set<seq<Field>>) {
    (forall w :: w in payloads ==> !route(w)) && (forall w :: w in messages ==> route(w))
  }

  lemma {:induction false} ConformsIffSorts(route: Route, trail: seq<Field>, p: Push)
    requires Typed(p) && |Encode(p)| <= MAX_LEN
    ensures Conforms(route, trail, Canon(p))
            <==> Sorts(route, PushedWords(false, trail, p), PushedWords(true, trail, p))
    decreases p
  {
    hide Encode, EncodeAll, PackedVarints, PackedFixed32, Joined;
    EncodeParts(p);
    match p
    case Message(f, body) => AllConformIffSorts(route, trail + [f], body);
    case GroupOf(f, body) => AllConformIffSorts(route, trail + [f], body);
    case _ =>
  }

  lemma {:induction false} AllConformIffSorts(route: Route, trail: seq<Field>, ps: seq<Push>)
    requires TypedAll(ps) && |EncodeAll(ps)| <= MAX_LEN
    ensures BodyConforms(route, trail, CanonAll(ps)) <==> Sorts(route, PayloadWords(trail, ps), MessageWords(trail, ps))
    decreases ps
  {
    hide Encode, Canon, Conforms, PushedWords;
    if ps != [] {
      ConformsIffSorts(route, trail, ps[0]);
      AllConformIffSorts(route, trail, ps[1..]);
      assert CanonAll(ps)[0] == Canon(ps[0]) && CanonAll(ps)[1..] == CanonAll(ps[1..]);
    }
  }

  /** Some route recovers a typed program whole if and only if it pushes no word
      both as a payload and as a message. */
  lemma RecoverableIffSorted(ps: seq<Push>)
    requires TypedAll(ps) && |EncodeAll(ps)| <= MAX_LEN
    ensures (exists route: Route :: Parse(true, route, BodyDepth(CanonAll(ps)), EncodeAll(ps)) == Some(CanonAll(ps)))
       <==> PayloadWords([], ps) !! MessageWords([], ps)
  {
    hide CanonAll, EncodeAll, PayloadWords, MessageWords, Parse, BodyConforms, BodyDepth;
    var payloads, messages := PayloadWords([], ps), MessageWords([], ps);
    var budget := BodyDepth(CanonAll(ps));
    CanonAllSpells(ps);
    if payloads !! messages {
      var route: Route := w => w in messages;
      AllConformIffSorts(route, [], ps);
      ParsesBack(route, budget, ps);
    }
    if route: Route :| Parse(true, route, budget, EncodeAll(ps)) == Some(CanonAll(ps)) {
      ParseIsInverse(true, route, budget, EncodeAll(ps), CanonAll(ps));
      AllConformIffSorts(route, [], ps);
    }
  }

  // ─── packed payloads ───

  function Unpacked(s: seq<Byte>): Option<seq<Word64>>
    decreases |s|
  {
    if s == [] then Some([])
    else
      match ReadWord(true, s, ValueWindow)
      case None => None
      case Some(met) =>
        match Unpacked(s[met.width..])
        case None => None
        case Some(more) => Some([met.word] + more)
  }

  lemma {:induction false} PackedFromTheFront(words: seq<Word64>)
    requires words != []
    ensures PackedVarints(words) == Minimal(words[0]) + PackedVarints(words[1..])
  {
    hide Minimal;
    var n := |words| - 1;
    if n == 0 {
      assert words[..0] == [] && words[1..] == [];
      assert PackedVarints([]) + Minimal(words[0]) == Minimal(words[0]) + PackedVarints([]);
    } else {
      PackedFromTheFront(words[..n]);
      assert words[..n][1..] == words[1..][..n - 1];
      Associative(Minimal(words[0]), PackedVarints(words[1..][..n - 1]), Minimal(words[n]));
    }
  }

  /** A packed payload reads back as the words pushed, in order. */
  lemma {:induction false} PackedReadsBack(words: seq<Word64>)
    ensures Unpacked(PackedVarints(words)) == Some(words)
  {
    hide Spell, ReadWord, EncodedLen, PackedVarints;
    if words == [] {
      PackedNothing();
    } else {
      PackedFromTheFront(words);
      PackedReadsBack(words[1..]);
      EncodedLenIsLeast(words[0]);
      var tail := PackedVarints(words[1..]);
      ReadWordSpelled(true, words[0], EncodedLen(words[0]), ValueWindow, tail);
      assert (Minimal(words[0]) + tail)[EncodedLen(words[0])..] == tail;
      assert [words[0]] + words[1..] == words;
    }
  }

  lemma PackedNothing()
    ensures PackedVarints([]) == []
  {}

  /** A fixed packed payload is four bytes a word, in order, each its own word's. */
  lemma {:induction false} PackedFixedReadsBack(fixed: seq<Word32>, i: nat)
    requires i < |fixed|
    ensures |PackedFixed32(fixed)| == 4 * |fixed|
    ensures FromLittleEndian(PackedFixed32(fixed)[4 * i..4 * i + 4]) == fixed[i]
  {
    hide LittleEndian, FromLittleEndian, PackedFixed32;
    var n := |fixed| - 1;
    PackedFixedStep(fixed);
    PackedFixedSize(fixed[..n]);
    var front, last := PackedFixed32(fixed[..n]), LittleEndian(fixed[n], 4);
    if i < n {
      PackedFixedReadsBack(fixed[..n], i);
      assert (front + last)[4 * i..4 * i + 4] == front[4 * i..4 * i + 4];
    } else {
      Pow256Values();
      LittleEndianReadsBack(fixed[n], 4);
      assert (front + last)[4 * i..4 * i + 4] == last;
    }
  }

  lemma PackedFixedStep(fixed: seq<Word32>)
    requires fixed != []
    ensures var n := |fixed| - 1; PackedFixed32(fixed) == PackedFixed32(fixed[..n]) + LittleEndian(fixed[n], 4)
  {}

  lemma {:induction false} PackedFixedSize(fixed: seq<Word32>)
    ensures |PackedFixed32(fixed)| == 4 * |fixed|
  {
    if fixed != [] {
      PackedFixedSize(fixed[..|fixed| - 1]);
    }
  }

  /** A raw word reads back as the word pushed, at its own width, whatever follows. */
  lemma RawReadsBack(p: Push, rest: seq<Byte>)
    requires p.RawVarint? || p.RawI32? || p.RawI64?
    ensures p.RawVarint? ==> ReadWord(true, Encode(p) + rest, ValueWindow) == Some(Met(p.raw, |Encode(p)|))
    ensures p.RawI32? ==> |Encode(p)| == 4 && FromLittleEndian(Encode(p)) == p.raw32
    ensures p.RawI64? ==> |Encode(p)| == 8 && FromLittleEndian(Encode(p)) == p.raw64
  {
    hide Spell, ReadWord, EncodedLen, LittleEndian, FromLittleEndian;
    Pow256Values();
    match p
    case RawVarint(v) =>
      EncodedLenIsLeast(v);
      ReadWordSpelled(true, v, EncodedLen(v), ValueWindow, rest);
    case RawI32(bits) => LittleEndianReadsBack(bits, 4);
    case RawI64(bits) => LittleEndianReadsBack(bits, 8);
  }

  /** Programs one after the other encode one after the other. */
  lemma {:induction false} EncodeInTurn(ps: seq<Push>, qs: seq<Push>)
    ensures EncodeAll(ps + qs) == EncodeAll(ps) + EncodeAll(qs)
    ensures forall p: Push :: EncodeAll([p]) == Encode(p)
  {
    hide Encode;
    if ps == [] {
      assert ps + qs == qs;
    } else {
      EncodeInTurn(ps[1..], qs);
      assert (ps + qs)[1..] == ps[1..] + qs;
      Associative(Encode(ps[0]), EncodeAll(ps[1..]), EncodeAll(qs));
    }
    forall p: Push ensures EncodeAll([p]) == Encode(p) {
      assert [p][1..] == [] && Encode(p) + [] == Encode(p);
    }
  }

  /** So do a frame's chunks. */
  lemma {:induction false} JoinedInTurn(a: seq<Chunk>, b: seq<Chunk>)
    ensures Joined(a + b) == Joined(a) + Joined(b)
  {
    hide Joined;
    if b == [] {
      assert a + b == a;
      JoinedNothing();
    } else {
      var n := |b| - 1;
      JoinedInTurn(a, b[..n]);
      JoinedStep(b);
      JoinedStep(a + b);
      assert (a + b)[..|a| + n] == a + b[..n];
      Associative(Joined(a), Joined(b[..n]), b[n].bytes);
    }
  }

  lemma JoinedNothing()
    ensures Joined([]) == []
  {}

  lemma JoinedStep(chunks: seq<Chunk>)
    requires chunks != []
    ensures Joined(chunks) == Joined(chunks[..|chunks| - 1]) + chunks[|chunks| - 1].bytes
    ensures |chunks| == 1 ==> Joined(chunks) == chunks[0].bytes
  {
    assert |chunks| == 1 ==> chunks[..0] == [];
  }

  // ─── backing independence ───

  /** The same program with every payload copied, what the copy-only machine
      runs; `whole` also pushes each chunk frame's payload in one piece. */
  function CopyOf(whole: bool, p: Push): Push
    decreases p
  {
    match p
    case PushLen(f, payload, _) => PushLen(f, payload, true)
    case RawBytes(chunk) => RawBytes(chunk.(copied := true))
    case BytesFrame(f, chunks) => if whole then PushLen(f, Joined(chunks), true) else BytesFrame(f, CopyChunks(chunks))
    case Message(f, body) => Message(f, CopyAll(whole, body))
    case GroupOf(f, body) => GroupOf(f, CopyAll(whole, body))
    case _ => p
  }

  function CopyAll(whole: bool, ps: seq<Push>): seq<Push>
    decreases ps
  {
    if ps == [] then [] else [CopyOf(whole, ps[0])] + CopyAll(whole, ps[1..])
  }

  function CopyChunks(chunks: seq<Chunk>): (r: seq<Chunk>)
    ensures |r| == |chunks| && forall i :: 0 <= i < |chunks| ==> r[i] == Chunk(chunks[i].bytes, true)
  {
    seq(|chunks|, i requires 0 <= i < |chunks| => Chunk(chunks[i].bytes, true))
  }

  lemma {:induction false} ChunksJoinAlike(a: seq<Chunk>, b: seq<Chunk>)
    requires |a| == |b| && forall i :: 0 <= i < |a| ==> a[i].bytes == b[i].bytes
    ensures Joined(a) == Joined(b)
  {
    if a != [] {
      ChunksJoinAlike(a[..|a| - 1], b[..|b| - 1]);
    }
  }

  /** Borrowed, staged, copied, or cut into any chunks: one encoding, so one
      verdict and one output. */
  lemma {:induction false} CopyingMovesNoByte(whole: bool, p: Push)
    ensures Encode(CopyOf(whole, p)) == Encode(p) && Builder.Copied(CopyOf(whole, p))
    decreases p
  {
    hide Minimal;
    match p
    case BytesFrame(_, chunks) => ChunksJoinAlike(CopyChunks(chunks), chunks);
    case Message(_, body) => CopyingMovesNothing(whole, body);
    case GroupOf(_, body) => CopyingMovesNothing(whole, body);
    case _ =>
  }

  lemma {:induction false} CopyingMovesNothing(whole: bool, ps: seq<Push>)
    ensures EncodeAll(CopyAll(whole, ps)) == EncodeAll(ps) && Builder.AllCopied(CopyAll(whole, ps))
    decreases ps
  {
    if ps != [] {
      CopyingMovesNoByte(whole, ps[0]);
      CopyingMovesNothing(whole, ps[1..]);
      assert CopyAll(whole, ps)[1..] == CopyAll(whole, ps[1..]);
    }
  }

  lemma {:induction false} CopyQuotedAlike(inner: Option<Field>, total: nat, p: Push)
    ensures Quoted(inner, total, CopyOf(false, p)) == Quoted(inner, total, p)
    decreases p
  {
    hide Minimal, Charged, EncodedLen, PackedVarints, PackedFixed32, Framed, Either, LenRecord, Encode, EncodeAll,
         Joined, LittleEndian, QuotedChunks;
    CopyingMovesNoByte(false, p);
    match p
    case Message(f, body) =>
      CopiesQuotedAlike(Some(f), total + EncodedLen(TagWord(f, LEN_CODE)), body);
      CopyingMovesNothing(false, body);
    case GroupOf(f, body) => CopiesQuotedAlike(Some(f), total + 2 * EncodedLen(TagWord(f, GROUP_CODE)), body);
    case BytesFrame(f, chunks) =>
      var copies := CopyChunks(chunks);
      ChunksQuotedAlike(Some(f), total + EncodedLen(TagWord(f, LEN_CODE)), copies, chunks, |chunks|);
      assert copies[..|chunks|] == copies && chunks[..|chunks|] == chunks;
    case _ =>
  }

  lemma {:induction false} CopiesQuotedAlike(inner: Option<Field>, total: nat, ps: seq<Push>)
    ensures QuotedAll(inner, total, CopyAll(false, ps)) == QuotedAll(inner, total, ps)
    decreases ps
  {
    hide Encode, Quoted, CopyOf;
    if ps != [] {
      CopyQuotedAlike(inner, total, ps[0]);
      CopyingMovesNoByte(false, ps[0]);
      CopiesQuotedAlike(inner, total + |Encode(ps[0])|, ps[1..]);
      assert CopyAll(false, ps)[0] == CopyOf(false, ps[0]) && CopyAll(false, ps)[1..] == CopyAll(false, ps[1..]);
    }
  }

  /** The two machines side by side on one program, chunks as pushed or whole:
      same verdict, same bytes, and on the same pushes the same report. */
  method BuildTwice(whole: bool, ps: seq<Push>, out: seq<Byte>)
    returns (a: Builder.Outcome, b: Builder.Outcome, left: seq<Byte>, right: seq<Byte>)
    ensures a.Emitted? == b.Emitted? && left == right
    ensures a.Emitted? ==> left == out + EncodeAll(ps)
    ensures !whole ==> a == b
  {
    hide EncodeAll, QuotedAll;
    CopiesQuotedAlike(None, 0, ps);
    CopyingMovesNothing(whole, ps);
    var price, slices;
    a, left, price, slices := Builder.Build(ps, out);
    b, right, price, slices := Builder.Build(CopyAll(whole, ps), out);
  }

  // ─── the event bound ───

  function EventSize(borrows: seq<seq<Byte>>, e: Event): nat {
    match e
    case Owned(run) => run
    case Borrowed(at) => if at < |borrows| then |borrows[at]| else 0
    case LenPrefix(_, width) => width
  }

  /** Bytes the first `n` events contribute beyond one each. */
  function Spare(borrows: seq<seq<Byte>>, events: seq<Event>, n: nat): nat
    requires n <= |events|
  {
    if n == 0 then 0
    else
      var size := EventSize(borrows, events[n - 1]);
      Spare(borrows, events, n - 1) + if size > 0 then size - 1 else 0
  }

  lemma {:induction false} ReplayIsEventsAndSpare(owned: seq<Byte>, borrows: seq<seq<Byte>>, events: seq<Event>, n: nat)
    requires Live(owned, borrows, events) && n <= |events|
    ensures |Replay(owned, borrows, events, n)| == n + Spare(borrows, events, n)
  {
    hide Spell, EncodedLen, Replay, Runs;
    if n > 0 {
      ReplayIsEventsAndSpare(owned, borrows, events, n - 1);
      RunsMonotone(events, n, |events|);
      RunsStep(events, n);
      ReplayStep(owned, borrows, events, n);
      assert LiveEvent(borrows, events[n - 1]);
    } else {
      Builder.ReplayEmpty(owned, borrows, events);
    }
  }

  /** The exact condition: in a sound state events number at most the accounted
      bytes if and only if the open LEN frames' uncharged placeholders are paid
      for by bytes events hold beyond one each and by prepaid end tags. */
  lemma EventsWithinAccountIff(s: State)
    requires Sound(s)
    ensures |s.events| <= s.total <==> OpenLens(s.stack) <= Spare(s.borrows, s.events, |s.events|) + OpenEnds(s.stack)
  {
    hide Replay, Spare;
    ReplayIsEventsAndSpare(s.owned, s.borrows, s.events, |s.events|);
  }

  lemma {:induction false} SpareRises(borrows: seq<seq<Byte>>, events: seq<Event>, m: nat, n: nat)
    requires m <= n <= |events|
    ensures Spare(borrows, events, m) <= Spare(borrows, events, n)
    decreases n
  {
    if m < n {
      SpareRises(borrows, events, m, n - 1);
    }
  }

  /** Each open LEN frame on a tag of two bytes or more keeps a byte to spare in
      the run before its slot. */
  lemma {:induction false} WideTagsSpare(borrows: seq<seq<Byte>>, events: seq<Event>, stack: seq<Frame>, n: nat)
    requires SlotsHeld(stack, events) && n <= |events|
    requires forall i :: 0 <= i < |stack| && stack[i].IsLen() ==> EncodedLen(stack[i].head) >= 2 && stack[i].begin < n
    ensures OpenLens(stack) <= Spare(borrows, events, n)
    decreases |stack|
  {
    hide EncodedLen, Spare;
    if stack != [] {
      var k := |stack| - 1;
      var under, top := stack[..k], stack[k];
      if top.IsLen() {
        assert SlotHeld(top, events);
        var b := top.begin;
        forall i | 0 <= i < |under| && under[i].IsLen() ensures under[i].begin < b - 1 {
          assert SlotHeld(stack[i], events) && stack[i].begin < stack[k].begin;
        }
        WideTagsSpare(borrows, events, under, b - 1);
        SpareStep(borrows, events, b);
        SpareRises(borrows, events, b, n);
      } else {
        WideTagsSpare(borrows, events, under, n);
      }
    }
  }

  lemma SpareStep(borrows: seq<seq<Byte>>, events: seq<Event>, n: nat)
    requires 0 < n <= |events| && events[n - 1].Owned? && events[n - 1].run >= 2
    ensures Spare(borrows, events, n) >= Spare(borrows, events, n - 1) + 1
  {}

  /** So the bound holds whenever every open LEN frame's tag is two bytes or
      more, and with no LEN frame open at all. */
  lemma WideTagsHoldTheBound(s: State)
    requires Sound(s)
    requires forall i :: 0 <= i < |s.stack| && s.stack[i].IsLen() ==> EncodedLen(s.stack[i].head) >= 2
    ensures |s.events| <= s.total
  {
    hide Replay, Spare, Live, EncodedLen, OpenLens, OpenEnds;
    SlotsInside(s.stack, s.events);
    WideTagsSpare(s.borrows, s.events, s.stack, |s.events|);
    EventsWithinAccountIff(s);
  }

  lemma SlotsInside(stack: seq<Frame>, events: seq<Event>)
    requires SlotsHeld(stack, events)
    ensures forall i :: 0 <= i < |stack| && stack[i].IsLen() ==> stack[i].begin < |events|
  {
    forall i | 0 <= i < |stack| && stack[i].IsLen() ensures stack[i].begin < |events| {
      assert SlotHeld(stack[i], events);
    }
  }

  /** An open LEN frame on a one-byte tag breaks "one accounted byte per event":
      its placeholder is an event no byte has been charged for yet. */
  lemma OpenFrameOutrunsAccount()
    ensures var s := BegunLen(State([], [], [], [], 0, None), TagWord(1, LEN_CODE));
            Sound(s) && |s.events| == 2 && s.total == 1 && OpenLens(s.stack) == 1
  {
    hide Replay, Runs;
    var empty := State([], [], [], [], 0, None);
    var head := TagWord(1, LEN_CODE);
    Builder.ReplayEmpty([], [], []);
    assert Sound(empty);
    EncodedLenSteps(head);
    OpenedSound(empty, head);
    StackPushed([], BegunLen(empty, head).stack[0]);
  }
}
