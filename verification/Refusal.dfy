/** The break a refused program reports: which charge first crosses the cap, and
    what is quoted of it (src/construct.rs). */
module Refusal {
  import opened Varints
  import opened Wire
  import opened Construct

  /** One charge: past the cap it is quoted with the innermost open field. */
  function Charged(inner: Option<Field>, total: nat, bytes: nat): Option<OverCap> {
    if total + bytes > MAX_LEN then Some(OverCap(inner, total + bytes)) else None
  }

  function Either(first: Option<OverCap>, second: Option<OverCap>): Option<OverCap> {
    if first.Some? then first else second
  }

  /** The first break of one push on a healthy account. A LEN frame charges its
      head outside, its body inside, and its prefix at the close, still inside;
      a group charges both tags outside; a packed push of more words than the cap
      is refused by its count alone. */
  function Quoted(inner: Option<Field>, total: nat, p: Push): Option<OverCap>
    decreases p
  {
    match p
    case PushPackedVarints(_, words) => Charged(inner, total, if |words| > MAX_LEN then |words| else |Encode(p)|)
    case Message(f, body) =>
      var head := EncodedLen(TagWord(f, LEN_CODE));
      Framed(inner, total, f, QuotedAll(Some(f), total + head, body), |EncodeAll(body)|)
    case BytesFrame(f, chunks) =>
      var head := EncodedLen(TagWord(f, LEN_CODE));
      Framed(inner, total, f, QuotedChunks(Some(f), total + head, chunks, |chunks|), |Joined(chunks)|)
    case GroupOf(f, body) =>
      var tags := 2 * EncodedLen(TagWord(f, GROUP_CODE));
      Either(Charged(inner, total, tags), QuotedAll(Some(f), total + tags, body))
    case _ => Charged(inner, total, |Encode(p)|)
  }

  function QuotedAll(inner: Option<Field>, total: nat, ps: seq<Push>): Option<OverCap>
    decreases ps
  {
    if ps == [] then None
    else Either(Quoted(inner, total, ps[0]), QuotedAll(inner, total + |Encode(ps[0])|, ps[1..]))
  }

  function QuotedChunks(inner: Option<Field>, total: nat, chunks: seq<Chunk>, n: nat): Option<OverCap>
    requires n <= |chunks|
  {
    if n == 0 then None
    else
      Either(QuotedChunks(inner, total, chunks, n - 1),
             Charged(inner, total + |Joined(chunks[..n - 1])|, |chunks[n - 1].bytes|))
  }

  /** A LEN frame around a body whose own first break is `body`. */
  function Framed(inner: Option<Field>, total: nat, f: Field, body: Option<OverCap>, size: nat): Option<OverCap> {
    var head := EncodedLen(TagWord(f, LEN_CODE));
    Either(Charged(inner, total, head), Either(body, Charged(Some(f), total + head + size, EncodedLen(size))))
  }

  /** A broken account keeps its report; a healthy one takes the new break. */
  function Report(s: State, quote: Option<OverCap>): Option<OverCap> {
    Either(s.over, quote)
  }

  lemma FrameField(stack: seq<Frame>, f: Field, code: nat, begin: nat, total: nat)
    requires code < 8
    ensures InnermostField(stack + [Frame(TagWord(f, code), begin, total)]) == Some(f)
  {
    DivMod8(f, code);
  }

  /** Around a body that reported `body`, a LEN frame reports its own break. */
  lemma LenFrameReports(s: State, t: State, f: Field, bytes: seq<Byte>, body: Option<OverCap>)
    requires var head := TagWord(f, LEN_CODE);
             && Reachable(s) && head % 8 == LEN_CODE && Reachable(BegunLen(s, head)) && Reachable(t)
             && Wrote(BegunLen(s, head), t, bytes) && t.over == Report(BegunLen(s, head), body)
    ensures t.stack != []
    ensures t.over.None? ==> t.stack[|t.stack| - 1].begin < |t.events| && t.stack[|t.stack| - 1].startTotal <= t.total
    ensures EndedLen(t).over == Report(s, Framed(InnermostField(s.stack), s.total, f, body, |bytes|))
  {
    hide Spell, EncodedLen, Replay, Runs, OpenLens, OpenEnds, Live;
    var head := TagWord(f, LEN_CODE);
    var u := BegunLen(s, head);
    FrameField(s.stack, f, LEN_CODE, u.stack[|s.stack|].begin, u.stack[|s.stack|].startTotal);
    if t.over.None? {
      TopSlotHeld(t.stack, t.events);
    }
  }

  lemma GroupFrameReports(s: State, t: State, f: Field, bytes: seq<Byte>, body: Option<OverCap>)
    requires var open := TagWord(f, GROUP_CODE);
             && Reachable(s) && open % 8 == GROUP_CODE && Reachable(BegunGroup(s, open)) && Reachable(t)
             && Wrote(BegunGroup(s, open), t, bytes) && t.over == Report(BegunGroup(s, open), body)
    ensures t.stack != [] && EndedGroup(t, TagWord(f, END_CODE)).over
         == Report(s, Either(Charged(InnermostField(s.stack), s.total, 2 * EncodedLen(TagWord(f, GROUP_CODE))), body))
  {
    hide EncodedLen, Reachable, BegunGroup, EndedGroup, InnermostField;
    GroupBegins(s, TagWord(f, GROUP_CODE));
    GroupWrites(BegunGroup(s, TagWord(f, GROUP_CODE)), t, bytes);
    GroupEnds(t, TagWord(f, END_CODE));
  }

  lemma GroupBegins(s: State, open: Word32)
    ensures BegunGroup(s, open).stack != []
    ensures BegunGroup(s, open).over == Report(s, Charged(InnermostField(s.stack), s.total, 2 * EncodedLen(open)))
  {
    hide EncodedLen, Replay, Runs, Sound;
  }

  lemma GroupWrites(s: State, t: State, bytes: seq<Byte>)
    requires Reachable(s) && Reachable(t) && Wrote(s, t, bytes)
    ensures t.stack == s.stack
  {
    hide Reachable;
  }

  lemma GroupEnds(t: State, end: Word32)
    requires t.stack != []
    ensures EndedGroup(t, end).over == t.over
  {
    hide EncodedLen, Spell;
  }

  /** Inside a frame the innermost field is the frame's, and the account stands
      where the frame left it. */
  lemma FrameOpens(s: State, f: Field)
    requires Reachable(s)
    ensures InnermostField(BegunLen(s, TagWord(f, LEN_CODE)).stack) == Some(f)
    ensures InnermostField(BegunGroup(s, TagWord(f, GROUP_CODE)).stack) == Some(f)
    ensures BegunLen(s, TagWord(f, LEN_CODE)).over
            == Report(s, Charged(InnermostField(s.stack), s.total, EncodedLen(TagWord(f, LEN_CODE))))
    ensures BegunLen(s, TagWord(f, LEN_CODE)).over.None? ==>
              BegunLen(s, TagWord(f, LEN_CODE)).total == s.total + EncodedLen(TagWord(f, LEN_CODE))
    ensures BegunGroup(s, TagWord(f, GROUP_CODE)).over
         == Report(s, Charged(InnermostField(s.stack), s.total, 2 * EncodedLen(TagWord(f, GROUP_CODE))))
    ensures BegunGroup(s, TagWord(f, GROUP_CODE)).over.None? ==>
              BegunGroup(s, TagWord(f, GROUP_CODE)).total == s.total + 2 * EncodedLen(TagWord(f, GROUP_CODE))
  {
    hide Spell, EncodedLen, Replay, Runs, Sound;
    var u, v := BegunLen(s, TagWord(f, LEN_CODE)), BegunGroup(s, TagWord(f, GROUP_CODE));
    FrameField(s.stack, f, LEN_CODE, u.stack[|s.stack|].begin, u.stack[|s.stack|].startTotal);
    FrameField(s.stack, f, GROUP_CODE, v.stack[|s.stack|].begin, v.stack[|s.stack|].startTotal);
  }

  /** One push after another: the first break is the report. */
  lemma ReportsInTurn(s: State, t: State, inner: Option<Field>, p: Push, rest: seq<Push>)
    requires Reachable(s) && Reachable(t) && Wrote(s, t, Encode(p)) && t.over == Report(s, Quoted(inner, s.total, p))
    ensures Report(t, QuotedAll(inner, t.total, rest)) == Report(s, QuotedAll(inner, s.total, [p] + rest))
  {
    hide Spell, EncodedLen, Replay, Runs, Sound, Quoted, Encode;
    assert ([p] + rest)[1..] == rest;
  }

  /** Copying a payload, or not, charges alike: the report is the same. */
  lemma {:induction false} ChunksQuotedAlike(inner: Option<Field>, total: nat, a: seq<Chunk>, b: seq<Chunk>, n: nat)
    requires |a| == |b| && n <= |a| && forall i :: 0 <= i < |a| ==> a[i].bytes == b[i].bytes
    ensures QuotedChunks(inner, total, a, n) == QuotedChunks(inner, total, b, n) && Joined(a[..n]) == Joined(b[..n])
  {
    hide Charged, QuotedChunks, Joined;
    QuotedChunksStep(inner, total, a, n);
    QuotedChunksStep(inner, total, b, n);
    JoinedFront(a, n);
    JoinedFront(b, n);
    if n > 0 {
      ChunksQuotedAlike(inner, total, a, b, n - 1);
    }
  }

  lemma QuotedChunksStep(inner: Option<Field>, total: nat, chunks: seq<Chunk>, n: nat)
    requires n <= |chunks|
    ensures QuotedChunks(inner, total, chunks, n)
         == if n == 0 then None
            else Either(QuotedChunks(inner, total, chunks, n - 1),
                        Charged(inner, total + |Joined(chunks[..n - 1])|, |chunks[n - 1].bytes|))
  {
    hide Charged, Joined;
  }

  lemma JoinedFront(chunks: seq<Chunk>, n: nat)
    requires n <= |chunks|
    ensures Joined(chunks[..n]) == if n == 0 then [] else Joined(chunks[..n - 1]) + chunks[n - 1].bytes
  {
    if n > 0 {
      assert chunks[..n][..n - 1] == chunks[..n - 1];
    }
  }

  // ─── the report is the first charge past the cap ───

  /** What one step adds to the account, under the frame open at that moment. */
  datatype Charge = Charge(inner: Option<Field>, bytes: nat)

  /** Every charge a push makes, in order: a LEN frame's head outside it, its body
      and its prefix inside, both of a group's tags outside. */
  function ChargesOf(inner: Option<Field>, p: Push): seq<Charge>
    decreases p
  {
    match p
    case PushPackedVarints(_, words) => [Charge(inner, if |words| > MAX_LEN then |words| else |Encode(p)|)]
    case Message(f, body) => Enclosed(inner, f, ChargesIn(Some(f), body), |EncodeAll(body)|)
    case BytesFrame(f, chunks) => Enclosed(inner, f, ChunkCharges(Some(f), chunks, |chunks|), |Joined(chunks)|)
    case GroupOf(f, body) => [Charge(inner, 2 * EncodedLen(TagWord(f, GROUP_CODE)))] + ChargesIn(Some(f), body)
    case _ => [Charge(inner, |Encode(p)|)]
  }

  function Enclosed(inner: Option<Field>, f: Field, body: seq<Charge>, size: nat): seq<Charge> {
    [Charge(inner, EncodedLen(TagWord(f, LEN_CODE)))] + body + [Charge(Some(f), EncodedLen(size))]
  }

  function ChargesIn(inner: Option<Field>, ps: seq<Push>): seq<Charge>
    decreases ps
  {
    if ps == [] then [] else ChargesOf(inner, ps[0]) + ChargesIn(inner, ps[1..])
  }

  function ChunkCharges(inner: Option<Field>, chunks: seq<Chunk>, n: nat): seq<Charge>
    requires n <= |chunks|
  {
    if n == 0 then [] else ChunkCharges(inner, chunks, n - 1) + [Charge(inner, |chunks[n - 1].bytes|)]
  }

  function Sum(cs: seq<Charge>): nat {
    if cs == [] then 0 else cs[0].bytes + Sum(cs[1..])
  }

  /** The first charge that crosses the cap, and the account it would have made. */
  function FirstOver(total: nat, cs: seq<Charge>): Option<OverCap>
    decreases |cs|
  {
    if cs == [] then None
    else if total + cs[0].bytes > MAX_LEN then Some(OverCap(cs[0].inner, total + cs[0].bytes))
    else FirstOver(total + cs[0].bytes, cs[1..])
  }

  lemma {:induction false} SumJoined(a: seq<Charge>, b: seq<Charge>)
    ensures Sum(a + b) == Sum(a) + Sum(b)
  {
    if a == [] {
      assert a + b == b;
    } else {
      SumJoined(a[1..], b);
      assert (a + b)[1..] == a[1..] + b;
    }
  }

  lemma {:induction false} FirstOverJoined(total: nat, a: seq<Charge>, b: seq<Charge>)
    ensures FirstOver(total, a + b) == Either(FirstOver(total, a), FirstOver(total + Sum(a), b))
    decreases |a|
  {
    if a == [] {
      assert a + b == b;
    } else {
      FirstOverJoined(total + a[0].bytes, a[1..], b);
      assert (a + b)[1..] == a[1..] + b;
    }
  }

  lemma OneCharge(total: nat, c: Charge)
    ensures FirstOver(total, [c]) == Charged(c.inner, total, c.bytes) && Sum([c]) == c.bytes
  {
    assert [c][1..] == [];
  }

  /** A program's charges are the bytes it emits, no more and no less. */
  lemma {:induction false} ChargesAreBytes(inner: Option<Field>, p: Push)
    requires |Encode(p)| <= MAX_LEN
    ensures Sum(ChargesOf(inner, p)) == |Encode(p)|
    decreases p
  {
    hide Spell, EncodedLen, Sum, PackedVarints, PackedFixed32, LittleEndian, Joined;
    match p
    case Message(f, body) =>
      ChargesInAreBytes(Some(f), body);
      EnclosedSum(inner, f, ChargesIn(Some(f), body), |EncodeAll(body)|);
    case BytesFrame(f, chunks) =>
      ChunkChargesAreBytes(Some(f), chunks, |chunks|);
      assert chunks[..|chunks|] == chunks;
      EnclosedSum(inner, f, ChunkCharges(Some(f), chunks, |chunks|), |Joined(chunks)|);
    case GroupOf(f, body) =>
      ChargesInAreBytes(Some(f), body);
      var tags := Charge(inner, 2 * EncodedLen(TagWord(f, GROUP_CODE)));
      OneCharge(0, tags);
      SumJoined([tags], ChargesIn(Some(f), body));
      TagWidthIgnoresCode(f, GROUP_CODE, END_CODE);
    case PushPackedVarints(_, words) =>
      FewWords(words);
      OneCharge(0, Charge(inner, |Encode(p)|));
    case _ => OneCharge(0, Charge(inner, |Encode(p)|));
  }

  lemma {:induction false} FewWords(words: seq<Word64>)
    ensures |words| <= |PackedVarints(words)|
  {
    hide Spell, EncodedLen;
    if words != [] {
      FewWords(words[..|words| - 1]);
    }
  }

  lemma EnclosedSum(inner: Option<Field>, f: Field, body: seq<Charge>, size: nat)
    ensures Sum(Enclosed(inner, f, body, size)) == EncodedLen(TagWord(f, LEN_CODE)) + Sum(body) + EncodedLen(size)
  {
    hide EncodedLen, Sum;
    var head, prefix := Charge(inner, EncodedLen(TagWord(f, LEN_CODE))), Charge(Some(f), EncodedLen(size));
    OneCharge(0, head);
    OneCharge(0, prefix);
    SumJoined([head], body);
    SumJoined([head] + body, [prefix]);
  }

  lemma {:induction false} ChargesInAreBytes(inner: Option<Field>, ps: seq<Push>)
    requires |EncodeAll(ps)| <= MAX_LEN
    ensures Sum(ChargesIn(inner, ps)) == |EncodeAll(ps)|
    decreases ps
  {
    hide Encode, ChargesOf, Sum;
    if ps == [] {
      NoCharge();
    } else {
      ChargesAreBytes(inner, ps[0]);
      ChargesInAreBytes(inner, ps[1..]);
      SumJoined(ChargesOf(inner, ps[0]), ChargesIn(inner, ps[1..]));
    }
  }

  lemma NoCharge()
    ensures Sum([]) == 0
  {}

  lemma {:induction false} ChunkChargesAreBytes(inner: Option<Field>, chunks: seq<Chunk>, n: nat)
    requires n <= |chunks|
    ensures Sum(ChunkCharges(inner, chunks, n)) == |Joined(chunks[..n])|
  {
    hide Sum;
    if n == 0 {
      NoCharge();
    } else {
      var c := Charge(inner, |chunks[n - 1].bytes|);
      ChunkChargesAreBytes(inner, chunks, n - 1);
      OneCharge(0, c);
      SumJoined(ChunkCharges(inner, chunks, n - 1), [c]);
      assert chunks[..n][..n - 1] == chunks[..n - 1];
    }
  }

  /** The report is the first charge past the cap, quoted under the frame open then. */
  lemma {:induction false} QuotedIsFirstOver(inner: Option<Field>, total: nat, p: Push)
    ensures Quoted(inner, total, p) == FirstOver(total, ChargesOf(inner, p))
    ensures Quoted(inner, total, p).None? ==> Sum(ChargesOf(inner, p)) == |Encode(p)|
    decreases p
  {
    hide Spell, EncodedLen, Sum, FirstOver, PackedVarints, PackedFixed32, LittleEndian, Joined, Charged, Enclosed,
         Framed;
    match p
    case Message(f, body) =>
      var head := EncodedLen(TagWord(f, LEN_CODE));
      QuotedAllIsFirstOver(Some(f), total + head, body);
      FramedIsFirstOver(inner, total, f, ChargesIn(Some(f), body), |EncodeAll(body)|);
    case BytesFrame(f, chunks) =>
      var head := EncodedLen(TagWord(f, LEN_CODE));
      ChunksAreFirstOver(Some(f), total + head, chunks, |chunks|);
      ChunkChargesAreBytes(Some(f), chunks, |chunks|);
      assert chunks[..|chunks|] == chunks;
      FramedIsFirstOver(inner, total, f, ChunkCharges(Some(f), chunks, |chunks|), |Joined(chunks)|);
    case GroupOf(f, body) =>
      var tags := Charge(inner, 2 * EncodedLen(TagWord(f, GROUP_CODE)));
      QuotedAllIsFirstOver(Some(f), total + tags.bytes, body);
      OneCharge(total, tags);
      FirstOverJoined(total, [tags], ChargesIn(Some(f), body));
      SumJoined([tags], ChargesIn(Some(f), body));
      TagWidthIgnoresCode(f, GROUP_CODE, END_CODE);
    case PushPackedVarints(_, words) =>
      var bytes := if |words| > MAX_LEN then |words| else |Encode(p)|;
      OneCharge(total, Charge(inner, bytes));
      TooMany(inner, total, bytes);
    case _ => OneCharge(total, Charge(inner, |Encode(p)|));
  }

  lemma TooMany(inner: Option<Field>, total: nat, bytes: nat)
    ensures Charged(inner, total, bytes).None? <==> total + bytes <= MAX_LEN
  {}

  lemma FramedIsFirstOver(inner: Option<Field>, total: nat, f: Field, body: seq<Charge>, size: nat)
    requires var head := EncodedLen(TagWord(f, LEN_CODE));
             FirstOver(total + head, body).None? ==> Sum(body) == size
    ensures var head := EncodedLen(TagWord(f, LEN_CODE));
            && Framed(inner, total, f, FirstOver(total + head, body), size)
               == FirstOver(total, Enclosed(inner, f, body, size))
            && Sum(Enclosed(inner, f, body, size)) == head + Sum(body) + EncodedLen(size)
            && (FirstOver(total, Enclosed(inner, f, body, size)).None? ==> FirstOver(total + head, body).None?)
  {
    hide EncodedLen, Sum, FirstOver, Charged;
    var head, prefix := Charge(inner, EncodedLen(TagWord(f, LEN_CODE))), Charge(Some(f), EncodedLen(size));
    EnclosedSum(inner, f, body, size);
    OneCharge(total, head);
    OneCharge(total + head.bytes + Sum(body), prefix);
    SumJoined([head], body);
    FirstOverJoined(total, [head], body);
    FirstOverJoined(total, [head] + body, [prefix]);
  }

  lemma {:induction false} QuotedAllIsFirstOver(inner: Option<Field>, total: nat, ps: seq<Push>)
    ensures QuotedAll(inner, total, ps) == FirstOver(total, ChargesIn(inner, ps))
    ensures QuotedAll(inner, total, ps).None? ==> Sum(ChargesIn(inner, ps)) == |EncodeAll(ps)|
    decreases ps
  {
    hide Encode, Quoted, ChargesOf, Sum, FirstOver;
    if ps == [] {
      NoCharge();
      NothingOver(total);
    } else {
      QuotedIsFirstOver(inner, total, ps[0]);
      QuotedAllIsFirstOver(inner, total + |Encode(ps[0])|, ps[1..]);
      FirstOverJoined(total, ChargesOf(inner, ps[0]), ChargesIn(inner, ps[1..]));
      SumJoined(ChargesOf(inner, ps[0]), ChargesIn(inner, ps[1..]));
    }
  }

  lemma NothingOver(total: nat)
    ensures FirstOver(total, []) == None
  {}

  lemma {:induction false} ChunksAreFirstOver(inner: Option<Field>, total: nat, chunks: seq<Chunk>, n: nat)
    requires n <= |chunks|
    ensures QuotedChunks(inner, total, chunks, n) == FirstOver(total, ChunkCharges(inner, chunks, n))
  {
    hide Sum, FirstOver, Charged, Joined;
    if n == 0 {
      NothingOver(total);
    } else {
      var c := Charge(inner, |chunks[n - 1].bytes|);
      ChunksAreFirstOver(inner, total, chunks, n - 1);
      ChunkChargesAreBytes(inner, chunks, n - 1);
      OneCharge(total + |Joined(chunks[..n - 1])|, c);
      FirstOverJoined(total, ChunkCharges(inner, chunks, n - 1), [c]);
    }
  }
}
