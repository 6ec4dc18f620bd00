/** The account-and-replay constructor (src/construct.rs). The reference is
    `Encode`, a recursive encoder over authored programs; the machine is
    `Core`, whose event program replays into the same bytes. */
module Construct {
  import opened Sequences
  import opened Varints
  import opened Wire

  // ─── what a program means ───

  datatype Chunk = Chunk(bytes: seq<Byte>, copied: bool)

  /** The builder's faces. `copied` picks the `_copy` twin of a payload face. */
  datatype Push =
    | PushVarint(field: Field, value: Word64)
    | PushI32(field: Field, bits32: Word32)
    | PushI64(field: Field, bits64: Word64)
    | PushLen(field: Field, payload: seq<Byte>, copied: bool)
    | PushPackedVarints(field: Field, words: seq<Word64>)
    | PushPackedFixed32(field: Field, fixed: seq<Word32>)
    | RawVarint(raw: Word64)
    | RawI32(raw32: Word32)
    | RawI64(raw64: Word64)
    | RawBytes(chunk: Chunk)
    | Message(field: Field, body: seq<Push>)
    | BytesFrame(field: Field, chunks: seq<Chunk>)
    | GroupOf(field: Field, body: seq<Push>)

  /** A varint at its least width. */
  function Minimal(v: nat): (s: seq<Byte>)
    ensures |s| == EncodedLen(v)
  {
    Spell(v, EncodedLen(v))
  }

  function PackedVarints(words: seq<Word64>): seq<Byte> {
    if words == [] then [] else PackedVarints(words[..|words| - 1]) + Minimal(words[|words| - 1])
  }

  function PackedFixed32(fixed: seq<Word32>): seq<Byte> {
    if fixed == [] then [] else PackedFixed32(fixed[..|fixed| - 1]) + LittleEndian(fixed[|fixed| - 1], 4)
  }

  function Joined(chunks: seq<Chunk>): seq<Byte> {
    if chunks == [] then [] else Joined(chunks[..|chunks| - 1]) + chunks[|chunks| - 1].bytes
  }

  function LenRecord(field: Field, payload: seq<Byte>): seq<Byte> {
    Minimal(TagWord(field, LEN_CODE)) + Minimal(|payload|) + payload
  }

  /** The reference encoding: minimal tags and prefixes, lengths of complete
      bodies, groups between their two tags. */
  function Encode(p: Push): seq<Byte>
    decreases p
  {
    match p
    case PushVarint(f, v) => Minimal(TagWord(f, VARINT_CODE)) + Minimal(v)
    case PushI32(f, bits) => Minimal(TagWord(f, I32_CODE)) + LittleEndian(bits, 4)
    case PushI64(f, bits) => Minimal(TagWord(f, I64_CODE)) + LittleEndian(bits, 8)
    case PushLen(f, payload, _) => LenRecord(f, payload)
    case PushPackedVarints(f, words) => LenRecord(f, PackedVarints(words))
    case PushPackedFixed32(f, fixed) => LenRecord(f, PackedFixed32(fixed))
    case RawVarint(v) => Minimal(v)
    case RawI32(bits) => LittleEndian(bits, 4)
    case RawI64(bits) => LittleEndian(bits, 8)
    case RawBytes(chunk) => chunk.bytes
    case Message(f, body) => LenRecord(f, EncodeAll(body))
    case BytesFrame(f, chunks) => LenRecord(f, Joined(chunks))
    case GroupOf(f, body) => Minimal(TagWord(f, GROUP_CODE)) + EncodeAll(body) + Minimal(TagWord(f, END_CODE))
  }

  function EncodeAll(ps: seq<Push>): seq<Byte>
    decreases ps
  {
    if ps == [] then [] else Encode(ps[0]) + EncodeAll(ps[1..])
  }

  // ─── the machine's state ───

  datatype Event = Owned(run: nat) | Borrowed(at: nat) | LenPrefix(body: nat, width: nat)

  datatype Frame = Frame(head: Word32, begin: nat, startTotal: nat)
  {
    predicate IsLen() { head % 8 == LEN_CODE }
  }

  datatype OverCap = OverCap(field: Option<Field>, len: nat)

  datatype State = State(owned: seq<Byte>, borrows: seq<seq<Byte>>, events: seq<Event>,
                         stack: seq<Frame>, total: nat, over: Option<OverCap>)

  const PLACEHOLDER := LenPrefix(0, 1)

  /** Owned bytes consumed by the first `n` events. */
  function Runs(events: seq<Event>, n: nat): nat
    requires n <= |events|
  {
    if n == 0 then 0 else Runs(events, n - 1) + if events[n - 1].Owned? then events[n - 1].run else 0
  }

  /** The bytes one event contributes, the owned cursor standing at `cursor`. */
  function EventBytes(owned: seq<Byte>, borrows: seq<seq<Byte>>, e: Event, cursor: nat): seq<Byte> {
    match e
    case Owned(run) => if cursor + run <= |owned| then owned[cursor..cursor + run] else []
    case Borrowed(at) => if at < |borrows| then borrows[at] else []
    case LenPrefix(body, width) => if width >= 1 then Spell(body, width) else []
  }

  /** What the first `n` events replay to. */
  function Replay(owned: seq<Byte>, borrows: seq<seq<Byte>>, events: seq<Event>, n: nat): seq<Byte>
    requires n <= |events|
  {
    if n == 0 then []
    else Replay(owned, borrows, events, n - 1) + EventBytes(owned, borrows, events[n - 1], Runs(events, n - 1))
  }

  function Out(s: State): seq<Byte> {
    Replay(s.owned, s.borrows, s.events, |s.events|)
  }

  /** Every event names bytes the machine holds, and at least one. */
  predicate LiveEvent(borrows: seq<seq<Byte>>, e: Event) {
    match e
    case Owned(run) => run > 0
    case Borrowed(at) => at < |borrows| && borrows[at] != []
    case LenPrefix(body, width) => body <= MAX_LEN && width >= 1
  }

  predicate Live(owned: seq<Byte>, borrows: seq<seq<Byte>>, events: seq<Event>) {
    && Runs(events, |events|) == |owned|
    && forall i :: 0 <= i < |events| ==> LiveEvent(borrows, events[i])
  }

  function OpenLens(stack: seq<Frame>): nat {
    if stack == [] then 0
    else OpenLens(stack[..|stack| - 1]) + if stack[|stack| - 1].IsLen() then 1 else 0
  }

  /** End-tag bytes the open groups have already been charged for. */
  function OpenEnds(stack: seq<Frame>): nat {
    if stack == [] then 0
    else
      var top := stack[|stack| - 1];
      OpenEnds(stack[..|stack| - 1]) + if top.IsLen() then 0 else EncodedLen(top.head)
  }

  /** An open LEN frame still owns its placeholder slot, right behind the owned
      run that holds its head. */
  predicate SlotHeld(frame: Frame, events: seq<Event>) {
    && 1 <= frame.begin < |events| && events[frame.begin] == PLACEHOLDER
    && events[frame.begin - 1].Owned? && EncodedLen(frame.head) <= events[frame.begin - 1].run
  }

  /** Every open LEN frame's slot, in the order the frames opened. */
  predicate SlotsHeld(stack: seq<Frame>, events: seq<Event>) {
    && (forall i :: 0 <= i < |stack| && stack[i].IsLen() ==> SlotHeld(stack[i], events))
    && (forall i, j :: 0 <= i < j < |stack| && stack[i].IsLen() && stack[j].IsLen() ==> stack[i].begin < stack[j].begin)
  }

  /** The invariant of a healthy program, open frames included: the account is
      the replayed length, less one placeholder byte per open LEN frame, plus
      the prepaid end tags of the open groups. */
  ghost predicate Sound(s: State) {
    && s.over.None?
    && Live(s.owned, s.borrows, s.events)
    && s.total <= MAX_LEN
    && s.total + OpenLens(s.stack) == |Out(s)| + OpenEnds(s.stack)
    && |s.stack| <= s.total
    && (forall i :: 0 <= i < |s.stack| ==> s.stack[i].startTotal <= s.total)
    && SlotsHeld(s.stack, s.events)
  }

  /** Healthy and sound, or broken past the cap. */
  ghost predicate Reachable(s: State) {
    if s.over.None? then Sound(s) else s.over.value.len > MAX_LEN
  }

  // ─── event bounds ───

  lemma {:induction false} RunsMonotone(events: seq<Event>, m: nat, n: nat)
    requires m <= n <= |events|
    ensures Runs(events, m) <= Runs(events, n)
    decreases n - m
  {
    if m < n {
      RunsMonotone(events, m, n - 1);
    }
  }

  lemma {:induction false} EventsWithinReplay(owned: seq<Byte>, borrows: seq<seq<Byte>>, events: seq<Event>, n: nat)
    requires Live(owned, borrows, events) && n <= |events|
    ensures n <= |Replay(owned, borrows, events, n)|
  {
    hide Spell, EncodedLen, Replay, Runs;
    if n > 0 {
      EventsWithinReplay(owned, borrows, events, n - 1);
      RunsMonotone(events, n, |events|);
      RunsStep(events, n);
      ReplayStep(owned, borrows, events, n);
      assert LiveEvent(borrows, events[n - 1]);
    }
  }

  lemma {:induction false} OpenLensWithinStack(stack: seq<Frame>)
    ensures OpenLens(stack) <= |stack|
  {
    if stack != [] {
      OpenLensWithinStack(stack[..|stack| - 1]);
    }
  }

  /** Every mint of an event index fits `u32`: events number at most the
      accounted bytes plus one per open LEN frame, and those are bounded too. */
  lemma EventIndexesFit(s: State)
    requires Sound(s)
    ensures |s.events| <= s.total + OpenLens(s.stack) < 0x1_0000_0000
  {
    EventsWithinReplay(s.owned, s.borrows, s.events, |s.events|);
    OpenLensWithinStack(s.stack);
  }

  // ─── growth ───

  /** Events only extend: the last owned run may lengthen, nothing else moves. */
  predicate Grown(a: seq<Event>, b: seq<Event>) {
    && |a| <= |b|
    && (forall i :: 0 <= i < |a| && (i < |a| - 1 || !a[i].Owned?) ==> b[i] == a[i])
    && (a != [] && a[|a| - 1].Owned? ==> b[|a| - 1].Owned? && a[|a| - 1].run <= b[|a| - 1].run)
  }

  /** `t` is `s` after appending `bytes`, or the refusal that keeps `s` frozen. */
  ghost predicate Wrote(s: State, t: State, bytes: seq<Byte>)
    requires Reachable(s) && Reachable(t)
  {
    && t.stack == s.stack
    && (s.over.Some? ==> t == s)
    && (s.over.None? ==> (t.over.None? <==> s.total + |bytes| <= MAX_LEN))
    && (s.over.None? && t.over.None? ==>
          && t.total == s.total + |bytes|
          && Out(t) == Out(s) + bytes
          && Grown(s.events, t.events) && s.owned <= t.owned && s.borrows <= t.borrows)
  }

  lemma WroteNothing(s: State)
    requires Reachable(s)
    ensures Wrote(s, s, [])
  {
    if s.over.None? {
      assert Out(s) + [] == Out(s);
    }
  }

  lemma GrownBoth(a: seq<Event>, b: seq<Event>, c: seq<Event>)
    requires Grown(a, b) && Grown(b, c)
    ensures Grown(a, c)
  {}

  lemma WroteBoth(s: State, t: State, u: State, a: seq<Byte>, b: seq<Byte>)
    requires Reachable(s) && Reachable(t) && Reachable(u)
    requires Wrote(s, t, a) && Wrote(t, u, b)
    ensures Wrote(s, u, a + b)
  {
    hide Spell, EncodedLen, Out, Sound, Grown;
    if s.over.None? && t.over.None? && u.over.None? {
      GrownBoth(s.events, t.events, u.events);
      Associative(Out(s), a, b);
    }
  }

  // ─── one append ───

  function WithRun(events: seq<Event>, bytes: nat): seq<Event> {
    if events != [] && events[|events| - 1].Owned?
    then events[|events| - 1 := Owned(events[|events| - 1].run + bytes)]
    else events + [Owned(bytes)]
  }

  /** A replay depends on its events and on the bytes they name, nothing more. */
  lemma {:induction false} ReplayAgrees(owned: seq<Byte>, borrows: seq<seq<Byte>>, events: seq<Event>,
                                        owned': seq<Byte>, borrows': seq<seq<Byte>>, events': seq<Event>, n: nat)
    requires Live(owned, borrows, events) && owned <= owned' && borrows <= borrows'
    requires n <= |events| && n <= |events'| && forall i :: 0 <= i < n ==> events'[i] == events[i]
    ensures Runs(events', n) == Runs(events, n) <= |owned|
    ensures Replay(owned', borrows', events', n) == Replay(owned, borrows, events, n)
  {
    hide Spell, EncodedLen, Replay, Runs;
    RunsMonotone(events, n, |events|);
    if n > 0 {
      ReplayAgrees(owned, borrows, events, owned', borrows', events', n - 1);
      RunsStep(events, n);
      RunsStep(events', n);
      ReplayStep(owned, borrows, events, n);
      ReplayStep(owned', borrows', events', n);
      assert LiveEvent(borrows, events[n - 1]);
    } else {
      NothingReplayed(owned, borrows, events);
      NothingReplayed(owned', borrows', events');
    }
  }

  lemma NothingReplayed(owned: seq<Byte>, borrows: seq<seq<Byte>>, events: seq<Event>)
    ensures Runs(events, 0) == 0 && Replay(owned, borrows, events, 0) == []
  {}

  lemma RunsStep(events: seq<Event>, n: nat)
    requires 0 < n <= |events|
    ensures Runs(events, n) == Runs(events, n - 1) + if events[n - 1].Owned? then events[n - 1].run else 0
  {}

  lemma LiveWithRun(owned: seq<Byte>, borrows: seq<seq<Byte>>, events: seq<Event>, bytes: seq<Byte>)
    requires Live(owned, borrows, events) && bytes != []
    ensures Live(owned + bytes, borrows, WithRun(events, |bytes|))
    ensures Grown(events, WithRun(events, |bytes|))
  {
    hide Spell, EncodedLen;
    var events' := WithRun(events, |bytes|);
    var n := |events'| - 1;
    ReplayAgrees(owned, borrows, events, owned + bytes, borrows, events', n);
  }

  lemma ReplayWithRun(owned: seq<Byte>, borrows: seq<seq<Byte>>, events: seq<Event>, bytes: seq<Byte>)
    requires Live(owned, borrows, events)
    ensures Replay(owned + bytes, borrows, WithRun(events, |bytes|), |WithRun(events, |bytes|)|)
         == Replay(owned, borrows, events, |events|) + bytes
  {
    hide Replay, Runs, Live;
    if events != [] && events[|events| - 1].Owned? {
      RunLengthened(owned, borrows, events, bytes);
    } else {
      RunPushed(owned, borrows, events, bytes);
    }
  }

  lemma RunPushed(owned: seq<Byte>, borrows: seq<seq<Byte>>, events: seq<Event>, bytes: seq<Byte>)
    requires Live(owned, borrows, events)
    ensures Replay(owned + bytes, borrows, events + [Owned(|bytes|)], |events| + 1)
            == Replay(owned, borrows, events, |events|) + bytes
  {
    hide Spell, Replay, Runs;
    var events' := events + [Owned(|bytes|)];
    ReplayAgrees(owned, borrows, events, owned + bytes, borrows, events', |events|);
    ReplayStep(owned + bytes, borrows, events', |events| + 1);
  }

  lemma RunLengthened(owned: seq<Byte>, borrows: seq<seq<Byte>>, events: seq<Event>, bytes: seq<Byte>)
    requires Live(owned, borrows, events) && events != [] && events[|events| - 1].Owned?
    ensures var n := |events| - 1;
            var events' := events[n := Owned(events[n].run + |bytes|)];
            Replay(owned + bytes, borrows, events', n + 1) == Replay(owned, borrows, events, |events|) + bytes
  {
    hide Spell, Replay, Runs;
    var n := |events| - 1;
    var events' := events[n := Owned(events[n].run + |bytes|)];
    var c := Runs(events, n);
    ReplayAgrees(owned, borrows, events, owned + bytes, borrows, events', n);
    ReplayStep(owned + bytes, borrows, events', n + 1);
    ReplayStep(owned, borrows, events, n + 1);
    RunsStep(events, n + 1);
    SplitTail(owned, bytes, c, events[n].run);
    Associative(Replay(owned, borrows, events, n), owned[c..c + events[n].run], bytes);
  }

  lemma SplitTail<T>(a: seq<T>, b: seq<T>, c: nat, run: nat)
    requires c + run == |a|
    ensures (a + b)[c..c + run + |b|] == a[c..c + run] + b
  {}

  function Literal(s: State, bytes: seq<Byte>): State {
    s.(owned := s.owned + bytes, events := WithRun(s.events, |bytes|), total := s.total + |bytes|)
  }

  lemma LiteralWrote(s: State, bytes: seq<Byte>)
    requires Sound(s) && bytes != [] && s.total + |bytes| <= MAX_LEN
    ensures Sound(Literal(s, bytes)) && Wrote(s, Literal(s, bytes), bytes)
  {
    hide Spell, EncodedLen, Replay, Runs, Live, SlotsHeld, Grown, OpenLens, OpenEnds, WithRun;
    LiveWithRun(s.owned, s.borrows, s.events, bytes);
    ReplayWithRun(s.owned, s.borrows, s.events, bytes);
    SlotsKept(s.stack, s.events, WithRun(s.events, |bytes|));
  }

  function Registered(s: State, payload: seq<Byte>): State {
    s.(borrows := s.borrows + [payload], events := s.events + [Borrowed(|s.borrows|)], total := s.total + |payload|)
  }

  lemma RegisteredWrote(s: State, payload: seq<Byte>)
    requires Sound(s) && payload != [] && s.total + |payload| <= MAX_LEN
    ensures Sound(Registered(s, payload)) && Wrote(s, Registered(s, payload), payload)
  {
    hide Spell, EncodedLen, Replay, Runs, Live, SlotsHeld, OpenLens, OpenEnds;
    var t := Registered(s, payload);
    BorrowPushed(s.owned, s.borrows, s.events, payload);
    EventPushed(t.owned, t.borrows, s.events, Borrowed(|s.borrows|));
    SlotsKept(s.stack, s.events, t.events);
  }

  lemma BorrowPushed(owned: seq<Byte>, borrows: seq<seq<Byte>>, events: seq<Event>, payload: seq<Byte>)
    requires Live(owned, borrows, events)
    ensures Live(owned, borrows + [payload], events)
    ensures Replay(owned, borrows + [payload], events, |events|) == Replay(owned, borrows, events, |events|)
  {
    hide Spell, EncodedLen, Replay, Runs;
    ReplayAgrees(owned, borrows, events, owned, borrows + [payload], events, |events|);
  }

  // ─── frames ───

  /** After the charge of a LEN head: head bytes, placeholder, open frame. */
  function Opened(s: State, head: Word32): State {
    var h := Literal(s, Minimal(head));
    h.(events := h.events + [PLACEHOLDER], stack := s.stack + [Frame(head, |h.events|, h.total)])
  }

  lemma {:induction false} PlaceholderIsOneByte()
    ensures EncodedLen(0) == 1 && Spell(0, 1) == [0]
  {}

  lemma OpenedSound(s: State, head: Word32)
    requires Sound(s) && head % 8 == LEN_CODE && s.total + EncodedLen(head) <= MAX_LEN
    ensures Sound(Opened(s, head)) && Out(Opened(s, head)) == Out(s) + Minimal(head) + [0]
  {
    hide Spell, EncodedLen, Replay, Runs, Live, SlotsHeld, SlotHeld, OpenLens, OpenEnds, Grown;
    var h := Literal(s, Minimal(head));
    var t := Opened(s, head);
    var frame := Frame(head, |h.events|, h.total);
    PlaceholderIsOneByte();
    LiteralWrote(s, Minimal(head));
    EventPushed(h.owned, h.borrows, h.events, PLACEHOLDER);
    StackPushed(s.stack, frame);
    SlotPushed(s.stack, h.events, frame);
  }

  lemma EventPushed(owned: seq<Byte>, borrows: seq<seq<Byte>>, events: seq<Event>, e: Event)
    requires Live(owned, borrows, events) && LiveEvent(borrows, e) && !e.Owned?
    ensures Live(owned, borrows, events + [e])
    ensures Replay(owned, borrows, events + [e], |events + [e]|)
         == Replay(owned, borrows, events, |events|) + EventBytes(owned, borrows, e, |owned|)
  {
    hide Spell, EncodedLen, Replay, Runs;
    ReplayAgrees(owned, borrows, events, owned, borrows, events + [e], |events|);
    ReplayStep(owned, borrows, events + [e], |events| + 1);
    RunsStep(events + [e], |events| + 1);
  }

  lemma SlotPushed(stack: seq<Frame>, events: seq<Event>, frame: Frame)
    requires SlotsHeld(stack, events) && frame.begin == |events| > 0
    requires events[|events| - 1].Owned? && EncodedLen(frame.head) <= events[|events| - 1].run
    ensures SlotsHeld(stack + [frame], events + [PLACEHOLDER])
  {
    hide EncodedLen;
    forall i | 0 <= i < |stack + [frame]| && (stack + [frame])[i].IsLen()
      ensures SlotHeld((stack + [frame])[i], events + [PLACEHOLDER])
    {
      assert i < |stack| ==> SlotHeld(stack[i], events);
    }
  }

  lemma SlotsKept(stack: seq<Frame>, events: seq<Event>, events': seq<Event>)
    requires SlotsHeld(stack, events) && Grown(events, events')
    ensures SlotsHeld(stack, events')
  {
    hide EncodedLen;
    forall i | 0 <= i < |stack| && stack[i].IsLen() ensures SlotHeld(stack[i], events') {
      assert SlotHeld(stack[i], events);
    }
  }

  lemma StackPushed(stack: seq<Frame>, frame: Frame)
    ensures OpenLens(stack + [frame]) == OpenLens(stack) + if frame.IsLen() then 1 else 0
    ensures OpenEnds(stack + [frame]) == OpenEnds(stack) + if frame.IsLen() then 0 else EncodedLen(frame.head)
  {
    assert (stack + [frame])[..|stack|] == stack;
  }

  /** After the close patch of the innermost LEN frame. */
  function Closed(s: State): State
    requires s.stack != [] && s.stack[|s.stack| - 1].begin < |s.events| && s.stack[|s.stack| - 1].startTotal <= s.total
  {
    var top := s.stack[|s.stack| - 1];
    var body := s.total - top.startTotal;
    s.(events := s.events[top.begin := LenPrefix(body, EncodedLen(body))],
       stack := s.stack[..|s.stack| - 1], total := s.total + EncodedLen(body))
  }

  lemma {:induction false} RunsPatched(events: seq<Event>, k: nat, e: Event, n: nat)
    requires k < |events| && n <= |events| && !events[k].Owned? && !e.Owned?
    ensures Runs(events[k := e], n) == Runs(events, n)
  {
    if n > 0 {
      RunsPatched(events, k, e, n - 1);
    }
  }

  lemma LivePatched(owned: seq<Byte>, borrows: seq<seq<Byte>>, events: seq<Event>, k: nat, e: Event)
    requires Live(owned, borrows, events) && k < |events| && events[k] == PLACEHOLDER
    requires e.LenPrefix? && LiveEvent(borrows, e)
    ensures Live(owned, borrows, events[k := e])
  {
    hide Spell, EncodedLen;
    RunsPatched(events, k, e, |events|);
  }

  lemma ReplayStep(owned: seq<Byte>, borrows: seq<seq<Byte>>, events: seq<Event>, n: nat)
    requires 0 < n <= |events|
    ensures Replay(owned, borrows, events, n)
         == Replay(owned, borrows, events, n - 1) + EventBytes(owned, borrows, events[n - 1], Runs(events, n - 1))
  {}

  /** Patching one slot changes that slot's bytes and nothing around them. */
  lemma {:induction false} ReplayPatched(owned: seq<Byte>, borrows: seq<seq<Byte>>, events: seq<Event>, k: nat,
                                         e: Event, n: nat)
    requires k < n <= |events| && events[k] == PLACEHOLDER && e.LenPrefix? && e.width >= 1
    ensures |Replay(owned, borrows, events, k)| + 1 <= |Replay(owned, borrows, events, n)|
    ensures Replay(owned, borrows, events[k := e], n)
         == Replay(owned, borrows, events, k) + Spell(e.body, e.width)
            + Replay(owned, borrows, events, n)[|Replay(owned, borrows, events, k)| + 1..]
  {
    hide Replay, Runs, Spell;
    ReplayStep(owned, borrows, events, n);
    ReplayStep(owned, borrows, events[k := e], n);
    RunsPatched(events, k, e, n - 1);
    if k == n - 1 {
      PlaceholderIsOneByte();
      ReplayUnpatched(owned, borrows, events, k, e, k);
    } else {
      ReplayPatched(owned, borrows, events, k, e, n - 1);
      PatchTail(Replay(owned, borrows, events, k), Spell(e.body, e.width), Replay(owned, borrows, events, n - 1),
                EventBytes(owned, borrows, events[n - 1], Runs(events, n - 1)));
    }
  }

  lemma {:induction false} ReplayUnpatched(owned: seq<Byte>, borrows: seq<seq<Byte>>, events: seq<Event>, k: nat,
                                           e: Event, n: nat)
    requires n <= k < |events|
    ensures Runs(events[k := e], n) == Runs(events, n)
    ensures Replay(owned, borrows, events[k := e], n) == Replay(owned, borrows, events, n)
  {
    hide Spell, EncodedLen;
    if n > 0 {
      ReplayUnpatched(owned, borrows, events, k, e, n - 1);
    }
  }

  lemma PatchTail(head: seq<Byte>, word: seq<Byte>, mid: seq<Byte>, tail: seq<Byte>)
    requires |head| + 1 <= |mid|
    ensures head + word + mid[|head| + 1..] + tail == head + word + (mid + tail)[|head| + 1..]
  {}

  lemma SlotsHeldClosed(stack: seq<Frame>, events: seq<Event>, e: Event)
    requires stack != [] && stack[|stack| - 1].IsLen() && SlotsHeld(stack, events)
    ensures SlotsHeld(stack[..|stack| - 1], events[stack[|stack| - 1].begin := e])
  {}

  lemma TopSlotHeld(stack: seq<Frame>, events: seq<Event>)
    requires stack != [] && stack[|stack| - 1].IsLen() && SlotsHeld(stack, events)
    ensures var begin := stack[|stack| - 1].begin; begin < |events| && events[begin] == PLACEHOLDER
  {}

  /** Closing an innermost LEN frame keeps the invariant. */
  lemma ClosedSound(s: State)
    requires Sound(s) && s.stack != [] && s.stack[|s.stack| - 1].IsLen()
    requires Closed(s).total <= MAX_LEN
    ensures Sound(Closed(s))
    ensures var top := s.stack[|s.stack| - 1];
            && var head := Replay(s.owned, s.borrows, s.events, top.begin);
            && |head| + 1 <= |Out(s)|
            && Out(Closed(s)) == head + Minimal(s.total - top.startTotal) + Out(s)[|head| + 1..]
  {
    hide Spell, EncodedLen, Replay, Runs, Live, SlotsHeld;
    var top := s.stack[|s.stack| - 1];
    var body := s.total - top.startTotal;
    var e := LenPrefix(body, EncodedLen(body));
    TopSlotHeld(s.stack, s.events);
    LivePatched(s.owned, s.borrows, s.events, top.begin, e);
    ReplayPatched(s.owned, s.borrows, s.events, top.begin, e, |s.events|);
    SlotsHeldClosed(s.stack, s.events, e);
  }

  // ─── the refusal ───

  /** The break report's field: the innermost open frame's, none at top level. */
  function InnermostField(stack: seq<Frame>): Option<Field> {
    if stack == [] || stack[|stack| - 1].head / 8 == 0 then None else Some(stack[|stack| - 1].head / 8)
  }

  function Poisoned(s: State, charge: nat): State {
    s.(over := Some(OverCap(InnermostField(s.stack), s.total + charge)))
  }

  // ─── the two halves of each frame, poison included ───

  function BegunLen(s: State, head: Word32): State {
    if s.over.Some? then s.(stack := s.stack + [Frame(head, 0, s.total)])
    else if s.total + EncodedLen(head) <= MAX_LEN then Opened(s, head)
    else Poisoned(s, EncodedLen(head)).(stack := s.stack + [Frame(head, 0, s.total)])
  }

  /** A prefix that crosses the cap poisons with its frame still innermost. */
  function EndedLen(s: State): State
    requires s.stack != []
    requires s.over.None? ==>
               s.stack[|s.stack| - 1].begin < |s.events| && s.stack[|s.stack| - 1].startTotal <= s.total
  {
    var popped := s.stack[..|s.stack| - 1];
    if s.over.Some? then s.(stack := popped)
    else
      var t := Closed(s);
      if t.total <= MAX_LEN then t
      else Poisoned(s, t.total - s.total).(events := t.events, stack := popped)
  }

  lemma BegunLenReachable(s: State, head: Word32)
    requires Reachable(s) && head % 8 == LEN_CODE
    ensures Reachable(BegunLen(s, head))
  {
    if s.over.None? && s.total + EncodedLen(head) <= MAX_LEN {
      OpenedSound(s, head);
    }
  }

  lemma EndedLenReachable(s: State)
    requires Reachable(s) && s.stack != [] && s.stack[|s.stack| - 1].IsLen()
    ensures Reachable(EndedLen(s))
  {
    if s.over.None? && Closed(s).total <= MAX_LEN {
      ClosedSound(s);
    }
  }

  /** A LEN frame writes its head, its minimal prefix and its body, and is
      refused exactly when those together cross the cap. */
  lemma LenFrameWrote(s: State, t: State, head: Word32, body: seq<Byte>)
    requires Reachable(s) && head % 8 == LEN_CODE
    requires Reachable(BegunLen(s, head)) && Reachable(t) && Wrote(BegunLen(s, head), t, body)
    requires Reachable(EndedLen(t))
    ensures Wrote(s, EndedLen(t), Minimal(head) + Minimal(|body|) + body)
  {
    hide Spell, EncodedLen, Replay, Runs;
    var u := BegunLen(s, head);
    var v := EndedLen(t);
    assert v.stack == s.stack;
    if s.over.None? && v.over.None? {
      LenFrameOut(s, t, head, body);
    }
  }

  lemma LenFrameOut(s: State, t: State, head: Word32, body: seq<Byte>)
    requires Sound(s) && head % 8 == LEN_CODE && s.total + EncodedLen(head) <= MAX_LEN
    requires Sound(Opened(s, head)) && Sound(t) && Wrote(Opened(s, head), t, body)
    requires Closed(t).total <= MAX_LEN
    ensures Out(Closed(t)) == Out(s) + (Minimal(head) + Minimal(|body|) + body)
    ensures Grown(s.events, Closed(t).events) && s.owned <= Closed(t).owned && s.borrows <= Closed(t).borrows
  {
    hide Spell, EncodedLen, Replay, Runs;
    var u := Opened(s, head);
    var h := Literal(s, Minimal(head));
    var begin := |h.events|;
    var mark := Out(s) + Minimal(head);
    OpenedSound(s, head);
    LiteralWrote(s, Minimal(head));
    ReplayAgrees(h.owned, h.borrows, h.events, t.owned, t.borrows, t.events, begin);
    assert Replay(t.owned, t.borrows, t.events, begin) == mark;
    ClosedSound(t);
    assert Out(t) == mark + [0] + body;
    assert (mark + [0] + body)[|mark| + 1..] == body;
    assert Out(Closed(t)) == mark + Minimal(|body|) + body;
    Associative(Out(s), Minimal(head), Minimal(|body|));
    Associative(Out(s), Minimal(head) + Minimal(|body|), body);
  }

  /** A group's open charges both tags; only the open tag's bytes land. */
  function OpenedGroup(s: State, open: Word32): State {
    var h := Literal(s, Minimal(open));
    var total := s.total + 2 * EncodedLen(open);
    h.(total := total, stack := s.stack + [Frame(open, 0, total)])
  }

  function BegunGroup(s: State, open: Word32): State {
    if s.over.Some? then s.(stack := s.stack + [Frame(open, 0, s.total)])
    else if s.total + 2 * EncodedLen(open) <= MAX_LEN then OpenedGroup(s, open)
    else Poisoned(s, 2 * EncodedLen(open)).(stack := s.stack + [Frame(open, 0, s.total)])
  }

  function EndedGroup(s: State, end: Word32): State
    requires s.stack != []
  {
    var popped := s.(stack := s.stack[..|s.stack| - 1]);
    if s.over.Some? then popped else Literal(popped, Minimal(end)).(total := s.total)
  }

  lemma SlotsWithGroup(stack: seq<Frame>, events: seq<Event>, frame: Frame)
    requires !frame.IsLen()
    ensures SlotsHeld(stack + [frame], events) <==> SlotsHeld(stack, events)
  {
    hide SlotHeld;
    assert forall i :: 0 <= i < |stack| ==> (stack + [frame])[i] == stack[i];
  }

  lemma BegunGroupReachable(s: State, open: Word32)
    requires Reachable(s) && open % 8 == GROUP_CODE
    ensures Reachable(BegunGroup(s, open))
    ensures s.over.None? && s.total + 2 * EncodedLen(open) <= MAX_LEN ==>
              var t := OpenedGroup(s, open);
              Out(t) == Out(s) + Minimal(open) && Grown(s.events, t.events) && s.owned <= t.owned
                && s.borrows <= t.borrows
  {
    hide Spell, EncodedLen, Replay, Runs, Live, SlotsHeld, Grown, OpenLens, OpenEnds, WithRun;
    if s.over.None? && s.total + 2 * EncodedLen(open) <= MAX_LEN {
      SlotsWithGroup(s.stack, WithRun(s.events, |Minimal(open)|), Frame(open, 0, s.total + 2 * EncodedLen(open)));
      LiteralWrote(s, Minimal(open));
      StackPushed(s.stack, Frame(open, 0, s.total + 2 * EncodedLen(open)));
    }
  }

  lemma EndedGroupReachable(s: State, end: Word32)
    requires Reachable(s) && s.stack != [] && !s.stack[|s.stack| - 1].IsLen()
    requires EncodedLen(end) == EncodedLen(s.stack[|s.stack| - 1].head)
    ensures Reachable(EndedGroup(s, end))
    ensures s.over.None? ==>
              var t := EndedGroup(s, end);
              Out(t) == Out(s) + Minimal(end) && Grown(s.events, t.events) && s.owned <= t.owned
                && s.borrows <= t.borrows
  {
    hide Spell, EncodedLen, Replay, Runs, Live, SlotsHeld, Grown, WithRun;
    if s.over.None? {
      var rest := s.stack[..|s.stack| - 1];
      assert s.stack == rest + [s.stack[|s.stack| - 1]];
      LiveWithRun(s.owned, s.borrows, s.events, Minimal(end));
      ReplayWithRun(s.owned, s.borrows, s.events, Minimal(end));
      SlotsWithGroup(rest, s.events, s.stack[|s.stack| - 1]);
      SlotsKept(rest, s.events, WithRun(s.events, |Minimal(end)|));
    }
  }

  /** A group frame writes both tags around its body, and is refused exactly
      when those together cross the cap. */
  lemma GroupFrameWrote(s: State, t: State, open: Word32, end: Word32, body: seq<Byte>)
    requires Reachable(s) && open % 8 == GROUP_CODE && EncodedLen(end) == EncodedLen(open)
    requires Reachable(BegunGroup(s, open)) && Reachable(t) && Wrote(BegunGroup(s, open), t, body)
    requires Reachable(EndedGroup(t, end))
    ensures Wrote(s, EndedGroup(t, end), Minimal(open) + body + Minimal(end))
  {
    hide Spell, EncodedLen, Out, Sound, Grown, WithRun;
    var u := BegunGroup(s, open);
    var v := EndedGroup(t, end);
    assert v.stack == s.stack;
    BegunGroupReachable(s, open);
    EndedGroupReachable(t, end);
    if s.over.None? && v.over.None? {
      GrownBoth(s.events, u.events, t.events);
      GrownBoth(s.events, t.events, v.events);
      Associative(Out(s), Minimal(open), body);
      Associative(Out(s), Minimal(open) + body, Minimal(end));
    }
  }
}
