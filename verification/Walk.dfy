/** The walk over the bytes, one loop driven by the heap matcher, and the whole
    in-place job (src/inplace/grouped.rs). */
module Walk {
  import opened Varints
  import opened Wire
  import opened Scanning
  import opened Writes
  import opened Paths
  import opened InPlace
  import opened Judgment
  import opened Machine
  import opened Lanes
  import opened EqualWidth
  import opened Acceptance
  import opened Tally
  import M = Matcher
  import Layers

  /** One turn of the loop. */
  datatype Turn = Go(st: State) | Halt(flow: Flow)

  /** The matcher and the state stand at one place, pairs in order, every lane
      within its capacity. */
  ghost predicate Standing(m: M.HeapMatcher, rules: Rules, limit: nat, st: State)
    reads m, m.gaps
  {
    && m.Valid() && m.prog == ProgramOf(rules) && Sound(limit, |m.trail|, st) && Keyed(st)
    && Layers.Admitted(ProgramOf(rules)) && Laned(rules, limit, st)
  }

  /** Routing, by the matcher's table and by language. */
  lemma RoutesByLanguage(rules: Rules, trail: Word, field: Field)
    requires Layers.Admitted(ProgramOf(rules))
    ensures Routes(rules, trail + [field]) <==> Layers.Continues(ProgramOf(rules), trail + [field])
  {
    hide Layers.Continues, Layers.Probed, Layers.LayerAt;
    assert (trail + [field])[..|trail|] == trail;
    Layers.StagingIsContinuation(ProgramOf(rules), trail, field);
  }

  /** Scalars ask for targets alone; container heads ask to be routed too. */
  method Ask(m: M.HeapMatcher, rules: Rules, entry: Entry) returns (hits: M.Hits, routed: bool)
    requires m.Valid() && m.prog == ProgramOf(rules) && !entry.Exit?
    modifies m`staged, m`probed
    ensures m.Valid() && Layers.Admitted(ProgramOf(rules)) && hits == Verdict(rules, m.trail + [entry.Number()])
    ensures (entry.Enter? || entry.item.Len?) && !hits.Conflict? ==>
              m.probed == Some(entry.Number()) && (routed <==> Routes(rules, m.trail + [entry.Number()]))
  {
    hide M.HeapMatcher.Valid, Verdict, M.HitsAre, Layers.Continues, Routes;
    MatchersProgram(m);
    RoutesByLanguage(rules, m.trail, entry.Number());
    if entry.Whole? && !entry.item.Len? {
      hits := m.ProbeTarget(entry.Number());
      routed := false;
    } else {
      hits, routed := m.Probe(entry.Number());
    }
    VerdictIsTheMatchers(rules, m.trail, entry.Number(), hits);
  }

  lemma MatchersProgram(m: M.HeapMatcher)
    requires m.Valid()
    ensures Layers.Admitted(m.prog)
  {}

  /** Read past a record. */
  lemma AdvancedStands(limit: nat, depth: nat, st: State, rest: seq<Byte>, writes: seq<Planned>, receipt: Receipt)
    requires Sound(limit, depth, st) && Keyed(st) && |rest| < |st.Top().Rest()|
    ensures var next := Advanced(limit, depth, st, rest).Noted(writes, receipt);
            Sound(limit, depth, next) && Keyed(next) && Left(next.layers) < Left(st.layers)
  {
    hide Left, Depths;
    PairsKept(st, Advanced(limit, depth, st, rest).Noted(writes, receipt));
  }

  /** What a turn owes: the job's judgment as it was, and less left to do. */
  ghost predicate Turned(m: M.HeapMatcher, minimal: bool, rules: Rules, limit: nat, was: Flow, left: nat, turn: Turn)
    requires Layers.Admitted(ProgramOf(rules))
    reads m, m.gaps
  {
    match turn
    case Halt(flow) => flow == was
    case Go(st) =>
      && Standing(m, rules, limit, st) && Left(st.layers) < left
      && Remaining(minimal, rules, limit, m.trail, st) == was
  }

  /** An exhausted window. */
  method LayerTurn(m: M.HeapMatcher, minimal: bool, rules: Rules, limit: nat, st: State) returns (turn: Turn)
    requires Standing(m, rules, limit, st) && Layers.Admitted(ProgramOf(rules)) && st.Top().pos == |st.Top().data|
    modifies m, m.gaps
    ensures Turned(m, minimal, rules, limit, Remaining(minimal, rules, limit, old(m.trail), st), Left(st.layers), turn)
  {
    hide M.HeapMatcher.Valid, Laned, Remaining, Layers.Admitted, ProgramOf, Left, Depths;
    LayerEnds(minimal, rules, limit, m.trail, st);
    if st.Top().opens != [] {
      return Halt(Stopped(Fault(st.Top().At(), Wire(Grouping))));
    }
    if |st.layers| == 1 {
      return Halt(Flowed(st.writes, st.receipt, 0, []));
    }
    PairsPopped(limit, |m.trail|, st);
    PoppedLaned(rules, limit, |m.trail|, st);
    turn := Go(Popped(limit, |m.trail|, st));
    m.Exit();
  }

  /** An end tag: the matcher leaves a group it entered, and the group's own
      judgment, if one was pending, is told now. */
  method EndTurn(m: M.HeapMatcher, minimal: bool, rules: Rules, limit: nat, st: State, entry: Entry)
    returns (turn: Turn)
    requires Standing(m, rules, limit, st) && Layers.Admitted(ProgramOf(rules)) && st.Top().Rest() != []
    requires Next(minimal, limit, st) == Got(entry) && entry.Exit?
    modifies m, m.gaps
    ensures Turned(m, minimal, rules, limit, Remaining(minimal, rules, limit, old(m.trail), st), Left(st.layers), turn)
  {
    hide M.HeapMatcher.Valid, Laned, Remaining, Layers.Admitted, ProgramOf, Left, Depths, Close, CloseSkipped, Next;
    GroupEnds(minimal, rules, limit, m.trail, st, entry);
    if st.suppress > 0 {
      var closed := CloseSkipped(minimal, limit, |m.trail|, st, entry.rest);
      SkippedStands(minimal, limit, |m.trail|, st, entry.rest);
      SkipClosedLaned(minimal, rules, limit, |m.trail|, st, entry.rest);
      turn := if closed.Refused? then Halt(Stopped(closed.fault)) else Go(closed.value);
      return;
    }
    var closed := Close(minimal, limit, |m.trail|, st, entry.width, entry.rest);
    if closed.Refused? {
      return Halt(Stopped(closed.fault));
    }
    PairsClosed(minimal, limit, |m.trail|, st, entry.width, entry.rest);
    ClosedLaned(minimal, rules, limit, |m.trail|, st, entry.width, entry.rest);
    m.Exit();
    turn := Go(closed.value);
  }

  lemma SkippedStands(minimal: bool, limit: nat, depth: nat, st: State, rest: seq<Byte>)
    requires Sound(limit, depth, st) && st.suppress > 0 && |rest| < |st.Top().Rest()| && Keyed(st)
    ensures CloseSkipped(minimal, limit, depth, st, rest).Allowed?
            ==> Keyed(CloseSkipped(minimal, limit, depth, st, rest).value)
  {
    hide ClaimExtent, Left, Depths;
    if CloseSkipped(minimal, limit, depth, st, rest).Allowed? {
      PairsKept(st, CloseSkipped(minimal, limit, depth, st, rest).value);
    }
  }

  /** A head inside a skipped extent: no rule fires, depth is spent alike. */
  method SkipTurn(m: M.HeapMatcher, minimal: bool, rules: Rules, limit: nat, st: State, entry: Entry)
    returns (turn: Turn)
    requires Standing(m, rules, limit, st) && Layers.Admitted(ProgramOf(rules)) && st.Top().Rest() != []
             && st.suppress > 0
    requires Next(minimal, limit, st) == Got(entry) && !entry.Exit? && |entry.rest| < |st.Top().Rest()|
    ensures Turned(m, minimal, rules, limit, Remaining(minimal, rules, limit, m.trail, st), Left(st.layers), turn)
  {
    hide M.HeapMatcher.Valid, Laned, Remaining, Layers.Admitted, ProgramOf, Left, Depths, Next;
    if entry.Whole? {
      SkipTaken(minimal, rules, limit, m.trail, st, entry);
      AdvancedStands(limit, |m.trail|, st, entry.rest, [], NOTHING_DONE);
      AdvancedLaned(rules, limit, |m.trail|, st, entry.rest, [], NOTHING_DONE);
      var next := Advanced(limit, |m.trail|, st, entry.rest);
      assert next.Noted([], NOTHING_DONE) == next;
      return Go(next);
    }
    SkipDeeper(minimal, rules, limit, m.trail, st, entry);
    if st.Top().groupDepth + st.suppress == st.Top().remaining {
      return Halt(Stopped(Fault(st.Top().At(), Wire(TooDeep))));
    }
    SkippingStands(limit, |m.trail|, st, entry.field, entry.rest, st.owner.value);
    SkippingLaned(rules, limit, |m.trail|, st, entry.field, entry.rest, st.owner.value);
    turn := Go(Skipping(limit, |m.trail|, st, entry.field, entry.rest, st.owner.value));
  }

  lemma SkippingStands(limit: nat, depth: nat, st: State, field: Field, rest: seq<Byte>, owner: Owner)
    requires Sound(limit, depth, st) && Keyed(st) && |rest| < |st.Top().Rest()| && |st.Top().opens| < st.Top().remaining
    requires (owner.action.ReplaceRecord? || owner.action.Tombstone?) && st.Top().base <= owner.head <= st.Top().At()
    ensures Keyed(Skipping(limit, depth, st, field, rest, owner))
  {
    hide Left, Depths;
    PairsKept(st, Skipping(limit, depth, st, field, rest, owner));
  }

  /** A group the matcher scopes: its body is walked whatever the routing. */
  method GroupTurn(m: M.HeapMatcher, minimal: bool, rules: Rules, limit: nat, st: State, entry: Entry)
    returns (turn: Turn)
    requires Asked(m, minimal, rules, limit, st, entry) && Layers.Admitted(ProgramOf(rules))
    requires entry.Enter? && ClaimAt(rules, m.trail + [entry.field]).Free?
    modifies m, m.gaps
    ensures Turned(m, minimal, rules, limit, Remaining(minimal, rules, limit, old(m.trail), st), Left(st.layers), turn)
  {
    hide M.HeapMatcher.Valid, Laned, Remaining, Layers.Admitted, ProgramOf, ClaimAt, Left, Depths, Next, ItemBytes;
    GroupTaken(minimal, rules, limit, m.trail, st, entry);
    if st.Top().groupDepth == st.Top().remaining {
      return Halt(Stopped(Fault(st.Top().At(), Wire(TooDeep))));
    }
    var next := Entered(limit, |m.trail|, st, entry.field, entry.rest);
    EnteredStands(limit, |m.trail|, st, entry.field, entry.rest, None);
    EnteredLaned(rules, limit, |m.trail|, st, entry.field, entry.rest);
    m.CommitDescent();
    turn := Go(next);
  }

  /** Head probed, the matcher ready to descend on it. */
  ghost predicate Asked(m: M.HeapMatcher, minimal: bool, rules: Rules, limit: nat, st: State, entry: Entry)
    reads m, m.gaps
  {
    && Standing(m, rules, limit, st) && st.suppress == 0 && st.Top().Rest() != []
    && Next(minimal, limit, st) == Got(entry) && entry.Delivered(|st.Top().Rest()|, limit - |st.Top().opens|)
    && (entry.Enter? || entry.item.Len? ==> m.probed == Some(entry.Number()))
  }

  lemma EnteredStands(limit: nat, depth: nat, st: State, field: Field, rest: seq<Byte>, pair: Option<Pair>)
    requires Sound(limit, depth, st) && st.suppress == 0 && Keyed(st) && |rest| < |st.Top().Rest()|
             && st.Top().groupDepth < st.Top().remaining
    requires pair.Some? ==> pair.value.layer == |st.layers| && pair.value.depth == st.Top().groupDepth + 1
    ensures var next := Entered(limit, depth, st, field, rest);
            Keyed(if pair.None? then next else next.(pending := st.pending + [pair.value]))
  {
    hide Left, Depths;
    var next := Entered(limit, depth, st, field, rest);
    if pair.None? {
      PairsKept(st, next);
    } else {
      PairPushed(st, next.(pending := st.pending + [pair.value]), pair.value);
    }
  }

  /** A renumbered group: its start judged, its write held back, its body walked. */
  method PairTurn(m: M.HeapMatcher, minimal: bool, rules: Rules, limit: nat, st: State, entry: Entry,
                  rule: Layers.U16, field: Field)
    returns (turn: Turn)
    requires Asked(m, minimal, rules, limit, st, entry) && Layers.Admitted(ProgramOf(rules))
    requires entry.Enter? && ClaimAt(rules, m.trail + [entry.field]) == By(rule, Renumber(field))
    modifies m, m.gaps
    ensures Turned(m, minimal, rules, limit, Remaining(minimal, rules, limit, old(m.trail), st), Left(st.layers), turn)
  {
    hide M.HeapMatcher.Valid, Laned, Remaining, Layers.Admitted, ProgramOf, ClaimAt, Left, Depths, Next, ItemBytes,
         EncodedLen;
    GroupRenumbered(minimal, rules, limit, m.trail, st, entry, rule, field);
    if st.Top().groupDepth == st.Top().remaining {
      return Halt(Stopped(Fault(st.Top().At(), Wire(TooDeep))));
    }
    var need := EncodedLen(TagWord(field, GROUP_CODE));
    if !WidthFits(minimal, need, entry.width) {
      return Halt(Stopped(Fault(st.Top().At(), BadTagWidth(rule, need, entry.width))));
    }
    var pair := PairOf(st, entry, rule, field);
    EnteredStands(limit, |m.trail|, st, entry.field, entry.rest, Some(pair));
    PairLaned(rules, limit, m.trail, st, entry, rule, field);
    var next := PairEntered(limit, |m.trail|, st, entry, rule, field);
    m.CommitDescent();
    turn := Go(next);
  }

  /** A group its rule overwrites whole, or one its rule cannot fit. */
  method OwnerTurn(m: M.HeapMatcher, minimal: bool, rules: Rules, limit: nat, st: State, entry: Entry,
                   rule: Layers.U16, action: Action)
    returns (turn: Turn)
    requires Asked(m, minimal, rules, limit, st, entry) && Layers.Admitted(ProgramOf(rules))
    requires entry.Enter? && ClaimAt(rules, m.trail + [entry.field]) == By(rule, action) && !action.Renumber?
    ensures Turned(m, minimal, rules, limit, Remaining(minimal, rules, limit, m.trail, st), Left(st.layers), turn)
  {
    hide M.HeapMatcher.Valid, Laned, Remaining, Layers.Admitted, ProgramOf, ClaimAt, Left, Depths, Next, FlowEntry,
         FlowRenumber, FlowInside;
    if !action.ReplaceRecord? && !action.Tombstone? {
      var top := st.Top();
      HeadTaken(minimal, rules, limit, m.trail, st, entry);
      EntryIs(minimal, rules, limit, m.trail, top.remaining - top.groupDepth, limit - |top.opens|, entry,
              |top.Rest()|, top.At());
      return Halt(Stopped(Fault(top.At(), KindMismatch(rule))));
    }
    OwnerTaken(minimal, rules, limit, m.trail, st, entry, rule, action);
    if st.Top().groupDepth == st.Top().remaining {
      return Halt(Stopped(Fault(st.Top().At(), Wire(TooDeep))));
    }
    SkippingStands(limit, |m.trail|, st, entry.field, entry.rest, OwnerOf(st, rule, action));
    SkippingLaned(rules, limit, |m.trail|, st, entry.field, entry.rest, OwnerOf(st, rule, action));
    turn := Go(Skipping(limit, |m.trail|, st, entry.field, entry.rest, OwnerOf(st, rule, action)));
  }

  /** A LEN record no rule owns: its tag's write, then its payload if routed. */
  method PayloadTurn(m: M.HeapMatcher, minimal: bool, rules: Rules, limit: nat, st: State, entry: Entry, routed: bool,
                     writes: seq<Planned>, receipt: Receipt) returns (turn: Turn)
    requires Asked(m, minimal, rules, limit, st, entry) && Layers.Admitted(ProgramOf(rules))
    requires entry.Whole? && entry.item.Len? && (routed <==> Routes(rules, m.trail + [entry.item.field]))
    requires TagFlow(minimal, ClaimAt(rules, m.trail + [entry.item.field]), entry.item, st.Top().At(), writes, receipt)
    modifies m, m.gaps
    ensures Turned(m, minimal, rules, limit, Remaining(minimal, rules, limit, old(m.trail), st), Left(st.layers), turn)
  {
    hide M.HeapMatcher.Valid, Laned, Remaining, Layers.Admitted, ProgramOf, ClaimAt, Left, Depths, Next, Routes,
         TagFlow, ItemBytes;
    if !routed {
      UnroutedTaken(minimal, rules, limit, m.trail, st, entry, writes, receipt);
      AdvancedStands(limit, |m.trail|, st, entry.rest, writes, receipt);
      AdvancedLaned(rules, limit, |m.trail|, st, entry.rest, writes, receipt);
      return Go(Advanced(limit, |m.trail|, st, entry.rest).Noted(writes, receipt));
    }
    PayloadTaken(minimal, rules, limit, m.trail, st, entry, writes, receipt, st.Noted(writes, receipt));
    if st.Top().groupDepth == st.Top().remaining {
      return Halt(Stopped(Fault(st.Top().At(), Wire(TooDeep))));
    }
    var next := Descended(limit, |m.trail|, st.Noted(writes, receipt), entry.item.payload, entry.rest);
    DescendedStands(limit, |m.trail|, st, entry.item.payload, entry.rest, writes, receipt);
    NotedLaned(rules, limit, st, writes, receipt);
    DescendedLaned(rules, limit, m.trail, entry.item.field, st.Noted(writes, receipt), entry.item.payload, entry.rest);
    m.CommitDescent();
    turn := Go(next);
  }

  lemma DescendedStands(limit: nat, depth: nat, st: State, payload: seq<Byte>, rest: seq<Byte>, writes: seq<Planned>,
                        receipt: Receipt)
    requires Sound(limit, depth, st) && st.suppress == 0 && Keyed(st)
    requires |payload| + |rest| < |st.Top().Rest()| && st.Top().groupDepth < st.Top().remaining
    ensures var noted := st.Noted(writes, receipt);
            Sound(limit, depth, noted) && Keyed(Descended(limit, depth, noted, payload, rest))
  {
    hide Left, Depths;
    PairsKept(st, Descended(limit, depth, st.Noted(writes, receipt), payload, rest));
  }

  /** An unrouted record no rule owns is its tag's write, if any. */
  lemma UnroutedTaken(minimal: bool, rules: Rules, limit: nat, trail: Word, st: State, entry: Entry,
                      writes: seq<Planned>, receipt: Receipt)
    requires Layers.Admitted(ProgramOf(rules)) && Sound(limit, |trail|, st) && st.suppress == 0 && st.Top().Rest() != []
    requires Next(minimal, limit, st) == Got(entry) && entry.Delivered(|st.Top().Rest()|, limit - |st.Top().opens|)
    requires entry.Whole? && !(entry.item.Len? && Routes(rules, trail + [entry.item.field]))
    requires TagFlow(minimal, ClaimAt(rules, trail + [entry.item.field]), entry.item, st.Top().At(), writes, receipt)
    ensures Remaining(minimal, rules, limit, trail, st)
         == Remaining(minimal, rules, limit, trail, Advanced(limit, |trail|, st, entry.rest).Noted(writes, receipt))
  {
    hide Remaining, Layers.Admitted, ProgramOf, ClaimAt, Left, Depths, Next, Routes, ItemBytes, FlowEntry, Advanced,
         TagFlow;
    var top := st.Top();
    HeadTaken(minimal, rules, limit, trail, st, entry);
    UnroutedFlow(minimal, rules, limit, trail, top.remaining - top.groupDepth, limit - |top.opens|, entry,
                 |top.Rest()|, top.At(), writes, receipt);
  }

  lemma UnroutedFlow(minimal: bool, rules: Rules, limit: nat, trail: Word, budget: nat, room: nat, entry: Entry,
                     size: nat, at: nat,
                     writes: seq<Planned>, receipt: Receipt)
    requires Layers.Admitted(ProgramOf(rules)) && entry.Delivered(size, room) && size <= MAX_LEN
    requires entry.Whole? && !(entry.item.Len? && Routes(rules, trail + [entry.item.field]))
    requires TagFlow(minimal, ClaimAt(rules, trail + [entry.item.field]), entry.item, at, writes, receipt)
    ensures FlowEntry(minimal, rules, limit, trail, budget, room, entry, size, at)
            == Flowed(writes, receipt, 0, entry.rest)
  {
    hide FlowEntry, FlowRenumber, FlowInside, FlowOwned, Claimed, JudgeFlow, ClaimAt, Layers.Admitted, ProgramOf,
         EncodedLen, Routes, ItemBytes;
    var inner := trail + [entry.item.field];
    var claim := ClaimAt(rules, inner);
    EntryIs(minimal, rules, limit, trail, budget, room, entry, size, at);
    InsideIs(minimal, rules, limit, inner, budget, room, entry, size, at);
    if claim.By? {
      RenumberIs(minimal, rules, limit, inner, budget, room, entry, size, at, claim.rule, claim.action.field);
      assert writes + [] == writes && receipt.Plus(NOTHING_DONE) == receipt;
    } else {
      assert claim.Free?;
    }
  }

  /** A claimed record delivered whole. */
  method ClaimTurn(m: M.HeapMatcher, minimal: bool, rules: Rules, limit: nat, st: State, entry: Entry,
                   rule: Layers.U16, action: Action)
    returns (turn: Turn)
    requires Asked(m, minimal, rules, limit, st, entry) && Layers.Admitted(ProgramOf(rules))
    requires entry.Whole? && ClaimAt(rules, m.trail + [entry.item.field]) == By(rule, action) && !action.Renumber?
    ensures Turned(m, minimal, rules, limit, Remaining(minimal, rules, limit, m.trail, st), Left(st.layers), turn)
  {
    hide M.HeapMatcher.Valid, Laned, Remaining, Layers.Admitted, ProgramOf, ClaimAt, Left, Depths, Next, Claimed,
         FlowEntry, FlowInside, FlowRenumber, ItemBytes;
    var top := st.Top();
    HeadTaken(minimal, rules, limit, m.trail, st, entry);
    EntryIs(minimal, rules, limit, m.trail, top.remaining - top.groupDepth, limit - |top.opens|, entry, |top.Rest()|,
            top.At());
    var judged := Claimed(minimal, rule, action, top.remaining - top.groupDepth, top.At(), entry.item);
    match judged
    case Refused(fault) => turn := Halt(Stopped(fault));
    case Allowed(w) =>
      AdvancedStands(limit, |m.trail|, st, entry.rest, [w], Counted(action));
      AdvancedLaned(rules, limit, |m.trail|, st, entry.rest, [w], Counted(action));
      turn := Go(Advanced(limit, |m.trail|, st, entry.rest).Noted([w], Counted(action)));
  }

  /** An unowned scalar: its tag's write, if it takes a new number. */
  method ScalarTurn(m: M.HeapMatcher, minimal: bool, rules: Rules, limit: nat, st: State, entry: Entry,
                    writes: seq<Planned>, receipt: Receipt) returns (turn: Turn)
    requires Asked(m, minimal, rules, limit, st, entry) && Layers.Admitted(ProgramOf(rules))
    requires entry.Whole? && !entry.item.Len?
    requires TagFlow(minimal, ClaimAt(rules, m.trail + [entry.item.field]), entry.item, st.Top().At(), writes, receipt)
    ensures Turned(m, minimal, rules, limit, Remaining(minimal, rules, limit, m.trail, st), Left(st.layers), turn)
  {
    hide M.HeapMatcher.Valid, Laned, Remaining, Layers.Admitted, ProgramOf, ClaimAt, Left, Depths, Next, Routes,
         TagFlow, ItemBytes;
    UnroutedTaken(minimal, rules, limit, m.trail, st, entry, writes, receipt);
    AdvancedStands(limit, |m.trail|, st, entry.rest, writes, receipt);
    AdvancedLaned(rules, limit, |m.trail|, st, entry.rest, writes, receipt);
    turn := Go(Advanced(limit, |m.trail|, st, entry.rest).Noted(writes, receipt));
  }

  /** A whole record taking a new number: its tag judged, then its payload. */
  method TagTurn(m: M.HeapMatcher, minimal: bool, rules: Rules, limit: nat, st: State, entry: Entry, routed: bool,
                 rule: Layers.U16, field: Field) returns (turn: Turn)
    requires Asked(m, minimal, rules, limit, st, entry) && Layers.Admitted(ProgramOf(rules))
    requires entry.Whole? && ClaimAt(rules, m.trail + [entry.item.field]) == By(rule, Renumber(field))
    requires entry.item.Len? ==> (routed <==> Routes(rules, m.trail + [entry.item.field]))
    modifies m, m.gaps
    ensures Turned(m, minimal, rules, limit, Remaining(minimal, rules, limit, old(m.trail), st), Left(st.layers), turn)
  {
    hide M.HeapMatcher.Valid, Laned, Remaining, Layers.Admitted, ProgramOf, ClaimAt, Left, Depths, Next, Routes,
         ItemBytes, EncodedLen;
    var word := TagWord(field, entry.item.Code());
    if !WidthFits(minimal, EncodedLen(word), entry.item.tagWidth) {
      NarrowTag(minimal, rules, limit, m.trail, st, entry, rule, field);
      return Halt(Stopped(Fault(st.Top().At(), BadTagWidth(rule, EncodedLen(word), entry.item.tagWidth))));
    }
    var writes := [TagAt(st.Top().At(), entry.item.tagWidth, word)];
    if entry.item.Len? {
      turn := PayloadTurn(m, minimal, rules, limit, st, entry, routed, writes, NOTHING_DONE.(renumbered := 1));
    } else {
      turn := ScalarTurn(m, minimal, rules, limit, st, entry, writes, NOTHING_DONE.(renumbered := 1));
    }
  }

  lemma NarrowTag(minimal: bool, rules: Rules, limit: nat, trail: Word, st: State, entry: Entry, rule: Layers.U16,
                  field: Field)
    requires Layers.Admitted(ProgramOf(rules)) && Sound(limit, |trail|, st) && st.suppress == 0 && st.Top().Rest() != []
    requires Next(minimal, limit, st) == Got(entry) && entry.Delivered(|st.Top().Rest()|, limit - |st.Top().opens|)
    requires entry.Whole? && ClaimAt(rules, trail + [entry.item.field]) == By(rule, Renumber(field))
    requires !WidthFits(minimal, EncodedLen(TagWord(field, entry.item.Code())), entry.item.tagWidth)
    ensures Remaining(minimal, rules, limit, trail, st)
         == Stopped(Fault(st.Top().At(),
                          BadTagWidth(rule, EncodedLen(TagWord(field, entry.item.Code())), entry.item.tagWidth)))
  {
    hide Remaining, Layers.Admitted, ProgramOf, ClaimAt, Left, Depths, Next, Routes, ItemBytes, FlowEntry, FlowInside,
         FlowRenumber, EncodedLen;
    var top := st.Top();
    var budget, room := top.remaining - top.groupDepth, limit - |top.opens|;
    HeadTaken(minimal, rules, limit, trail, st, entry);
    EntryIs(minimal, rules, limit, trail, budget, room, entry, |top.Rest()|, top.At());
    RenumberIs(minimal, rules, limit, trail + [entry.item.field], budget, room, entry, |top.Rest()|, top.At(), rule,
               field);
  }

  lemma ClashTaken(minimal: bool, rules: Rules, limit: nat, trail: Word, st: State, entry: Entry)
    requires Layers.Admitted(ProgramOf(rules)) && Sound(limit, |trail|, st) && st.suppress == 0 && st.Top().Rest() != []
    requires Next(minimal, limit, st) == Got(entry) && entry.Delivered(|st.Top().Rest()|, limit - |st.Top().opens|)
    requires ClaimAt(rules, trail + [entry.Number()]).Clash?
    ensures var claim := ClaimAt(rules, trail + [entry.Number()]);
            Remaining(minimal, rules, limit, trail, st)
              == Stopped(Fault(st.Top().At(), TwoRules(claim.first, claim.second)))
  {
    hide Remaining, Layers.Admitted, ProgramOf, ClaimAt, Left, Depths, Next, ItemBytes, FlowEntry, Advanced, Sound,
         Entry.Delivered;
    HeadTaken(minimal, rules, limit, trail, st, entry);
    ClashFlow(minimal, rules, limit, trail, st, entry);
  }

  lemma ClashFlow(minimal: bool, rules: Rules, limit: nat, trail: Word, st: State, entry: Entry)
    requires Layers.Admitted(ProgramOf(rules)) && Sound(limit, |trail|, st) && st.suppress == 0
    requires entry.Delivered(|st.Top().Rest()|, limit - |st.Top().opens|)
             && ClaimAt(rules, trail + [entry.Number()]).Clash?
    ensures var claim := ClaimAt(rules, trail + [entry.Number()]);
            HeadFlow(minimal, rules, limit, trail, st, entry)
              == Stopped(Fault(st.Top().At(), TwoRules(claim.first, claim.second)))
  {
    hide Layers.Admitted, ProgramOf, ClaimAt, Left, Depths, ItemBytes, FlowEntry, FlowInside, FlowRenumber, FlowOwned,
         Claimed;
    var top := st.Top();
    EntryIs(minimal, rules, limit, trail, top.remaining - top.groupDepth, limit - |top.opens|, entry, |top.Rest()|,
            top.At());
  }

  /** A head the matcher judges: the verdict, then what its action asks. */
  method HeadTurn(m: M.HeapMatcher, minimal: bool, rules: Rules, limit: nat, st: State, entry: Entry)
    returns (turn: Turn)
    requires Standing(m, rules, limit, st) && Layers.Admitted(ProgramOf(rules)) && st.suppress == 0
             && st.Top().Rest() != []
    requires Next(minimal, limit, st) == Got(entry) && !entry.Exit?
             && entry.Delivered(|st.Top().Rest()|, limit - |st.Top().opens|)
    modifies m, m.gaps
    ensures Turned(m, minimal, rules, limit, Remaining(minimal, rules, limit, old(m.trail), st), Left(st.layers), turn)
  {
    hide M.HeapMatcher.Valid, Laned, Remaining, Layers.Admitted, ProgramOf, Verdict, Left, Depths, Next, Routes,
         ItemBytes, Turned;
    var hits, routed := Ask(m, rules, entry);
    VerdictInside(rules, m.trail + [entry.Number()]);
    match hits
    case Conflict(first, second) =>
      ClashTaken(minimal, rules, limit, m.trail, st, entry);
      turn := Halt(Stopped(Fault(st.Top().At(), TwoRules(first, second))));
      HaltedRight(m, minimal, rules, limit, Remaining(minimal, rules, limit, m.trail, st), Left(st.layers), turn);
    case NoHit =>
      if entry.Enter? {
        turn := GroupTurn(m, minimal, rules, limit, st, entry);
      } else if entry.item.Len? {
        turn := PayloadTurn(m, minimal, rules, limit, st, entry, routed, [], NOTHING_DONE);
      } else {
        turn := ScalarTurn(m, minimal, rules, limit, st, entry, [], NOTHING_DONE);
      }
    case One(rule) =>
      var action := rules[rule].action;
      if action.Renumber? {
        if entry.Enter? {
          turn := PairTurn(m, minimal, rules, limit, st, entry, rule, action.field);
        } else {
          turn := TagTurn(m, minimal, rules, limit, st, entry, routed, rule, action.field);
        }
      } else if entry.Enter? {
        turn := OwnerTurn(m, minimal, rules, limit, st, entry, rule, action);
      } else {
        turn := ClaimTurn(m, minimal, rules, limit, st, entry, rule, action);
      }
  }

  lemma HaltedRight(m: M.HeapMatcher, minimal: bool, rules: Rules, limit: nat, was: Flow, left: nat, turn: Turn)
    requires Layers.Admitted(ProgramOf(rules)) && turn == Halt(was)
    ensures Turned(m, minimal, rules, limit, was, left, turn)
  {}

  /** One event of the cursor, whatever it is. */
  method TakeTurn(m: M.HeapMatcher, minimal: bool, rules: Rules, limit: nat, st: State) returns (turn: Turn)
    requires Standing(m, rules, limit, st) && Layers.Admitted(ProgramOf(rules))
    modifies m, m.gaps
    ensures Turned(m, minimal, rules, limit, Remaining(minimal, rules, limit, old(m.trail), st), Left(st.layers), turn)
  {
    hide M.HeapMatcher.Valid, Laned, Remaining, Layers.Admitted, ProgramOf, Left, Depths, NextEntry, ItemBytes, Turned;
    var top := st.Top();
    if top.pos == |top.data| {
      turn := LayerTurn(m, minimal, rules, limit, st);
      return;
    }
    var next := Next(minimal, limit, st);
    if next.Broken? {
      BytesBreak(minimal, rules, limit, m.trail, st);
      turn := Halt(Stopped(Fault(next.at, Wire(next.breach))));
      HaltedRight(m, minimal, rules, limit, Remaining(minimal, rules, limit, m.trail, st), Left(st.layers), turn);
      return;
    }
    var entry := next.value;
    if entry.Exit? {
      turn := EndTurn(m, minimal, rules, limit, st, entry);
    } else {
      NextDelivers(minimal, top.Innermost(), limit - |top.opens|, top.Rest(), top.At());
      if st.suppress > 0 {
        turn := SkipTurn(m, minimal, rules, limit, st, entry);
      } else {
        turn := HeadTurn(m, minimal, rules, limit, st, entry);
      }
    }
  }

  /** Phase one: the loop decides the whole job before the first write. */
  method Judge(minimal: bool, rules: Rules, limit: nat, bytes: seq<Byte>) returns (flow: Flow)
    requires Layers.Admitted(ProgramOf(rules))
    ensures flow == JudgeAll(minimal, rules, limit, bytes)
    ensures |bytes| > MAX_LEN ==> flow == Stopped(Fault(0, Oversize))
  {
    hide M.HeapMatcher.Valid, Laned, Remaining, Layers.Admitted, ProgramOf, Left, Depths, JudgeFlow, Keyed, Sound;
    if |bytes| > MAX_LEN {
      return Stopped(Fault(0, Oversize));
    }
    var m := new M.HeapMatcher(ProgramOf(rules));
    var st := Start(limit, bytes);
    StartJudges(minimal, rules, limit, bytes);
    StartLaned(rules, limit, bytes);
    while true
      invariant Standing(m, rules, limit, st) && fresh(m) && fresh(m.gaps)
      invariant Remaining(minimal, rules, limit, m.trail, st) == JudgeAll(minimal, rules, limit, bytes)
      decreases Left(st.layers)
    {
      var turn := TakeTurn(m, minimal, rules, limit, st);
      match turn
      case Halt(judged) => return judged;
      case Go(next) => st := next;
    }
  }

  /** No planned write covers the byte. */
  predicate Outside(plan: Judged<seq<Planned>>, k: nat) {
    plan.Allowed? ==> forall i :: 0 <= i < |plan.value| ==> !plan.value[i].Covers(k)
  }

  /** One job: judged whole, then landed. A refusal leaves every byte; a landed
      buffer is the edited document, only planned extents changed, and it
      re-ingests opaquely and under every route it conforms to. */
  method Apply(minimal: bool, buf: array<Byte>, rules: Rules, limit: nat)
    returns (fault: Option<Fault>, receipt: Receipt)
    requires Layers.Admitted(ProgramOf(rules))
    modifies buf
    ensures var flow := JudgeAll(minimal, rules, limit, old(buf[..]));
            if flow.Stopped? then fault == Some(flow.fault) else fault == None && receipt == flow.receipt
    ensures var items := Parse(minimal, Walked(rules), limit, old(buf[..]));
            buf.Length <= MAX_LEN && items.Some? ==>
              && (fault.None? <==> AllSatisfied(minimal, rules, [], limit, items.value, 0))
              && (fault.None? ==> Tallies(rules, Meetings(rules, [], items.value, 0), receipt))
    ensures fault.Some? ==> buf[..] == old(buf[..])
    ensures forall k: nat :: k < buf.Length && Outside(Plan(minimal, rules, limit, old(buf[..])), k) ==>
              buf[k] == old(buf[k])
    ensures fault.None? ==>
              var items := Parse(minimal, Walked(rules), limit, old(buf[..]));
              && items.Some? && receipt == ReceiptBody(rules, [], items.value)
              && buf[..] == BodyBytes(EditedBody(minimal, rules, [], limit, items.value))
              && Parse(minimal, NO_ROUTE, limit, buf[..])
                == Some(OpaqueBody(EditedBody(minimal, rules, [], limit, items.value)))
              && forall route: Route :: BodyConforms(route, [], EditedBody(minimal, rules, [], limit, items.value)) ==>
                   Parse(minimal, route, limit, buf[..]) == Some(EditedBody(minimal, rules, [], limit, items.value))
  {
    hide JudgeAll, Plan, Parse, EditedBody, Walked, Landed, BodyConforms, ReceiptBody, Outside, Layers.Admitted,
         ProgramOf, BodyBytes, OpaqueBody,
         Within, Apart, LawfulBody, BodyDepth, AllSatisfied, Tallies, Meetings;
    ghost var was := buf[..];
    var flow := Judge(minimal, rules, limit, buf[..]);
    PlanOf(minimal, rules, limit, was);
    JobTold(minimal, rules, limit, was);
    match flow
    case Stopped(f) => return Some(f), NOTHING_DONE;
    case Flowed(writes, done, _, _) =>
      PlanLands(minimal, rules, limit, was);
      AllowedReads(minimal, rules, limit, was);
      PlanIsTrees(minimal, rules, limit, was);
      Commit(minimal, buf, writes);
      LandedFrame(minimal, rules, limit, was);
      return None, done;
  }

  /** What a readable document's job comes to. */
  lemma JobTold(minimal: bool, rules: Rules, limit: nat, bytes: seq<Byte>)
    requires Layers.Admitted(ProgramOf(rules))
    ensures var items, plan := Parse(minimal, Walked(rules), limit, bytes), Plan(minimal, rules, limit, bytes);
            |bytes| <= MAX_LEN && items.Some? ==>
              && (plan.Allowed? <==> AllSatisfied(minimal, rules, [], limit, items.value, 0))
              && (plan.Allowed? ==>
                    Tallies(rules, Meetings(rules, [], items.value, 0), JudgeAll(minimal, rules, limit, bytes).receipt))
  {
    hide Parse, Plan, JudgeAll, AllSatisfied, Tallies, Meetings, Walked, Layers.Admitted, ProgramOf;
    if |bytes| <= MAX_LEN && Parse(minimal, Walked(rules), limit, bytes).Some? {
      JobIsExact(minimal, rules, limit, bytes);
      if Plan(minimal, rules, limit, bytes).Allowed? {
        ReceiptTallies(minimal, rules, limit, bytes);
      }
    }
  }

  lemma PlanOf(minimal: bool, rules: Rules, limit: nat, bytes: seq<Byte>)
    requires Layers.Admitted(ProgramOf(rules))
    ensures var flow := JudgeAll(minimal, rules, limit, bytes);
            Plan(minimal, rules, limit, bytes) == if flow.Stopped? then Refused(flow.fault) else Allowed(flow.writes)
  {
    hide JudgeAll;
  }

  /** The landed buffer differs from the old one inside planned extents alone. */
  lemma LandedFrame(minimal: bool, rules: Rules, limit: nat, bytes: seq<Byte>)
    requires Layers.Admitted(ProgramOf(rules)) && Plan(minimal, rules, limit, bytes).Allowed?
    requires Within(Plan(minimal, rules, limit, bytes).value, 0, |bytes|)
    ensures var ws := Plan(minimal, rules, limit, bytes).value;
            forall k: nat :: k < |bytes| && Outside(Plan(minimal, rules, limit, bytes), k)
                   ==> Landed(minimal, bytes, ws, |ws|)[k] == bytes[k]
  {
    hide Plan, Landed, Write.Covers;
    var ws := Plan(minimal, rules, limit, bytes).value;
    forall k: nat | k < |bytes| && Outside(Plan(minimal, rules, limit, bytes), k)
           ensures Landed(minimal, bytes, ws, |ws|)[k] == bytes[k] {
      LandedOutside(minimal, bytes, ws, |ws|, k);
    }
  }
}
