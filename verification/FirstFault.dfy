/** Which refusal an unreadable document draws: a rule's, for a record read
    before the bytes broke, or else the breach (src/inplace/grouped.rs). */
module FirstFault {
  import opened Sequences
  import opened Varints
  import opened Wire
  import opened Scanning
  import opened Breaches
  import opened Paths
  import opened InPlace
  import opened Judgment
  import Layers

  // ─── what was read before the breach ───

  /** A body cut short: its whole records, then the container that broke inside. */
  datatype Begun = Begun(done: seq<Item>, open: Option<Opened>)

  /** A container's head, met past its depth or broken somewhere inside. */
  datatype Opened = Opened(head: Entry, deep: bool, inside: Begun)

  const NOTHING_READ := Begun([], None)

  /** The reader up to its first refusal. */
  function ReadBody(minimal: bool, route: Route, limit: nat, trail: Word, budget: nat, room: nat,
                    open: Option<Field>, s: seq<Byte>, at: nat): Begun
    decreases |s|, 1
  {
    hide NextEntry, SkimEntry, ItemBytes;
    if s == [] then NOTHING_READ
    else
      match NextEntry(minimal, open, room, s, at)
      case Broken(_, _) => NOTHING_READ
      case Got(entry) =>
        if entry.Exit? then NOTHING_READ
        else if entry.Enter? && budget == 0 then Begun([], Some(Opened(entry, true, NOTHING_READ)))
        else
          match SkimEntry(minimal, route, trail, budget, entry, |s|, at)
          case Broken(_, _) => Begun([], Some(ReadInside(minimal, route, limit, trail, budget, room, entry, |s|, at)))
          case Got(first) =>
            var more := ReadBody(minimal, route, limit, trail, budget, room, open, first.rest, at + |s| - |first.rest|);
            Begun([first.item] + more.done, more.open)
  }

  /** A delivered head and what was read inside it. */
  function ReadInside(minimal: bool, route: Route, limit: nat, trail: Word, budget: nat, room: nat,
                      entry: Entry, size: nat, at: nat): Opened
    requires !entry.Exit? && |entry.rest| < size && (entry.Enter? ==> budget > 0 && room > 0)
    requires entry.Whole? && entry.item.Len? ==> |entry.item.payload| + |entry.rest| < size
    decreases size, 0
  {
    var inner := trail + [entry.Number()];
    if budget == 0 || (entry.Whole? && !entry.item.Len?) then Opened(entry, budget == 0, NOTHING_READ)
    else if entry.Enter? then
      Opened(entry, false, ReadBody(minimal, route, limit, inner, budget - 1, room - 1, Some(entry.field), entry.rest,
                                    at + size - |entry.rest|))
    else
      Opened(entry, false, ReadBody(minimal, route, limit, inner, budget - 1, limit, None, entry.item.payload,
                                    at + size - |entry.rest| - |entry.item.payload|))
  }

  /** The bytes before a container's body. */
  function HeadBytes(entry: Entry): seq<Byte>
    requires !entry.Exit?
  {
    if entry.Enter? then Tag(entry.field, GROUP_CODE, entry.width)
    else if entry.item.Len? then
      Tag(entry.item.field, LEN_CODE, entry.item.tagWidth) + Spell(|entry.item.payload|, entry.item.prefixWidth)
    else []
  }

  /** What was read: the whole records, then the head that was entered. */
  function BegunBytes(b: Begun): seq<Byte>
    requires Headed(b)
    decreases b
  {
    BodyBytes(b.done) + if b.open.None? || b.open.value.deep then []
                        else HeadBytes(b.open.value.head) + BegunBytes(b.open.value.inside)
  }

  predicate Headed(b: Begun)
    decreases b
  {
    b.open.Some? ==> !b.open.value.head.Exit? && Headed(b.open.value.inside)
  }

  // ─── the rules' judgment of it ───

  predicate Sized(b: Begun)
    decreases b
  {
    |BodyBytes(b.done)| <= MAX_LEN && (b.open.Some? ==> !b.open.value.head.Exit? && Sized(b.open.value.inside))
  }

  /** The first refusal by a rule among the records read, in document order. */
  function FirstRefusal(minimal: bool, rules: Rules, trail: Word, budget: nat, at: nat, b: Begun): Option<Fault>
    requires Sized(b)
    decreases b, 1
  {
    match JudgeBody(minimal, rules, trail, budget, at, b.done)
    case Refused(fault) => Some(fault)
    case Allowed(_) =>
      if b.open.None? then None else HeadRefusal(minimal, rules, trail, budget, at + |BodyBytes(b.done)|, b.open.value)
  }

  /** A container is judged at its head, then inside. A group past its depth is
      refused for that before its tag is, and a group its rule overwrites whole
      is judged at the end it never reached. */
  function HeadRefusal(minimal: bool, rules: Rules, trail: Word, budget: nat, at: nat, o: Opened): Option<Fault>
    requires !o.head.Exit? && Sized(o.inside)
    decreases o, 0
  {
    var word := trail + [o.head.Number()];
    var below := if budget == 0 then 0 else budget - 1;
    match ClaimAt(rules, word)
    case Clash(a, b) => Some(Fault(at, TwoRules(a, b)))
    case Free => FirstRefusal(minimal, rules, word, below, at + |HeadBytes(o.head)|, o.inside)
    case By(rule, action) =>
      if action.Renumber? then
        var width: WordWidth := if o.head.Enter? then o.head.width else o.head.item.tagWidth;
        var need := EncodedLen(TagWord(action.field, if o.head.Enter? then GROUP_CODE else o.head.item.Code()));
        if o.head.Enter? && o.deep then None
        else if !WidthFits(minimal, need, width) then Some(Fault(at, BadTagWidth(rule, need, width)))
        else FirstRefusal(minimal, rules, word, below, at + |HeadBytes(o.head)|, o.inside)
      else if o.head.Enter? && (action.ReplaceRecord? || action.Tombstone?) then None
      else Some(Fault(at, KindMismatch(rule)))
  }

  /** The rule's refusal if there is one, else the breach. */
  function Reported(refusal: Option<Fault>, at: nat, breach: Breach): Flow {
    Stopped(if refusal.Some? then refusal.value else Fault(at, Wire(breach)))
  }

  // ─── an unreadable document's refusal ───

  lemma NothingRead(minimal: bool, rules: Rules, trail: Word, budget: nat, at: nat)
    ensures Sized(NOTHING_READ) && FirstRefusal(minimal, rules, trail, budget, at, NOTHING_READ) == None
  {
    NothingJudged(minimal, rules, trail, budget, at);
  }

  lemma ReadStep(minimal: bool, route: Route, limit: nat, trail: Word, budget: nat, room: nat,
                 open: Option<Field>, s: seq<Byte>, at: nat)
    requires s != []
    ensures var next := NextEntry(minimal, open, room, s, at);
            var b := ReadBody(minimal, route, limit, trail, budget, room, open, s, at);
            && (next.Broken? || next.value.Exit? ==> b == NOTHING_READ)
            && (next.Got? && next.value.Enter? && budget == 0
                ==> b == Begun([], Some(Opened(next.value, true, NOTHING_READ))))
            && (next.Got? && !next.value.Exit? && (next.value.Enter? ==> budget > 0) ==>
                  var first := SkimEntry(minimal, route, trail, budget, next.value, |s|, at);
                  if first.Broken? then
                    b == Begun([], Some(ReadInside(minimal, route, limit, trail, budget, room, next.value, |s|, at)))
                  else
                    var rest := first.value.rest;
                    var more := ReadBody(minimal, route, limit, trail, budget, room, open, rest, at + |s| - |rest|);
                    b == Begun([first.value.item] + more.done, more.open))
  {
    hide NextEntry, SkimEntry, ReadInside;
  }

  lemma NothingOpen(minimal: bool, route: Route, limit: nat, trail: Word, budget: nat, room: nat, open: Option<Field>,
                    at: nat)
    ensures ReadBody(minimal, route, limit, trail, budget, room, open, [], at) == NOTHING_READ
  {}

  // ─── what was read is the front of the bytes ───

  /** Every record read is lawful and read by its route. */
  ghost predicate Soundly(minimal: bool, route: Route, trail: Word, b: Begun)
    decreases b
  {
    && LawfulBody(minimal, b.done) && BodyConforms(route, trail, b.done) && |BodyBytes(b.done)| <= MAX_LEN
    && (b.open.Some? ==>
          var o := b.open.value;
          !o.head.Exit? && Soundly(minimal, route, trail + [o.head.Number()], o.inside))
  }

  lemma {:induction false} SoundlySized(minimal: bool, route: Route, trail: Word, b: Begun)
    requires Soundly(minimal, route, trail, b)
    ensures Sized(b) && Headed(b)
    decreases b
  {
    if b.open.Some? {
      SoundlySized(minimal, route, trail + [b.open.value.head.Number()], b.open.value.inside);
    }
  }

  /** The front of the bytes, and none of it past the breach. */
  ghost predicate Fronts(minimal: bool, route: Route, trail: Word, at: nat, s: seq<Byte>, b: Begun, skim: Scan<Body>) {
    && Soundly(minimal, route, trail, b) && Headed(b) && BegunBytes(b) <= s
    && (skim.Broken? ==> at + |BegunBytes(b)| <= skim.at)
  }

  lemma NothingFronts(minimal: bool, route: Route, trail: Word, at: nat, s: seq<Byte>, skim: Scan<Body>)
    requires skim.Broken? ==> at <= skim.at
    ensures Fronts(minimal, route, trail, at, s, NOTHING_READ, skim)
    ensures Soundly(minimal, route, trail, NOTHING_READ) && Headed(NOTHING_READ)
  {}

  lemma HeadSpells(minimal: bool, open: Option<Field>, room: nat, s: seq<Byte>, at: nat)
    requires s != [] && NextEntry(minimal, open, room, s, at).Got? && !NextEntry(minimal, open, room, s, at).value.Exit?
    ensures var entry := NextEntry(minimal, open, room, s, at).value;
            && (entry.Enter? ==> s == HeadBytes(entry) + entry.rest)
            && (entry.Whole? && entry.item.Len? ==> s == HeadBytes(entry) + (entry.item.payload + entry.rest))
  {
    hide NextEntry, ParseItem, ReadHead, ParseGroup, Spell, EncodedLen;
    EntryParses(minimal, NO_ROUTE, [], open, room, s, at);
    NextEnds(minimal, open, room, s, at);
    var entry := NextEntry(minimal, open, room, s, at).value;
    if entry.Enter? {
      ReadHeadSound(minimal, s);
    } else if entry.item.Len? {
      ParseItemSound(minimal, NO_ROUTE, [], room, s);
      LenSpelled(entry.item, entry.rest);
    }
  }

  lemma LenSpelled(item: Item, rest: seq<Byte>)
    requires item.Len?
    ensures ItemBytes(item) + rest
         == Tag(item.field, LEN_CODE, item.tagWidth) + Spell(|item.payload|, item.prefixWidth) + (item.payload + rest)
  {
    hide Spell;
  }

  lemma {:induction false} ReadFronts(minimal: bool, route: Route, limit: nat, trail: Word, budget: nat, room: nat,
                                      open: Option<Field>, s: seq<Byte>, at: nat)
    requires |s| <= MAX_LEN && budget <= room <= limit
    ensures Fronts(minimal, route, trail, at, s, ReadBody(minimal, route, limit, trail, budget, room, open, s, at),
                   SkimBody(minimal, route, trail, budget, open, s, at))
    decreases |s|, 1
  {
    hide NextEntry, SkimEntry, SkimBody, ReadBody, ReadInside, Fronts, Entry.Delivered;
    var skim := SkimBody(minimal, route, trail, budget, open, s, at);
    NothingFronts(minimal, route, trail, at, s, skim);
    if s == [] {
      NothingOpen(minimal, route, limit, trail, budget, room, open, at);
    } else {
      SkimBodyStep(minimal, route, trail, budget, open, s, at);
      ReadStep(minimal, route, limit, trail, budget, room, open, s, at);
      RoomOrBudget(minimal, open, budget, room, s, at);
      var next := NextEntry(minimal, open, room, s, at);
      if next.Got? && !next.value.Exit? {
        if next.value.Enter? && budget == 0 {
          DeepFronts(minimal, route, trail, at, s, next.value, skim);
        } else if SkimEntry(minimal, route, trail, budget, next.value, |s|, at).Got? {
          RestFronts(minimal, route, limit, trail, budget, room, open, s, at);
        } else {
          OpenFronts(minimal, route, limit, trail, budget, room, open, s, at, skim);
        }
      }
    }
  }

  lemma DeepFronts(minimal: bool, route: Route, trail: Word, at: nat, s: seq<Byte>, entry: Entry, skim: Scan<Body>)
    requires entry.Enter? && (skim.Broken? ==> at <= skim.at)
    ensures Fronts(minimal, route, trail, at, s, Begun([], Some(Opened(entry, true, NOTHING_READ))), skim)
  {
    NothingFronts(minimal, route, trail + [entry.field], at, s, skim);
    HeadFronts(minimal, route, trail, Opened(entry, true, NOTHING_READ));
  }

  lemma {:induction false} OpenFronts(minimal: bool, route: Route, limit: nat, trail: Word, budget: nat, room: nat,
                                      open: Option<Field>, s: seq<Byte>, at: nat, skim: Scan<Body>)
    requires 0 < |s| <= MAX_LEN && budget <= room <= limit
    requires NextEntry(minimal, open, room, s, at).Got? && !NextEntry(minimal, open, room, s, at).value.Exit?
    requires var entry := NextEntry(minimal, open, room, s, at).value;
             && (entry.Enter? ==> budget > 0) && skim.Broken?
             && SkimEntry(minimal, route, trail, budget, entry, |s|, at) == Broken(skim.at, skim.breach)
    ensures var entry := NextEntry(minimal, open, room, s, at).value;
            Fronts(minimal, route, trail, at, s,
                   Begun([], Some(ReadInside(minimal, route, limit, trail, budget, room, entry, |s|, at))), skim)
    decreases |s|, 0, 1
  {
    hide NextEntry, SkimEntry, ReadInside, Soundly, Headed, BegunBytes, ItemBytes, HeadBytes;
    var entry := NextEntry(minimal, open, room, s, at).value;
    NextDelivers(minimal, open, room, s, at);
    HeadSpells(minimal, open, room, s, at);
    InsideFronts(minimal, route, limit, trail, budget, room, entry, s, at);
    HeadFronts(minimal, route, trail, ReadInside(minimal, route, limit, trail, budget, room, entry, |s|, at));
  }

  lemma {:induction false} RestFronts(minimal: bool, route: Route, limit: nat, trail: Word, budget: nat, room: nat,
                                      open: Option<Field>, s: seq<Byte>, at: nat)
    requires 0 < |s| <= MAX_LEN && budget <= room <= limit
    requires NextEntry(minimal, open, room, s, at) == NextEntry(minimal, open, budget, s, at)
    requires NextEntry(minimal, open, room, s, at).Got? && !NextEntry(minimal, open, room, s, at).value.Exit?
    requires SkimEntry(minimal, route, trail, budget, NextEntry(minimal, open, room, s, at).value, |s|, at).Got?
    ensures Fronts(minimal, route, trail, at, s, ReadBody(minimal, route, limit, trail, budget, room, open, s, at),
                   SkimBody(minimal, route, trail, budget, open, s, at))
    decreases |s|, 0, 1
  {
    hide NextEntry, SkimEntry, SkimBody, ReadBody, ParseItem, Soundly, Headed, BegunBytes, ItemBytes, Lawful,
         Conforms, Depth;
    SkimBodyStep(minimal, route, trail, budget, open, s, at);
    ReadStep(minimal, route, limit, trail, budget, room, open, s, at);
    SkimEntryParses(minimal, route, trail, budget, open, s, at);
    ParseItemSound(minimal, route, trail, budget, s);
    var Parsed(item, rest) := ParseItem(minimal, route, trail, budget, s).value;
    var after := at + |s| - |rest|;
    ReadFronts(minimal, route, limit, trail, budget, room, open, rest, after);
    RecordFronts(minimal, route, trail, s, item, rest,
                 ReadBody(minimal, route, limit, trail, budget, room, open, rest, after));
  }

  lemma RecordFronts(minimal: bool, route: Route, trail: Word, s: seq<Byte>, item: Item, rest: seq<Byte>, b: Begun)
    requires |s| <= MAX_LEN && s == ItemBytes(item) + rest && Lawful(minimal, item) && Conforms(route, trail, item)
    requires Soundly(minimal, route, trail, b) && Headed(b) && BegunBytes(b) <= rest
    ensures var all := Begun([item] + b.done, b.open);
            && Soundly(minimal, route, trail, all) && Headed(all) && BegunBytes(all) <= s
            && |BegunBytes(all)| == |ItemBytes(item)| + |BegunBytes(b)|
  {
    hide ItemBytes, Lawful, Conforms, HeadBytes, BegunBytes, BodyBytes;
    BegunInFront(item, b);
    PrefixAfter(ItemBytes(item), BegunBytes(b), rest);
    assert BodyBytes([item] + b.done) <= BegunBytes(Begun([item] + b.done, b.open));
    var items := [item] + b.done;
    assert items[0] == item && items[1..] == b.done;
  }

  lemma BegunInFront(item: Item, b: Begun)
    requires Headed(b)
    ensures var all := Begun([item] + b.done, b.open);
            Headed(all) && BegunBytes(all) == ItemBytes(item) + BegunBytes(b) && BodyBytes(all.done) <= BegunBytes(all)
  {
    hide ItemBytes, HeadBytes;
    var items := [item] + b.done;
    assert items[0] == item && items[1..] == b.done;
    var open := if b.open.None? || b.open.value.deep then []
                else HeadBytes(b.open.value.head) + BegunBytes(b.open.value.inside);
    Associative(ItemBytes(item), BodyBytes(b.done), open);
  }

  lemma PrefixAfter<T>(a: seq<T>, x: seq<T>, y: seq<T>)
    requires x <= y
    ensures a + x <= a + y
  {}

  lemma HeadFronts(minimal: bool, route: Route, trail: Word, o: Opened)
    requires !o.head.Exit? && Soundly(minimal, route, trail + [o.head.Number()], o.inside) && Headed(o.inside)
    ensures var b := Begun([], Some(o));
            && Soundly(minimal, route, trail, b) && Headed(b)
            && BegunBytes(b) == if o.deep then [] else HeadBytes(o.head) + BegunBytes(o.inside)
  {
    hide HeadBytes;
  }

  lemma {:induction false} InsideFronts(minimal: bool, route: Route, limit: nat, trail: Word, budget: nat, room: nat,
                                        entry: Entry, s: seq<Byte>, at: nat)
    requires entry.Delivered(|s|, room) && |s| <= MAX_LEN && budget <= room <= limit && (entry.Enter? ==> budget > 0)
    requires entry.Enter? ==> s == HeadBytes(entry) + entry.rest
    requires entry.Whole? && entry.item.Len? ==> s == HeadBytes(entry) + (entry.item.payload + entry.rest)
    requires SkimEntry(minimal, route, trail, budget, entry, |s|, at).Broken?
    ensures var o := ReadInside(minimal, route, limit, trail, budget, room, entry, |s|, at);
            var skim := SkimEntry(minimal, route, trail, budget, entry, |s|, at);
            && o.head == entry && Soundly(minimal, route, trail + [entry.Number()], o.inside) && Headed(o.inside)
            && (o.deep || (HeadBytes(entry) + BegunBytes(o.inside) <= s
                           && at + |HeadBytes(entry)| + |BegunBytes(o.inside)| <= skim.at))
    decreases |s|, 0, 0
  {
    hide SkimBody, ItemBytes, ReadBody, Soundly, Headed, BegunBytes, HeadBytes;
    var inner := trail + [entry.Number()];
    NothingFronts(minimal, route, inner, at, s, Broken(at, TooDeep));
    HeadMeasures(entry, |s|, room);
    if entry.Enter? {
      ReadFronts(minimal, route, limit, inner, budget - 1, room - 1, Some(entry.field), entry.rest,
                 at + |s| - |entry.rest|);
    } else if budget > 0 {
      var payload := entry.item.payload;
      ReadFronts(minimal, route, limit, inner, budget - 1, limit, None, payload, at + |s| - |entry.rest| - |payload|);
    }
  }

  // ─── the rules' refusal or the breach ───

  /** A record in front is judged first. */
  lemma RecordInFront(minimal: bool, rules: Rules, trail: Word, budget: nat, at: nat, item: Item, b: Begun)
    requires Sized(b) && |ItemBytes(item)| + |BodyBytes(b.done)| <= MAX_LEN
    ensures var all := Begun([item] + b.done, b.open);
            var judged := JudgeItem(minimal, rules, trail, budget, at, item);
            && Sized(all)
            && FirstRefusal(minimal, rules, trail, budget, at, all)
            == if judged.Refused? then Some(judged.fault)
               else FirstRefusal(minimal, rules, trail, budget, at + |ItemBytes(item)|, b)
  {
    hide HeadRefusal, JudgeItem, ItemBytes;
    var items := [item] + b.done;
    assert items[0] == item && items[1..] == b.done;
    assert BodyBytes(items) == ItemBytes(item) + BodyBytes(b.done);
  }

  /** The refusal reported is the rules' own, or the breach. */
  ghost predicate BodyReports(minimal: bool, rules: Rules, trail: Word, budget: nat, at: nat, size: nat,
                              b: Begun, flow: Flow, skim: Scan<Body>)
  {
    skim.Broken? ==>
      && Sized(b) && |BodyBytes(b.done)| <= size
      && flow == Reported(FirstRefusal(minimal, rules, trail, budget, at, b), skim.at, skim.breach)
  }

  ghost predicate HeadReports(minimal: bool, rules: Rules, trail: Word, budget: nat, at: nat,
                              o: Opened, flow: Flow, skim: Scan<Parsed>)
  {
    skim.Broken? ==>
      && !o.head.Exit? && Sized(o.inside)
      && flow == Reported(HeadRefusal(minimal, rules, trail, budget, at, o), skim.at, skim.breach)
  }

  lemma NothingReports(minimal: bool, rules: Rules, trail: Word, budget: nat, at: nat, size: nat, flow: Flow,
                       skim: Scan<Body>)
    requires skim.Broken? ==> flow == Stopped(Fault(skim.at, Wire(skim.breach)))
    ensures BodyReports(minimal, rules, trail, budget, at, size, NOTHING_READ, flow, skim)
  {
    hide FirstRefusal;
    NothingRead(minimal, rules, trail, budget, at);
  }

  /** The head alone stands before what was read inside it. */
  lemma HeadAlone(minimal: bool, rules: Rules, trail: Word, budget: nat, at: nat, size: nat, o: Opened, flow: Flow,
                  inner: Scan<Parsed>, skim: Scan<Body>)
    requires HeadReports(minimal, rules, trail, budget, at, o, flow, inner)
    requires inner.Broken? && skim == Broken(inner.at, inner.breach)
    ensures BodyReports(minimal, rules, trail, budget, at, size, Begun([], Some(o)), flow, skim)
  {
    hide HeadRefusal;
    NothingJudged(minimal, rules, trail, budget, at);
  }

  lemma {:induction false} BrokenFlow(minimal: bool, rules: Rules, limit: nat, trail: Word, budget: nat, room: nat,
                                      open: Option<Field>, s: seq<Byte>, at: nat)
    requires Layers.Admitted(ProgramOf(rules)) && |s| <= MAX_LEN && budget <= room <= limit && Unowned(rules, trail)
    ensures BodyReports(minimal, rules, trail, budget, at, |s|,
                        ReadBody(minimal, Walked(rules), limit, trail, budget, room, open, s, at),
                        JudgeFlow(minimal, rules, limit, trail, budget, room, open, s, at),
                        SkimBody(minimal, Walked(rules), trail, budget, open, s, at))
    decreases |s|, 1
  {
    hide NextEntry, SkimEntry, FlowEntry, SkimBody, JudgeFlow, Walked, Unowned, ReadBody, ReadInside, HeadReports,
         BodyReports,
         ItemBytes, JudgeItem, ReceiptOf, Layers.Admitted, ProgramOf, Entry.Delivered;
    var skim, flow := SkimBody(minimal, Walked(rules), trail, budget, open, s, at),
                      JudgeFlow(minimal, rules, limit, trail, budget, room, open, s, at);
    if s == [] {
      WindowEnd(minimal, Walked(rules), trail, budget, open, at);
      FlowEnd(minimal, rules, limit, trail, budget, room, open, at);
      NothingOpen(minimal, Walked(rules), limit, trail, budget, room, open, at);
      NothingReports(minimal, rules, trail, budget, at, |s|, flow, skim);
    } else {
      FlowStep(minimal, rules, limit, trail, budget, room, open, s, at);
      SkimBodyStep(minimal, Walked(rules), trail, budget, open, s, at);
      ReadStep(minimal, Walked(rules), limit, trail, budget, room, open, s, at);
      RoomOrBudget(minimal, open, budget, room, s, at);
      var next := NextEntry(minimal, open, room, s, at);
      if next.Broken? || next.value.Exit? {
        NothingReports(minimal, rules, trail, budget, at, |s|, flow, skim);
      } else {
        NextDelivers(minimal, open, room, s, at);
        if next.value.Enter? && budget == 0 {
          DeepHeadReports(minimal, rules, limit, trail, room, next.value, |s|, at);
          HeadAlone(minimal, rules, trail, budget, at, |s|, Opened(next.value, true, NOTHING_READ), flow,
                    Broken(at, TooDeep), skim);
        } else {
          BrokenStep(minimal, rules, limit, trail, budget, room, open, s, at);
        }
      }
    }
  }

  lemma {:induction false} BrokenStep(minimal: bool, rules: Rules, limit: nat, trail: Word, budget: nat, room: nat,
                                      open: Option<Field>, s: seq<Byte>, at: nat)
    requires Layers.Admitted(ProgramOf(rules)) && 0 < |s| <= MAX_LEN && budget <= room <= limit && Unowned(rules, trail)
    requires NextEntry(minimal, open, room, s, at).Got?
             && NextEntry(minimal, open, room, s, at) == NextEntry(minimal, open, budget, s, at)
    requires NextEntry(minimal, open, room, s, at).value.Delivered(|s|, room)
    ensures BodyReports(minimal, rules, trail, budget, at, |s|,
                        ReadBody(minimal, Walked(rules), limit, trail, budget, room, open, s, at),
                        JudgeFlow(minimal, rules, limit, trail, budget, room, open, s, at),
                        SkimBody(minimal, Walked(rules), trail, budget, open, s, at))
    decreases |s|, 0, 4
  {
    hide NextEntry, SkimEntry, FlowEntry, SkimBody, JudgeFlow, Walked, Unowned, ReadBody, ReadInside, HeadReports,
         FirstRefusal, Sized, BodyBytes,
         ItemBytes, JudgeItem, ReceiptOf, Layers.Admitted, ProgramOf;
    FlowStep(minimal, rules, limit, trail, budget, room, open, s, at);
    SkimBodyStep(minimal, Walked(rules), trail, budget, open, s, at);
    ReadStep(minimal, Walked(rules), limit, trail, budget, room, open, s, at);
    EntryStep(minimal, rules, limit, trail, budget, room, open, s, at);
    var entry := NextEntry(minimal, open, room, s, at).value;
    var first := SkimEntry(minimal, Walked(rules), trail, budget, entry, |s|, at);
    if first.Got? {
      BrokenRest(minimal, rules, limit, trail, budget, room, open, s, at, first.value);
    } else {
      BrokenEntry(minimal, rules, limit, trail, budget, room, entry, |s|, at);
      HeadAlone(minimal, rules, trail, budget, at, |s|,
                ReadInside(minimal, Walked(rules), limit, trail, budget, room, entry, |s|, at),
                FlowEntry(minimal, rules, limit, trail, budget, room, entry, |s|, at), first,
                SkimBody(minimal, Walked(rules), trail, budget, open, s, at));
    }
  }

  lemma {:induction false} BrokenRest(minimal: bool, rules: Rules, limit: nat, trail: Word, budget: nat, room: nat,
                                      open: Option<Field>, s: seq<Byte>, at: nat, first: Parsed)
    requires Layers.Admitted(ProgramOf(rules)) && |s| <= MAX_LEN && budget <= room <= limit && Unowned(rules, trail)
    requires |first.rest| < |s| && |ItemBytes(first.item)| + |first.rest| == |s|
    ensures var rest, next := first.rest, at + |s| - |first.rest|;
            var more := ReadBody(minimal, Walked(rules), limit, trail, budget, room, open, rest, next);
            var judged := JudgeItem(minimal, rules, trail, budget, at, first.item);
            var skim := SkimBody(minimal, Walked(rules), trail, budget, open, rest, next);
            BodyReports(minimal, rules, trail, budget, at, |s|, Begun([first.item] + more.done, more.open),
                        if judged.Refused? then Stopped(judged.fault)
                        else JudgeFlow(minimal, rules, limit, trail, budget, room, open, rest, next),
                        if skim.Broken? then skim else Got(Body([], 0, [])))
    decreases |s|, 0, 3
  {
    hide SkimBody, JudgeFlow, Walked, Unowned, ReadBody, FirstRefusal, Sized, ItemBytes, JudgeItem, Layers.Admitted,
         ProgramOf;
    var rest, next := first.rest, at + |s| - |first.rest|;
    BrokenFlow(minimal, rules, limit, trail, budget, room, open, rest, next);
    var more := ReadBody(minimal, Walked(rules), limit, trail, budget, room, open, rest, next);
    if SkimBody(minimal, Walked(rules), trail, budget, open, rest, next).Broken? {
      RecordInFront(minimal, rules, trail, budget, at, first.item, more);
      var items := [first.item] + more.done;
      assert items[0] == first.item && items[1..] == more.done;
    }
  }

  /** A group past its depth: its owner's kind first, then the depth. */
  lemma DeepHeadReports(minimal: bool, rules: Rules, limit: nat, trail: Word, room: nat, entry: Entry, size: nat,
                        at: nat)
    requires Layers.Admitted(ProgramOf(rules)) && entry.Enter? && entry.Delivered(size, room) && size <= MAX_LEN
    ensures HeadReports(minimal, rules, trail, 0, at, Opened(entry, true, NOTHING_READ),
                        FlowEntry(minimal, rules, limit, trail, 0, room, entry, size, at), Broken(at, TooDeep))
    ensures FlowEntry(minimal, rules, limit, trail, 0, room, entry, size, at).Stopped?
  {
    hide ClaimAt, JudgeFlow, Routes, EncodedLen, SkimBody, ClaimExtent, ReadBody, FirstRefusal;
    NothingRead(minimal, rules, trail + [entry.field], 0, at + |HeadBytes(entry)|);
  }

  lemma {:induction false} BrokenInside(minimal: bool, rules: Rules, limit: nat, trail: Word, budget: nat, room: nat,
                                        entry: Entry, size: nat, at: nat)
    requires Layers.Admitted(ProgramOf(rules)) && entry.Delivered(size, room) && size <= MAX_LEN
    requires budget <= room <= limit && (entry.Enter? ==> budget > 0)
    requires Unowned(rules, trail) && !OwnedAt(rules, trail + [entry.Number()])
    requires SkimEntry(minimal, Walked(rules), trail, budget, entry, size, at).Broken?
    ensures var o := ReadInside(minimal, Walked(rules), limit, trail, budget, room, entry, size, at);
            var skim := SkimEntry(minimal, Walked(rules), trail, budget, entry, size, at);
            var inner := trail + [entry.Number()];
            && o.head == entry && (entry.Enter? ==> !o.deep) && Sized(o.inside)
            && FlowInside(minimal, rules, limit, inner, budget, room, entry, size, at)
            == Reported(FirstRefusal(minimal, rules, inner,
                                     if budget == 0 then 0 else budget - 1, at + |HeadBytes(entry)|, o.inside),
                        skim.at, skim.breach)
    decreases size, 0, 0
  {
    hide JudgeFlow, SkimBody, ItemBytes, BodyBytes, FirstRefusal, ReadBody, Sized, Walked, OwnedAt, Unowned, Routes,
         Spell;
    var inner := trail + [entry.Number()];
    WalkedIsRouted(rules, trail, entry.Number());
    UnownedStep(rules, trail, entry.Number());
    HeadMeasures(entry, size, room);
    if entry.Enter? {
      BrokenFlow(minimal, rules, limit, inner, budget - 1, room - 1, Some(entry.field), entry.rest,
                 at + size - |entry.rest|);
    } else if budget > 0 {
      var payload := entry.item.payload;
      LenShape(entry.item);
      BrokenFlow(minimal, rules, limit, inner, budget - 1, limit, None, payload, at + size - |entry.rest| - |payload|);
    } else {
      NothingRead(minimal, rules, inner, 0, at + |HeadBytes(entry)|);
    }
  }

  lemma HeadMeasures(entry: Entry, size: nat, room: nat)
    requires entry.Delivered(size, room)
    ensures entry.Enter? ==> |HeadBytes(entry)| + |entry.rest| == size
    ensures entry.Whole? && entry.item.Len? ==> |HeadBytes(entry)| + |entry.item.payload| + |entry.rest| == size
  {
    hide Spell;
    if entry.Whole? && entry.item.Len? {
      LenShape(entry.item);
    }
  }

  lemma {:induction false} BrokenEntry(minimal: bool, rules: Rules, limit: nat, trail: Word, budget: nat, room: nat,
                                       entry: Entry, size: nat, at: nat)
    requires Layers.Admitted(ProgramOf(rules)) && entry.Delivered(size, room) && size <= MAX_LEN
    requires budget <= room <= limit && (entry.Enter? ==> budget > 0) && Unowned(rules, trail)
    requires SkimEntry(minimal, Walked(rules), trail, budget, entry, size, at).Broken?
    ensures HeadReports(minimal, rules, trail, budget, at,
                        ReadInside(minimal, Walked(rules), limit, trail, budget, room, entry, size, at),
                        FlowEntry(minimal, rules, limit, trail, budget, room, entry, size, at),
                        SkimEntry(minimal, Walked(rules), trail, budget, entry, size, at))
    ensures FlowEntry(minimal, rules, limit, trail, budget, room, entry, size, at).Stopped?
    decreases size, 0, 2
  {
    hide JudgeFlow, SkimEntry, SkimBody, ItemBytes, FirstRefusal, ReadBody, ReadInside, Sized, Walked, Unowned,
         Routes, ClaimAt, Claimed,
         FlowEntry, FlowInside, FlowRenumber, FlowOwned, EncodedLen, HeadBytes, Layers.Admitted, ProgramOf;
    EntryIs(minimal, rules, limit, trail, budget, room, entry, size, at);
    var word := trail + [entry.Number()];
    var claim := ClaimAt(rules, word);
    EntryStaysBelow(minimal, rules, limit, trail, budget, room, entry, size, at);
    var o := ReadInside(minimal, Walked(rules), limit, trail, budget, room, entry, size, at);
    HeadRefusalIs(minimal, rules, trail, budget, at, o);
    if claim.Free? || (claim.By? && claim.action.Renumber?) {
      BrokenInside(minimal, rules, limit, trail, budget, room, entry, size, at);
      if claim.By? {
        RenumberIs(minimal, rules, limit, word, budget, room, entry, size, at, claim.rule, claim.action.field);
      }
    } else if claim.By? && entry.Enter? {
      BrokenOwned(minimal, rules, trail, budget, room, entry, size, at, claim.rule, claim.action);
    } else if claim.By? {
      BrokenWhole(minimal, rules, trail, budget, room, entry, size, at, claim.rule, claim.action);
    }
  }

  lemma HeadRefusalIs(minimal: bool, rules: Rules, trail: Word, budget: nat, at: nat, o: Opened)
    requires !o.head.Exit? && Sized(o.inside)
    ensures var word := trail + [o.head.Number()];
            var claim := ClaimAt(rules, word);
            var told := HeadRefusal(minimal, rules, trail, budget, at, o);
            var inside := FirstRefusal(minimal, rules, word,
                                       if budget == 0 then 0 else budget - 1, at + |HeadBytes(o.head)|, o.inside);
            && (claim.Clash? ==> told == Some(Fault(at, TwoRules(claim.first, claim.second))))
            && (claim.Free? ==> told == inside)
            && (claim.By? && claim.action.Renumber? ==>
                  var width: WordWidth := if o.head.Enter? then o.head.width else o.head.item.tagWidth;
                  var need := EncodedLen(TagWord(claim.action.field,
                                                 if o.head.Enter? then GROUP_CODE else o.head.item.Code()));
                  told == if o.head.Enter? && o.deep then None
                          else if !WidthFits(minimal, need, width) then
                            Some(Fault(at, BadTagWidth(claim.rule, need, width)))
                          else inside)
            && (claim.By? && !claim.action.Renumber? ==>
                  told == if o.head.Enter? && (claim.action.ReplaceRecord? || claim.action.Tombstone?) then None
                          else Some(Fault(at, KindMismatch(claim.rule))))
  {
    hide ClaimAt, EncodedLen, FirstRefusal, Sized, HeadBytes;
  }

  /** An owned group breaks where its skipped interior breaks. */
  lemma BrokenOwned(minimal: bool, rules: Rules, trail: Word, budget: nat, room: nat, entry: Entry, size: nat, at: nat,
                    rule: Layers.U16, action: Action)
    requires Layers.Admitted(ProgramOf(rules)) && entry.Enter? && entry.Delivered(size, room) && size <= MAX_LEN
    requires budget > 0 && Unowned(rules, trail)
    requires ClaimAt(rules, trail + [entry.field]) == By(rule, action) && !action.Renumber?
    requires SkimEntry(minimal, Walked(rules), trail, budget, entry, size, at).Broken?
    ensures var skim := SkimEntry(minimal, Walked(rules), trail, budget, entry, size, at);
            FlowOwned(minimal, budget, room, entry, size, at, rule, action)
            == Reported(if action.ReplaceRecord? || action.Tombstone? then None
                        else Some(Fault(at, KindMismatch(rule))),
                        skim.at, skim.breach)
  {
    hide SkimBody, ItemBytes, Walked, Unowned, Routes, ClaimAt, ClaimExtent, Unrouted;
    if action.ReplaceRecord? || action.Tombstone? {
      WalkedIsRouted(rules, trail, entry.field);
      SkimUnrouted(minimal, Walked(rules), trail + [entry.field], [], budget - 1, Some(entry.field), entry.rest,
                   at + size - |entry.rest|);
    }
  }

  /** Only a walked LEN record breaks inside, and no claim on a scalar fits it. */
  lemma BrokenWhole(minimal: bool, rules: Rules, trail: Word, budget: nat, room: nat, entry: Entry, size: nat, at: nat,
                    rule: Layers.U16, action: Action)
    requires Layers.Admitted(ProgramOf(rules)) && entry.Whole? && entry.Delivered(size, room) && size <= MAX_LEN
             && Unowned(rules, trail)
    requires ClaimAt(rules, trail + [entry.item.field]) == By(rule, action) && !action.Renumber?
    requires SkimEntry(minimal, Walked(rules), trail, budget, entry, size, at).Broken?
    ensures Claimed(minimal, rule, action, budget, at, entry.item) == Refused(Fault(at, KindMismatch(rule)))
  {
    hide SkimBody, ItemBytes, Walked, Unowned, Routes, ClaimAt, ClaimExtent;
    WalkedIsRouted(rules, trail, entry.item.field);
  }

  /** Whatever was read inside a head is measured, and the head is the one met. */
  lemma EntryStaysBelow(minimal: bool, rules: Rules, limit: nat, trail: Word, budget: nat, room: nat, entry: Entry,
                        size: nat, at: nat)
    requires Layers.Admitted(ProgramOf(rules)) && entry.Delivered(size, room) && size <= MAX_LEN
    requires budget <= room <= limit && (entry.Enter? ==> budget > 0)
    ensures var o := ReadInside(minimal, Walked(rules), limit, trail, budget, room, entry, size, at);
            o.head == entry && Sized(o.inside) && (entry.Enter? ==> !o.deep)
  {
    hide ReadBody, Sized, Walked, ItemBytes, Layers.Admitted, ProgramOf, SkimBody;
    var route, inner := Walked(rules), trail + [entry.Number()];
    NothingRead(minimal, rules, inner, budget, at);
    if budget > 0 && entry.Enter? {
      var inside := at + size - |entry.rest|;
      ReadFronts(minimal, route, limit, inner, budget - 1, room - 1, Some(entry.field), entry.rest, inside);
      SoundlySized(minimal, route, inner,
                   ReadBody(minimal, route, limit, inner, budget - 1, room - 1, Some(entry.field), entry.rest, inside));
    } else if budget > 0 && entry.item.Len? {
      var payload := entry.item.payload;
      var inside := at + size - |entry.rest| - |payload|;
      ReadFronts(minimal, route, limit, inner, budget - 1, limit, None, payload, inside);
      SoundlySized(minimal, route, inner,
                   ReadBody(minimal, route, limit, inner, budget - 1, limit, None, payload, inside));
    }
  }

  /** One pass over any body: the tree's judgment where the bytes read as
      records, else the first rule's refusal of what was read, or the breach. */
  lemma EveryFlow(minimal: bool, rules: Rules, limit: nat, trail: Word, budget: nat, room: nat,
                  open: Option<Field>, s: seq<Byte>, at: nat)
    requires Layers.Admitted(ProgramOf(rules)) && |s| <= MAX_LEN && budget <= room <= limit && Unowned(rules, trail)
    ensures var flow := JudgeFlow(minimal, rules, limit, trail, budget, room, open, s, at);
            match SkimBody(minimal, Walked(rules), trail, budget, open, s, at)
            case Got(body) =>
              && |BodyBytes(body.items)| <= MAX_LEN
              && flow == FlowOf(JudgeBody(minimal, rules, trail, budget, at, body.items),
                                ReceiptBody(rules, trail, body.items),
                                body.endWidth, body.rest)
            case Broken(p, breach) =>
              var b := ReadBody(minimal, Walked(rules), limit, trail, budget, room, open, s, at);
              && Sized(b) && flow == Reported(FirstRefusal(minimal, rules, trail, budget, at, b), p, breach)
  {
    hide JudgeFlow, SkimBody, ReadBody, FirstRefusal, Sized, JudgeBody, ReceiptBody, BodyBytes, Walked,
         Layers.Admitted, ProgramOf;
    FlowIsJudged(minimal, rules, limit, trail, budget, room, open, s, at);
    BrokenFlow(minimal, rules, limit, trail, budget, room, open, s, at);
  }

  /** A document that does not read as records: of the records read before the
      breach, the front of the bytes, the first one a rule refuses is the refusal,
      and the breach itself where no rule refuses any. */
  lemma UnreadableJudged(minimal: bool, rules: Rules, limit: nat, bytes: seq<Byte>)
    requires Layers.Admitted(ProgramOf(rules)) && |bytes| <= MAX_LEN
             && Parse(minimal, Walked(rules), limit, bytes).None?
    ensures var first := SkimBody(minimal, Walked(rules), [], limit, None, bytes, 0);
            var b := ReadBody(minimal, Walked(rules), limit, [], limit, limit, None, bytes, 0);
            && first.Broken? && Breaks(minimal, Walked(rules), [], limit, None, bytes, first.at, first.breach)
            && Sized(b) && Soundly(minimal, Walked(rules), [], b)
            && Headed(b) && BegunBytes(b) <= bytes && |BegunBytes(b)| <= first.at <= |bytes|
            && var refusal := FirstRefusal(minimal, rules, [], limit, 0, b);
               JudgeAll(minimal, rules, limit, bytes) == Reported(refusal, first.at, first.breach)
               && (refusal.Some? ==> refusal.value.at <= first.at)
  {
    hide JudgeFlow, SkimBody, ParseBody, Walked, ReadBody, FirstRefusal, Sized, Soundly, BegunBytes, Headed, Breaks;
    SkimParses(minimal, Walked(rules), [], limit, None, bytes, 0);
    ReadFronts(minimal, Walked(rules), limit, [], limit, limit, None, bytes, 0);
    BrokenFlow(minimal, rules, limit, [], limit, limit, None, bytes, 0);
    UnreadableIsRefused(minimal, rules, limit, bytes);
    var first := SkimBody(minimal, Walked(rules), [], limit, None, bytes, 0);
    BreachIs(minimal, Walked(rules), [], limit, None, bytes, 0, first.at, first.breach);
  }
}
