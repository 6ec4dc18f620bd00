/** The judgment of one pass over the bytes: each record is read, judged and
    entered before the next one is read (src/inplace/grouped.rs). */
module Judgment {
  import opened Varints
  import opened Wire
  import opened Scanning
  import opened Writes
  import opened Paths
  import opened InPlace
  import Layers

  /** What a job did, record by record. */
  datatype Receipt = Receipt(replaced: nat, renumbered: nat, substituted: nat, tombstoned: nat)
  {
    function Plus(that: Receipt): Receipt {
      Receipt(replaced + that.replaced, renumbered + that.renumbered,
              substituted + that.substituted, tombstoned + that.tombstoned)
    }
  }

  const NOTHING_DONE := Receipt(0, 0, 0, 0)

  function Counted(action: Action): Receipt {
    match action
    case Renumber(_) => NOTHING_DONE.(renumbered := 1)
    case ReplaceRecord(_) => NOTHING_DONE.(substituted := 1)
    case Tombstone(_) => NOTHING_DONE.(tombstoned := 1)
    case _ => NOTHING_DONE.(replaced := 1)
  }

  /** A stretch of the document judged: what it plans, and what follows it. */
  datatype Flow =
    | Flowed(writes: seq<Planned>, receipt: Receipt, endWidth: nat, rest: seq<Byte>)
    | Stopped(fault: Fault)
  {
    /** A closed record leaves no end tag to its surroundings. */
    function Closed(): Flow {
      if Stopped? then this else this.(endWidth := 0)
    }

    /** This stretch and what is judged after it. */
    function Then(more: Flow): Flow
      requires Flowed?
    {
      if more.Stopped? then more
      else Flowed(writes + more.writes, receipt.Plus(more.receipt), more.endWidth, more.rest)
    }
  }

  /** Records to the end of the window or the end tag of `open`. `budget` is the
      depth left to this body, `room` what the cursor itself would still open. */
  function JudgeFlow(minimal: bool, rules: Rules, limit: nat, trail: Word, budget: nat, room: nat,
                     open: Option<Field>, s: seq<Byte>, at: nat): (r: Flow)
    requires Layers.Admitted(ProgramOf(rules)) && |s| <= MAX_LEN
    ensures r.Flowed? ==> |r.rest| <= |s|
    ensures r.Flowed? && open.Some? ==> 1 <= r.endWidth <= 5 && |r.rest| + r.endWidth <= |s|
    ensures r.Flowed? && open.None? ==> r.endWidth == 0 && r.rest == []
    decreases |s|, 1
  {
    hide NextEntry, FlowEntry, ItemBytes, Entry.Delivered;
    if s == [] then
      if open.None? then Flowed([], NOTHING_DONE, 0, []) else Stopped(Fault(at, Wire(Grouping)))
    else
      match NextEntry(minimal, open, room, s, at)
      case Broken(p, breach) => Stopped(Fault(p, Wire(breach)))
      case Got(entry) =>
        if entry.Exit? then Flowed([], NOTHING_DONE, entry.width, entry.rest)
        else
          NextDelivers(minimal, open, room, s, at);
          var first := FlowEntry(minimal, rules, limit, trail, budget, room, entry, |s|, at);
          if first.Stopped? then first
          else
            var more := JudgeFlow(minimal, rules, limit, trail, budget, room, open, first.rest,
                                  at + |s| - |first.rest|);
            first.Then(more)
  }

  /** One delivered head: its verdict first, then what its action needs. */
  function FlowEntry(minimal: bool, rules: Rules, limit: nat, trail: Word, budget: nat, room: nat,
                     entry: Entry, size: nat, at: nat): (r: Flow)
    requires Layers.Admitted(ProgramOf(rules))
    requires entry.Delivered(size, room) && size <= MAX_LEN
    ensures r.Flowed? ==> |r.rest| < size
    decreases size, 0, 2
  {
    hide ItemBytes;
    var word := trail + [entry.Number()];
    match ClaimAt(rules, word)
    case Clash(a, b) => Stopped(Fault(at, TwoRules(a, b)))
    case Free => FlowInside(minimal, rules, limit, word, budget, room, entry, size, at).Closed()
    case By(rule, action) =>
      if action.Renumber? then FlowRenumber(minimal, rules, limit, word, budget, room, entry, size, at, rule,
                                            action.field)
      else if entry.Enter? then FlowOwned(minimal, budget, room, entry, size, at, rule, action)
      else
        match Claimed(minimal, rule, action, budget, at, entry.item)
        case Refused(fault) => Stopped(fault)
        case Allowed(w) => Flowed([w], Counted(action), 0, entry.rest)
  }

  /** A group wholly owned by a rule still crosses by syntax, unjudged inside;
      the extent its end tag closes is what the action is judged against. */
  function FlowOwned(minimal: bool, budget: nat, room: nat, entry: Entry, size: nat, at: nat,
                     rule: Layers.U16, action: Action): (r: Flow)
    requires entry.Enter? && entry.Delivered(size, room) && size <= MAX_LEN
    ensures r.Flowed? ==> |r.rest| < size
  {
    if !action.ReplaceRecord? && !action.Tombstone? then Stopped(Fault(at, KindMismatch(rule)))
    else if budget == 0 then Stopped(Fault(at, Wire(TooDeep)))
    else
      match SkimBody(minimal, NO_ROUTE, [], budget - 1, Some(entry.field), entry.rest, at + size - |entry.rest|)
      case Broken(p, breach) => Stopped(Fault(p, Wire(breach)))
      case Got(body) =>
        match ClaimExtent(minimal, rule, action, budget, at, size - |body.rest|)
        case Refused(fault) => Stopped(fault)
        case Allowed(w) => Flowed([w], Counted(action), 0, body.rest)
  }

  /** Both tags of a group, or the one of any other record, take the new number
      at their met widths; the inside is judged under the number met. */
  function FlowRenumber(minimal: bool, rules: Rules, limit: nat, inner: Word, budget: nat, room: nat,
                        entry: Entry, size: nat, at: nat, rule: Layers.U16, field: Field): (r: Flow)
    requires Layers.Admitted(ProgramOf(rules)) && entry.Delivered(size, room) && size <= MAX_LEN
    ensures r.Flowed? ==> |r.rest| < size
    decreases size, 0, 1
  {
    hide ItemBytes;
    var code := if entry.Enter? then GROUP_CODE else entry.item.Code();
    var width: WordWidth := if entry.Enter? then entry.width else entry.item.tagWidth;
    var word := TagWord(field, code);
    if entry.Enter? && budget == 0 then Stopped(Fault(at, Wire(TooDeep)))
    else if !WidthFits(minimal, EncodedLen(word), width) then
      Stopped(Fault(at, BadTagWidth(rule, EncodedLen(word), width)))
    else
      var inside := FlowInside(minimal, rules, limit, inner, budget, room, entry, size, at);
      if inside.Stopped? then inside
      else if !entry.Enter? then
        Flowed([TagAt(at, width, word)] + inside.writes, NOTHING_DONE.(renumbered := 1).Plus(inside.receipt), 0,
               inside.rest)
      else
        var end := at + size - |inside.rest| - inside.endWidth;
        var endWord := TagWord(field, END_CODE);
        if !WidthFits(minimal, EncodedLen(endWord), inside.endWidth) then
          Stopped(Fault(end, BadTagWidth(rule, EncodedLen(endWord), inside.endWidth)))
        else
          Flowed(inside.writes + [TagAt(at, width, word)] + [TagAt(end, inside.endWidth, endWord)],
                 inside.receipt.Plus(NOTHING_DONE.(renumbered := 1)), 0, inside.rest)
  }

  /** What an unowned head leads into: a group always, a LEN record where some
      path continues past it. */
  function FlowInside(minimal: bool, rules: Rules, limit: nat, inner: Word, budget: nat, room: nat,
                      entry: Entry, size: nat, at: nat): (r: Flow)
    requires Layers.Admitted(ProgramOf(rules)) && entry.Delivered(size, room) && size <= MAX_LEN
    ensures r.Flowed? ==> |r.rest| < size
    ensures r.Flowed? && entry.Enter? ==> 1 <= r.endWidth <= 5 && |r.rest| + r.endWidth <= |entry.rest|
    decreases size, 0, 0
  {
    hide ItemBytes;
    if entry.Whole? && !(entry.item.Len? && Routes(rules, inner)) then Flowed([], NOTHING_DONE, 0, entry.rest)
    else if budget == 0 then Stopped(Fault(at, Wire(TooDeep)))
    else if entry.Whole? then
      var payload := entry.item.payload;
      var body := JudgeFlow(minimal, rules, limit, inner, budget - 1, limit, None, payload,
                            at + size - |entry.rest| - |payload|);
      if body.Stopped? then body else Flowed(body.writes, body.receipt, 0, entry.rest)
    else JudgeFlow(minimal, rules, limit, inner, budget - 1, room - 1, Some(entry.field), entry.rest,
                   at + size - |entry.rest|)
  }

  // ─── what the tree would say ───

  function ReceiptOf(rules: Rules, trail: Word, item: Item): Receipt
    decreases item, 1
  {
    var word := trail + [item.field];
    match ClaimAt(rules, word)
    case Clash(_, _) => NOTHING_DONE
    case Free => ReceiptInside(rules, word, item)
    case By(_, action) =>
      if action.Renumber? then Counted(action).Plus(ReceiptInside(rules, word, item)) else Counted(action)
  }

  function ReceiptInside(rules: Rules, inner: Word, item: Item): Receipt
    decreases item, 0
  {
    if item.Msg? || item.Group? then ReceiptBody(rules, inner, item.body) else NOTHING_DONE
  }

  /** One count per claimed record the walk meets. */
  function ReceiptBody(rules: Rules, trail: Word, items: seq<Item>): Receipt
    decreases items, 2
  {
    if items == [] then NOTHING_DONE else ReceiptOf(rules, trail, items[0]).Plus(ReceiptBody(rules, trail, items[1..]))
  }

  function FlowOf(judged: Judged<seq<Planned>>, receipt: Receipt, endWidth: nat, rest: seq<Byte>): Flow {
    match judged
    case Refused(fault) => Stopped(fault)
    case Allowed(writes) => Flowed(writes, receipt, endWidth, rest)
  }

  /** The first breach of the bytes, or a rule's refusal of a record before it. */
  predicate Halts(flow: Flow, at: nat, breach: Breach) {
    flow.Stopped? && (flow.fault == Fault(at, Wire(breach)) || (!flow.fault.kind.Wire? && flow.fault.at <= at))
  }

  /** A judgment names a place inside the record, and no breach of the bytes
      while the record is within its depth. */
  predicate Near(judged: Judged<seq<Planned>>, at: nat, size: nat, deep: bool) {
    judged.Refused? ==> at <= judged.fault.at <= at + size && (!deep ==> !judged.fault.kind.Wire?)
  }

  lemma {:induction false} ItemNear(minimal: bool, rules: Rules, trail: Word, budget: nat, at: nat, item: Item)
    requires |ItemBytes(item)| <= MAX_LEN
    ensures Near(JudgeItem(minimal, rules, trail, budget, at, item), at, |ItemBytes(item)|, Depth(item) > budget)
    decreases item, 2
  {
    hide ItemBytes, Depth, JudgeInside, JudgeRenumber, Claimed;
    var word := trail + [item.field];
    match ClaimAt(rules, word)
    case Clash(_, _) =>
    case Free => InsideNear(minimal, rules, word, budget, at, item);
    case By(rule, action) =>
      if action.Renumber? {
        RenumberNear(minimal, rules, word, budget, at, item, rule, action.field);
      } else {
        ClaimedNear(minimal, rule, action, budget, at, item);
      }
  }

  lemma ClaimedNear(minimal: bool, rule: Layers.U16, action: Action, budget: nat, at: nat, item: Item)
    requires !action.Renumber? && |ItemBytes(item)| <= MAX_LEN
    ensures Claimed(minimal, rule, action, budget, at, item).Refused? ==>
              var fault := Claimed(minimal, rule, action, budget, at, item).fault; fault.at == at && !fault.kind.Wire?
  {
    hide ItemBytes, EncodedLen, SkimItem;
  }

  lemma {:induction false} RenumberNear(minimal: bool, rules: Rules, inner: Word, budget: nat, at: nat, item: Item,
                                        rule: Layers.U16, field: Field)
    requires |ItemBytes(item)| <= MAX_LEN
    ensures Near(JudgeRenumber(minimal, rules, inner, budget, at, item, rule, field), at, |ItemBytes(item)|,
                 Depth(item) > budget)
    decreases item, 1
  {
    hide ItemBytes, Depth, JudgeInside, EncodedLen;
    InsideNear(minimal, rules, inner, budget, at, item);
    if item.Group? {
      BodyInside(item);
    }
  }

  lemma {:induction false} InsideNear(minimal: bool, rules: Rules, inner: Word, budget: nat, at: nat, item: Item)
    requires |ItemBytes(item)| <= MAX_LEN
    ensures Near(JudgeInside(minimal, rules, inner, budget, at, item), at, |ItemBytes(item)|, Depth(item) > budget)
    decreases item, 0
  {
    hide BodyDepth, JudgeBody, ItemBytes, BodyBytes;
    if (item.Msg? || item.Group?) && budget > 0 {
      BodyFits(item);
      BodyInside(item);
      BodyNear(minimal, rules, inner, budget - 1, at + HeaderSize(item), item.body);
    }
  }

  lemma BodyInside(item: Item)
    requires item.Msg? || item.Group?
    ensures HeaderSize(item) + |BodyBytes(item.body)| <= |ItemBytes(item)|
  {
    hide Spell, BodyBytes;
  }

  lemma {:induction false} BodyNear(minimal: bool, rules: Rules, trail: Word, budget: nat, at: nat, items: seq<Item>)
    requires |BodyBytes(items)| <= MAX_LEN
    ensures Near(JudgeBody(minimal, rules, trail, budget, at, items), at, |BodyBytes(items)|, BodyDepth(items) > budget)
    decreases items, 3
  {
    hide ItemBytes, Depth, JudgeItem;
    if items != [] {
      ItemNear(minimal, rules, trail, budget, at, items[0]);
      BodyNear(minimal, rules, trail, budget, at + |ItemBytes(items[0])|, items[1..]);
    }
  }

  // ─── one pass judges what the tree judges ───

  /** No rule owns the containers on the way. */
  predicate Unowned(rules: Rules, word: Word) {
    forall m {:trigger word[..m]} :: 1 <= m <= |word| ==> !OwnedAt(rules, word[..m])
  }

  lemma UnownedStep(rules: Rules, trail: Word, field: Field)
    ensures Unowned(rules, trail + [field]) <==> Unowned(rules, trail) && !OwnedAt(rules, trail + [field])
  {
    var word := trail + [field];
    assert word[..|word|] == word;
    forall m | 1 <= m <= |trail| ensures word[..m] == trail[..m] {}
  }

  /** Under unowned containers the walk commits what the matcher routes, and
      below an owner nothing. */
  lemma WalkedIsRouted(rules: Rules, trail: Word, field: Field)
    requires Layers.Admitted(ProgramOf(rules)) && Unowned(rules, trail)
    ensures Walked(rules)(trail + [field]) <==> Routes(rules, trail + [field]) && !OwnedAt(rules, trail + [field])
    ensures OwnedAt(rules, trail + [field]) ==> Unrouted(Walked(rules), trail + [field])
  {
    hide Routes, OwnedAt;
    UnownedStep(rules, trail, field);
    forall word: Word | OwnedAt(rules, trail + [field]) && |trail| + 1 < |word|
           && word[..|trail| + 1] == trail + [field]
      ensures !Walked(rules)(word)
    {}
  }

  /** A body in one pass: the tree's judgment where the bytes read as records,
      else the first breach or a rule's refusal before it. */
  ghost predicate BodyAgrees(rules: Rules, minimal: bool, trail: Word, budget: nat, at: nat, flow: Flow,
                             skim: Scan<Body>)
  {
    match skim
    case Broken(p, breach) => Halts(flow, p, breach)
    case Got(body) =>
      && |BodyBytes(body.items)| <= MAX_LEN
      && flow == FlowOf(JudgeBody(minimal, rules, trail, budget, at, body.items),
                        ReceiptBody(rules, trail, body.items), body.endWidth, body.rest)
  }

  function EndWidthOf(item: Item): nat {
    if item.Group? then item.endWidth else 0
  }

  ghost predicate InsideAgrees(rules: Rules, minimal: bool, inner: Word, budget: nat, at: nat, flow: Flow,
                               skim: Scan<Parsed>)
  {
    match skim
    case Broken(p, breach) => Halts(flow, p, breach)
    case Got(parsed) =>
      && |ItemBytes(parsed.item)| <= MAX_LEN
      && flow == FlowOf(JudgeInside(minimal, rules, inner, budget, at, parsed.item),
                        ReceiptInside(rules, inner, parsed.item),
                        EndWidthOf(parsed.item), parsed.rest)
  }

  ghost predicate ItemAgrees(rules: Rules, minimal: bool, trail: Word, budget: nat, at: nat, flow: Flow,
                             skim: Scan<Parsed>)
  {
    match skim
    case Broken(p, breach) => Halts(flow, p, breach)
    case Got(parsed) =>
      && |ItemBytes(parsed.item)| <= MAX_LEN
      && flow == FlowOf(JudgeItem(minimal, rules, trail, budget, at, parsed.item),
                        ReceiptOf(rules, trail, parsed.item), 0, parsed.rest)
  }

  /** What a skimmed record measures. */
  lemma SkimmedSize(minimal: bool, route: Route, trail: Word, budget: nat, open: Option<Field>, s: seq<Byte>, at: nat)
    requires s != [] && NextEntry(minimal, open, budget, s, at).Got?
             && !NextEntry(minimal, open, budget, s, at).value.Exit?
    requires SkimEntry(minimal, route, trail, budget, NextEntry(minimal, open, budget, s, at).value, |s|, at).Got?
    ensures var p := SkimEntry(minimal, route, trail, budget, NextEntry(minimal, open, budget, s, at).value, |s|,
                               at).value;
            |ItemBytes(p.item)| + |p.rest| == |s| && Depth(p.item) <= budget
  {
    hide NextEntry, SkimEntry, ParseItem, ItemBytes, Depth;
    SkimEntryParses(minimal, route, trail, budget, open, s, at);
    ParseItemSound(minimal, route, trail, budget, s);
  }

  lemma SkimmedBodySize(minimal: bool, route: Route, trail: Word, budget: nat, open: Option<Field>, s: seq<Byte>,
                        at: nat)
    requires SkimBody(minimal, route, trail, budget, open, s, at).Got?
    ensures var b := SkimBody(minimal, route, trail, budget, open, s, at).value;
            |BodyBytes(b.items)| + (if open.Some? then b.endWidth else 0) + |b.rest| == |s|
            && (open.None? ==> b.rest == []) && BodyDepth(b.items) <= budget
  {
    hide SkimBody, ParseBody, BodyBytes, BodyDepth, Spell;
    SkimParses(minimal, route, trail, budget, open, s, at);
    ParseBodySound(minimal, route, trail, budget, open, s);
  }

  lemma LenShape(item: Item)
    requires item.Len? || item.Msg?
    ensures |ItemBytes(item)| == item.tagWidth + item.prefixWidth + |LenPayload(item)|
  {
    hide Spell, BodyBytes;
  }

  lemma GroupShape(item: Item)
    requires item.Group?
    ensures |ItemBytes(item)| == item.tagWidth + |BodyBytes(item.body)| + item.endWidth
  {
    hide Spell, BodyBytes;
  }

  lemma {:induction false} InsideIsJudged(minimal: bool, rules: Rules, limit: nat, trail: Word, budget: nat,
                                          room: nat, entry: Entry, size: nat, at: nat)
    requires Layers.Admitted(ProgramOf(rules)) && entry.Delivered(size, room) && size <= MAX_LEN
    requires budget <= room <= limit && (entry.Enter? ==> budget > 0)
    requires Unowned(rules, trail) && !OwnedAt(rules, trail + [entry.Number()])
    requires var skim := SkimEntry(minimal, Walked(rules), trail, budget, entry, size, at);
             skim.Got? ==> |ItemBytes(skim.value.item)| + |skim.value.rest| == size
    ensures InsideAgrees(rules, minimal, trail + [entry.Number()], budget, at,
                         FlowInside(minimal, rules, limit, trail + [entry.Number()], budget, room, entry, size, at),
                         SkimEntry(minimal, Walked(rules), trail, budget, entry, size, at))
    decreases size, 0, 0
  {
    hide JudgeFlow, SkimBody, ItemBytes, BodyBytes, JudgeBody, ReceiptBody, Walked, OwnedAt, Unowned, Routes;
    var inner := trail + [entry.Number()];
    WalkedIsRouted(rules, trail, entry.Number());
    UnownedStep(rules, trail, entry.Number());
    if entry.Enter? {
      FlowIsJudged(minimal, rules, limit, inner, budget - 1, room - 1, Some(entry.field), entry.rest,
                   at + size - |entry.rest|);
    } else if entry.item.Len? && Routes(rules, inner) && budget > 0 {
      var payload := entry.item.payload;
      LenShape(entry.item);
      FlowIsJudged(minimal, rules, limit, inner, budget - 1, limit, None, payload,
                   at + size - |entry.rest| - |payload|);
    }
  }

  lemma {:induction false} RenumberIsJudged(minimal: bool, rules: Rules, limit: nat, trail: Word, budget: nat,
                                            room: nat, entry: Entry, size: nat, at: nat,
                                            rule: Layers.U16, field: Field)
    requires Layers.Admitted(ProgramOf(rules)) && entry.Delivered(size, room) && size <= MAX_LEN
    requires budget <= room <= limit && (entry.Enter? ==> budget > 0) && Unowned(rules, trail)
    requires ClaimAt(rules, trail + [entry.Number()]) == By(rule, Renumber(field))
    requires var skim := SkimEntry(minimal, Walked(rules), trail, budget, entry, size, at);
             skim.Got? ==> |ItemBytes(skim.value.item)| + |skim.value.rest| == size
    ensures ItemAgrees(rules, minimal, trail, budget, at,
                       FlowRenumber(minimal, rules, limit, trail + [entry.Number()], budget, room, entry, size, at,
                                    rule, field),
                       SkimEntry(minimal, Walked(rules), trail, budget, entry, size, at))
    decreases size, 0, 1
  {
    hide JudgeFlow, FlowInside, SkimBody, ItemBytes, BodyBytes, JudgeInside, ReceiptInside, Walked, Unowned, Routes,
         EncodedLen, ClaimAt,
         Layers.Admitted, ProgramOf;
    InsideIsJudged(minimal, rules, limit, trail, budget, room, entry, size, at);
    var skim := SkimEntry(minimal, Walked(rules), trail, budget, entry, size, at);
    if skim.Got? {
      var item := skim.value.item;
      SameHead(minimal, Walked(rules), trail, budget, entry, size, at);
      assert JudgeItem(minimal, rules, trail, budget, at, item)
          == JudgeRenumber(minimal, rules, trail + [entry.Number()], budget, at, item, rule, field);
      if item.Group? {
        GroupShape(item);
      }
    }
  }

  /** Skimming the inside changes nothing of the head. */
  lemma SameHead(minimal: bool, route: Route, trail: Word, budget: nat, entry: Entry, size: nat, at: nat)
    requires !entry.Exit? && |entry.rest| < size && (entry.Enter? ==> budget > 0)
    requires entry.Whole? ==> !entry.item.Msg? && !entry.item.Group?
    requires entry.Whole? && entry.item.Len? ==> |entry.item.payload| + |entry.rest| < size
    requires SkimEntry(minimal, route, trail, budget, entry, size, at).Got?
    ensures var item := SkimEntry(minimal, route, trail, budget, entry, size, at).value.item;
            && item.field == entry.Number() && (item.Group? <==> entry.Enter?)
            && item.tagWidth == (if entry.Enter? then entry.width else entry.item.tagWidth)
            && item.Code() == (if entry.Enter? then GROUP_CODE else entry.item.Code())
  {
    hide SkimBody;
  }

  lemma {:induction false} OwnedIsJudged(minimal: bool, rules: Rules, trail: Word, budget: nat, room: nat,
                                         entry: Entry, size: nat, at: nat,
                                         rule: Layers.U16, action: Action)
    requires Layers.Admitted(ProgramOf(rules)) && entry.Enter? && entry.Delivered(size, room) && size <= MAX_LEN
    requires budget > 0 && Unowned(rules, trail)
    requires ClaimAt(rules, trail + [entry.field]) == By(rule, action) && !action.Renumber?
    requires var skim := SkimEntry(minimal, Walked(rules), trail, budget, entry, size, at);
             skim.Got? ==> |ItemBytes(skim.value.item)| + |skim.value.rest| == size
    ensures ItemAgrees(rules, minimal, trail, budget, at,
                       FlowOwned(minimal, budget, room, entry, size, at, rule, action),
                       SkimEntry(minimal, Walked(rules), trail, budget, entry, size, at))
  {
    hide SkimBody, ItemBytes, Walked, Unowned, Routes, ClaimAt, ClaimExtent, Unrouted;
    var inner := trail + [entry.field];
    var inside := at + size - |entry.rest|;
    if action.ReplaceRecord? || action.Tombstone? {
      WalkedIsRouted(rules, trail, entry.field);
      SkimUnrouted(minimal, Walked(rules), inner, [], budget - 1, Some(entry.field), entry.rest, inside);
    }
  }

  lemma {:induction false} EntryIsJudged(minimal: bool, rules: Rules, limit: nat, trail: Word, budget: nat, room: nat,
                                         entry: Entry, size: nat, at: nat)
    requires Layers.Admitted(ProgramOf(rules)) && entry.Delivered(size, room) && size <= MAX_LEN
    requires budget <= room <= limit && (entry.Enter? ==> budget > 0) && Unowned(rules, trail)
    requires var skim := SkimEntry(minimal, Walked(rules), trail, budget, entry, size, at);
             skim.Got? ==> |ItemBytes(skim.value.item)| + |skim.value.rest| == size
    ensures ItemAgrees(rules, minimal, trail, budget, at,
                       FlowEntry(minimal, rules, limit, trail, budget, room, entry, size, at),
                       SkimEntry(minimal, Walked(rules), trail, budget, entry, size, at))
    decreases size, 0, 2
  {
    hide SkimBody, ItemBytes, Walked, Unowned, Routes, ClaimAt, Claimed, FlowInside, FlowRenumber, FlowOwned,
         JudgeInside, JudgeRenumber, ReceiptInside;
    var word := trail + [entry.Number()];
    var skim := SkimEntry(minimal, Walked(rules), trail, budget, entry, size, at);
    if skim.Got? {
      SameHead(minimal, Walked(rules), trail, budget, entry, size, at);
    }
    match ClaimAt(rules, word)
    case Clash(_, _) =>
    case Free =>
      InsideIsJudged(minimal, rules, limit, trail, budget, room, entry, size, at);
    case By(rule, action) =>
      if action.Renumber? {
        RenumberIsJudged(minimal, rules, limit, trail, budget, room, entry, size, at, rule, action.field);
      } else if entry.Enter? {
        OwnedIsJudged(minimal, rules, trail, budget, room, entry, size, at, rule, action);
      } else {
        WholeIsJudged(minimal, rules, trail, budget, room, entry, size, at, rule, action);
      }
  }

  /** A claimed record delivered whole: owned it stays opaque, and any other
      claim judges a message as it judges its bytes. */
  lemma WholeIsJudged(minimal: bool, rules: Rules, trail: Word, budget: nat, room: nat, entry: Entry, size: nat,
                      at: nat,
                      rule: Layers.U16, action: Action)
    requires Layers.Admitted(ProgramOf(rules)) && entry.Whole? && entry.Delivered(size, room) && size <= MAX_LEN
             && Unowned(rules, trail)
    requires ClaimAt(rules, trail + [entry.item.field]) == By(rule, action) && !action.Renumber?
    ensures var skim := SkimEntry(minimal, Walked(rules), trail, budget, entry, size, at);
            var judged := Claimed(minimal, rule, action, budget, at, entry.item);
            && (skim.Broken? ==> judged.Refused? && judged.fault.at == at <= skim.at && !judged.fault.kind.Wire?)
            && (skim.Got? && |ItemBytes(skim.value.item)| <= MAX_LEN ==>
                  judged == Claimed(minimal, rule, action, budget, at, skim.value.item)
                    && skim.value.rest == entry.rest)
  {
    hide SkimBody, ItemBytes, Walked, Unowned, Routes, ClaimAt, ClaimExtent;
    WalkedIsRouted(rules, trail, entry.item.field);
  }

  lemma FlowEnd(minimal: bool, rules: Rules, limit: nat, trail: Word, budget: nat, room: nat, open: Option<Field>,
                at: nat)
    requires Layers.Admitted(ProgramOf(rules))
    ensures JudgeFlow(minimal, rules, limit, trail, budget, room, open, [], at)
         == if open.None? then Flowed([], NOTHING_DONE, 0, []) else Stopped(Fault(at, Wire(Grouping)))
  {}

  lemma FlowStep(minimal: bool, rules: Rules, limit: nat, trail: Word, budget: nat, room: nat, open: Option<Field>,
                 s: seq<Byte>, at: nat)
    requires Layers.Admitted(ProgramOf(rules)) && s != [] && |s| <= MAX_LEN
    ensures var next, flow := NextEntry(minimal, open, room, s, at),
                              JudgeFlow(minimal, rules, limit, trail, budget, room, open, s, at);
            && (next.Broken? ==> flow == Stopped(Fault(next.at, Wire(next.breach))))
            && (next.Got? && next.value.Exit? ==> flow == Flowed([], NOTHING_DONE, next.value.width, next.value.rest))
            && (next.Got? && next.value.Delivered(|s|, room) ==>
                  var first := FlowEntry(minimal, rules, limit, trail, budget, room, next.value, |s|, at);
                  if first.Stopped? then flow == first
                  else
                    flow == first.Then(JudgeFlow(minimal, rules, limit, trail, budget, room, open, first.rest,
                                                 at + |s| - |first.rest|)))
  {
    hide NextEntry, FlowEntry, ItemBytes, Flow.Then, Layers.Admitted, ProgramOf;
  }

  /** Depth runs out at the walk's own budget, never later than at the cursor's. */
  lemma RoomOrBudget(minimal: bool, open: Option<Field>, budget: nat, room: nat, s: seq<Byte>, at: nat)
    requires s != [] && budget <= room
    ensures var met, told := NextEntry(minimal, open, room, s, at), NextEntry(minimal, open, budget, s, at);
            if budget == 0 && met.Got? && met.value.Enter? then told == Broken(at, TooDeep) else told == met
  {
    hide ScanHead, ScanScalar, ScanLen;
  }

  lemma DeepHead(minimal: bool, rules: Rules, limit: nat, trail: Word, room: nat, entry: Entry, size: nat, at: nat)
    requires Layers.Admitted(ProgramOf(rules)) && entry.Enter? && entry.Delivered(size, room) && size <= MAX_LEN
    ensures Halts(FlowEntry(minimal, rules, limit, trail, 0, room, entry, size, at), at, TooDeep)
  {
    hide ClaimAt, JudgeFlow, Routes, EncodedLen, SkimBody, ClaimExtent;
  }

  lemma {:induction false} EntryStep(minimal: bool, rules: Rules, limit: nat, trail: Word, budget: nat, room: nat,
                                     open: Option<Field>, s: seq<Byte>, at: nat)
    requires Layers.Admitted(ProgramOf(rules)) && 0 < |s| <= MAX_LEN && budget <= room <= limit && Unowned(rules, trail)
    requires NextEntry(minimal, open, room, s, at).Got?
             && NextEntry(minimal, open, room, s, at) == NextEntry(minimal, open, budget, s, at)
    requires NextEntry(minimal, open, room, s, at).value.Delivered(|s|, room)
    ensures var entry := NextEntry(minimal, open, room, s, at).value;
            var skim := SkimEntry(minimal, Walked(rules), trail, budget, entry, |s|, at);
            && ItemAgrees(rules, minimal, trail, budget, at,
                          FlowEntry(minimal, rules, limit, trail, budget, room, entry, |s|, at), skim)
            && (skim.Got? ==>
                  |ItemBytes(skim.value.item)| + |skim.value.rest| == |s| && Depth(skim.value.item) <= budget)
    decreases |s|, 0, 3
  {
    hide NextEntry, SkimEntry, FlowEntry, Walked, Unowned, ItemBytes, JudgeItem, ReceiptOf, Depth;
    var entry := NextEntry(minimal, open, room, s, at).value;
    if SkimEntry(minimal, Walked(rules), trail, budget, entry, |s|, at).Got? {
      SkimmedSize(minimal, Walked(rules), trail, budget, open, s, at);
    }
    EntryIsJudged(minimal, rules, limit, trail, budget, room, entry, |s|, at);
  }

  lemma NothingJudged(minimal: bool, rules: Rules, trail: Word, budget: nat, at: nat)
    ensures JudgeBody(minimal, rules, trail, budget, at, []) == Allowed([])
            && ReceiptBody(rules, trail, []) == NOTHING_DONE
    ensures BodyBytes([]) == []
  {}

  /** A judged record in front of a judged body. */
  lemma MoreGrows(minimal: bool, rules: Rules, trail: Word, budget: nat, open: Option<Field>, at: nat, item: Item,
                  rest: seq<Byte>, next: nat)
    requires Layers.Admitted(ProgramOf(rules)) && next == at + |ItemBytes(item)|
             && |ItemBytes(item)| + |rest| <= MAX_LEN && Depth(item) <= budget
    ensures var judged := JudgeItem(minimal, rules, trail, budget, at, item);
            var more := SkimBody(minimal, Walked(rules), trail, budget, open, rest, next);
            && (more.Broken? && judged.Refused? ==> Halts(Stopped(judged.fault), more.at, more.breach))
            && (more.Got? ==>
                  && |BodyBytes([item] + more.value.items)| <= MAX_LEN && |BodyBytes(more.value.items)| <= MAX_LEN
                  && ReceiptBody(rules, trail, [item] + more.value.items)
                    == ReceiptOf(rules, trail, item).Plus(ReceiptBody(rules, trail, more.value.items))
                  && var all, tail := JudgeBody(minimal, rules, trail, budget, at, [item] + more.value.items),
                                      JudgeBody(minimal, rules, trail, budget, next, more.value.items);
                  all == if judged.Refused? then judged
                    else if tail.Refused? then tail else Allowed(judged.value + tail.value))
  {
    hide ItemBytes, Depth, JudgeItem, Walked, SkimBody, ReceiptOf;
    ItemNear(minimal, rules, trail, budget, at, item);
    var more := SkimBody(minimal, Walked(rules), trail, budget, open, rest, next);
    if more.Got? {
      SkimmedBodySize(minimal, Walked(rules), trail, budget, open, rest, next);
      var items := more.value.items;
      assert ([item] + items)[0] == item && ([item] + items)[1..] == items;
    }
  }

  /** The end of a body, or its breach, is judged alike. */
  lemma EndAgrees(rules: Rules, minimal: bool, trail: Word, budget: nat, at: nat, flow: Flow, skim: Scan<Body>)
    requires skim.Broken? ==> Halts(flow, skim.at, skim.breach)
    requires skim.Got? ==>
               skim.value.items == [] && flow == Flowed([], NOTHING_DONE, skim.value.endWidth, skim.value.rest)
    ensures BodyAgrees(rules, minimal, trail, budget, at, flow, skim)
  {
    NothingJudged(minimal, rules, trail, budget, at);
  }

  lemma {:induction false} FlowIsJudged(minimal: bool, rules: Rules, limit: nat, trail: Word, budget: nat, room: nat,
                                        open: Option<Field>, s: seq<Byte>, at: nat)
    requires Layers.Admitted(ProgramOf(rules)) && |s| <= MAX_LEN && budget <= room <= limit && Unowned(rules, trail)
    ensures BodyAgrees(rules, minimal, trail, budget, at,
                       JudgeFlow(minimal, rules, limit, trail, budget, room, open, s, at),
                       SkimBody(minimal, Walked(rules), trail, budget, open, s, at))
    decreases |s|, 1
  {
    hide NextEntry, SkimEntry, FlowEntry, SkimBody, JudgeFlow, Walked, Unowned, BodyAgrees,
         Layers.Admitted, ProgramOf, Entry.Delivered;
    var skim := SkimBody(minimal, Walked(rules), trail, budget, open, s, at);
    var flow := JudgeFlow(minimal, rules, limit, trail, budget, room, open, s, at);
    if s == [] {
      WindowEnd(minimal, Walked(rules), trail, budget, open, at);
      FlowEnd(minimal, rules, limit, trail, budget, room, open, at);
      EndAgrees(rules, minimal, trail, budget, at, flow, skim);
    } else {
      FlowStep(minimal, rules, limit, trail, budget, room, open, s, at);
      SkimBodyStep(minimal, Walked(rules), trail, budget, open, s, at);
      RoomOrBudget(minimal, open, budget, room, s, at);
      var next := NextEntry(minimal, open, room, s, at);
      if next.Broken? || next.value.Exit? {
        EndAgrees(rules, minimal, trail, budget, at, flow, skim);
      } else {
        NextDelivers(minimal, open, room, s, at);
        if next.value.Enter? && budget == 0 {
          DeepHead(minimal, rules, limit, trail, room, next.value, |s|, at);
          EndAgrees(rules, minimal, trail, budget, at, flow, skim);
        } else {
          HeadIsJudged(minimal, rules, limit, trail, budget, room, open, s, at);
        }
      }
    }
  }

  /** A body that opens with a head within its depth. */
  lemma {:induction false} HeadIsJudged(minimal: bool, rules: Rules, limit: nat, trail: Word, budget: nat, room: nat,
                                        open: Option<Field>, s: seq<Byte>, at: nat)
    requires Layers.Admitted(ProgramOf(rules)) && 0 < |s| <= MAX_LEN && budget <= room <= limit && Unowned(rules, trail)
    requires NextEntry(minimal, open, room, s, at).Got?
             && NextEntry(minimal, open, room, s, at) == NextEntry(minimal, open, budget, s, at)
    requires NextEntry(minimal, open, room, s, at).value.Delivered(|s|, room)
    ensures BodyAgrees(rules, minimal, trail, budget, at,
                       JudgeFlow(minimal, rules, limit, trail, budget, room, open, s, at),
                       SkimBody(minimal, Walked(rules), trail, budget, open, s, at))
    decreases |s|, 0, 4
  {
    hide NextEntry, SkimEntry, FlowEntry, SkimBody, JudgeFlow, Walked, Unowned, ItemBytes, JudgeItem, ReceiptOf,
         JudgeBody, ReceiptBody, BodyBytes, Depth, Layers.Admitted, ProgramOf;
    FlowStep(minimal, rules, limit, trail, budget, room, open, s, at);
    SkimBodyStep(minimal, Walked(rules), trail, budget, open, s, at);
    EntryStep(minimal, rules, limit, trail, budget, room, open, s, at);
    var next := NextEntry(minimal, open, room, s, at).value;
    var first := SkimEntry(minimal, Walked(rules), trail, budget, next, |s|, at);
    if first.Got? {
      var Parsed(item, rest) := first.value;
      var after := at + |s| - |rest|;
      FlowIsJudged(minimal, rules, limit, trail, budget, room, open, rest, after);
      Joined(minimal, rules, trail, budget, open, at, item, rest, after,
             JudgeFlow(minimal, rules, limit, trail, budget, room, open, rest, after));
    }
  }

  /** A judged record in front of a judged rest. */
  lemma Joined(minimal: bool, rules: Rules, trail: Word, budget: nat, open: Option<Field>, at: nat, item: Item,
               rest: seq<Byte>, next: nat, flow: Flow)
    requires Layers.Admitted(ProgramOf(rules)) && next == at + |ItemBytes(item)|
             && |ItemBytes(item)| + |rest| <= MAX_LEN && Depth(item) <= budget
    requires BodyAgrees(rules, minimal, trail, budget, next, flow,
                        SkimBody(minimal, Walked(rules), trail, budget, open, rest, next))
    ensures var first := FlowOf(JudgeItem(minimal, rules, trail, budget, at, item), ReceiptOf(rules, trail, item), 0,
                                rest);
            var more := SkimBody(minimal, Walked(rules), trail, budget, open, rest, next);
            BodyAgrees(rules, minimal, trail, budget, at,
                       if first.Stopped? then first else first.Then(flow),
                       if more.Broken? then more
                       else Got(Body([item] + more.value.items, more.value.endWidth, more.value.rest)))
  {
    hide SkimBody, Walked, ItemBytes, JudgeItem, ReceiptOf, JudgeBody, ReceiptBody, BodyBytes, Depth, Layers.Admitted,
         ProgramOf;
    MoreGrows(minimal, rules, trail, budget, open, at, item, rest, next);
  }

  // ─── a head's flow, claim by claim ───

  lemma EntryIs(minimal: bool, rules: Rules, limit: nat, trail: Word, budget: nat, room: nat, entry: Entry, size: nat,
                at: nat)
    requires Layers.Admitted(ProgramOf(rules)) && entry.Delivered(size, room) && size <= MAX_LEN
    ensures var flow := FlowEntry(minimal, rules, limit, trail, budget, room, entry, size, at);
            var word := trail + [entry.Number()];
            var claim := ClaimAt(rules, word);
            && (claim.Clash? ==> flow == Stopped(Fault(at, TwoRules(claim.first, claim.second))))
            && (claim.Free? ==> flow == FlowInside(minimal, rules, limit, word, budget, room, entry, size, at).Closed())
            && (claim.By? && claim.action.Renumber? ==>
                  flow == FlowRenumber(minimal, rules, limit, word, budget, room, entry, size, at, claim.rule,
                                       claim.action.field))
            && (claim.By? && !claim.action.Renumber? && entry.Enter? ==>
                  flow == FlowOwned(minimal, budget, room, entry, size, at, claim.rule, claim.action))
            && (claim.By? && !claim.action.Renumber? && entry.Whole? ==>
                  var judged := Claimed(minimal, claim.rule, claim.action, budget, at, entry.item);
                  flow == if judged.Refused? then Stopped(judged.fault)
                    else Flowed([judged.value], Counted(claim.action), 0, entry.rest))
  {
    hide ClaimAt, FlowInside, FlowRenumber, FlowOwned, Claimed, Layers.Admitted, ProgramOf, ItemBytes;
  }

  lemma InsideIs(minimal: bool, rules: Rules, limit: nat, inner: Word, budget: nat, room: nat, entry: Entry,
                 size: nat, at: nat)
    requires Layers.Admitted(ProgramOf(rules)) && entry.Delivered(size, room) && size <= MAX_LEN
    ensures var flow := FlowInside(minimal, rules, limit, inner, budget, room, entry, size, at);
            if entry.Whole? && !(entry.item.Len? && Routes(rules, inner)) then
              flow == Flowed([], NOTHING_DONE, 0, entry.rest)
            else if budget == 0 then flow == Stopped(Fault(at, Wire(TooDeep)))
            else if entry.Whole? then
              var payload := entry.item.payload;
              var body := JudgeFlow(minimal, rules, limit, inner, budget - 1, limit, None, payload,
                                    at + size - |entry.rest| - |payload|);
              flow == if body.Stopped? then body else Flowed(body.writes, body.receipt, 0, entry.rest)
            else flow == JudgeFlow(minimal, rules, limit, inner, budget - 1, room - 1, Some(entry.field), entry.rest,
                                   at + size - |entry.rest|)
  {
    hide JudgeFlow, Routes, Layers.Admitted, ProgramOf, ItemBytes;
  }

  lemma RenumberIs(minimal: bool, rules: Rules, limit: nat, inner: Word, budget: nat, room: nat, entry: Entry,
                   size: nat, at: nat,
                   rule: Layers.U16, field: Field)
    requires Layers.Admitted(ProgramOf(rules)) && entry.Delivered(size, room) && size <= MAX_LEN
    ensures var flow := FlowRenumber(minimal, rules, limit, inner, budget, room, entry, size, at, rule, field);
            var inside := FlowInside(minimal, rules, limit, inner, budget, room, entry, size, at);
            var one := NOTHING_DONE.(renumbered := 1);
            var width: WordWidth := if entry.Enter? then entry.width else entry.item.tagWidth;
            var word := TagWord(field, if entry.Enter? then GROUP_CODE else entry.item.Code());
            var endWord := TagWord(field, END_CODE);
            if entry.Enter? && budget == 0 then flow == Stopped(Fault(at, Wire(TooDeep)))
            else if !WidthFits(minimal, EncodedLen(word), width) then
              flow == Stopped(Fault(at, BadTagWidth(rule, EncodedLen(word), width)))
            else if inside.Stopped? then flow == inside
            else if entry.Whole? then
              flow == Flowed([TagAt(at, width, word)] + inside.writes, one.Plus(inside.receipt), 0, inside.rest)
            else
              var end := at + size - |inside.rest| - inside.endWidth;
              flow == if !WidthFits(minimal, EncodedLen(endWord), inside.endWidth)
                      then Stopped(Fault(end, BadTagWidth(rule, EncodedLen(endWord), inside.endWidth)))
                      else Flowed(inside.writes + [TagAt(at, width, word)] + [TagAt(end, inside.endWidth, endWord)],
                                  inside.receipt.Plus(one), 0, inside.rest)
  {
    hide FlowInside, EncodedLen, Layers.Admitted, ProgramOf, ItemBytes;
  }

  lemma {:induction false} FlowEnds(minimal: bool, rules: Rules, limit: nat, trail: Word, budget: nat, room: nat,
                                    open: Option<Field>, s: seq<Byte>, at: nat)
    requires Layers.Admitted(ProgramOf(rules)) && |s| <= MAX_LEN
    requires JudgeFlow(minimal, rules, limit, trail, budget, room, open, s, at).Flowed?
    ensures Ends(JudgeFlow(minimal, rules, limit, trail, budget, room, open, s, at).rest, s)
    decreases |s|, 1
  {
    hide NextEntry, FlowEntry, JudgeFlow, Ends, Layers.Admitted, ProgramOf, Entry.Delivered;
    if s == [] {
      FlowEnd(minimal, rules, limit, trail, budget, room, open, at);
      EndsSelf([]);
    } else {
      FlowStep(minimal, rules, limit, trail, budget, room, open, s, at);
      NextEnds(minimal, open, room, s, at);
      var entry := NextEntry(minimal, open, room, s, at).value;
      if !entry.Exit? {
        NextDelivers(minimal, open, room, s, at);
        EntryFlowEnds(minimal, rules, limit, trail, budget, room, entry, |s|, at);
        var rest := FlowEntry(minimal, rules, limit, trail, budget, room, entry, |s|, at).rest;
        EndsThrough(rest, entry.rest, s);
        FlowEnds(minimal, rules, limit, trail, budget, room, open, rest, at + |s| - |rest|);
        EndsThrough(JudgeFlow(minimal, rules, limit, trail, budget, room, open, rest, at + |s| - |rest|).rest, rest, s);
      }
    }
  }

  lemma {:induction false} EntryFlowEnds(minimal: bool, rules: Rules, limit: nat, trail: Word, budget: nat, room: nat,
                                         entry: Entry, size: nat, at: nat)
    requires Layers.Admitted(ProgramOf(rules)) && entry.Delivered(size, room) && size <= MAX_LEN
    requires FlowEntry(minimal, rules, limit, trail, budget, room, entry, size, at).Flowed?
    ensures Ends(FlowEntry(minimal, rules, limit, trail, budget, room, entry, size, at).rest, entry.rest)
    decreases size, 0, 2
  {
    hide ClaimAt, Claimed, FlowInside, SkimBody, Ends, ClaimExtent, EncodedLen, Layers.Admitted, ProgramOf, ItemBytes;
    var word := trail + [entry.Number()];
    EndsSelf(entry.rest);
    if FlowInside(minimal, rules, limit, word, budget, room, entry, size, at).Flowed? {
      InsideFlowEnds(minimal, rules, limit, word, budget, room, entry, size, at);
    }
    if entry.Enter? && budget > 0 && SkimBody(minimal, NO_ROUTE, [], budget - 1, Some(entry.field), entry.rest,
                                              at + size - |entry.rest|).Got? {
      SkimEnds(minimal, NO_ROUTE, [], budget - 1, Some(entry.field), entry.rest, at + size - |entry.rest|);
    }
  }

  lemma {:induction false} InsideFlowEnds(minimal: bool, rules: Rules, limit: nat, inner: Word, budget: nat,
                                          room: nat, entry: Entry, size: nat, at: nat)
    requires Layers.Admitted(ProgramOf(rules)) && entry.Delivered(size, room) && size <= MAX_LEN
    requires FlowInside(minimal, rules, limit, inner, budget, room, entry, size, at).Flowed?
    ensures Ends(FlowInside(minimal, rules, limit, inner, budget, room, entry, size, at).rest, entry.rest)
    decreases size, 0, 0
  {
    hide JudgeFlow, Ends, Layers.Admitted, ProgramOf, ItemBytes, Routes;
    EndsSelf(entry.rest);
    if entry.Enter? {
      FlowEnds(minimal, rules, limit, inner, budget - 1, room - 1, Some(entry.field), entry.rest,
               at + size - |entry.rest|);
    }
  }

  // ─── the whole job's judgment ───

  /** Phase one on a whole document: everything is decided before the first write. */
  function JudgeAll(minimal: bool, rules: Rules, limit: nat, bytes: seq<Byte>): Flow
    requires Layers.Admitted(ProgramOf(rules))
  {
    if |bytes| > MAX_LEN then Stopped(Fault(0, Oversize))
    else JudgeFlow(minimal, rules, limit, [], limit, limit, None, bytes, 0)
  }

  function Plan(minimal: bool, rules: Rules, limit: nat, bytes: seq<Byte>): Judged<seq<Planned>>
    requires Layers.Admitted(ProgramOf(rules))
  {
    var flow := JudgeAll(minimal, rules, limit, bytes);
    if flow.Stopped? then Refused(flow.fault) else Allowed(flow.writes)
  }

  /** A document that reads as records is judged record by record, and never
      refused for its bytes; its receipt counts the claimed records. */
  lemma PlanIsTrees(minimal: bool, rules: Rules, limit: nat, bytes: seq<Byte>)
    requires Layers.Admitted(ProgramOf(rules)) && |bytes| <= MAX_LEN
             && Parse(minimal, Walked(rules), limit, bytes).Some?
    ensures var items := Parse(minimal, Walked(rules), limit, bytes).value;
            && |BodyBytes(items)| <= MAX_LEN
            && Plan(minimal, rules, limit, bytes) == JudgeBody(minimal, rules, [], limit, 0, items)
            && (Plan(minimal, rules, limit, bytes).Refused? ==> !Plan(minimal, rules, limit, bytes).fault.kind.Wire?)
            && (Plan(minimal, rules, limit, bytes).Allowed?
                ==> JudgeAll(minimal, rules, limit, bytes).receipt == ReceiptBody(rules, [], items))
  {
    hide JudgeFlow, SkimBody, ParseBody, JudgeBody, ReceiptBody, Walked, BodyBytes, BodyDepth;
    FlowIsJudged(minimal, rules, limit, [], limit, limit, None, bytes, 0);
    SkimParses(minimal, Walked(rules), [], limit, None, bytes, 0);
    SkimmedBodySize(minimal, Walked(rules), [], limit, None, bytes, 0);
    BodyNear(minimal, rules, [], limit, 0, Parse(minimal, Walked(rules), limit, bytes).value);
  }

  lemma AllowedReads(minimal: bool, rules: Rules, limit: nat, bytes: seq<Byte>)
    requires Layers.Admitted(ProgramOf(rules)) && Plan(minimal, rules, limit, bytes).Allowed?
    ensures |bytes| <= MAX_LEN && Parse(minimal, Walked(rules), limit, bytes).Some?
  {
    hide JudgeFlow, Parse, Walked, SkimBody;
    if |bytes| <= MAX_LEN && Parse(minimal, Walked(rules), limit, bytes).None? {
      UnreadableIsRefused(minimal, rules, limit, bytes);
    }
  }

  /** Any other document is refused: for its first breach, told by place and
      class whatever the rules, or by a rule for a record met no later. */
  lemma UnreadableIsRefused(minimal: bool, rules: Rules, limit: nat, bytes: seq<Byte>)
    requires Layers.Admitted(ProgramOf(rules)) && |bytes| <= MAX_LEN
             && Parse(minimal, Walked(rules), limit, bytes).None?
    ensures SkimBody(minimal, Walked(rules), [], limit, None, bytes, 0).Broken?
    ensures var first := SkimBody(minimal, Walked(rules), [], limit, None, bytes, 0);
            Halts(JudgeAll(minimal, rules, limit, bytes), first.at, first.breach)
  {
    hide JudgeFlow, SkimBody, ParseBody, Walked;
    FlowIsJudged(minimal, rules, limit, [], limit, limit, None, bytes, 0);
    SkimParses(minimal, Walked(rules), [], limit, None, bytes, 0);
  }
}
