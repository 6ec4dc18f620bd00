/** The refusal of a document that breaks off: of all the rules hold against what
    was read before the breach, what stands furthest to the front
    (src/inplace/grouped.rs). */
module Unfinished {
  import opened Sequences
  import opened Varints
  import opened Wire
  import opened Scanning
  import opened Breaches
  import opened Paths
  import opened InPlace
  import opened Judgment
  import opened Geometry
  import opened Acceptance
  import opened FirstFault
  import Layers

  // ─── what can be held against a head alone ───

  /** A record the head could have begun. */
  predicate Completes(head: Entry, item: Item)
    requires !head.Exit?
  {
    if head.Enter? then item.Group? && item.field == head.field && item.tagWidth == head.width
    else item.Msg? && head.item.Len? && item.field == head.item.field && item.tagWidth == head.item.tagWidth
  }

  /** An objection at the head however its record would have gone on; a group past
      its depth is refused for that before its tag is looked at. */
  ghost predicate HeadObjects(minimal: bool, rules: Rules, budget: nat, o: Opened, at: nat, word: Word, fault: Fault)
    requires !o.head.Exit?
  {
    && fault.at == at && (o.deep && o.head.Enter? ==> !fault.kind.BadTagWidth?)
    && forall item :: Completes(o.head, item) ==> Objects(minimal, rules, budget, item, at, word, fault)
  }

  /** What the rules hold against the records read and the heads entered. */
  ghost predicate BegunObjection(minimal: bool, rules: Rules, trail: Word, budget: nat, at: nat, b: Begun, fault: Fault)
    requires Sized(b)
    decreases b, 1
  {
    || Objection(minimal, rules, trail, budget, b.done, at, fault)
    || (b.open.Some? && OpenObjection(minimal, rules, trail, budget, at + |BodyBytes(b.done)|, b.open.value, fault))
  }

  ghost predicate OpenObjection(minimal: bool, rules: Rules, trail: Word, budget: nat, at: nat, o: Opened, fault: Fault)
    requires !o.head.Exit? && Sized(o.inside)
    decreases o, 0
  {
    var word := trail + [o.head.Number()];
    || HeadObjects(minimal, rules, budget, o, at, word, fault)
    || (!OwnedAt(rules, word)
        && BegunObjection(minimal, rules, word,
                          if budget == 0 then 0 else budget - 1, at + |HeadBytes(o.head)|, o.inside,
                          fault))
  }

  /** A LEN head is open only where no rule owns its record. */
  predicate OpensUnowned(rules: Rules, word: Word, head: Entry)
    requires !head.Exit?
  {
    head.Whole? ==> head.item.Len? && !OwnedAt(rules, word)
  }

  function SomeRecord(head: Entry, size: WordWidth): Item
    requires !head.Exit? && (head.Whole? ==> head.item.Len?)
  {
    if head.Enter? then Group(head.field, head.width, size, [])
    else Msg(head.item.field, head.item.tagWidth, size, [])
  }

  lemma SomeSize(head: Entry, size: WordWidth)
    requires !head.Exit? && (head.Whole? ==> head.item.Len?)
    ensures Completes(head, SomeRecord(head, size))
    ensures |ItemBytes(SomeRecord(head, size))| == SomeRecord(head, size).tagWidth + size
  {
    hide Spell, ItemBytes;
    EndsWithTag(SomeRecord(head, size));
  }

  /** What a head is refused for, before its inside is looked at. */
  function HeadOwn(minimal: bool, rules: Rules, o: Opened, at: nat, word: Word): Option<Fault>
    requires !o.head.Exit?
  {
    match ClaimAt(rules, word)
    case Clash(a, b) => Some(Fault(at, TwoRules(a, b)))
    case Free => None
    case By(rule, action) =>
      if action.Renumber? then
        var width: WordWidth := if o.head.Enter? then o.head.width else o.head.item.tagWidth;
        var need := EncodedLen(TagWord(action.field, if o.head.Enter? then GROUP_CODE else o.head.item.Code()));
        if (o.head.Enter? && o.deep) || WidthFits(minimal, need, width) then None
        else Some(Fault(at, BadTagWidth(rule, need, width)))
      else if o.head.Enter? && (action.ReplaceRecord? || action.Tombstone?) then None
      else Some(Fault(at, KindMismatch(rule)))
  }

  lemma HeadOwnIs(minimal: bool, rules: Rules, budget: nat, o: Opened, at: nat, word: Word, fault: Fault)
    requires !o.head.Exit? && OpensUnowned(rules, word, o.head)
    ensures HeadObjects(minimal, rules, budget, o, at, word, fault)
            <==> HeadOwn(minimal, rules, o, at, word) == Some(fault)
  {
    hide ClaimAt, ItemBytes, EncodedLen, WidthFits, Refuses, TagObjects, Completes;
    SomeSize(o.head, 1);
    var claim := ClaimAt(rules, word);
    if claim.By? && claim.action.Renumber? {
      forall item: Item | Completes(o.head, item) && fault.at == at
        ensures TagObjects(minimal, claim.rule, claim.action.field, at, item, fault)
           <==> TagObjects(minimal, claim.rule, claim.action.field, at, SomeRecord(o.head, 1), fault)
      {
        StartTagOnly(minimal, claim.rule, claim.action.field, at, o.head, item, fault);
        StartTagOnly(minimal, claim.rule, claim.action.field, at, o.head, SomeRecord(o.head, 1), fault);
      }
      if fault.at == at {
        StartTagOnly(minimal, claim.rule, claim.action.field, at, o.head, SomeRecord(o.head, 1), fault);
      }
    } else if claim.By? {
      if o.head.Enter? && (claim.action.ReplaceRecord? || claim.action.Tombstone?) {
        SomeSize(o.head, 2);
        ExtentsDiffer(minimal, claim.rule, claim.action, budget, at, o.head, fault);
      } else {
        forall item: Item | Completes(o.head, item)
          ensures Refuses(minimal, claim.rule, claim.action, budget, at, item, fault)
             <==> fault == Fault(at, KindMismatch(claim.rule))
        {
          KindOnly(minimal, claim.rule, claim.action, budget, at, o.head, item, fault);
        }
      }
    }
  }

  /** A renumber objects at the head to the start tag alone. */
  lemma StartTagOnly(minimal: bool, rule: Layers.U16, field: Field, at: nat, head: Entry, item: Item, fault: Fault)
    requires !head.Exit? && (head.Whole? ==> head.item.Len?) && Completes(head, item) && fault.at == at
    ensures var width: WordWidth := if head.Enter? then head.width else head.item.tagWidth;
            var need := EncodedLen(TagWord(field, if head.Enter? then GROUP_CODE else LEN_CODE));
            TagObjects(minimal, rule, field, at, item, fault)
            <==> !WidthFits(minimal, need, width) && fault == Fault(at, BadTagWidth(rule, need, width))
  {
    hide EncodedLen, ItemBytes, WidthFits;
    EndsWithTag(item);
    HeaderIsSome(item);
  }

  /** A claim on the extent objects differently to records of different sizes. */
  lemma ExtentsDiffer(minimal: bool, rule: Layers.U16, action: Action, budget: nat, at: nat, head: Entry, fault: Fault)
    requires head.Enter? && (action.ReplaceRecord? || action.Tombstone?)
    ensures || !Refuses(minimal, rule, action, budget, at, SomeRecord(head, 1), fault)
            || !Refuses(minimal, rule, action, budget, at, SomeRecord(head, 2), fault)
  {
    hide EncodedLen, ItemBytes, RecordBreaks, LeastFilling, Overlong, WidthFits;
    SomeSize(head, 1);
    SomeSize(head, 2);
  }

  /** A value claimed of a container is of the wrong kind, whatever the container. */
  lemma KindOnly(minimal: bool, rule: Layers.U16, action: Action, budget: nat, at: nat, head: Entry, item: Item,
                 fault: Fault)
    requires !head.Exit? && Completes(head, item) && !action.Renumber?
    requires if head.Enter? then !action.ReplaceRecord? && !action.Tombstone? else !action.Owns()
    ensures Refuses(minimal, rule, action, budget, at, item, fault) <==> fault == Fault(at, KindMismatch(rule))
  {
    hide EncodedLen, ItemBytes, RecordBreaks, LeastFilling, Overlong, WidthFits;
  }

  // ─── the refusal is the objection furthest to the front ───

  /** Whole records within their depth, containers entered within theirs. */
  predicate WithinDepth(budget: nat, b: Begun)
    decreases b
  {
    && BodyDepth(b.done) <= budget
    && (b.open.Some? ==>
          if b.open.value.deep then budget == 0 && b.open.value.inside == NOTHING_READ
          else budget > 0 && WithinDepth(budget - 1, b.open.value.inside))
  }

  /** Every LEN head entered is one the walk commits. */
  predicate Committed(rules: Rules, trail: Word, b: Begun)
    requires Headed(b)
    decreases b
  {
    b.open.Some? ==>
      var o := b.open.value;
      var word := trail + [o.head.Number()];
      OpensUnowned(rules, word, o.head) && Committed(rules, word, o.inside)
  }

  /** The first refusal, as the rules' judgment of what was read has it. */
  ghost predicate FirstOf(minimal: bool, rules: Rules, trail: Word, budget: nat, at: nat, b: Begun,
                          refusal: Option<Fault>)
    requires Sized(b)
  {
    match refusal
    case None => forall fault :: !BegunObjection(minimal, rules, trail, budget, at, b, fault)
    case Some(first) =>
      && BegunObjection(minimal, rules, trail, budget, at, b, first)
      && forall fault :: BegunObjection(minimal, rules, trail, budget, at, b, fault) ==>
           first.at < fault.at || first == fault
  }

  ghost predicate FirstInOpen(minimal: bool, rules: Rules, trail: Word, budget: nat, at: nat, o: Opened,
                              refusal: Option<Fault>)
    requires !o.head.Exit? && Sized(o.inside)
  {
    match refusal
    case None => forall fault :: !OpenObjection(minimal, rules, trail, budget, at, o, fault)
    case Some(first) =>
      && OpenObjection(minimal, rules, trail, budget, at, o, first)
      && forall fault :: OpenObjection(minimal, rules, trail, budget, at, o, fault) ==>
           first.at < fault.at || first == fault
  }

  lemma {:induction false} BegunIsAt(minimal: bool, rules: Rules, trail: Word, budget: nat, at: nat, b: Begun,
                                     fault: Fault)
    requires Sized(b) && WithinDepth(budget, b) && BegunObjection(minimal, rules, trail, budget, at, b, fault)
    ensures at <= fault.at
    decreases b, 1
  {
    hide Objection, OpenObjection, BodyDepth, BodyBytes;
    if Objection(minimal, rules, trail, budget, b.done, at, fault) {
      ObjectionInside(minimal, rules, trail, budget, b.done, at, fault);
    } else {
      OpenIsAt(minimal, rules, trail, budget, at + |BodyBytes(b.done)|, b.open.value, fault);
    }
  }

  lemma {:induction false} OpenIsAt(minimal: bool, rules: Rules, trail: Word, budget: nat, at: nat, o: Opened,
                                    fault: Fault)
    requires !o.head.Exit? && Sized(o.inside) && OpenObjection(minimal, rules, trail, budget, at, o, fault)
    requires if o.deep then budget == 0 && o.inside == NOTHING_READ else budget > 0 && WithinDepth(budget - 1, o.inside)
    ensures at <= fault.at
    ensures !HeadObjects(minimal, rules, budget, o, at, trail + [o.head.Number()], fault)
            ==> at + |HeadBytes(o.head)| <= fault.at
    decreases o, 0
  {
    hide HeadObjects, BegunObjection, HeadBytes, OwnedAt;
    var word := trail + [o.head.Number()];
    if HeadObjects(minimal, rules, budget, o, at, word, fault) {
      HeadObjectsAt(minimal, rules, budget, o, at, word, fault);
    } else {
      NothingWithin(budget);
      BegunIsAt(minimal, rules, word, if budget == 0 then 0 else budget - 1, at + |HeadBytes(o.head)|, o.inside, fault);
    }
  }

  lemma NothingWithin(budget: nat)
    ensures WithinDepth(budget, NOTHING_READ)
  {}

  lemma HeadObjectsAt(minimal: bool, rules: Rules, budget: nat, o: Opened, at: nat, word: Word, fault: Fault)
    requires !o.head.Exit? && HeadObjects(minimal, rules, budget, o, at, word, fault)
    ensures fault.at == at
  {
    hide Objects;
  }

  lemma HeadIsSome(head: Entry)
    requires !head.Exit? && (head.Whole? ==> head.item.Len?)
    ensures |HeadBytes(head)| > 0
  {
    hide Spell;
  }

  /** A container's own refusal stands before any inside it. */
  lemma {:induction false} OpenIsFirst(minimal: bool, rules: Rules, trail: Word, budget: nat, at: nat, o: Opened,
                                       route: Route)
    requires !o.head.Exit? && Sized(o.inside) && Headed(o.inside)
    requires Soundly(minimal, route, trail + [o.head.Number()], o.inside)
    requires if o.deep then budget == 0 && o.inside == NOTHING_READ else budget > 0 && WithinDepth(budget - 1, o.inside)
    requires OpensUnowned(rules, trail + [o.head.Number()], o.head)
    requires Committed(rules, trail + [o.head.Number()], o.inside)
    ensures FirstInOpen(minimal, rules, trail, budget, at, o, HeadRefusal(minimal, rules, trail, budget, at, o))
    decreases o, 0
  {
    hide ClaimAt, HeadObjects, HeadOwn, BegunObjection, OpenObjection, HeadBytes, FirstRefusal, FirstOf, Soundly,
         Committed, WithinDepth, Sized, Headed, EncodedLen, OwnedAt, HeadRefusal;
    var word, below := trail + [o.head.Number()], if budget == 0 then 0 else budget - 1;
    var inside := at + |HeadBytes(o.head)|;
    HeadIsSome(o.head);
    NothingWithin(below);
    BegunIsFirst(minimal, rules, word, below, inside, o.inside, route);
    forall fault
      ensures HeadObjects(minimal, rules, budget, o, at, word, fault)
              <==> HeadOwn(minimal, rules, o, at, word) == Some(fault)
    {
      HeadOwnIs(minimal, rules, budget, o, at, word, fault);
    }
    forall fault | HeadObjects(minimal, rules, budget, o, at, word, fault) ensures fault.at == at {
      HeadObjectsAt(minimal, rules, budget, o, at, word, fault);
    }
    forall fault | BegunObjection(minimal, rules, word, below, inside, o.inside, fault) ensures inside <= fault.at {
      BegunIsAt(minimal, rules, word, below, inside, o.inside, fault);
    }
    HeadRefusalSplits(minimal, rules, trail, budget, at, o);
    forall fault
      ensures OpenObjection(minimal, rules, trail, budget, at, o, fault)
         <==> || HeadOwn(minimal, rules, o, at, word) == Some(fault)
              || (!OwnedAt(rules, word) && BegunObjection(minimal, rules, word, below, inside, o.inside, fault))
    {
      OpenSplits(minimal, rules, trail, budget, at, o, fault);
    }
    FirstUnfolds(minimal, rules, word, below, inside, o.inside,
                 FirstRefusal(minimal, rules, word, below, inside, o.inside));
  }

  lemma OpenSplits(minimal: bool, rules: Rules, trail: Word, budget: nat, at: nat, o: Opened, fault: Fault)
    requires !o.head.Exit? && Sized(o.inside)
    ensures var word := trail + [o.head.Number()];
            OpenObjection(minimal, rules, trail, budget, at, o, fault)
            <==> || HeadObjects(minimal, rules, budget, o, at, word, fault)
                 || (!OwnedAt(rules, word)
                     && BegunObjection(minimal, rules, word, if budget == 0 then 0 else budget - 1,
                                       at + |HeadBytes(o.head)|, o.inside, fault))
  {
    hide HeadObjects, BegunObjection, OwnedAt, HeadBytes;
  }

  lemma BegunSplits(minimal: bool, rules: Rules, trail: Word, budget: nat, at: nat, b: Begun, fault: Fault)
    requires Sized(b)
    ensures BegunObjection(minimal, rules, trail, budget, at, b, fault)
       <==> || Objection(minimal, rules, trail, budget, b.done, at, fault)
            || (b.open.Some?
                && OpenObjection(minimal, rules, trail, budget, at + |BodyBytes(b.done)|, b.open.value, fault))
  {
    hide Objection, OpenObjection, BodyBytes;
  }

  /** The head's own refusal, or where nothing owns the record its inside's. */
  lemma HeadRefusalSplits(minimal: bool, rules: Rules, trail: Word, budget: nat, at: nat, o: Opened)
    requires !o.head.Exit? && Sized(o.inside) && (o.deep ==> budget == 0 && o.inside == NOTHING_READ)
    requires OpensUnowned(rules, trail + [o.head.Number()], o.head)
    ensures var word := trail + [o.head.Number()];
            var own := HeadOwn(minimal, rules, o, at, word);
            var inside := FirstRefusal(minimal, rules, word, if budget == 0 then 0 else budget - 1,
                                       at + |HeadBytes(o.head)|, o.inside);
            HeadRefusal(minimal, rules, trail, budget, at, o)
            == if own.Some? then own else if OwnedAt(rules, word) then None else inside
  {
    hide ClaimAt, FirstRefusal, HeadBytes, EncodedLen, Sized;
    var word := trail + [o.head.Number()];
    HeadRefusalIs(minimal, rules, trail, budget, at, o);
    if o.deep {
      NothingRead(minimal, rules, word, 0, at + |HeadBytes(o.head)|);
    }
  }

  lemma FirstUnfolds(minimal: bool, rules: Rules, trail: Word, budget: nat, at: nat, b: Begun, refusal: Option<Fault>)
    requires Sized(b) && FirstOf(minimal, rules, trail, budget, at, b, refusal)
    ensures refusal.None? ==> forall fault :: !BegunObjection(minimal, rules, trail, budget, at, b, fault)
    ensures refusal.Some? ==>
              && BegunObjection(minimal, rules, trail, budget, at, b, refusal.value)
              && forall fault :: BegunObjection(minimal, rules, trail, budget, at, b, fault) ==>
                   refusal.value.at < fault.at || refusal.value == fault
  {
    hide BegunObjection;
  }

  /** Of all that is held against what was read, the refusal stands furthest to the
      front, and there is none exactly where nothing is. */
  lemma {:induction false} BegunIsFirst(minimal: bool, rules: Rules, trail: Word, budget: nat, at: nat, b: Begun,
                                        route: Route)
    requires Sized(b) && Headed(b) && Soundly(minimal, route, trail, b) && WithinDepth(budget, b)
             && Committed(rules, trail, b)
    ensures FirstOf(minimal, rules, trail, budget, at, b, FirstRefusal(minimal, rules, trail, budget, at, b))
    decreases b, 1
  {
    hide Objection, OpenObjection, BegunObjection, HeadRefusal, JudgeBody, BodyDepth, BodyBytes, LawfulBody,
         BodyConforms,
         FirstInOpen;
    forall fault
      ensures BegunObjection(minimal, rules, trail, budget, at, b, fault)
         <==> || Objection(minimal, rules, trail, budget, b.done, at, fault)
              || (b.open.Some?
                  && OpenObjection(minimal, rules, trail, budget, at + |BodyBytes(b.done)|, b.open.value, fault))
    {
      BegunSplits(minimal, rules, trail, budget, at, b, fault);
    }
    BodyJudged(minimal, rules, trail, budget, b.done, at);
    var next := at + |BodyBytes(b.done)|;
    forall fault | Objection(minimal, rules, trail, budget, b.done, at, fault) ensures fault.at < next {
      ObjectionInside(minimal, rules, trail, budget, b.done, at, fault);
    }
    if b.open.Some? {
      var o := b.open.value;
      OpenIsFirst(minimal, rules, trail, budget, next, o, route);
      forall fault | OpenObjection(minimal, rules, trail, budget, next, o, fault) ensures next <= fault.at {
        OpenIsAt(minimal, rules, trail, budget, next, o, fault);
      }
      OpenUnfolds(minimal, rules, trail, budget, next, o, HeadRefusal(minimal, rules, trail, budget, next, o));
    }
  }

  lemma OpenUnfolds(minimal: bool, rules: Rules, trail: Word, budget: nat, at: nat, o: Opened, refusal: Option<Fault>)
    requires !o.head.Exit? && Sized(o.inside) && FirstInOpen(minimal, rules, trail, budget, at, o, refusal)
    ensures refusal.None? ==> forall fault :: !OpenObjection(minimal, rules, trail, budget, at, o, fault)
    ensures refusal.Some? ==>
              && OpenObjection(minimal, rules, trail, budget, at, o, refusal.value)
              && forall fault :: OpenObjection(minimal, rules, trail, budget, at, o, fault) ==>
                   refusal.value.at < fault.at || refusal.value == fault
  {
    hide OpenObjection;
  }

  // ─── what the walk reads before a breach ───

  /** Read within its depth, and no LEN record entered that a rule owns. */
  predicate ReadsRight(rules: Rules, trail: Word, budget: nat, b: Begun) {
    Headed(b) && WithinDepth(budget, b) && Committed(rules, trail, b)
  }

  lemma {:induction false} ReadIsRight(minimal: bool, rules: Rules, limit: nat, trail: Word, budget: nat, room: nat,
                                       open: Option<Field>, s: seq<Byte>, at: nat)
    requires Layers.Admitted(ProgramOf(rules)) && budget <= room <= limit
    ensures ReadsRight(rules, trail, budget, ReadBody(minimal, Walked(rules), limit, trail, budget, room, open, s, at))
    decreases |s|, 1
  {
    hide NextEntry, SkimEntry, ReadBody, ReadInside, Walked, ReadsRight, Layers.Admitted, ProgramOf;
    var route := Walked(rules);
    NothingRight(rules, trail, budget);
    if s == [] {
      NothingOpen(minimal, route, limit, trail, budget, room, open, at);
    } else {
      FirstFault.ReadStep(minimal, route, limit, trail, budget, room, open, s, at);
      RoomOrBudget(minimal, open, budget, room, s, at);
      var next := NextEntry(minimal, open, room, s, at);
      if next.Got? && !next.value.Exit? {
        if next.value.Enter? && budget == 0 {
          HeadRight(rules, trail, budget, Opened(next.value, true, NOTHING_READ));
        } else if SkimEntry(minimal, route, trail, budget, next.value, |s|, at).Got? {
          SkimmedSize(minimal, route, trail, budget, open, s, at);
          var Parsed(item, rest) := SkimEntry(minimal, route, trail, budget, next.value, |s|, at).value;
          var after := at + |s| - |rest|;
          ReadIsRight(minimal, rules, limit, trail, budget, room, open, rest, after);
          RecordRight(rules, trail, budget, item,
                      ReadBody(minimal, route, limit, trail, budget, room, open, rest, after));
        } else {
          InsideRight(minimal, rules, limit, trail, budget, room, next.value, |s|, at);
          HeadRight(rules, trail, budget, ReadInside(minimal, route, limit, trail, budget, room, next.value, |s|, at));
        }
      }
    }
  }

  lemma NothingRight(rules: Rules, trail: Word, budget: nat)
    ensures ReadsRight(rules, trail, budget, NOTHING_READ)
  {}

  lemma HeadRight(rules: Rules, trail: Word, budget: nat, o: Opened)
    requires !o.head.Exit? && OpensUnowned(rules, trail + [o.head.Number()], o.head)
    requires if o.deep then budget == 0 && o.inside == NOTHING_READ
             else budget > 0 && ReadsRight(rules, trail + [o.head.Number()], budget - 1, o.inside)
    ensures ReadsRight(rules, trail, budget, Begun([], Some(o)))
  {
    hide OwnedAt;
    NothingRight(rules, trail + [o.head.Number()], budget);
    assert BodyDepth([]) == 0;
  }

  lemma RecordRight(rules: Rules, trail: Word, budget: nat, item: Item, b: Begun)
    requires ReadsRight(rules, trail, budget, b) && Depth(item) <= budget
    ensures ReadsRight(rules, trail, budget, Begun([item] + b.done, b.open))
  {
    hide OwnedAt, Depth;
    var items := [item] + b.done;
    assert items[0] == item && items[1..] == b.done;
  }

  lemma {:induction false} InsideRight(minimal: bool, rules: Rules, limit: nat, trail: Word, budget: nat, room: nat,
                                       entry: Entry, size: nat, at: nat)
    requires Layers.Admitted(ProgramOf(rules)) && budget <= room <= limit
    requires !entry.Exit? && |entry.rest| < size && (entry.Enter? ==> budget > 0 && room > 0)
    requires entry.Whole? && entry.item.Len? ==> |entry.item.payload| + |entry.rest| < size
    requires SkimEntry(minimal, Walked(rules), trail, budget, entry, size, at).Broken?
    ensures var o := ReadInside(minimal, Walked(rules), limit, trail, budget, room, entry, size, at);
            && o.head == entry && OpensUnowned(rules, trail + [o.head.Number()], o.head)
            && if o.deep then budget == 0 && o.inside == NOTHING_READ
               else budget > 0 && ReadsRight(rules, trail + [o.head.Number()], budget - 1, o.inside)
    decreases size, 0
  {
    hide SkimBody, ReadBody, ReadsRight, Routes, OwnedAt, Layers.Admitted, ProgramOf;
    var word := trail + [entry.Number()];
    if entry.Whole? {
      assert Walked(rules)(word);
      assert word[..|word|] == word;
    }
    if entry.Enter? {
      ReadIsRight(minimal, rules, limit, word, budget - 1, room - 1, Some(entry.field), entry.rest,
                  at + size - |entry.rest|);
    } else if budget > 0 {
      var payload := entry.item.payload;
      ReadIsRight(minimal, rules, limit, word, budget - 1, limit, None, payload, at + size - |entry.rest| - |payload|);
    }
  }

  /** A document that breaks off is refused for what stands furthest to the front of
      all the rules hold against what was read before it broke, and where they hold
      nothing, for the breach: its place and class those its bytes call for. */
  lemma UnreadableIsExact(minimal: bool, rules: Rules, limit: nat, bytes: seq<Byte>, p: nat, breach: Breach)
    requires Layers.Admitted(ProgramOf(rules)) && |bytes| <= MAX_LEN
    requires Breaks(minimal, Walked(rules), [], limit, None, bytes, p, breach)
    ensures var b := ReadBody(minimal, Walked(rules), limit, [], limit, limit, None, bytes, 0);
            && Sized(b) && Headed(b) && BegunBytes(b) <= bytes && |BegunBytes(b)| <= p
            && var refusal := FirstRefusal(minimal, rules, [], limit, 0, b);
               && FirstOf(minimal, rules, [], limit, 0, b, refusal)
               && JudgeAll(minimal, rules, limit, bytes)
                  == Stopped(if refusal.Some? then refusal.value else Fault(p, Wire(breach)))
  {
    hide JudgeFlow, SkimBody, ParseBody, Walked, ReadBody, FirstRefusal, Sized, Soundly, BegunBytes, Headed, Breaks,
         FirstOf, WithinDepth, Committed, Layers.Admitted, ProgramOf;
    BreachIs(minimal, Walked(rules), [], limit, None, bytes, 0, p, breach);
    SkimParses(minimal, Walked(rules), [], limit, None, bytes, 0);
    UnreadableJudged(minimal, rules, limit, bytes);
    ReadIsRight(minimal, rules, limit, [], limit, limit, None, bytes, 0);
    var b := ReadBody(minimal, Walked(rules), limit, [], limit, limit, None, bytes, 0);
    BegunIsFirst(minimal, rules, [], limit, 0, b, Walked(rules));
  }
}
