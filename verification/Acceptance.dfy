/** The judgment is exact: a job is allowed where every claimed record has a
    lawful equal-width meaning under its rule, and refused for the first that has
    none (src/inplace.rs, src/inplace/grouped.rs). */
module Acceptance {
  import opened Varints
  import opened Wire
  import opened Scanning
  import opened Breaches
  import opened Filler
  import opened Writes
  import opened Paths
  import opened InPlace
  import opened Judgment
  import opened EqualWidth
  import opened Geometry
  import R = RuleSet
  import Layers

  // ─── what a claim could mean ───

  /** Lawful records of the same size, within the same depth, that the action
      asks for where `item` stands. */
  predicate Means(minimal: bool, budget: nat, action: Action, item: Item, items: seq<Item>) {
    && LawfulBody(minimal, items) && BodyDepth(items) <= budget && |BodyBytes(items)| == |ItemBytes(item)|
    && match action
       case SetVarint(value) => item.Varint? && items == [item.(value := value)]
       case SetI32(bits) => item.I32? && items == [item.(bits32 := bits)]
       case SetI64(bits) => item.I64? && items == [item.(bits64 := bits)]
       case SetPayload(bytes) =>
         item.Code() == LEN_CODE && items == [Len(item.field, item.tagWidth, item.prefixWidth, bytes)]
       case Renumber(field) => items == [item.(field := field)]
       case ReplaceRecord(bytes) => |items| == 1 && ItemBytes(items[0]) == bytes && Conforms(NO_ROUTE, [], items[0])
       case Tombstone(filler) => Fills(minimal, |ItemBytes(item)|, filler, items)
  }

  /** The kinds a value can be set on; a whole extent is any record's. */
  predicate KindFits(action: Action, item: Item) {
    match action
    case SetVarint(_) => item.Varint?
    case SetI32(_) => item.I32?
    case SetI64(_) => item.I64?
    case SetPayload(_) => item.Code() == LEN_CODE
    case _ => true
  }

  /** No filling below `need`, and one of just that. */
  ghost predicate LeastFilling(minimal: bool, filler: Field, need: nat) {
    && (exists items :: Fills(minimal, need, filler, items))
    && forall width: nat, items :: width < need ==> !Fills(minimal, width, filler, items)
  }

  /** The candidate opens with a whole opaque record and does not end with it. */
  predicate Overlong(minimal: bool, budget: nat, bytes: seq<Byte>, item: Item, rest: seq<Byte>) {
    Precedes(minimal, NO_ROUTE, [], budget, bytes, item, rest) && rest != []
  }

  /** Why a claim other than a renumber is refused, with what it needed and met. */
  ghost predicate Refuses(minimal: bool, rule: Layers.U16, action: Action, budget: nat, at: nat, item: Item,
                          fault: Fault)
  {
    && fault.at == at
    && match fault.kind
       case KindMismatch(r) => r == rule && !KindFits(action, item)
       case BadValueWidth(r, need, have) =>
         && r == rule && action.SetVarint? && item.Varint?
         && need == EncodedLen(action.value) && have == item.width && !WidthFits(minimal, need, have)
       case BadPayloadLength(r, need, have) =>
         && r == rule && action.SetPayload? && item.Code() == LEN_CODE
         && need == |action.bytes| && have == |LenPayload(item)| && need != have
       case FillerUnfit(r, need, have) =>
         && r == rule && action.Tombstone?
         && have == |ItemBytes(item)| && have < need && LeastFilling(minimal, action.filler, need)
       case ReplacementLength(r, need, have) =>
         && r == rule && action.ReplaceRecord?
         && need == |action.record| && have == |ItemBytes(item)| && need != have
       case ReplacementWire(r, site, cause) =>
         && r == rule && action.ReplaceRecord? && |action.record| == |ItemBytes(item)|
         && RecordBreaks(minimal, NO_ROUTE, [], budget, action.record, site, cause)
       case ReplacementShape(r) =>
         && r == rule && action.ReplaceRecord? && |action.record| == |ItemBytes(item)|
         && exists whole: Item, rest: seq<Byte> :: Overlong(minimal, budget, action.record, whole, rest)
       case _ => false
  }

  /** One claim's judgment against what it could mean. */
  ghost predicate Exact(minimal: bool, rule: Layers.U16, action: Action, budget: nat, at: nat, item: Item)
    requires !action.Renumber? && |ItemBytes(item)| <= MAX_LEN
  {
    var judged := Claimed(minimal, rule, action, budget, at, item);
    && (judged.Allowed? ==> Means(minimal, budget, action, item, Rewritten(minimal, action, budget, item)))
    && (judged.Refused? ==> forall items :: !Means(minimal, budget, action, item, items))
    && (forall fault :: judged == Refused(fault) <==> Refuses(minimal, rule, action, budget, at, item, fault))
  }

  lemma ValueExact(minimal: bool, rule: Layers.U16, action: Action, budget: nat, at: nat, item: Item)
    requires action.SetVarint? || action.SetI32? || action.SetI64?
    requires Lawful(minimal, item) && |ItemBytes(item)| <= MAX_LEN
    ensures Exact(minimal, rule, action, budget, at, item)
  {
    hide EncodedLen, ItemBytes, BodyBytes, LawfulBody, BodyDepth, LeastFilling, WidthFits, RecordBreaks, Overlong,
         ClaimExtent, Lawful;
    var items := Rewritten(minimal, action, budget, item);
    if KindFits(action, item) {
      LoneItem(minimal, items[0]);
      ValueFits(minimal, action, item, items[0]);
    }
  }

  lemma ValueFits(minimal: bool, action: Action, item: Item, after: Item)
    requires Lawful(minimal, item)
    requires match action
             case SetVarint(value) => item.Varint? && after == item.(value := value)
             case SetI32(bits) => item.I32? && after == item.(bits32 := bits)
             case SetI64(bits) => item.I64? && after == item.(bits64 := bits)
             case _ => false
    ensures |ItemBytes(after)| == |ItemBytes(item)| && Depth(after) == 0
    ensures Lawful(minimal, after) <==> action.SetVarint? ==> WidthFits(minimal, EncodedLen(action.value), item.width)
  {
    hide Spell, EncodedLen;
  }

  lemma PayloadExact(minimal: bool, rule: Layers.U16, action: Action, budget: nat, at: nat, item: Item)
    requires action.SetPayload? && Lawful(minimal, item) && |ItemBytes(item)| <= MAX_LEN
    ensures Exact(minimal, rule, action, budget, at, item)
  {
    hide Spell, EncodedLen, ItemBytes, BodyBytes, LawfulBody, BodyDepth, LeastFilling, RecordBreaks, Overlong,
         ClaimExtent;
    if item.Code() == LEN_CODE {
      var after := Len(item.field, item.tagWidth, item.prefixWidth, action.bytes);
      LoneItem(minimal, after);
      LenShape(after);
      LenShape(item);
    }
  }

  lemma TombstoneExact(minimal: bool, rule: Layers.U16, action: Action, budget: nat, at: nat, item: Item)
    requires action.Tombstone? && |ItemBytes(item)| <= MAX_LEN
    ensures Exact(minimal, rule, action, budget, at, item)
  {
    hide ItemBytes, Claimed, Means, Refuses, Fills, Rewritten, FillerNeed;
    var have, filler := |ItemBytes(item)|, action.filler;
    TombstoneClaimed(minimal, rule, action, budget, at, item);
    forall items ensures Means(minimal, budget, action, item, items) <==> Fills(minimal, have, filler, items) {
      TombstoneMeans(minimal, budget, action, item, items);
    }
    forall fault
      ensures Refuses(minimal, rule, action, budget, at, item, fault)
         <==> have < FillerNeed(filler) && fault == Fault(at, FillerUnfit(rule, FillerNeed(filler), have))
    {
      TombstoneRefuses(minimal, rule, action, budget, at, item, fault);
    }
    if have < FillerNeed(filler) {
      forall items ensures !Fills(minimal, have, filler, items) {
        NothingFillsLess(minimal, have, filler, items);
      }
    } else {
      FillingFills(minimal, have, filler);
    }
  }

  lemma TombstoneClaimed(minimal: bool, rule: Layers.U16, action: Action, budget: nat, at: nat, item: Item)
    requires action.Tombstone? && |ItemBytes(item)| <= MAX_LEN
    ensures var have, need := |ItemBytes(item)|, FillerNeed(action.filler);
            && Claimed(minimal, rule, action, budget, at, item)
               == (if have < need then Refused(Fault(at, FillerUnfit(rule, need, have)))
                   else Allowed(FillerAt(at, have, action.filler)))
            && (need <= have ==> Rewritten(minimal, action, budget, item) == Filling(minimal, have, action.filler))
  {
    hide ItemBytes, FillerNeed, Filling;
  }

  lemma TombstoneMeans(minimal: bool, budget: nat, action: Action, item: Item, items: seq<Item>)
    requires action.Tombstone?
    ensures Means(minimal, budget, action, item, items) <==> Fills(minimal, |ItemBytes(item)|, action.filler, items)
  {
    hide ItemBytes, Fills, LawfulBody, BodyDepth, BodyBytes;
    if Fills(minimal, |ItemBytes(item)|, action.filler, items) {
      FillsShallow(minimal, |ItemBytes(item)|, action.filler, items);
    }
  }

  lemma TombstoneRefuses(minimal: bool, rule: Layers.U16, action: Action, budget: nat, at: nat, item: Item,
                         fault: Fault)
    requires action.Tombstone?
    ensures var have, need := |ItemBytes(item)|, FillerNeed(action.filler);
            Refuses(minimal, rule, action, budget, at, item, fault)
            <==> have < need && fault == Fault(at, FillerUnfit(rule, need, have))
  {
    hide ItemBytes, FillerNeed, LeastFilling, RecordBreaks, Overlong, WidthFits, EncodedLen;
    NeedIsLeast(minimal, action.filler);
  }

  lemma FillsShallow(minimal: bool, width: nat, filler: Field, items: seq<Item>)
    requires Fills(minimal, width, filler, items)
    ensures LawfulBody(minimal, items) && BodyDepth(items) == 0 && |BodyBytes(items)| == width
  {
    hide Spell, EncodedLen, BodyBytes, ItemBytes, LawfulBody;
    assert ZeroRecord(filler, items[0]);
    if |items| == 2 {
      assert ZeroRecord(filler, items[1]);
      assert items[1..] == [items[1]];
      LoneItem(minimal, items[1]);
    } else {
      assert items[1..] == [];
    }
  }

  /** The least filling is the need, and no other width is. */
  lemma NeedIsLeast(minimal: bool, filler: Field)
    ensures forall need: nat :: LeastFilling(minimal, filler, need) <==> need == FillerNeed(filler)
  {
    hide Fills, Filling, FillerNeed;
    var least := FillerNeed(filler);
    NeedIsSmall(filler);
    FillingFills(minimal, least, filler);
    assert Fills(minimal, least, filler, Filling(minimal, least, filler));
    forall width: nat, items | width < least ensures !Fills(minimal, width, filler, items) {
      NothingFillsLess(minimal, width, filler, items);
    }
    forall need: nat | LeastFilling(minimal, filler, need) ensures need == least {}
  }

  lemma NeedIsSmall(filler: Field)
    ensures FillerNeed(filler) <= 6
  {
    TagWidthIgnoresCode(filler, LEN_CODE, LEN_CODE);
  }

  lemma ReplacementExact(minimal: bool, rule: Layers.U16, action: Action, budget: nat, at: nat, item: Item)
    requires action.ReplaceRecord? && |ItemBytes(item)| <= MAX_LEN
    ensures Exact(minimal, rule, action, budget, at, item)
  {
    hide ItemBytes, ParseItem, Means, Claimed, Refuses, SkimItem;
    SkimItemParses(minimal, NO_ROUTE, [], budget, action.record, 0);
    WholeMeans(minimal, budget, action, item);
    ReplacementClaimed(minimal, rule, action, budget, at, item);
    forall fault
      ensures Claimed(minimal, rule, action, budget, at, item) == Refused(fault)
         <==> Refuses(minimal, rule, action, budget, at, item, fault)
    {
      ReplacementRefuses(minimal, rule, action, budget, at, item, fault);
    }
  }

  lemma ReplacementClaimed(minimal: bool, rule: Layers.U16, action: Action, budget: nat, at: nat, item: Item)
    requires action.ReplaceRecord? && |ItemBytes(item)| <= MAX_LEN
    ensures var bytes, have := action.record, |ItemBytes(item)|;
            var skim := SkimItem(minimal, NO_ROUTE, [], budget, bytes, 0);
            Claimed(minimal, rule, action, budget, at, item)
            == if |bytes| != have then Refused(Fault(at, ReplacementLength(rule, |bytes|, have)))
               else if skim.Broken? then Refused(Fault(at, ReplacementWire(rule, skim.at, skim.breach)))
               else if skim.value.rest == [] then Allowed(PayloadAt(at, bytes))
               else Refused(Fault(at, ReplacementShape(rule)))
  {
    hide ItemBytes, SkimItem;
  }

  lemma ReplacementRefuses(minimal: bool, rule: Layers.U16, action: Action, budget: nat, at: nat, item: Item,
                           fault: Fault)
    requires action.ReplaceRecord? && |ItemBytes(item)| <= MAX_LEN
    ensures Claimed(minimal, rule, action, budget, at, item) == Refused(fault)
       <==> Refuses(minimal, rule, action, budget, at, item, fault)
  {
    hide ItemBytes, ParseItem, SkimItem, Claimed, RecordBreaks, Overlong, LeastFilling, WidthFits, EncodedLen;
    ReplacementClaimed(minimal, rule, action, budget, at, item);
    SkimItemParses(minimal, NO_ROUTE, [], budget, action.record, 0);
    OverlongIs(minimal, budget, action.record);
    if fault.kind.ReplacementWire? {
      RecordBreachIs(minimal, NO_ROUTE, [], budget, action.record, fault.kind.site, fault.kind.cause);
    }
    var skim := SkimItem(minimal, NO_ROUTE, [], budget, action.record, 0);
    if skim.Broken? {
      RecordBreachIs(minimal, NO_ROUTE, [], budget, action.record, skim.at, skim.breach);
    }
  }

  /** One whole record in front, and how much of the candidate it is. */
  lemma OverlongIs(minimal: bool, budget: nat, bytes: seq<Byte>)
    ensures var parsed := ParseItem(minimal, NO_ROUTE, [], budget, bytes);
            (exists whole: Item, rest: seq<Byte> :: Overlong(minimal, budget, bytes, whole, rest))
            <==> parsed.Some? && parsed.value.rest != []
  {
    hide ParseItem, Precedes;
    var parsed := ParseItem(minimal, NO_ROUTE, [], budget, bytes);
    forall whole: Item, rest: seq<Byte>
      ensures Precedes(minimal, NO_ROUTE, [], budget, bytes, whole, rest) <==> parsed == Some(Parsed(whole, rest))
    {
      ParsesAs(minimal, budget, bytes, whole, rest);
    }
    if parsed.Some? && parsed.value.rest != [] {
      assert Overlong(minimal, budget, bytes, parsed.value.item, parsed.value.rest);
    }
  }

  lemma WholeMeans(minimal: bool, budget: nat, action: Action, item: Item)
    requires action.ReplaceRecord?
    ensures var parsed := ParseItem(minimal, NO_ROUTE, [], budget, action.record);
            forall items :: Means(minimal, budget, action, item, items)
              <==> && |action.record| == |ItemBytes(item)| && parsed.Some? && parsed.value.rest == []
                   && items == [parsed.value.item]
  {
    hide ParseItem, ItemBytes, Lawful, Conforms, Depth, LawfulBody, BodyDepth, BodyBytes;
    var bytes := action.record;
    var parsed := ParseItem(minimal, NO_ROUTE, [], budget, bytes);
    forall items
      ensures Means(minimal, budget, action, item, items)
         <==> && |bytes| == |ItemBytes(item)| && parsed.Some? && parsed.value.rest == []
              && items == [parsed.value.item]
    {
      if |items| == 1 {
        var whole := items[0];
        assert items == [whole];
        LoneItem(minimal, whole);
        TagNotNothing(whole);
        assert ItemBytes(whole) + [] == ItemBytes(whole);
        ParsesAs(minimal, budget, bytes, whole, []);
      }
    }
  }

  lemma TagNotNothing(item: Item)
    ensures |ItemBytes(item)| >= item.tagWidth >= 1
  {
    hide Spell;
  }

  lemma ParsesAs(minimal: bool, budget: nat, bytes: seq<Byte>, whole: Item, rest: seq<Byte>)
    ensures Precedes(minimal, NO_ROUTE, [], budget, bytes, whole, rest)
       <==> ParseItem(minimal, NO_ROUTE, [], budget, bytes) == Some(Parsed(whole, rest))
  {
    hide ParseItem, ItemBytes, Lawful, Conforms, Depth;
    if Precedes(minimal, NO_ROUTE, [], budget, bytes, whole, rest) {
      ParseItemSpelled(minimal, NO_ROUTE, [], budget, whole, rest);
    }
    if ParseItem(minimal, NO_ROUTE, [], budget, bytes) == Some(Parsed(whole, rest)) {
      ParseItemSound(minimal, NO_ROUTE, [], budget, bytes);
    }
  }

  /** A claim is allowed exactly where it could mean something, its write then
      means that, and a refusal is the one its bytes and its rule call for. */
  lemma ClaimExact(minimal: bool, rule: Layers.U16, action: Action, budget: nat, at: nat, item: Item)
    requires !action.Renumber? && Lawful(minimal, item) && |ItemBytes(item)| <= MAX_LEN
    ensures Claimed(minimal, rule, action, budget, at, item).Allowed?
       <==> exists items :: Means(minimal, budget, action, item, items)
    ensures Claimed(minimal, rule, action, budget, at, item).Allowed? ==>
              Means(minimal, budget, action, item, Rewritten(minimal, action, budget, item))
    ensures forall fault :: Claimed(minimal, rule, action, budget, at, item) == Refused(fault)
                       <==> Refuses(minimal, rule, action, budget, at, item, fault)
  {
    hide Claimed, Means, Refuses, Lawful, ItemBytes, Rewritten;
    if action.SetPayload? {
      PayloadExact(minimal, rule, action, budget, at, item);
    } else if action.ReplaceRecord? {
      ReplacementExact(minimal, rule, action, budget, at, item);
    } else if action.Tombstone? {
      TombstoneExact(minimal, rule, action, budget, at, item);
    } else {
      ValueExact(minimal, rule, action, budget, at, item);
    }
  }

  // ─── one record under its rules ───

  /** A renumber is refused for either tag its number does not fit. */
  predicate TagObjects(minimal: bool, rule: Layers.U16, field: Field, at: nat, item: Item, fault: Fault) {
    var word, endWord := TagWord(field, item.Code()), TagWord(field, END_CODE);
    || (!TagFits(minimal, field, item.Code(), item.tagWidth)
        && fault == Fault(at, BadTagWidth(rule, EncodedLen(word), item.tagWidth)))
    || (item.Group? && !TagFits(minimal, field, END_CODE, item.endWidth)
        && fault.kind == BadTagWidth(rule, EncodedLen(endWord), item.endWidth)
        && fault.at + item.endWidth == at + |ItemBytes(item)|)
  }

  /** What the rules have against one record. */
  ghost predicate Objects(minimal: bool, rules: Rules, budget: nat, item: Item, at: nat, word: Word, fault: Fault) {
    match ClaimAt(rules, word)
    case Free => false
    case Clash(a, b) => fault == Fault(at, TwoRules(a, b))
    case By(rule, action) =>
      if action.Renumber? then TagObjects(minimal, rule, action.field, at, item, fault)
      else Refuses(minimal, rule, action, budget, at, item, fault)
  }

  /** Its claim, if it has one, has a lawful meaning. */
  ghost predicate Satisfied(minimal: bool, rules: Rules, budget: nat, item: Item, word: Word) {
    match ClaimAt(rules, word)
    case Free => true
    case Clash(_, _) => false
    case By(_, action) => exists items :: Means(minimal, budget, action, item, items)
  }

  lemma RenumberMeans(minimal: bool, budget: nat, field: Field, item: Item)
    requires Lawful(minimal, item) && Depth(item) <= budget
    ensures (exists items :: Means(minimal, budget, Renumber(field), item, items))
       <==> && TagFits(minimal, field, item.Code(), item.tagWidth)
            && (item.Group? ==> TagFits(minimal, field, END_CODE, item.endWidth))
  {
    hide EncodedLen, BodyBytes, LawfulBody, BodyDepth, ItemBytes;
    var after := item.(field := field);
    LoneItem(minimal, after);
    SameSize(item, field);
    if Lawful(minimal, after) {
      assert Means(minimal, budget, Renumber(field), item, [after]);
    }
  }

  lemma SameSize(item: Item, field: Field)
    ensures |ItemBytes(item.(field := field))| == |ItemBytes(item)| && Depth(item.(field := field)) == Depth(item)
  {
    hide Spell, BodyBytes;
  }

  lemma SatisfiedIffUnopposed(minimal: bool, rules: Rules, budget: nat, item: Item, at: nat, word: Word)
    requires Lawful(minimal, item) && Depth(item) <= budget && |ItemBytes(item)| <= MAX_LEN
    ensures Satisfied(minimal, rules, budget, item, word)
       <==> forall fault :: !Objects(minimal, rules, budget, item, at, word, fault)
  {
    hide ClaimAt, Means, Refuses, TagObjects, Lawful, Depth, ItemBytes, EncodedLen, Claimed;
    match ClaimAt(rules, word)
    case Free =>
    case Clash(a, b) => assert Objects(minimal, rules, budget, item, at, word, Fault(at, TwoRules(a, b)));
    case By(rule, action) =>
      if action.Renumber? {
        RenumberMeans(minimal, budget, action.field, item);
        TagsObject(minimal, rule, action.field, at, item);
        assert action == Renumber(action.field);
        if fault :| TagObjects(minimal, rule, action.field, at, item, fault) {
          assert Objects(minimal, rules, budget, item, at, word, fault);
        }
      } else {
        ClaimExact(minimal, rule, action, budget, at, item);
        var judged := Claimed(minimal, rule, action, budget, at, item);
        if judged.Refused? {
          assert Objects(minimal, rules, budget, item, at, word, judged.fault);
        }
      }
  }

  lemma TagsObject(minimal: bool, rule: Layers.U16, field: Field, at: nat, item: Item)
    ensures (exists fault :: TagObjects(minimal, rule, field, at, item, fault))
       <==> || !TagFits(minimal, field, item.Code(), item.tagWidth)
            || (item.Group? && !TagFits(minimal, field, END_CODE, item.endWidth))
  {
    hide EncodedLen, WidthFits, ItemBytes;
    EndsWithTag(item);
    if !TagFits(minimal, field, item.Code(), item.tagWidth) {
      var kind := BadTagWidth(rule, EncodedLen(TagWord(field, item.Code())), item.tagWidth);
      assert TagObjects(minimal, rule, field, at, item, Fault(at, kind));
    }
    if item.Group? && !TagFits(minimal, field, END_CODE, item.endWidth) {
      var kind := BadTagWidth(rule, EncodedLen(TagWord(field, END_CODE)), item.endWidth);
      assert TagObjects(minimal, rule, field, at, item, Fault(at + |ItemBytes(item)| - item.endWidth, kind));
    }
  }

  lemma EndsWithTag(item: Item)
    ensures item.tagWidth <= |ItemBytes(item)|
    ensures item.Group? ==> HeaderSize(item) + |BodyBytes(item.body)| + item.endWidth == |ItemBytes(item)|
    ensures item.Msg? ==> HeaderSize(item) + |BodyBytes(item.body)| == |ItemBytes(item)|
  {
    hide Spell, BodyBytes;
  }

  // ─── a whole body ───

  /** The depth left to a record, its trail being spent. */
  function DepthLeft(budget: nat, trail: Word, word: Word): nat {
    var spent := |word| - 1 - |trail|;
    if 0 <= spent <= budget then budget - spent else 0
  }

  /** Some record the walk meets is objected to. */
  ghost predicate Objection(minimal: bool, rules: Rules, trail: Word, budget: nat, items: seq<Item>, base: nat,
                            fault: Fault)
  {
    exists x: Item, at: nat, word: Word ::
      && Geometry.Met(rules, trail, items, base, x, at, word)
      && Objects(minimal, rules, DepthLeft(budget, trail, word), x, at, word, fault)
  }

  /** None is objected to, or `fault` is the one objection furthest to the front. */
  ghost predicate Judges(minimal: bool, rules: Rules, trail: Word, budget: nat, items: seq<Item>, base: nat,
                         judged: Judged<seq<Planned>>)
  {
    match judged
    case Allowed(_) => forall fault :: !Objection(minimal, rules, trail, budget, items, base, fault)
    case Refused(fault) =>
      && Objection(minimal, rules, trail, budget, items, base, fault)
      && forall other :: Objection(minimal, rules, trail, budget, items, base, other) ==>
           fault.at < other.at || fault == other
  }

  lemma MetLater(rules: Rules, trail: Word, items: seq<Item>, base: nat, x: Item, at: nat, word: Word)
    requires items != []
    ensures Geometry.Met(rules, trail, items, base, x, at, word)
       <==> || Geometry.Met(rules, trail, [items[0]], base, x, at, word)
            || Geometry.Met(rules, trail, items[1..], base + |ItemBytes(items[0])|, x, at, word)
  {
    hide ItemBytes, HeaderSize, OwnedAt;
    assert [items[0]][1..] == [];
  }

  lemma MetSomething(rules: Rules, trail: Word, items: seq<Item>, base: nat, x: Item, at: nat, word: Word)
    requires Geometry.Met(rules, trail, items, base, x, at, word)
    ensures items != []
  {}

  lemma MetAlone(rules: Rules, trail: Word, item: Item, base: nat, x: Item, at: nat, word: Word)
    ensures Geometry.Met(rules, trail, [item], base, x, at, word)
       <==> || (item == x && at == base && word == trail + [x.field])
            || ((item.Msg? || item.Group?) && !OwnedAt(rules, trail + [item.field])
                && Geometry.Met(rules, trail + [item.field], item.body, base + HeaderSize(item), x, at, word))
  {
    hide ItemBytes, HeaderSize, OwnedAt;
    assert [item][1..] == [];
  }

  lemma {:induction false} MetBelow(rules: Rules, trail: Word, items: seq<Item>, base: nat, x: Item, at: nat,
                                    word: Word)
    requires Geometry.Met(rules, trail, items, base, x, at, word)
    ensures |trail| < |word| <= |trail| + 1 + BodyDepth(items)
    decreases items
  {
    hide ItemBytes, HeaderSize, OwnedAt, Geometry.Met;
    MetSomething(rules, trail, items, base, x, at, word);
    MetLater(rules, trail, items, base, x, at, word);
    if Geometry.Met(rules, trail, items[1..], base + |ItemBytes(items[0])|, x, at, word) {
      MetBelow(rules, trail, items[1..], base + |ItemBytes(items[0])|, x, at, word);
    } else {
      MetAlone(rules, trail, items[0], base, x, at, word);
      if !(items[0] == x && at == base && word == trail + [x.field]) {
        MetBelow(rules, trail + [items[0].field], items[0].body, base + HeaderSize(items[0]), x, at, word);
      }
    }
  }

  lemma ObjectionLater(minimal: bool, rules: Rules, trail: Word, budget: nat, items: seq<Item>, base: nat, fault: Fault)
    requires items != []
    ensures Objection(minimal, rules, trail, budget, items, base, fault)
       <==> || Objection(minimal, rules, trail, budget, [items[0]], base, fault)
            || Objection(minimal, rules, trail, budget, items[1..], base + |ItemBytes(items[0])|, fault)
  {
    hide Geometry.Met, Objects, ItemBytes;
    forall x: Item, at: nat, word: Word
      ensures Geometry.Met(rules, trail, items, base, x, at, word)
         <==> || Geometry.Met(rules, trail, [items[0]], base, x, at, word)
              || Geometry.Met(rules, trail, items[1..], base + |ItemBytes(items[0])|, x, at, word)
    {
      MetLater(rules, trail, items, base, x, at, word);
    }
  }

  /** What is held against a record: its own, or what lies inside. */
  lemma ObjectionAlone(minimal: bool, rules: Rules, trail: Word, budget: nat, item: Item, base: nat, fault: Fault)
    requires Depth(item) <= budget
    ensures Objection(minimal, rules, trail, budget, [item], base, fault)
       <==> || Objects(minimal, rules, budget, item, base, trail + [item.field], fault)
            || ((item.Msg? || item.Group?) && !OwnedAt(rules, trail + [item.field])
                && Objection(minimal, rules, trail + [item.field], budget - 1, item.body, base + HeaderSize(item),
                             fault))
  {
    hide Geometry.Met, Objects, OwnedAt, HeaderSize;
    var own := trail + [item.field];
    forall x: Item, at: nat, word: Word
      ensures Geometry.Met(rules, trail, [item], base, x, at, word)
         <==> || (item == x && at == base && word == trail + [x.field])
              || ((item.Msg? || item.Group?) && !OwnedAt(rules, own)
                  && Geometry.Met(rules, own, item.body, base + HeaderSize(item), x, at, word))
    {
      MetAlone(rules, trail, item, base, x, at, word);
    }
    var body, inside := if item.Msg? || item.Group? then item.body else [], base + HeaderSize(item);
    if Objects(minimal, rules, budget, item, base, own, fault) {
      assert Geometry.Met(rules, trail, [item], base, item, base, own);
    }
    if (item.Msg? || item.Group?) && !OwnedAt(rules, own)
      && Objection(minimal, rules, own, budget - 1, body, inside, fault) {
      var x, at, word :| Geometry.Met(rules, own, body, inside, x, at, word)
        && Objects(minimal, rules, DepthLeft(budget - 1, own, word), x, at, word, fault);
      MetBelow(rules, own, body, inside, x, at, word);
      assert Geometry.Met(rules, trail, [item], base, x, at, word);
    }
    if Objection(minimal, rules, trail, budget, [item], base, fault) {
      var x, at, word :| Geometry.Met(rules, trail, [item], base, x, at, word)
        && Objects(minimal, rules, DepthLeft(budget, trail, word), x, at, word, fault);
      if !(item == x && at == base && word == own) {
        MetBelow(rules, own, body, inside, x, at, word);
      }
    }
  }

  lemma NoObjection(minimal: bool, rules: Rules, trail: Word, budget: nat, base: nat, fault: Fault)
    ensures !Objection(minimal, rules, trail, budget, [], base, fault)
  {}

  /** An objection's place is in its record: at its head or its end tag. */
  lemma ObjectsInside(minimal: bool, rules: Rules, budget: nat, item: Item, at: nat, word: Word, fault: Fault)
    requires Objects(minimal, rules, budget, item, at, word, fault)
    ensures fault.at == at || (item.Group? && fault.at == at + HeaderSize(item) + |BodyBytes(item.body)|)
    ensures at <= fault.at < at + |ItemBytes(item)|
  {
    hide ItemBytes, BodyBytes, EncodedLen, WidthFits, ClaimAt, KindFits, LeastFilling, Overlong, RecordBreaks;
    EndsWithTag(item);
  }

  lemma {:induction false} ObjectionInside(minimal: bool, rules: Rules, trail: Word, budget: nat, items: seq<Item>,
                                           base: nat, fault: Fault)
    requires Objection(minimal, rules, trail, budget, items, base, fault) && BodyDepth(items) <= budget
    ensures base <= fault.at < base + |BodyBytes(items)|
    decreases items, 1
  {
    hide Objection, ItemBytes, Depth;
    if items == [] {
      NoObjection(minimal, rules, trail, budget, base, fault);
    } else {
      ObjectionLater(minimal, rules, trail, budget, items, base, fault);
      if Objection(minimal, rules, trail, budget, [items[0]], base, fault) {
        AloneInside(minimal, rules, trail, budget, items[0], base, fault);
      } else {
        ObjectionInside(minimal, rules, trail, budget, items[1..], base + |ItemBytes(items[0])|, fault);
      }
    }
  }

  lemma {:induction false} AloneInside(minimal: bool, rules: Rules, trail: Word, budget: nat, item: Item, base: nat,
                                       fault: Fault)
    requires Objection(minimal, rules, trail, budget, [item], base, fault) && Depth(item) <= budget
    ensures base <= fault.at < base + |ItemBytes(item)|
    decreases item, 0
  {
    hide Objection, Objects, ItemBytes, BodyBytes, OwnedAt;
    ObjectionAlone(minimal, rules, trail, budget, item, base, fault);
    EndsWithTag(item);
    if Objects(minimal, rules, budget, item, base, trail + [item.field], fault) {
      ObjectsInside(minimal, rules, budget, item, base, trail + [item.field], fault);
    } else {
      ObjectionInside(minimal, rules, trail + [item.field], budget - 1, item.body, base + HeaderSize(item), fault);
    }
  }

  // ─── the judgment names the first objection ───

  /** An objection at a record's head comes before any other to it. */
  lemma HeadFirst(minimal: bool, rules: Rules, trail: Word, budget: nat, item: Item, at: nat, fault: Fault)
    requires Depth(item) <= budget && fault.at == at
    requires Objects(minimal, rules, budget, item, at, trail + [item.field], fault)
    requires forall other :: Objects(minimal, rules, budget, item, at, trail + [item.field], other) ==>
               at < other.at || other == fault
    ensures Judges(minimal, rules, trail, budget, [item], at, Refused(fault))
  {
    hide Objects, Objection, HeaderSize, OwnedAt;
    forall other ensures Objection(minimal, rules, trail, budget, [item], at, other)
      <==> || Objects(minimal, rules, budget, item, at, trail + [item.field], other)
           || ((item.Msg? || item.Group?) && !OwnedAt(rules, trail + [item.field])
               && Objection(minimal, rules, trail + [item.field], budget - 1, item.body, at + HeaderSize(item), other))
    {
      ObjectionAlone(minimal, rules, trail, budget, item, at, other);
    }
    HeaderIsSome(item);
    forall other | Objection(minimal, rules, trail, budget, [item], at, other)
                   && !Objects(minimal, rules, budget, item, at, trail + [item.field], other)
      ensures at < other.at
    {
      ObjectionInside(minimal, rules, trail + [item.field], budget - 1, item.body, at + HeaderSize(item), other);
    }
  }

  lemma HeaderIsSome(item: Item)
    ensures HeaderSize(item) > 0
  {}

  /** Where no rule claims a record, its inside alone is judged. */
  lemma {:induction false} InsideJudged(minimal: bool, rules: Rules, trail: Word, budget: nat, item: Item, at: nat)
    requires Lawful(minimal, item) && Depth(item) <= budget && |ItemBytes(item)| <= MAX_LEN
    ensures var judged := JudgeInside(minimal, rules, trail + [item.field], budget, at, item);
            if item.Msg? || item.Group? then
              && |BodyBytes(item.body)| <= MAX_LEN && budget > 0
              && Judges(minimal, rules, trail + [item.field], budget - 1, item.body, at + HeaderSize(item), judged)
            else judged.Allowed?
    decreases item, 0
  {
    hide Judges, JudgeBody, ItemBytes, BodyBytes;
    if item.Msg? || item.Group? {
      BodyFits(item);
      BodyJudged(minimal, rules, trail + [item.field], budget - 1, item.body, at + HeaderSize(item));
    }
  }

  lemma {:induction false} ItemJudged(minimal: bool, rules: Rules, trail: Word, budget: nat, item: Item, at: nat)
    requires Lawful(minimal, item) && Depth(item) <= budget && |ItemBytes(item)| <= MAX_LEN
    ensures Judges(minimal, rules, trail, budget, [item], at, JudgeItem(minimal, rules, trail, budget, at, item))
    decreases item, 1
  {
    hide ClaimAt, JudgeInside, JudgeRenumber, Claimed, Judges, Lawful, Depth, ItemBytes;
    var word := trail + [item.field];
    match ClaimAt(rules, word)
    case Clash(a, b) =>
      HeadFirst(minimal, rules, trail, budget, item, at, Fault(at, TwoRules(a, b)));
    case Free =>
      InsideJudged(minimal, rules, trail, budget, item, at);
      FreeJudged(minimal, rules, trail, budget, item, at);
    case By(rule, action) =>
      if action.Renumber? {
        InsideJudged(minimal, rules, trail, budget, item, at);
        RenumberJudged(minimal, rules, trail, budget, item, at, rule, action.field);
      } else {
        ClaimJudged(minimal, rules, trail, budget, item, at, rule, action);
      }
  }

  lemma FreeJudged(minimal: bool, rules: Rules, trail: Word, budget: nat, item: Item, at: nat)
    requires Depth(item) <= budget && |ItemBytes(item)| <= MAX_LEN && ClaimAt(rules, trail + [item.field]).Free?
    requires var judged := JudgeInside(minimal, rules, trail + [item.field], budget, at, item);
             if item.Msg? || item.Group? then
               && |BodyBytes(item.body)| <= MAX_LEN && budget > 0
               && Judges(minimal, rules, trail + [item.field], budget - 1, item.body, at + HeaderSize(item), judged)
             else judged.Allowed?
    ensures Judges(minimal, rules, trail, budget, [item], at,
                   JudgeInside(minimal, rules, trail + [item.field], budget, at, item))
  {
    hide ClaimAt, JudgeInside, Objection, ItemBytes, BodyBytes;
    forall other ensures Objection(minimal, rules, trail, budget, [item], at, other)
      <==> ((item.Msg? || item.Group?)
            && Objection(minimal, rules, trail + [item.field], budget - 1, item.body, at + HeaderSize(item), other))
    {
      ObjectionAlone(minimal, rules, trail, budget, item, at, other);
    }
  }

  lemma ClaimJudged(minimal: bool, rules: Rules, trail: Word, budget: nat, item: Item, at: nat, rule: Layers.U16,
                    action: Action)
    requires Lawful(minimal, item) && Depth(item) <= budget && |ItemBytes(item)| <= MAX_LEN
    requires ClaimAt(rules, trail + [item.field]) == By(rule, action) && !action.Renumber?
    ensures var judged := Claimed(minimal, rule, action, budget, at, item);
            Judges(minimal, rules, trail, budget, [item], at,
                   if judged.Allowed? then Allowed([judged.value]) else Refused(judged.fault))
  {
    hide ClaimAt, Claimed, Objection, ItemBytes, Refuses, Lawful, Depth, Means;
    ClaimExact(minimal, rule, action, budget, at, item);
    var judged := Claimed(minimal, rule, action, budget, at, item);
    if judged.Refused? {
      RefusesAtHead(minimal, rule, action, budget, at, item, judged.fault);
      HeadFirst(minimal, rules, trail, budget, item, at, judged.fault);
    } else {
      NothingInside(minimal, rule, action, budget, at, item);
      forall other ensures !Objection(minimal, rules, trail, budget, [item], at, other) {
        ObjectionAlone(minimal, rules, trail, budget, item, at, other);
      }
    }
  }

  lemma RefusesAtHead(minimal: bool, rule: Layers.U16, action: Action, budget: nat, at: nat, item: Item, fault: Fault)
    requires Refuses(minimal, rule, action, budget, at, item, fault)
    ensures fault.at == at
  {
    hide KindFits, LeastFilling, Overlong, RecordBreaks, EncodedLen, WidthFits, ItemBytes;
  }

  /** An allowed claim other than a renumber is on a scalar, or owns the record. */
  lemma NothingInside(minimal: bool, rule: Layers.U16, action: Action, budget: nat, at: nat, item: Item)
    requires !action.Renumber? && |ItemBytes(item)| <= MAX_LEN
    requires Claimed(minimal, rule, action, budget, at, item).Allowed?
    ensures item.Msg? || item.Group? ==> action.Owns()
  {
    hide ClaimExtent, EncodedLen, ItemBytes;
  }

  /** A renumbered record: its start tag, its inside, its end tag, in this order. */
  lemma RenumberJudged(minimal: bool, rules: Rules, trail: Word, budget: nat, item: Item, at: nat, rule: Layers.U16,
                       field: Field)
    requires Lawful(minimal, item) && Depth(item) <= budget && |ItemBytes(item)| <= MAX_LEN
    requires ClaimAt(rules, trail + [item.field]) == By(rule, Renumber(field))
    requires var judged := JudgeInside(minimal, rules, trail + [item.field], budget, at, item);
             if item.Msg? || item.Group? then
               && |BodyBytes(item.body)| <= MAX_LEN && budget > 0
               && Judges(minimal, rules, trail + [item.field], budget - 1, item.body, at + HeaderSize(item), judged)
             else judged.Allowed?
    ensures Judges(minimal, rules, trail, budget, [item], at,
                   JudgeRenumber(minimal, rules, trail + [item.field], budget, at, item, rule, field))
  {
    hide ClaimAt, JudgeInside, Objection, ItemBytes, BodyBytes, EncodedLen, Lawful;
    EndsWithTag(item);
    if !TagFits(minimal, field, item.Code(), item.tagWidth) {
      var kind := BadTagWidth(rule, EncodedLen(TagWord(field, item.Code())), item.tagWidth);
      HeadFirst(minimal, rules, trail, budget, item, at, Fault(at, kind));
    } else {
      var own, inside := trail + [item.field], at + HeaderSize(item);
      forall other ensures Objection(minimal, rules, trail, budget, [item], at, other)
        <==> || TagObjects(minimal, rule, field, at, item, other)
             || ((item.Msg? || item.Group?) && Objection(minimal, rules, own, budget - 1, item.body, inside, other))
      {
        ObjectionAlone(minimal, rules, trail, budget, item, at, other);
      }
      if item.Group? {
        forall other | Objection(minimal, rules, own, budget - 1, item.body, inside, other)
          ensures other.at < inside + |BodyBytes(item.body)|
        {
          ObjectionInside(minimal, rules, own, budget - 1, item.body, inside, other);
        }
      }
    }
  }

  /** The judgment of a body: allowed where no record met is objected to, else
      refused for the objection that stands furthest to the front. */
  lemma {:induction false} BodyJudged(minimal: bool, rules: Rules, trail: Word, budget: nat, items: seq<Item>,
                                      base: nat)
    requires LawfulBody(minimal, items) && BodyDepth(items) <= budget && |BodyBytes(items)| <= MAX_LEN
    ensures Judges(minimal, rules, trail, budget, items, base, JudgeBody(minimal, rules, trail, budget, base, items))
    decreases items, 2
  {
    hide JudgeItem, Objection, Lawful, Depth, ItemBytes;
    if items == [] {
      forall fault ensures !Objection(minimal, rules, trail, budget, [], base, fault) {
        NoObjection(minimal, rules, trail, budget, base, fault);
      }
    } else {
      var next := base + |ItemBytes(items[0])|;
      ItemJudged(minimal, rules, trail, budget, items[0], base);
      BodyJudged(minimal, rules, trail, budget, items[1..], next);
      forall other ensures Objection(minimal, rules, trail, budget, items, base, other)
        <==> || Objection(minimal, rules, trail, budget, [items[0]], base, other)
             || Objection(minimal, rules, trail, budget, items[1..], next, other)
      {
        ObjectionLater(minimal, rules, trail, budget, items, base, other);
      }
      forall other | Objection(minimal, rules, trail, budget, [items[0]], base, other) ensures other.at < next {
        AloneInside(minimal, rules, trail, budget, items[0], base, other);
      }
      forall other | Objection(minimal, rules, trail, budget, items[1..], next, other) ensures next <= other.at {
        ObjectionInside(minimal, rules, trail, budget, items[1..], next, other);
      }
    }
  }

  /** Every record the walk meets has its claim satisfied. */
  ghost predicate AllSatisfied(minimal: bool, rules: Rules, trail: Word, budget: nat, items: seq<Item>, base: nat) {
    forall x: Item, at: nat, word: Word :: Geometry.Met(rules, trail, items, base, x, at, word) ==>
      Satisfied(minimal, rules, DepthLeft(budget, trail, word), x, word)
  }

  /** A whole job over a readable document is allowed if and only if every claimed
      record it meets has a lawful equal-width meaning; it is refused for the
      first objection, and there is one at most at any place. */
  lemma JobIsExact(minimal: bool, rules: Rules, limit: nat, bytes: seq<Byte>)
    requires Layers.Admitted(ProgramOf(rules)) && |bytes| <= MAX_LEN
             && Parse(minimal, Walked(rules), limit, bytes).Some?
    ensures var items := Parse(minimal, Walked(rules), limit, bytes).value;
            var plan := Plan(minimal, rules, limit, bytes);
            && Judges(minimal, rules, [], limit, items, 0, plan)
            && (plan.Allowed? <==> AllSatisfied(minimal, rules, [], limit, items, 0))
  {
    hide Parse, ParseBody, Plan, JudgeBody, Walked, BodyDepth, LawfulBody, BodyBytes, Layers.Admitted, ProgramOf,
         Objection;
    PlanIsTrees(minimal, rules, limit, bytes);
    var items := Parse(minimal, Walked(rules), limit, bytes).value;
    ParseIsInverse(minimal, Walked(rules), limit, bytes, items);
    BodyJudged(minimal, rules, [], limit, items, 0);
    AllSatisfiedIff(minimal, rules, limit, items);
  }

  lemma AllSatisfiedIff(minimal: bool, rules: Rules, limit: nat, items: seq<Item>)
    requires LawfulBody(minimal, items) && BodyDepth(items) <= limit && |BodyBytes(items)| <= MAX_LEN
    ensures AllSatisfied(minimal, rules, [], limit, items, 0)
       <==> forall fault :: !Objection(minimal, rules, [], limit, items, 0, fault)
  {
    hide Satisfied, Objects, LawfulBody, BodyDepth, BodyBytes;
    forall x: Item, at: nat, word: Word | Geometry.Met(rules, [], items, 0, x, at, word)
      ensures Satisfied(minimal, rules, DepthLeft(limit, [], word), x, word)
         <==> forall fault :: !Objects(minimal, rules, DepthLeft(limit, [], word), x, at, word, fault)
    {
      MetLawful(minimal, rules, [], limit, items, 0, x, at, word);
      SatisfiedIffUnopposed(minimal, rules, DepthLeft(limit, [], word), x, at, word);
    }
    if fault :| Objection(minimal, rules, [], limit, items, 0, fault) {
      var x, at, word :| Geometry.Met(rules, [], items, 0, x, at, word)
        && Objects(minimal, rules, DepthLeft(limit, [], word), x, at, word, fault);
      assert !Satisfied(minimal, rules, DepthLeft(limit, [], word), x, word);
    }
    if x: Item, at: nat, word: Word :| Geometry.Met(rules, [], items, 0, x, at, word)
                                       && !Satisfied(minimal, rules, DepthLeft(limit, [], word), x, word) {
      var fault :| Objects(minimal, rules, DepthLeft(limit, [], word), x, at, word, fault);
      assert Objection(minimal, rules, [], limit, items, 0, fault);
    }
  }

  /** A record met is lawful, inside the document, and within the depth left. */
  lemma {:induction false} MetLawful(minimal: bool, rules: Rules, trail: Word, budget: nat, items: seq<Item>, base: nat,
                                     x: Item, at: nat, word: Word)
    requires LawfulBody(minimal, items) && BodyDepth(items) <= budget && |BodyBytes(items)| <= MAX_LEN
    requires Geometry.Met(rules, trail, items, base, x, at, word)
    ensures Lawful(minimal, x) && Depth(x) <= DepthLeft(budget, trail, word) && |ItemBytes(x)| <= MAX_LEN
    decreases items
  {
    hide ItemBytes, HeaderSize, OwnedAt, Geometry.Met, EncodedLen;
    MetSomething(rules, trail, items, base, x, at, word);
    MetLater(rules, trail, items, base, x, at, word);
    MetBelow(rules, trail, items, base, x, at, word);
    if Geometry.Met(rules, trail, items[1..], base + |ItemBytes(items[0])|, x, at, word) {
      MetLawful(minimal, rules, trail, budget, items[1..], base + |ItemBytes(items[0])|, x, at, word);
    } else {
      var item := items[0];
      MetAlone(rules, trail, item, base, x, at, word);
      if !(item == x && at == base && word == trail + [x.field]) {
        var own := trail + [item.field];
        EndsWithTag(item);
        MetBelow(rules, own, item.body, base + HeaderSize(item), x, at, word);
        MetLawful(minimal, rules, own, budget - 1, item.body, base + HeaderSize(item), x, at, word);
      }
    }
  }

  // ─── the payloads authoring refuses ───

  /** A payload is oversize exactly where no lawful record could ever take it: no
      length prefix reaches it, or no record of a document its own bytes fit. */
  lemma OversizeNeverMeant(minimal: bool, budget: nat, action: Action)
    ensures action.SetPayload? ==>
              (R.Oversize(action) <==> forall item, items :: !Means(minimal, budget, action, item, items))
    ensures action.ReplaceRecord? && (exists whole :: Candidate(minimal, budget, action.record, whole)) ==>
              (R.Oversize(action) <==>
               forall item, items :: |ItemBytes(item)| <= MAX_LEN ==> !Means(minimal, budget, action, item, items))
    ensures !action.SetPayload? && !action.ReplaceRecord? ==> !R.Oversize(action)
  {
    hide Spell, EncodedLen, ItemBytes, BodyBytes, LawfulBody, BodyDepth, Lawful;
    if action.SetPayload? {
      if |action.bytes| <= MAX_LEN {
        var taken := Taker(action.bytes);
        LoneItem(minimal, taken);
        TakerIsLawful(minimal, action.bytes);
        assert Means(minimal, budget, action, taken, [taken]);
      } else {
        forall item, items ensures !Means(minimal, budget, action, item, items) {
          TooLongToTake(minimal, budget, action, item, items);
        }
      }
    } else if action.ReplaceRecord? {
      if whole :| Candidate(minimal, budget, action.record, whole) {
        LoneItem(minimal, whole);
        if |action.record| <= MAX_LEN {
          assert Means(minimal, budget, action, whole, [whole]);
        } else {
          forall item, items | |ItemBytes(item)| <= MAX_LEN ensures !Means(minimal, budget, action, item, items) {
            if |items| == 1 {
              LoneItem(minimal, items[0]);
              assert items == [items[0]];
            }
          }
        }
      }
    }
  }

  /** The candidate is one lawful opaque record. */
  predicate Candidate(minimal: bool, budget: nat, bytes: seq<Byte>, whole: Item) {
    Lawful(minimal, whole) && Conforms(NO_ROUTE, [], whole) && Depth(whole) <= budget && ItemBytes(whole) == bytes
  }

  function Taker(bytes: seq<Byte>): Item
    requires |bytes| <= MAX_LEN
  {
    EncodedLenSteps(|bytes|);
    Len(1, 1, EncodedLen(|bytes|), bytes)
  }

  lemma TakerIsLawful(minimal: bool, bytes: seq<Byte>)
    requires |bytes| <= MAX_LEN
    ensures Lawful(minimal, Taker(bytes)) && Depth(Taker(bytes)) == 0
  {
    EncodedLenSteps(TagWord(1, LEN_CODE));
    EncodedLenSteps(|bytes|);
  }

  lemma TooLongToTake(minimal: bool, budget: nat, action: Action, item: Item, items: seq<Item>)
    requires action.SetPayload? && |action.bytes| > MAX_LEN
    ensures !Means(minimal, budget, action, item, items)
  {
    hide EncodedLen, ItemBytes, BodyBytes;
    if |items| == 1 {
      LoneItem(minimal, items[0]);
      assert items == [items[0]];
    }
  }
}
