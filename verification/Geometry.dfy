/** What an equal-width job keeps: every surviving record's offset, kind, widths
    and extent, and a document no rule claims anything of
    (src/inplace.rs, src/inplace/grouped.rs). */
module Geometry {
  import opened Varints
  import opened Wire
  import opened Filler
  import opened Writes
  import opened Paths
  import opened InPlace
  import opened Judgment
  import opened EqualWidth
  import Layers

  // ─── where records stand ───

  /** A record of the tree at an absolute offset. */
  predicate Occurs(items: seq<Item>, base: nat, x: Item, at: nat)
    decreases items
  {
    && items != []
    && (|| (items[0] == x && at == base)
        || ((items[0].Msg? || items[0].Group?) && Occurs(items[0].body, base + HeaderSize(items[0]), x, at))
        || Occurs(items[1..], base + |ItemBytes(items[0])|, x, at))
  }

  lemma {:induction false} OccursAfter(a: seq<Item>, b: seq<Item>, base: nat, x: Item, at: nat)
    requires Occurs(b, base + |BodyBytes(a)|, x, at)
    ensures Occurs(a + b, base, x, at)
  {
    hide ItemBytes, HeaderSize;
    if a == [] {
      assert a + b == b;
    } else {
      hide Occurs, BodyBytes;
      BodyBytesStep(a);
      OccursAfter(a[1..], b, base + |ItemBytes(a[0])|, x, at);
      OccursLater(a[0], a[1..] + b, base, x, at);
      assert a + b == [a[0]] + (a[1..] + b);
    }
  }

  lemma BodyBytesStep(items: seq<Item>)
    requires items != []
    ensures |BodyBytes(items)| == |ItemBytes(items[0])| + |BodyBytes(items[1..])|
  {
    hide ItemBytes;
  }

  lemma OccursLater(item: Item, b: seq<Item>, base: nat, x: Item, at: nat)
    requires Occurs(b, base + |ItemBytes(item)|, x, at)
    ensures Occurs([item] + b, base, x, at)
  {
    hide ItemBytes, HeaderSize;
    assert ([item] + b)[1..] == b;
  }

  lemma OccursBefore(item: Item, b: seq<Item>, base: nat, x: Item, at: nat)
    requires Occurs([item], base, x, at)
    ensures Occurs([item] + b, base, x, at)
  {
    assert [item][1..] == [];
  }

  lemma OccursWithin(item: Item, base: nat, x: Item, at: nat)
    requires (item.Msg? || item.Group?) && Occurs(item.body, base + HeaderSize(item), x, at)
    ensures Occurs([item], base, x, at)
  {}

  /** A record's frame: its kind and number, its tag's width, its prefix's or end
      tag's width, and the size of what they frame. */
  datatype Outline = Outline(code: nat, field: Field, tagWidth: nat, frameWidth: nat, size: nat)

  function OutlineOf(item: Item): Outline {
    match item
    case Varint(f, t, _, w) => Outline(VARINT_CODE, f, t, 0, w)
    case I64(f, t, _) => Outline(I64_CODE, f, t, 0, 8)
    case I32(f, t, _) => Outline(I32_CODE, f, t, 0, 4)
    case Len(f, t, p, payload) => Outline(LEN_CODE, f, t, p, |payload|)
    case Msg(f, t, p, body) => Outline(LEN_CODE, f, t, p, |BodyBytes(body)|)
    case Group(f, t, e, body) => Outline(GROUP_CODE, f, t, e, |BodyBytes(body)|)
  }

  /** The outline fixes the record's whole extent. */
  lemma OutlineSize(item: Item)
    ensures |ItemBytes(item)| == OutlineOf(item).tagWidth + OutlineOf(item).frameWidth + OutlineOf(item).size
  {
    hide Spell, EncodedLen, LittleEndian;
    if item.Code() == LEN_CODE {
      LenLayout(item);
    } else if item.Group? {
      GroupLayout(item);
    }
  }

  /** The walk meets this record, under containers none of which a rule owns:
      its offset, and the word of its trail. */
  predicate Met(rules: Rules, trail: Word, items: seq<Item>, base: nat, x: Item, at: nat, word: Word)
    decreases items
  {
    && items != []
    && (|| (items[0] == x && at == base && word == trail + [x.field])
        || ((items[0].Msg? || items[0].Group?) && !OwnedAt(rules, trail + [items[0].field])
            && Met(rules, trail + [items[0].field], items[0].body, base + HeaderSize(items[0]), x, at, word))
        || Met(rules, trail, items[1..], base + |ItemBytes(items[0])|, x, at, word))
  }

  /** The claims that leave a record standing. */
  predicate Survives(claim: Claim) {
    claim.Free? || (claim.By? && !claim.action.ReplaceRecord? && !claim.action.Tombstone?)
  }

  /** Its number afterwards. */
  function FieldAfter(claim: Claim, field: Field): Field {
    if claim.By? && claim.action.Renumber? then claim.action.field else field
  }

  /** What stands afterwards where `x` stood: the same frame under the number its
      claim gives it, and the same record if nothing claims it or anything in it. */
  predicate StandsFor(claim: Claim, x: Item, y: Item) {
    && OutlineOf(y) == OutlineOf(x).(field := FieldAfter(claim, x.field))
    && (claim.Free? && !x.Msg? && !x.Group? ==> y == x)
  }

  // ─── one record ───

  /** An allowed container that no rule owns was judged inside, and survives. */
  lemma SurvivorIsJudged(minimal: bool, rules: Rules, trail: Word, budget: nat, base: nat, item: Item)
    requires (item.Msg? || item.Group?) && 0 < budget && |ItemBytes(item)| <= MAX_LEN
    requires JudgeItem(minimal, rules, trail, budget, base, item).Allowed? && !OwnedAt(rules, trail + [item.field])
    ensures |BodyBytes(item.body)| <= MAX_LEN
    ensures JudgeBody(minimal, rules, trail + [item.field], budget - 1, base + HeaderSize(item), item.body).Allowed?
    ensures var edited := Edited(minimal, rules, trail, budget, item);
            && |edited| == 1 && (edited[0].Msg? || edited[0].Group?) && HeaderSize(edited[0]) == HeaderSize(item)
            && edited[0].body == EditedBody(minimal, rules, trail + [item.field], budget - 1, item.body)
  {
    hide Spell, EncodedLen, ItemBytes, JudgeBody, EditedBody, ClaimAt;
    BodyFits(item);
    var word := trail + [item.field];
    assert JudgeInside(minimal, rules, word, budget, base, item).Allowed?;
    var inside := EditedInside(minimal, rules, word, budget, item);
    assert HeaderSize(inside) == HeaderSize(item);
    if ClaimAt(rules, word).By? {
      assert ClaimAt(rules, word).action.Renumber?;
    } else {
      assert Edited(minimal, rules, trail, budget, item) == [inside];
    }
  }

  lemma EditedSize(minimal: bool, rules: Rules, trail: Word, budget: nat, base: nat, item: Item)
    requires Lawful(minimal, item) && Depth(item) <= budget && |ItemBytes(item)| <= MAX_LEN
    requires JudgeItem(minimal, rules, trail, budget, base, item).Allowed?
    ensures |BodyBytes(Edited(minimal, rules, trail, budget, item))| == |ItemBytes(item)|
  {
    hide ItemBytes, BodyBytes, JudgeItem, Edited, LawfulBody, Lawful, Achieves;
    ItemLands(minimal, rules, trail, budget, Zeros(base), item, []);
  }


  lemma SameSizedBody(item: Item, body: seq<Item>)
    requires item.Msg? || item.Group?
    requires |ItemBytes(item.(body := body))| == |ItemBytes(item)|
    ensures |BodyBytes(body)| == |BodyBytes(item.body)|
  {
    hide Spell, EncodedLen, BodyBytes, ItemBytes;
    OutlineSize(item);
    OutlineSize(item.(body := body));
  }

  lemma InsideStands(minimal: bool, rules: Rules, inner: Word, budget: nat, at: nat, item: Item)
    requires Lawful(minimal, item) && Depth(item) <= budget && |ItemBytes(item)| <= MAX_LEN
    requires JudgeInside(minimal, rules, inner, budget, at, item).Allowed?
    ensures var after := EditedInside(minimal, rules, inner, budget, item);
            OutlineOf(after) == OutlineOf(item) && (!item.Msg? && !item.Group? ==> after == item)
  {
    hide Spell, EncodedLen, Achieves, BodyBytes, LawfulBody, JudgeBody, EditedBody, ItemBytes, Lawful, Depth;
    InsideLands(minimal, rules, inner, budget, at, Zeros(at + item.tagWidth), item, []);
    var after := EditedInside(minimal, rules, inner, budget, item);
    LoneItem(minimal, after);
    if item.Msg? || item.Group? {
      SameSizedBody(item, after.body);
    }
  }

  lemma RenumberedOutline(item: Item, field: Field)
    ensures OutlineOf(Renumbered(item, field)) == OutlineOf(item).(field := field)
  {
    hide BodyBytes;
  }

  lemma RewrittenOutline(minimal: bool, rule: Layers.U16, action: Action, budget: nat, at: nat, item: Item)
    requires action.SetVarint? || action.SetI32? || action.SetI64? || action.SetPayload?
    requires |ItemBytes(item)| <= MAX_LEN && Claimed(minimal, rule, action, budget, at, item).Allowed?
    ensures var after := Rewritten(minimal, action, budget, item);
            |after| == 1 && OutlineOf(after[0]) == OutlineOf(item)
  {
    hide Spell, EncodedLen, BodyBytes, ItemBytes;
  }

  /** A surviving record leaves one record, standing for it. */
  lemma RecordStands(minimal: bool, rules: Rules, trail: Word, budget: nat, at: nat, item: Item)
    requires Lawful(minimal, item) && Depth(item) <= budget && |ItemBytes(item)| <= MAX_LEN
    requires JudgeItem(minimal, rules, trail, budget, at, item).Allowed?
             && Survives(ClaimAt(rules, trail + [item.field]))
    ensures var after := Edited(minimal, rules, trail, budget, item);
            |after| == 1 && StandsFor(ClaimAt(rules, trail + [item.field]), item, after[0])
  {
    hide Spell, EncodedLen, BodyBytes, LawfulBody, ItemBytes, Lawful, Depth, ClaimAt, Claimed, Rewritten, JudgeInside,
         EditedInside, OutlineOf;
    var word := trail + [item.field];
    match ClaimAt(rules, word)
    case By(rule, action) =>
      if action.Renumber? {
        InsideStands(minimal, rules, word, budget, at, item);
        RenumberedOutline(EditedInside(minimal, rules, word, budget, item), action.field);
      } else {
        RewrittenOutline(minimal, rule, action, budget, at, item);
        OutlineFields(item);
      }
    case _ =>
      InsideStands(minimal, rules, word, budget, at, item);
      OutlineFields(item);
  }

  lemma OutlineFields(item: Item)
    ensures OutlineOf(item).field == item.field
  {}

  // ─── at any depth ───

  lemma {:induction false} MetInside(minimal: bool, rules: Rules, trail: Word, budget: nat, base: nat, item: Item,
                                     x: Item, at: nat, word: Word) returns (y: Item)
    requires (item.Msg? || item.Group?) && Lawful(minimal, item) && Depth(item) <= budget
             && |ItemBytes(item)| <= MAX_LEN
    requires JudgeItem(minimal, rules, trail, budget, base, item).Allowed? && !OwnedAt(rules, trail + [item.field])
    requires Met(rules, trail + [item.field], item.body, base + HeaderSize(item), x, at, word)
             && Survives(ClaimAt(rules, word))
    ensures StandsFor(ClaimAt(rules, word), x, y)
    ensures var edited := Edited(minimal, rules, trail, budget, item); |edited| == 1 && Occurs([edited[0]], base, y, at)
    decreases item, 0
  {
    hide Spell, EncodedLen, ItemBytes, LawfulBody, BodyDepth, Met, Occurs, JudgeBody, EditedBody, JudgeItem, Edited,
         OwnedAt,
         StandsFor, Survives, ClaimAt;
    BodyFits(item);
    SurvivorIsJudged(minimal, rules, trail, budget, base, item);
    y := MetStands(minimal, rules, trail + [item.field], budget - 1, base + HeaderSize(item), item.body, x, at, word);
    OccursWithin(Edited(minimal, rules, trail, budget, item)[0], base, y, at);
  }

  /** Every record the walk meets and no rule overwrites whole stands where it
      stood, container or leaf, at whatever depth: same offset, same kind, same
      widths, same extent, and the number its claim gives it. */
  lemma {:induction false} MetStands(minimal: bool, rules: Rules, trail: Word, budget: nat, base: nat, items: seq<Item>,
                                     x: Item, at: nat, word: Word) returns (y: Item)
    requires LawfulBody(minimal, items) && BodyDepth(items) <= budget && |BodyBytes(items)| <= MAX_LEN
    requires JudgeBody(minimal, rules, trail, budget, base, items).Allowed?
    requires Met(rules, trail, items, base, x, at, word) && Survives(ClaimAt(rules, word))
    ensures Occurs(EditedBody(minimal, rules, trail, budget, items), base, y, at)
            && StandsFor(ClaimAt(rules, word), x, y)
    decreases items, 1
  {
    hide Spell, EncodedLen, ItemBytes, HeaderSize, OwnedAt, ClaimAt, Lawful, Depth, StandsFor, Survives, JudgeItem,
         Edited;
    var item := items[0];
    var a := Edited(minimal, rules, trail, budget, item);
    var b := EditedBody(minimal, rules, trail, budget, items[1..]);
    if Met(rules, trail, items[1..], base + |ItemBytes(item)|, x, at, word) {
      y := MetStands(minimal, rules, trail, budget, base + |ItemBytes(item)|, items[1..], x, at, word);
      EditedSize(minimal, rules, trail, budget, base, item);
      OccursAfter(a, b, base, y, at);
    } else {
      if item == x && at == base && word == trail + [x.field] {
        RecordStands(minimal, rules, trail, budget, base, item);
        y := a[0];
      } else {
        y := MetInside(minimal, rules, trail, budget, base, item, x, at, word);
      }
      OccursBefore(a[0], b, base, y, at);
      assert [a[0]] + b == a + b;
    }
  }

  // ─── bytes ───

  predicate SliceAt(outer: seq<Byte>, lo: int, inner: seq<Byte>) {
    0 <= lo && lo + |inner| <= |outer| && outer[lo..lo + |inner|] == inner
  }

  lemma SliceWithin(outer: seq<Byte>, lo: int, mid: seq<Byte>, at: int, inner: seq<Byte>)
    requires SliceAt(outer, lo, mid) && SliceAt(mid, at, inner)
    ensures SliceAt(outer, lo + at, inner)
  {
    forall k | 0 <= k < |inner| ensures outer[lo + at + k] == inner[k] {
      assert mid[at..at + |inner|][k] == mid[at + k] == outer[lo..lo + |mid|][at + k];
    }
  }

  lemma SliceHalves(a: seq<Byte>, b: seq<Byte>)
    ensures SliceAt(a + b, 0, a) && SliceAt(a + b, |a|, b)
  {}

  /** An occurrence at an offset is the record's bytes at that offset. */
  lemma {:induction false} OccursBytes(items: seq<Item>, base: nat, x: Item, at: nat)
    requires Occurs(items, base, x, at)
    ensures SliceAt(BodyBytes(items), at - base, ItemBytes(x))
    decreases items
  {
    hide Spell, EncodedLen, ItemBytes, HeaderSize, SliceAt;
    var item, rest := items[0], BodyBytes(items[1..]);
    var bytes := ItemBytes(item);
    SliceHalves(bytes, rest);
    if item == x && at == base {
    } else if (item.Msg? || item.Group?) && Occurs(item.body, base + HeaderSize(item), x, at) {
      OccursBytes(item.body, base + HeaderSize(item), x, at);
      BodySits(item);
      SliceWithin(bytes, HeaderSize(item), BodyBytes(item.body), at - base - HeaderSize(item), ItemBytes(x));
      SliceWithin(bytes + rest, 0, bytes, at - base, ItemBytes(x));
    } else {
      OccursBytes(items[1..], base + |bytes|, x, at);
      SliceWithin(bytes + rest, |bytes|, rest, at - base - |bytes|, ItemBytes(x));
    }
  }

  /** A container's body sits right behind its header. */
  lemma BodySits(item: Item)
    requires item.Msg? || item.Group?
    ensures SliceAt(ItemBytes(item), HeaderSize(item), BodyBytes(item.body))
  {
    hide Spell, EncodedLen, BodyBytes;
    if item.Msg? {
      LenLayout(item);
    } else {
      GroupLayout(item);
    }
  }

  lemma {:induction false} MetOccurs(rules: Rules, trail: Word, items: seq<Item>, base: nat, x: Item, at: nat,
                                     word: Word)
    requires Met(rules, trail, items, base, x, at, word)
    ensures Occurs(items, base, x, at)
    decreases items
  {
    hide ItemBytes, HeaderSize, OwnedAt, ClaimAt;
    if Met(rules, trail, items[1..], base + |ItemBytes(items[0])|, x, at, word) {
      MetOccurs(rules, trail, items[1..], base + |ItemBytes(items[0])|, x, at, word);
    } else if (items[0].Msg? || items[0].Group?)
           && Met(rules, trail + [items[0].field], items[0].body, base + HeaderSize(items[0]), x, at, word) {
      MetOccurs(rules, trail + [items[0].field], items[0].body, base + HeaderSize(items[0]), x, at, word);
    }
  }

  /** Equal width moves no offset, over a whole job: where a record stood that no
      rule overwrites whole, a record of the same frame stands after the commit,
      its bytes at that offset — the very record, if unclaimed and a leaf. */
  lemma MetStaysPut(minimal: bool, rules: Rules, limit: nat, bytes: seq<Byte>, x: Item, at: nat, word: Word)
    returns (y: Item)
    requires Layers.Admitted(ProgramOf(rules)) && Plan(minimal, rules, limit, bytes).Allowed?
    requires Parse(minimal, Walked(rules), limit, bytes).Some?
    requires Met(rules, [], Parse(minimal, Walked(rules), limit, bytes).value, 0, x, at, word)
             && Survives(ClaimAt(rules, word))
    ensures StandsFor(ClaimAt(rules, word), x, y) && |ItemBytes(y)| == |ItemBytes(x)|
    ensures var ws := Plan(minimal, rules, limit, bytes).value;
            && Within(ws, 0, |bytes|)
            && Occurs(EditedBody(minimal, rules, [], limit, Parse(minimal, Walked(rules), limit, bytes).value), 0, y,
                      at)
            && SliceAt(bytes, at, ItemBytes(x)) && SliceAt(Landed(minimal, bytes, ws, |ws|), at, ItemBytes(y))
  {
    hide Parse, JudgeBody, EditedBody, LawfulBody, BodyDepth, BodyBytes, ItemBytes, Landed, Walked, BodyConforms, Met,
         Occurs, ClaimAt, Survives, StandsFor, SliceAt, Plan, Within, Apart, Layers.Admitted, ProgramOf;
    AllowedReads(minimal, rules, limit, bytes);
    PlanIsTrees(minimal, rules, limit, bytes);
    PlanLands(minimal, rules, limit, bytes);
    var items := Parse(minimal, Walked(rules), limit, bytes).value;
    ParseIsInverse(minimal, Walked(rules), limit, bytes, items);
    y := MetStands(minimal, rules, [], limit, 0, items, x, at, word);
    MetOccurs(rules, [], items, 0, x, at, word);
    OccursBytes(items, 0, x, at);
    OccursBytes(EditedBody(minimal, rules, [], limit, items), 0, y, at);
    StandsAsLong(ClaimAt(rules, word), x, y);
  }

  lemma StandsAsLong(claim: Claim, x: Item, y: Item)
    requires StandsFor(claim, x, y)
    ensures |ItemBytes(y)| == |ItemBytes(x)|
  {
    hide ItemBytes, OutlineOf;
    OutlineSize(x);
    OutlineSize(y);
  }

  // ─── documents no rule claims anything of ───

  /** No record of the tree, at its own trail, is claimed by any rule. */
  predicate Unclaimed(rules: Rules, trail: Word, items: seq<Item>)
    decreases items
  {
    || items == []
    || (&& ClaimAt(rules, trail + [items[0].field]).Free?
        && (items[0].Msg? || items[0].Group? ==> Unclaimed(rules, trail + [items[0].field], items[0].body))
        && Unclaimed(rules, trail, items[1..]))
  }

  lemma {:induction false} UnclaimedItem(minimal: bool, rules: Rules, trail: Word, budget: nat, at: nat, item: Item)
    requires ClaimAt(rules, trail + [item.field]).Free? && Depth(item) <= budget && |ItemBytes(item)| <= MAX_LEN
    requires item.Msg? || item.Group? ==> Unclaimed(rules, trail + [item.field], item.body)
    ensures JudgeItem(minimal, rules, trail, budget, at, item) == Allowed([])
    ensures Edited(minimal, rules, trail, budget, item) == [item]
    decreases item, 1
  {
    hide Spell, EncodedLen, ItemBytes, ClaimAt, Unclaimed;
    if item.Msg? || item.Group? {
      BodyFits(item);
      UnclaimedBody(minimal, rules, trail + [item.field], budget - 1, at + HeaderSize(item), item.body);
    }
  }

  lemma {:induction false} UnclaimedBody(minimal: bool, rules: Rules, trail: Word, budget: nat, at: nat,
                                         items: seq<Item>)
    requires Unclaimed(rules, trail, items) && BodyDepth(items) <= budget && |BodyBytes(items)| <= MAX_LEN
    ensures JudgeBody(minimal, rules, trail, budget, at, items) == Allowed([])
    ensures EditedBody(minimal, rules, trail, budget, items) == items
    decreases items, 0
  {
    hide Spell, EncodedLen, ItemBytes, JudgeItem, Edited, ClaimAt;
    if items != [] {
      UnclaimedItem(minimal, rules, trail, budget, at, items[0]);
      UnclaimedBody(minimal, rules, trail, budget, at + |ItemBytes(items[0])|, items[1..]);
      var none: seq<Planned> := [];
      assert none + none == none;
      assert [items[0]] + items[1..] == items;
    }
  }

  lemma {:induction false} QuietItem(minimal: bool, rules: Rules, trail: Word, budget: nat, at: nat, item: Item)
    requires |ItemBytes(item)| <= MAX_LEN && JudgeItem(minimal, rules, trail, budget, at, item) == Allowed([])
    ensures ClaimAt(rules, trail + [item.field]).Free?
    ensures item.Msg? || item.Group? ==> Unclaimed(rules, trail + [item.field], item.body)
    decreases item, 1
  {
    hide Spell, EncodedLen, ItemBytes, ClaimAt, Unclaimed, Claimed, BodyBytes;
    var word := trail + [item.field];
    if ClaimAt(rules, word).Free? && (item.Msg? || item.Group?) {
      BodyFits(item);
      QuietBody(minimal, rules, word, budget - 1, at + HeaderSize(item), item.body);
    }
  }

  lemma {:induction false} QuietBody(minimal: bool, rules: Rules, trail: Word, budget: nat, at: nat, items: seq<Item>)
    requires |BodyBytes(items)| <= MAX_LEN && JudgeBody(minimal, rules, trail, budget, at, items) == Allowed([])
    ensures Unclaimed(rules, trail, items)
    decreases items, 0
  {
    hide Spell, EncodedLen, ItemBytes, JudgeItem, ClaimAt;
    if items != [] {
      QuietItem(minimal, rules, trail, budget, at, items[0]);
      QuietBody(minimal, rules, trail, budget, at + |ItemBytes(items[0])|, items[1..]);
    }
  }

  /** A job plans no write and no refusal exactly where no record of the document
      is claimed, whatever the rules would do elsewhere; it then changes nothing. */
  lemma QuietIffUnclaimed(minimal: bool, rules: Rules, limit: nat, bytes: seq<Byte>)
    requires Layers.Admitted(ProgramOf(rules)) && |bytes| <= MAX_LEN
    requires Parse(minimal, Walked(rules), limit, bytes).Some?
    ensures var items := Parse(minimal, Walked(rules), limit, bytes).value;
            && (Plan(minimal, rules, limit, bytes) == Allowed([]) <==> Unclaimed(rules, [], items))
            && (Unclaimed(rules, [], items) ==> EditedBody(minimal, rules, [], limit, items) == items)
  {
    hide Parse, JudgeBody, Walked, BodyBytes, BodyDepth, LawfulBody, BodyConforms, Unclaimed, EditedBody, Plan;
    PlanIsTrees(minimal, rules, limit, bytes);
    var items := Parse(minimal, Walked(rules), limit, bytes).value;
    ParseIsInverse(minimal, Walked(rules), limit, bytes, items);
    if Unclaimed(rules, [], items) {
      UnclaimedBody(minimal, rules, [], limit, 0, items);
    }
    if JudgeBody(minimal, rules, [], limit, 0, items) == Allowed([]) {
      QuietBody(minimal, rules, [], limit, 0, items);
    }
  }
}
