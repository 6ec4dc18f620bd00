/** The equal-width theorem: what the judged writes land is the edited
    document, record for record and offset for offset, in any order
    (src/inplace.rs, src/inplace/grouped.rs). */
module EqualWidth {
  import opened Sequences
  import opened Varints
  import opened Wire
  import opened Filler
  import opened Writes
  import opened Paths
  import opened InPlace
  import opened Scanning
  import opened Judgment
  import Layers

  // ─── edits over an extent, and how they compose ───

  /** Landing `ws` turns the extent `before`, wherever it sits, into `after`
      of the same size, touching no other byte and no byte twice. */
  predicate Achieves(minimal: bool, pre: seq<Byte>, before: seq<Byte>, post: seq<Byte>, ws: seq<Planned>,
                     after: seq<Byte>) {
    && |before| == |after| && Within(ws, |pre|, |pre| + |before|) && Apart(ws)
    && Landed(minimal, pre + before + post, ws, |ws|) == pre + after + post
  }

  lemma AchievesNothing(minimal: bool, pre: seq<Byte>, before: seq<Byte>, post: seq<Byte>)
    ensures Achieves(minimal, pre, before, post, [], before)
  {}

  lemma AchievesOne(minimal: bool, pre: seq<Byte>, before: seq<Byte>, post: seq<Byte>, w: Planned)
    requires w.at == |pre| && w.Size() == |before|
    ensures Achieves(minimal, pre, before, post, [w], WriteBytes(minimal, w))
  {
    hide WriteBytes;
    var buf := pre + before + post;
    assert Landed(minimal, buf, [w], 1) == Land(minimal, buf, w);
    assert buf[..|pre|] == pre && buf[|pre| + |before|..] == post;
  }

  /** Two adjacent extents, the left one first. */
  lemma AchievesLeft(minimal: bool, pre: seq<Byte>, a: seq<Byte>, b: seq<Byte>, post: seq<Byte>,
                     wa: seq<Planned>, wb: seq<Planned>, na: seq<Byte>, nb: seq<Byte>)
    requires Achieves(minimal, pre, a, b + post, wa, na) && Achieves(minimal, pre + na, b, post, wb, nb)
    ensures Achieves(minimal, pre, a + b, post, wa + wb, na + nb)
  {
    hide Landed, WriteBytes;
    var buf := pre + (a + b) + post;
    assert buf == pre + a + (b + post);
    assert pre + na + (b + post) == pre + na + b + post;
    assert pre + na + nb + post == pre + (na + nb) + post;
    LandedConcat(minimal, buf, wa, wb, |wb|);
  }

  /** Two adjacent extents, the right one first. */
  lemma AchievesRight(minimal: bool, pre: seq<Byte>, a: seq<Byte>, b: seq<Byte>, post: seq<Byte>,
                      wa: seq<Planned>, wb: seq<Planned>, na: seq<Byte>, nb: seq<Byte>)
    requires Achieves(minimal, pre + a, b, post, wb, nb) && Achieves(minimal, pre, a, nb + post, wa, na)
    ensures Achieves(minimal, pre, a + b, post, wb + wa, na + nb)
  {
    hide Landed, WriteBytes;
    var buf := pre + (a + b) + post;
    assert buf == pre + a + b + post;
    assert pre + a + (nb + post) == pre + a + nb + post;
    assert pre + na + (nb + post) == pre + (na + nb) + post;
    LandedConcat(minimal, buf, wb, wa, |wa|);
  }

  // ─── one claimed record ───

  /** Lawful replacement content: same standard, same size, inside the budget. */
  predicate Kept(minimal: bool, budget: nat, items: seq<Item>, size: nat) {
    LawfulBody(minimal, items) && BodyDepth(items) <= budget && |BodyBytes(items)| == size
  }

  /** A claimed record's write and what the rule means by it agree. */
  predicate Meets(minimal: bool, budget: nat, pre: seq<Byte>, item: Item, post: seq<Byte>, ws: seq<Planned>,
                  items: seq<Item>) {
    Achieves(minimal, pre, ItemBytes(item), post, ws, BodyBytes(items))
      && Kept(minimal, budget, items, |ItemBytes(item)|)
  }

  lemma LoneItem(minimal: bool, item: Item)
    ensures BodyBytes([item]) == ItemBytes(item) && BodyDepth([item]) == Depth(item)
    ensures LawfulBody(minimal, [item]) <==> Lawful(minimal, item)
  {
    LoneBody(minimal, item);
    assert [item][1..] == [];
  }

  /** A write over a record's last bytes. */
  lemma TailLands(minimal: bool, pre: seq<Byte>, head: seq<Byte>, tail: seq<Byte>, post: seq<Byte>, w: Planned)
    requires w.at == |pre| + |head| && w.Size() == |tail|
    ensures Achieves(minimal, pre, head + tail, post, [w], head + WriteBytes(minimal, w))
  {
    hide WriteBytes, Landed;
    AchievesNothing(minimal, pre, head, tail + post);
    AchievesOne(minimal, pre + head, tail, post, w);
    AchievesLeft(minimal, pre, head, tail, post, [], [w], head, WriteBytes(minimal, w));
    assert [] + [w] == [w];
  }

  /** The record's bytes as tag, LEN prefix where there is one, and the rest. */
  lemma LenLayout(item: Item)
    requires item.Code() == LEN_CODE
    ensures ItemBytes(item) == (Tag(item.field, LEN_CODE, item.tagWidth)
                                + Spell(|LenPayload(item)|, item.prefixWidth)) + LenPayload(item)
  {
    hide Spell;
    Associative(Tag(item.field, LEN_CODE, item.tagWidth), Spell(|LenPayload(item)|, item.prefixWidth),
                LenPayload(item));
  }

  lemma GroupLayout(item: Item)
    requires item.Group?
    ensures ItemBytes(item) == (Tag(item.field, GROUP_CODE, item.tagWidth) + BodyBytes(item.body))
            + Tag(item.field, END_CODE, item.endWidth)
  {
    hide Spell;
    Associative(Tag(item.field, GROUP_CODE, item.tagWidth), BodyBytes(item.body),
                Tag(item.field, END_CODE, item.endWidth));
  }

  lemma ScalarLands(minimal: bool, rule: Layers.U16, action: Action, budget: nat, pre: seq<Byte>, item: Item,
                    post: seq<Byte>)
    requires action.SetVarint? || action.SetI32? || action.SetI64?
    requires Lawful(minimal, item) && |ItemBytes(item)| <= MAX_LEN
    requires Claimed(minimal, rule, action, budget, |pre|, item).Allowed?
    ensures Meets(minimal, budget, pre, item, post, [Claimed(minimal, rule, action, budget, |pre|, item).value],
                  Rewritten(minimal, action, budget, item))
  {
    hide Spell, EncodedLen, Achieves, BodyBytes, BodyDepth, LawfulBody;
    var w := Claimed(minimal, rule, action, budget, |pre|, item).value;
    var after := Rewritten(minimal, action, budget, item)[0];
    LoneItem(minimal, after);
    assert PayloadBytes(after) == WriteBytes(minimal, w);
    TailLands(minimal, pre, Tag(item.field, item.Code(), item.tagWidth), PayloadBytes(item), post, w);
  }

  lemma PayloadLands(minimal: bool, rule: Layers.U16, action: Action, budget: nat, pre: seq<Byte>, item: Item,
                     post: seq<Byte>)
    requires action.SetPayload?
    requires Lawful(minimal, item) && |ItemBytes(item)| <= MAX_LEN
    requires Claimed(minimal, rule, action, budget, |pre|, item).Allowed?
    ensures Meets(minimal, budget, pre, item, post, [Claimed(minimal, rule, action, budget, |pre|, item).value],
                  Rewritten(minimal, action, budget, item))
  {
    hide Spell, EncodedLen, Achieves, BodyBytes, BodyDepth, LawfulBody, ItemBytes;
    var w := Claimed(minimal, rule, action, budget, |pre|, item).value;
    var after := Rewritten(minimal, action, budget, item)[0];
    LoneItem(minimal, after);
    LenLayout(item);
    LenLayout(after);
    TailLands(minimal, pre, Tag(item.field, LEN_CODE, item.tagWidth) + Spell(|LenPayload(item)|, item.prefixWidth),
              LenPayload(item), post, w);
  }

  lemma ReplacementLands(minimal: bool, rule: Layers.U16, action: Action, budget: nat, pre: seq<Byte>, item: Item,
                         post: seq<Byte>)
    requires action.ReplaceRecord?
    requires |ItemBytes(item)| <= MAX_LEN && Claimed(minimal, rule, action, budget, |pre|, item).Allowed?
    ensures Meets(minimal, budget, pre, item, post, [Claimed(minimal, rule, action, budget, |pre|, item).value],
                  Rewritten(minimal, action, budget, item))
  {
    hide Spell, EncodedLen, Achieves, BodyBytes, BodyDepth, LawfulBody, ItemBytes, ParseItem, SkimItem;
    var w := Claimed(minimal, rule, action, budget, |pre|, item).value;
    var bytes := action.record;
    SkimItemParses(minimal, NO_ROUTE, [], budget, bytes, 0);
    ParseItemSound(minimal, NO_ROUTE, [], budget, bytes);
    var p := ParseItem(minimal, NO_ROUTE, [], budget, bytes).value;
    assert bytes == ItemBytes(p.item) + [] == ItemBytes(p.item);
    LoneItem(minimal, p.item);
    AchievesOne(minimal, pre, ItemBytes(item), post, w);
  }

  lemma TombstoneLands(minimal: bool, rule: Layers.U16, action: Action, budget: nat, pre: seq<Byte>, item: Item,
                       post: seq<Byte>)
    requires action.Tombstone?
    requires |ItemBytes(item)| <= MAX_LEN && Claimed(minimal, rule, action, budget, |pre|, item).Allowed?
    ensures Meets(minimal, budget, pre, item, post, [Claimed(minimal, rule, action, budget, |pre|, item).value],
                  Rewritten(minimal, action, budget, item))
  {
    hide Spell, EncodedLen, Achieves, BodyBytes, ItemBytes, LawfulBody;
    var w := Claimed(minimal, rule, action, budget, |pre|, item).value;
    FillingFills(minimal, |ItemBytes(item)|, action.filler);
    AchievesOne(minimal, pre, ItemBytes(item), post, w);
    ZeroDepth(minimal, |ItemBytes(item)|, action.filler, Filling(minimal, |ItemBytes(item)|, action.filler));
  }

  lemma ZeroDepth(minimal: bool, width: nat, field: Field, items: seq<Item>)
    requires Fills(minimal, width, field, items)
    ensures BodyDepth(items) == 0
  {
    if |items| == 2 {
      assert items[1..] == [items[1]];
      LoneItem(minimal, items[1]);
    } else {
      LoneItem(minimal, items[0]);
      assert items == [items[0]];
    }
  }

  /** Every claimed record: one write, landing exactly what the rule means. */
  lemma ClaimLands(minimal: bool, rule: Layers.U16, action: Action, budget: nat, pre: seq<Byte>, item: Item,
                   post: seq<Byte>)
    requires !action.Renumber? && Lawful(minimal, item) && |ItemBytes(item)| <= MAX_LEN
    requires Claimed(minimal, rule, action, budget, |pre|, item).Allowed?
    ensures Meets(minimal, budget, pre, item, post, [Claimed(minimal, rule, action, budget, |pre|, item).value],
                  Rewritten(minimal, action, budget, item))
  {
    hide Meets, Claimed, Rewritten;
    match action
    case SetPayload(_) => PayloadLands(minimal, rule, action, budget, pre, item, post);
    case ReplaceRecord(_) => ReplacementLands(minimal, rule, action, budget, pre, item, post);
    case Tombstone(_) => TombstoneLands(minimal, rule, action, budget, pre, item, post);
    case _ => ScalarLands(minimal, rule, action, budget, pre, item, post);
  }

  // ─── containers, whole records, and bodies ───

  /** A body's edit, wherever its extent sits. */
  predicate BodyMeets(minimal: bool, budget: nat, pre: seq<Byte>, items: seq<Item>, post: seq<Byte>, ws: seq<Planned>,
                      after: seq<Item>) {
    Achieves(minimal, pre, BodyBytes(items), post, ws, BodyBytes(after))
      && Kept(minimal, budget, after, |BodyBytes(items)|)
  }

  lemma BodyMeetsJoin(minimal: bool, budget: nat, pre: seq<Byte>, item: Item, rest: seq<Item>, post: seq<Byte>,
                      first: seq<Planned>, more: seq<Planned>, a: seq<Item>, b: seq<Item>)
    requires Meets(minimal, budget, pre, item, BodyBytes(rest) + post, first, a)
    requires BodyMeets(minimal, budget, pre + BodyBytes(a), rest, post, more, b)
    ensures BodyMeets(minimal, budget, pre, [item] + rest, post, first + more, a + b)
  {
    hide Achieves, ItemBytes, BodyBytes, LawfulBody, BodyDepth;
    AchievesLeft(minimal, pre, ItemBytes(item), BodyBytes(rest), post, first, more, BodyBytes(a), BodyBytes(b));
    BodyBytesConcat(a, b);
    BodyBytesConcat([item], rest);
    LoneItem(minimal, item);
    LawfulBodyConcat(minimal, a, b);
    BodyDepthConcat(a, b);
  }

  /** A container's framing survives its body's edit: sizes, laws and depth. */
  lemma InsideKept(minimal: bool, budget: nat, item: Item, after: seq<Item>)
    requires (item.Msg? || item.Group?) && Lawful(minimal, item) && budget > 0
    requires Kept(minimal, budget - 1, after, |BodyBytes(item.body)|)
    ensures Kept(minimal, budget, [item.(body := after)], |ItemBytes(item)|)
  {
    hide Spell, EncodedLen, BodyBytes, LawfulBody, BodyDepth;
    LoneItem(minimal, item.(body := after));
  }

  /** Everything after a record's tag. */
  lemma {:induction false} InsideLands(minimal: bool, rules: Rules, inner: Word, budget: nat, at: nat, pre: seq<Byte>,
                                       item: Item, post: seq<Byte>)
    requires Lawful(minimal, item) && Depth(item) <= budget && |ItemBytes(item)| <= MAX_LEN
    requires JudgeInside(minimal, rules, inner, budget, at, item).Allowed? && |pre| == at + item.tagWidth
    ensures var after := EditedInside(minimal, rules, inner, budget, item);
            && Achieves(minimal, pre, PayloadBytes(item), post,
                        JudgeInside(minimal, rules, inner, budget, at, item).value, PayloadBytes(after))
            && Kept(minimal, budget, [after], |ItemBytes(item)|)
    decreases item, 0
  {
    hide Spell, EncodedLen, Achieves, BodyBytes, LawfulBody, Kept, JudgeBody, EditedBody;
    var ws := JudgeInside(minimal, rules, inner, budget, at, item).value;
    var after := EditedInside(minimal, rules, inner, budget, item);
    if item.Msg? {
      var prefix := Spell(|BodyBytes(item.body)|, item.prefixWidth);
      BodyLands(minimal, rules, inner, budget - 1, pre + prefix, item.body, post);
      InsideKept(minimal, budget, item, after.body);
      AchievesNothing(minimal, pre, prefix, BodyBytes(item.body) + post);
      AchievesLeft(minimal, pre, prefix, BodyBytes(item.body), post, [], ws, prefix, BodyBytes(after.body));
      assert [] + ws == ws;
      KeptSize(minimal, budget - 1, after.body, |BodyBytes(item.body)|);
    } else if item.Group? {
      var end := Tag(item.field, END_CODE, item.endWidth);
      BodyLands(minimal, rules, inner, budget - 1, pre, item.body, end + post);
      InsideKept(minimal, budget, item, after.body);
      AchievesNothing(minimal, pre + BodyBytes(after.body), end, post);
      AchievesLeft(minimal, pre, BodyBytes(item.body), end, post, ws, [], BodyBytes(after.body), end);
      assert ws + [] == ws;
    } else {
      AchievesNothing(minimal, pre, PayloadBytes(item), post);
      SelfKept(minimal, budget, item);
    }
  }

  lemma KeptSize(minimal: bool, budget: nat, items: seq<Item>, size: nat)
    requires Kept(minimal, budget, items, size)
    ensures |BodyBytes(items)| == size
  {}

  lemma SelfKept(minimal: bool, budget: nat, item: Item)
    requires Lawful(minimal, item) && Depth(item) <= budget
    ensures Kept(minimal, budget, [item], |ItemBytes(item)|)
  {
    LoneItem(minimal, item);
  }

  lemma {:induction false} RenumberLands(minimal: bool, rules: Rules, inner: Word, budget: nat, pre: seq<Byte>,
                                         item: Item, post: seq<Byte>,
                                         rule: Layers.U16, field: Field)
    requires Lawful(minimal, item) && Depth(item) <= budget && |ItemBytes(item)| <= MAX_LEN
    requires JudgeRenumber(minimal, rules, inner, budget, |pre|, item, rule, field).Allowed?
    ensures Meets(minimal, budget, pre, item, post,
                  JudgeRenumber(minimal, rules, inner, budget, |pre|, item, rule, field).value,
                  [Renumbered(EditedInside(minimal, rules, inner, budget, item), field)])
    decreases item, 1
  {
    hide Spell, EncodedLen, Achieves, BodyBytes, LawfulBody, Kept, JudgeBody, EditedBody;
    var interior := JudgeInside(minimal, rules, inner, budget, |pre|, item).value;
    var after := EditedInside(minimal, rules, inner, budget, item);
    var tag, newTag := Tag(item.field, item.Code(), item.tagWidth), Tag(field, item.Code(), item.tagWidth);
    var w := TagAt(|pre|, item.tagWidth, TagWord(field, item.Code()));
    InsideLands(minimal, rules, inner, budget, |pre|, pre + newTag, item, post);
    RenumberKept(minimal, budget, item, after, field);
    LoneItem(minimal, Renumbered(after, field));
    if !item.Group? {
      AchievesOne(minimal, pre, tag, PayloadBytes(item) + post, w);
      AchievesLeft(minimal, pre, tag, PayloadBytes(item), post, [w], interior, newTag, PayloadBytes(after));
    } else {
      GroupRenumberLands(minimal, rules, inner, budget, pre, item, post, rule, field);
    }
  }

  lemma RenumberKept(minimal: bool, budget: nat, item: Item, after: Item, field: Field)
    requires Kept(minimal, budget, [after], |ItemBytes(item)|)
    requires TagFits(minimal, field, after.Code(), after.tagWidth)
    requires after.Group? ==> TagFits(minimal, field, END_CODE, after.endWidth)
    ensures Kept(minimal, budget, [Renumbered(after, field)], |ItemBytes(item)|)
  {
    hide Spell, EncodedLen, BodyBytes, LawfulBody;
    LoneItem(minimal, after);
    LoneItem(minimal, Renumbered(after, field));
  }

  /** Interior, start tag, end tag: a group's renumber plans in that order. */
  lemma {:induction false} GroupRenumberLands(minimal: bool, rules: Rules, inner: Word, budget: nat, pre: seq<Byte>,
                                              item: Item, post: seq<Byte>,
                                              rule: Layers.U16, field: Field)
    requires item.Group? && Lawful(minimal, item) && Depth(item) <= budget && |ItemBytes(item)| <= MAX_LEN
    requires JudgeRenumber(minimal, rules, inner, budget, |pre|, item, rule, field).Allowed?
    ensures Achieves(minimal, pre, ItemBytes(item), post,
                     JudgeRenumber(minimal, rules, inner, budget, |pre|, item, rule, field).value,
                     ItemBytes(Renumbered(EditedInside(minimal, rules, inner, budget, item), field)))
    decreases item, 0
  {
    hide Spell, EncodedLen, Achieves, BodyBytes, LawfulBody, Kept, JudgeBody, EditedBody, ItemBytes;
    var interior := JudgeInside(minimal, rules, inner, budget, |pre|, item).value;
    var after := EditedInside(minimal, rules, inner, budget, item);
    var body, newBody := BodyBytes(item.body), BodyBytes(after.body);
    var tag, newTag := Tag(item.field, GROUP_CODE, item.tagWidth), Tag(field, GROUP_CODE, item.tagWidth);
    var end, newEnd := Tag(item.field, END_CODE, item.endWidth), Tag(field, END_CODE, item.endWidth);
    var start, last := TagAt(|pre|, item.tagWidth, TagWord(field, GROUP_CODE)),
                       TagAt(|pre| + item.tagWidth + |body|, item.endWidth, TagWord(field, END_CODE));
    BodyFits(item);
    BodyLands(minimal, rules, inner, budget - 1, pre + tag, item.body, end + post);
    KeptSize(minimal, budget - 1, after.body, |body|);
    AchievesOne(minimal, pre, tag, newBody + (end + post), start);
    AchievesRight(minimal, pre, tag, body, end + post, [start], interior, newTag, newBody);
    AchievesOne(minimal, pre + (newTag + newBody), end, post, last);
    AchievesLeft(minimal, pre, tag + body, end, post, interior + [start], [last], newTag + newBody, newEnd);
    GroupLayout(item);
    GroupLayout(Renumbered(after, field));
  }

  lemma {:induction false} ItemLands(minimal: bool, rules: Rules, trail: Word, budget: nat, pre: seq<Byte>,
                                     item: Item, post: seq<Byte>)
    requires Lawful(minimal, item) && Depth(item) <= budget && |ItemBytes(item)| <= MAX_LEN
    requires JudgeItem(minimal, rules, trail, budget, |pre|, item).Allowed?
    ensures Meets(minimal, budget, pre, item, post, JudgeItem(minimal, rules, trail, budget, |pre|, item).value,
                  Edited(minimal, rules, trail, budget, item))
    decreases item, 2
  {
    hide Spell, EncodedLen, Achieves, BodyBytes, LawfulBody, Kept, JudgeInside, EditedInside, JudgeRenumber, Claimed,
         Rewritten;
    var word := trail + [item.field];
    match ClaimAt(rules, word)
    case By(rule, action) =>
      if action.Renumber? {
        RenumberLands(minimal, rules, word, budget, pre, item, post, rule, action.field);
      } else {
        ClaimLands(minimal, rule, action, budget, pre, item, post);
      }
    case Clash(_, _) =>
    case Free =>
      var ws := JudgeInside(minimal, rules, word, budget, |pre|, item).value;
      var after := EditedInside(minimal, rules, word, budget, item);
      var tag := Tag(item.field, item.Code(), item.tagWidth);
      AchievesNothing(minimal, pre, tag, PayloadBytes(item) + post);
      InsideLands(minimal, rules, word, budget, |pre|, pre + tag, item, post);
      AchievesLeft(minimal, pre, tag, PayloadBytes(item), post, [], ws, tag, PayloadBytes(after));
      assert [] + ws == ws;
      SameTag(minimal, rules, word, budget, item);
      LoneItem(minimal, after);
  }

  lemma SameTag(minimal: bool, rules: Rules, inner: Word, budget: nat, item: Item)
    ensures var after := EditedInside(minimal, rules, inner, budget, item);
            after.field == item.field && after.Code() == item.Code() && after.tagWidth == item.tagWidth
  {}

  /** A body's judged writes land its edited records, in place. */
  lemma {:induction false} BodyLands(minimal: bool, rules: Rules, trail: Word, budget: nat, pre: seq<Byte>,
                                     items: seq<Item>, post: seq<Byte>)
    requires LawfulBody(minimal, items) && BodyDepth(items) <= budget && |BodyBytes(items)| <= MAX_LEN
    requires JudgeBody(minimal, rules, trail, budget, |pre|, items).Allowed?
    ensures BodyMeets(minimal, budget, pre, items, post, JudgeBody(minimal, rules, trail, budget, |pre|, items).value,
                      EditedBody(minimal, rules, trail, budget, items))
    decreases items, 3
  {
    hide Spell, EncodedLen, Achieves, JudgeItem, Edited, ItemBytes, Lawful, Depth;
    if items == [] {
      AchievesNothing(minimal, pre, [], post);
    } else {
      var first := JudgeItem(minimal, rules, trail, budget, |pre|, items[0]).value;
      var a := Edited(minimal, rules, trail, budget, items[0]);
      ItemLands(minimal, rules, trail, budget, pre, items[0], BodyBytes(items[1..]) + post);
      BodyLands(minimal, rules, trail, budget, pre + BodyBytes(a), items[1..], post);
      BodyMeetsJoin(minimal, budget, pre, items[0], items[1..], post, first,
                    JudgeBody(minimal, rules, trail, budget, |pre + BodyBytes(a)|, items[1..]).value,
                    a, EditedBody(minimal, rules, trail, budget, items[1..]));
      assert [items[0]] + items[1..] == items;
    }
  }

  // ─── the job ───

  /** An allowed plan lands the edited document: same length, writes inside the
      buffer and disjoint, and the result re-ingests under the same standard
      and depth limit as exactly the edited records: opaquely without a route,
      whole under any route they conform to. */
  lemma PlanLands(minimal: bool, rules: Rules, limit: nat, bytes: seq<Byte>)
    requires Layers.Admitted(ProgramOf(rules)) && Plan(minimal, rules, limit, bytes).Allowed?
    ensures Parse(minimal, Walked(rules), limit, bytes).Some?
    ensures var ws := Plan(minimal, rules, limit, bytes).value;
            var edited := EditedBody(minimal, rules, [], limit, Parse(minimal, Walked(rules), limit, bytes).value);
            && Within(ws, 0, |bytes|) && Apart(ws)
            && Landed(minimal, bytes, ws, |ws|) == BodyBytes(edited) && |BodyBytes(edited)| == |bytes|
            && LawfulBody(minimal, edited) && BodyDepth(edited) <= limit
            && Parse(minimal, NO_ROUTE, limit, BodyBytes(edited)) == Some(OpaqueBody(edited))
            && forall route: Route :: BodyConforms(route, [], edited) ==>
                 Parse(minimal, route, limit, BodyBytes(edited)) == Some(edited)
  {
    hide Parse, JudgeBody, EditedBody, LawfulBody, BodyDepth, BodyBytes, Landed, Walked, BodyConforms, Plan;
    AllowedReads(minimal, rules, limit, bytes);
    PlanIsTrees(minimal, rules, limit, bytes);
    var items := Parse(minimal, Walked(rules), limit, bytes).value;
    ParseIsInverse(minimal, Walked(rules), limit, bytes, items);
    BodyLands(minimal, rules, [], limit, [], items, []);
    var edited := EditedBody(minimal, rules, [], limit, items);
    assert [] + BodyBytes(items) + [] == bytes;
    assert [] + BodyBytes(edited) + [] == BodyBytes(edited);
    ReadsOpaquely(minimal, limit, edited);
    forall route: Route | BodyConforms(route, [], edited)
      ensures Parse(minimal, route, limit, BodyBytes(edited)) == Some(edited)
    {
      ParseSpelled(minimal, route, limit, edited);
    }
  }
}
