/** What a landed job leaves where each claimed record stood: the records its rule
    asks for (src/inplace.rs, src/inplace/grouped.rs). */
module Landing {
  import opened Varints
  import opened Wire
  import opened Writes
  import opened Paths
  import opened InPlace
  import opened Judgment
  import opened EqualWidth
  import opened Geometry
  import opened Acceptance
  import Layers

  /** A record claimed for anything but a new number. */
  predicate Overwritten(rules: Rules, word: Word) {
    ClaimAt(rules, word).By? && !ClaimAt(rules, word).action.Renumber?
  }

  /** What its rule leaves of it. */
  function LeftOf(minimal: bool, rules: Rules, budget: nat, trail: Word, x: Item, word: Word): seq<Byte>
    requires Overwritten(rules, word)
  {
    BodyBytes(Rewritten(minimal, ClaimAt(rules, word).action, DepthLeft(budget, trail, word), x))
  }

  lemma {:induction false} InsideLeft(minimal: bool, rules: Rules, trail: Word, budget: nat, base: nat, item: Item,
                                      x: Item, at: nat, word: Word)
    requires (item.Msg? || item.Group?) && Lawful(minimal, item) && Depth(item) <= budget
    requires |ItemBytes(item)| <= MAX_LEN && JudgeItem(minimal, rules, trail, budget, base, item).Allowed?
    requires !OwnedAt(rules, trail + [item.field]) && Overwritten(rules, word)
    requires Geometry.Met(rules, trail + [item.field], item.body, base + HeaderSize(item), x, at, word)
    ensures SliceAt(BodyBytes(Edited(minimal, rules, trail, budget, item)), at - base,
                    LeftOf(minimal, rules, budget, trail, x, word))
    decreases item, 0
  {
    hide Spell, EncodedLen, ItemBytes, BodyBytes, LawfulBody, BodyDepth, Geometry.Met, JudgeBody, EditedBody, JudgeItem,
         Edited, OwnedAt, ClaimAt, SliceAt, Overwritten, Rewritten;
    var own, inside := trail + [item.field], base + HeaderSize(item);
    BodyFits(item);
    SurvivorIsJudged(minimal, rules, trail, budget, base, item);
    RewrittenStands(minimal, rules, own, budget - 1, inside, item.body, x, at, word);
    MetBelow(rules, own, item.body, inside, x, at, word);
    var edited := Edited(minimal, rules, trail, budget, item);
    LoneItem(minimal, edited[0]);
    assert edited == [edited[0]];
    BodySits(edited[0]);
    SliceWithin(ItemBytes(edited[0]), HeaderSize(item), BodyBytes(edited[0].body), at - inside,
                LeftOf(minimal, rules, budget, trail, x, word));
  }

  /** In the edited document, where the record stood, at whatever depth. */
  lemma {:induction false} RewrittenStands(minimal: bool, rules: Rules, trail: Word, budget: nat, base: nat,
                                           items: seq<Item>, x: Item, at: nat, word: Word)
    requires LawfulBody(minimal, items) && BodyDepth(items) <= budget && |BodyBytes(items)| <= MAX_LEN
    requires JudgeBody(minimal, rules, trail, budget, base, items).Allowed? && Overwritten(rules, word)
    requires Geometry.Met(rules, trail, items, base, x, at, word)
    ensures SliceAt(BodyBytes(EditedBody(minimal, rules, trail, budget, items)), at - base,
                    LeftOf(minimal, rules, budget, trail, x, word))
    decreases items, 1
  {
    hide Spell, EncodedLen, ItemBytes, HeaderSize, OwnedAt, ClaimAt, Lawful, Depth, JudgeItem, Edited, Geometry.Met,
         SliceAt, Overwritten, LeftOf;
    MetSomething(rules, trail, items, base, x, at, word);
    MetLater(rules, trail, items, base, x, at, word);
    var item, next := items[0], base + |ItemBytes(items[0])|;
    var a := Edited(minimal, rules, trail, budget, item);
    var b := EditedBody(minimal, rules, trail, budget, items[1..]);
    var left := LeftOf(minimal, rules, budget, trail, x, word);
    BodyBytesConcat(a, b);
    SliceHalves(BodyBytes(a), BodyBytes(b));
    EditedSize(minimal, rules, trail, budget, base, item);
    if Geometry.Met(rules, trail, items[1..], next, x, at, word) {
      RewrittenStands(minimal, rules, trail, budget, next, items[1..], x, at, word);
      SliceWithin(BodyBytes(a + b), |BodyBytes(a)|, BodyBytes(b), at - next, left);
    } else {
      MetAlone(rules, trail, item, base, x, at, word);
      if item == x && at == base && word == trail + [x.field] {
        HeadLeft(minimal, rules, trail, budget, item);
      } else {
        InsideLeft(minimal, rules, trail, budget, base, item, x, at, word);
      }
      SliceWithin(BodyBytes(a + b), 0, BodyBytes(a), at - base, left);
    }
  }

  lemma HeadLeft(minimal: bool, rules: Rules, trail: Word, budget: nat, item: Item)
    requires Overwritten(rules, trail + [item.field])
    ensures SliceAt(BodyBytes(Edited(minimal, rules, trail, budget, item)), 0,
                    LeftOf(minimal, rules, budget, trail, item, trail + [item.field]))
  {
    hide ClaimAt, Rewritten, BodyBytes;
  }

  /** Over a whole job: where a record claimed for a value, an extent or a filling
      stood, the landed bytes are records its action means, whole. */
  lemma LandedMeans(minimal: bool, rules: Rules, limit: nat, bytes: seq<Byte>, x: Item, at: nat, word: Word)
    returns (left: seq<Item>)
    requires Layers.Admitted(ProgramOf(rules)) && Plan(minimal, rules, limit, bytes).Allowed?
    requires Parse(minimal, Walked(rules), limit, bytes).Some? && Overwritten(rules, word)
    requires Geometry.Met(rules, [], Parse(minimal, Walked(rules), limit, bytes).value, 0, x, at, word)
    ensures Means(minimal, DepthLeft(limit, [], word), ClaimAt(rules, word).action, x, left)
    ensures var ws := Plan(minimal, rules, limit, bytes).value;
            Within(ws, 0, |bytes|) && SliceAt(Landed(minimal, bytes, ws, |ws|), at, BodyBytes(left))
  {
    hide Parse, EditedBody, BodyBytes, Landed, Walked, BodyConforms, Geometry.Met, ClaimAt, SliceAt, Plan, Within,
         Apart,
         Layers.Admitted, ProgramOf, Means, Rewritten, OpaqueBody;
    AllowedReads(minimal, rules, limit, bytes);
    PlanLands(minimal, rules, limit, bytes);
    left := Rewritten(minimal, ClaimAt(rules, word).action, DepthLeft(limit, [], word), x);
    LeftMeans(minimal, rules, limit, bytes, x, at, word);
    LeftStands(minimal, rules, limit, bytes, x, at, word);
  }

  lemma LeftMeans(minimal: bool, rules: Rules, limit: nat, bytes: seq<Byte>, x: Item, at: nat, word: Word)
    requires Layers.Admitted(ProgramOf(rules)) && |bytes| <= MAX_LEN && Plan(minimal, rules, limit, bytes).Allowed?
    requires Parse(minimal, Walked(rules), limit, bytes).Some? && Overwritten(rules, word)
    requires Geometry.Met(rules, [], Parse(minimal, Walked(rules), limit, bytes).value, 0, x, at, word)
    ensures var action, budget := ClaimAt(rules, word).action, DepthLeft(limit, [], word);
            Means(minimal, budget, action, x, Rewritten(minimal, action, budget, x))
  {
    hide Parse, ParseBody, Walked, BodyBytes, LawfulBody, BodyDepth, Geometry.Met, ClaimAt, Plan, Layers.Admitted,
         ProgramOf, Means, Claimed, Rewritten, Lawful, Depth, Judges, ItemBytes, Refuses;
    JobIsExact(minimal, rules, limit, bytes);
    var items := Parse(minimal, Walked(rules), limit, bytes).value;
    ParseIsInverse(minimal, Walked(rules), limit, bytes, items);
    PlanIsTrees(minimal, rules, limit, bytes);
    MetLawful(minimal, rules, [], limit, items, 0, x, at, word);
    var claim, budget := ClaimAt(rules, word), DepthLeft(limit, [], word);
    assert Satisfied(minimal, rules, budget, x, word);
    ClaimExact(minimal, claim.rule, claim.action, budget, at, x);
  }

  lemma LeftStands(minimal: bool, rules: Rules, limit: nat, bytes: seq<Byte>, x: Item, at: nat, word: Word)
    requires Layers.Admitted(ProgramOf(rules)) && |bytes| <= MAX_LEN && Plan(minimal, rules, limit, bytes).Allowed?
    requires Parse(minimal, Walked(rules), limit, bytes).Some? && Overwritten(rules, word)
    requires Geometry.Met(rules, [], Parse(minimal, Walked(rules), limit, bytes).value, 0, x, at, word)
    ensures var items := Parse(minimal, Walked(rules), limit, bytes).value;
            SliceAt(BodyBytes(EditedBody(minimal, rules, [], limit, items)), at,
                    LeftOf(minimal, rules, limit, [], x, word))
  {
    hide Parse, ParseBody, JudgeBody, EditedBody, LawfulBody, BodyDepth, BodyBytes, Walked, Geometry.Met, ClaimAt,
         SliceAt,
         Plan, Layers.Admitted, ProgramOf, LeftOf, Overwritten;
    var items := Parse(minimal, Walked(rules), limit, bytes).value;
    ParseIsInverse(minimal, Walked(rules), limit, bytes, items);
    PlanIsTrees(minimal, rules, limit, bytes);
    RewrittenStands(minimal, rules, [], limit, 0, items, x, at, word);
  }
}
