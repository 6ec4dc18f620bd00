/** The receipt of an allowed job counts the claimed records it meets, each once,
    under what its rule did (src/inplace.rs, src/inplace/grouped.rs). */
module Tally {
  import opened Varints
  import opened Wire
  import opened Writes
  import opened Paths
  import opened InPlace
  import opened Judgment
  import opened Geometry
  import opened Acceptance
  import Layers

  /** A record the walk meets, where it stands, and the word of its trail. */
  datatype Meeting = Meeting(item: Item, at: nat, word: Word)

  /** Every record the walk meets, in the order it meets them. */
  function Meetings(rules: Rules, trail: Word, items: seq<Item>, base: nat): seq<Meeting>
    decreases items
  {
    if items == [] then []
    else
      MeetingsOf(rules, trail, items[0], base) + Meetings(rules, trail, items[1..], base + |ItemBytes(items[0])|)
  }

  function MeetingsOf(rules: Rules, trail: Word, item: Item, at: nat): seq<Meeting>
    decreases item
  {
    var word := trail + [item.field];
    [Meeting(item, at, word)]
    + if (item.Msg? || item.Group?) && !OwnedAt(rules, word)
      then Meetings(rules, word, item.body, at + HeaderSize(item)) else []
  }

  lemma {:induction false} MeetingsAreMet(rules: Rules, trail: Word, items: seq<Item>, base: nat, m: Meeting)
    ensures m in Meetings(rules, trail, items, base) <==> Geometry.Met(rules, trail, items, base, m.item, m.at, m.word)
    decreases items, 1
  {
    hide ItemBytes, HeaderSize, OwnedAt, Geometry.Met, MeetingsOf;
    if items == [] {
      assert Meetings(rules, trail, [], base) == [];
      NoneMet(rules, trail, base, m);
    } else {
      MeetingsAreMet(rules, trail, items[1..], base + |ItemBytes(items[0])|, m);
      MetLater(rules, trail, items, base, m.item, m.at, m.word);
      MeetingsOfAreMet(rules, trail, items[0], base, m);
    }
  }

  lemma NoneMet(rules: Rules, trail: Word, base: nat, m: Meeting)
    ensures !Geometry.Met(rules, trail, [], base, m.item, m.at, m.word)
  {}

  lemma {:induction false} MeetingsOfAreMet(rules: Rules, trail: Word, item: Item, at: nat, m: Meeting)
    ensures m in MeetingsOf(rules, trail, item, at) <==> Geometry.Met(rules, trail, [item], at, m.item, m.at, m.word)
    decreases item, 0
  {
    hide ItemBytes, HeaderSize, OwnedAt, Geometry.Met, Meetings;
    MetAlone(rules, trail, item, at, m.item, m.at, m.word);
    if item.Msg? || item.Group? {
      MeetingsAreMet(rules, trail + [item.field], item.body, at + HeaderSize(item), m);
    }
  }

  /** Places rise, from `lo` on and below `hi`. */
  predicate Rise(ms: seq<Meeting>, lo: nat, hi: nat) {
    && (forall i :: 0 <= i < |ms| ==> lo <= ms[i].at < hi)
    && forall i, j :: 0 <= i < j < |ms| ==> ms[i].at < ms[j].at
  }

  lemma RiseJoins(a: seq<Meeting>, b: seq<Meeting>, lo: nat, mid: nat, hi: nat)
    requires Rise(a, lo, mid) && Rise(b, mid, hi) && lo <= mid <= hi
    ensures Rise(a + b, lo, hi)
  {}

  /** No record is met twice: their places rise, inside the extent. */
  lemma {:induction false} MeetingsRise(rules: Rules, trail: Word, items: seq<Item>, base: nat)
    ensures Rise(Meetings(rules, trail, items, base), base, base + |BodyBytes(items)|)
    decreases items, 1
  {
    hide ItemBytes, MeetingsOf, Rise;
    if items == [] {
      NoneRise(base);
    } else {
      var next := base + |ItemBytes(items[0])|;
      MeetingsOfRise(rules, trail, items[0], base);
      MeetingsRise(rules, trail, items[1..], next);
      RiseJoins(MeetingsOf(rules, trail, items[0], base), Meetings(rules, trail, items[1..], next), base, next,
                base + |BodyBytes(items)|);
    }
  }

  lemma NoneRise(at: nat)
    ensures Rise([], at, at)
  {}

  lemma {:induction false} MeetingsOfRise(rules: Rules, trail: Word, item: Item, at: nat)
    ensures Rise(MeetingsOf(rules, trail, item, at), at, at + |ItemBytes(item)|)
    decreases item, 0
  {
    hide ItemBytes, BodyBytes, OwnedAt, HeaderSize, Meetings;
    EndsWithTag(item);
    HeaderIsSome(item);
    var word, inside := trail + [item.field], at + HeaderSize(item);
    var here := [Meeting(item, at, word)];
    assert Rise(here, at, at + 1);
    if (item.Msg? || item.Group?) && !OwnedAt(rules, word) {
      MeetingsRise(rules, word, item.body, inside);
      RiseJoins(here, Meetings(rules, word, item.body, inside), at, inside, at + |ItemBytes(item)|);
    } else {
      assert here + [] == here;
    }
  }

  /** What the receipt tells apart. */
  datatype Kind = Sets | Renumbers | Substitutes | Tombstones
  {
    predicate Of(action: Action) {
      match this
      case Sets => action.SetVarint? || action.SetI32? || action.SetI64? || action.SetPayload?
      case Renumbers => action.Renumber?
      case Substitutes => action.ReplaceRecord?
      case Tombstones => action.Tombstone?
    }
  }

  /** How many of the records met are claimed for an action of a kind. */
  function CountOf(rules: Rules, ms: seq<Meeting>, kind: Kind): nat {
    if ms == [] then 0
    else
      var claim := ClaimAt(rules, ms[0].word);
      (if claim.By? && kind.Of(claim.action) then 1 else 0) + CountOf(rules, ms[1..], kind)
  }

  lemma {:induction false} CountJoined(rules: Rules, a: seq<Meeting>, b: seq<Meeting>, kind: Kind)
    ensures CountOf(rules, a + b, kind) == CountOf(rules, a, kind) + CountOf(rules, b, kind)
  {
    hide ClaimAt;
    if a == [] {
      assert a + b == b;
    } else {
      CountJoined(rules, a[1..], b, kind);
      assert (a + b)[1..] == a[1..] + b;
    }
  }

  /** Each counter counts the records claimed for its own kind of action. */
  predicate Tallies(rules: Rules, ms: seq<Meeting>, receipt: Receipt) {
    && receipt.replaced == CountOf(rules, ms, Sets) && receipt.renumbered == CountOf(rules, ms, Renumbers)
    && receipt.substituted == CountOf(rules, ms, Substitutes) && receipt.tombstoned == CountOf(rules, ms, Tombstones)
  }

  lemma TalliesJoin(rules: Rules, a: seq<Meeting>, b: seq<Meeting>, x: Receipt, y: Receipt)
    requires Tallies(rules, a, x) && Tallies(rules, b, y)
    ensures Tallies(rules, a + b, x.Plus(y))
  {
    hide CountOf;
    CountJoined(rules, a, b, Sets);
    CountJoined(rules, a, b, Renumbers);
    CountJoined(rules, a, b, Substitutes);
    CountJoined(rules, a, b, Tombstones);
  }

  /** One record alone. */
  lemma TallyOne(rules: Rules, m: Meeting)
    ensures var claim := ClaimAt(rules, m.word);
            Tallies(rules, [m], if claim.By? then Counted(claim.action) else NOTHING_DONE)
  {
    hide ClaimAt, CountOf;
    CountOne(rules, m, Sets);
    CountOne(rules, m, Renumbers);
    CountOne(rules, m, Substitutes);
    CountOne(rules, m, Tombstones);
  }

  lemma CountOne(rules: Rules, m: Meeting, kind: Kind)
    ensures var claim := ClaimAt(rules, m.word);
            CountOf(rules, [m], kind) == if claim.By? && kind.Of(claim.action) then 1 else 0
  {
    hide ClaimAt;
    assert [m][1..] == [];
    assert CountOf(rules, [m][1..], kind) == 0;
  }

  lemma TallyNothing(rules: Rules)
    ensures Tallies(rules, [], NOTHING_DONE)
  {}

  lemma {:induction false} ItemTallies(minimal: bool, rules: Rules, trail: Word, budget: nat, item: Item, at: nat)
    requires |ItemBytes(item)| <= MAX_LEN && Depth(item) <= budget
    requires JudgeItem(minimal, rules, trail, budget, at, item).Allowed?
    ensures Tallies(rules, MeetingsOf(rules, trail, item, at), ReceiptOf(rules, trail, item))
    decreases item, 1
  {
    hide ClaimAt, Claimed, ItemBytes, BodyBytes, Tallies, EncodedLen, Meetings, JudgeBody, ReceiptBody, HeaderSize,
         Depth, BodyDepth;
    var word := trail + [item.field];
    TallyOne(rules, Meeting(item, at, word));
    TallyNothing(rules);
    var inside := if (item.Msg? || item.Group?) && !OwnedAt(rules, word)
                  then Meetings(rules, word, item.body, at + HeaderSize(item)) else [];
    var claim := ClaimAt(rules, word);
    if claim.By? && !claim.action.Renumber? {
      NothingInside(minimal, claim.rule, claim.action, budget, at, item);
      assert inside == [];
      assert [Meeting(item, at, word)] + [] == [Meeting(item, at, word)];
    } else {
      InsideTallies(minimal, rules, word, budget, item, at);
      var own := if claim.By? then Counted(claim.action) else NOTHING_DONE;
      TalliesJoin(rules, [Meeting(item, at, word)], inside, own, ReceiptInside(rules, word, item));
    }
  }

  lemma {:induction false} InsideTallies(minimal: bool, rules: Rules, word: Word, budget: nat, item: Item, at: nat)
    requires |ItemBytes(item)| <= MAX_LEN && Depth(item) <= budget
    requires JudgeInside(minimal, rules, word, budget, at, item).Allowed? && !OwnedAt(rules, word)
    ensures Tallies(rules, if item.Msg? || item.Group? then Meetings(rules, word, item.body, at + HeaderSize(item))
                    else [],
                    ReceiptInside(rules, word, item))
    decreases item, 0
  {
    hide ItemBytes, BodyBytes, Tallies, Meetings, JudgeBody, ReceiptBody, HeaderSize, OwnedAt, BodyDepth;
    TallyNothing(rules);
    if item.Msg? || item.Group? {
      BodyFits(item);
      BodyTallies(minimal, rules, word, budget - 1, item.body, at + HeaderSize(item));
    }
  }

  lemma {:induction false} BodyTallies(minimal: bool, rules: Rules, trail: Word, budget: nat, items: seq<Item>,
                                       base: nat)
    requires |BodyBytes(items)| <= MAX_LEN && BodyDepth(items) <= budget
    requires JudgeBody(minimal, rules, trail, budget, base, items).Allowed?
    ensures Tallies(rules, Meetings(rules, trail, items, base), ReceiptBody(rules, trail, items))
    decreases items, 2
  {
    hide ItemBytes, Tallies, MeetingsOf, JudgeItem, ReceiptOf, Depth;
    TallyNothing(rules);
    if items != [] {
      var next := base + |ItemBytes(items[0])|;
      ItemTallies(minimal, rules, trail, budget, items[0], base);
      BodyTallies(minimal, rules, trail, budget, items[1..], next);
      TalliesJoin(rules, MeetingsOf(rules, trail, items[0], base), Meetings(rules, trail, items[1..], next),
                  ReceiptOf(rules, trail, items[0]), ReceiptBody(rules, trail, items[1..]));
    }
  }

  /** A landed job's receipt: each counter is the number of records it meets that
      are claimed for its own kind of action. */
  lemma ReceiptTallies(minimal: bool, rules: Rules, limit: nat, bytes: seq<Byte>)
    requires Layers.Admitted(ProgramOf(rules)) && |bytes| <= MAX_LEN
             && Parse(minimal, Walked(rules), limit, bytes).Some?
    requires Plan(minimal, rules, limit, bytes).Allowed?
    ensures var items := Parse(minimal, Walked(rules), limit, bytes).value;
            Tallies(rules, Meetings(rules, [], items, 0), JudgeAll(minimal, rules, limit, bytes).receipt)
  {
    hide Parse, ParseBody, Plan, JudgeAll, JudgeBody, Walked, BodyDepth, LawfulBody, BodyBytes, Layers.Admitted,
         ProgramOf,
         Tallies, Meetings, ReceiptBody;
    PlanIsTrees(minimal, rules, limit, bytes);
    var items := Parse(minimal, Walked(rules), limit, bytes).value;
    ParseIsInverse(minimal, Walked(rules), limit, bytes, items);
    BodyTallies(minimal, rules, [], limit, items, 0);
  }
}
