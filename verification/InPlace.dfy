/** The equal-width in-place job: rules judged over a parsed document, the
    writes they plan, and the document that lands (src/inplace.rs,
    src/inplace/grouped.rs). */
module InPlace {
  import opened Varints
  import opened Wire
  import opened Scanning
  import opened Filler
  import opened Writes
  import opened Paths
  import opened Matcher
  import Layers

  // ─── rules and verdicts ───

  datatype Action =
    | SetVarint(value: Word64)
    | SetI32(bits32: Word32)
    | SetI64(bits64: Word64)
    | SetPayload(bytes: seq<Byte>)
    | Renumber(field: Field)
    | ReplaceRecord(record: seq<Byte>)
    | Tombstone(filler: Field)
  {
    /** The record's extent or payload is overwritten as a whole. */
    predicate Owns() {
      SetPayload? || ReplaceRecord? || Tombstone?
    }
  }

  datatype Rule = Rule(path: Path, action: Action)

  type Rules = rs: seq<Rule> | |rs| <= 0xFFFF

  function ProgramOf(rules: Rules): Layers.Program {
    Layers.Program(seq(|rules|, i requires 0 <= i < |rules| => rules[i].path), seq(|rules|, _ => Layers.Target))
  }

  /** The rules below `n` whose path selects the word, ascending. */
  function Matching(rules: Rules, word: Word, n: nat): (ids: seq<Layers.U16>)
    requires n <= |rules|
  {
    if n == 0 then []
    else Matching(rules, word, n - 1) + if InLanguage(rules[n - 1].path, word) then [n - 1] else []
  }

  function Verdict(rules: Rules, word: Word): (hits: Hits)
  {
    var ids := Matching(rules, word, |rules|);
    if ids == [] then NoHit else if |ids| == 1 then One(ids[0]) else Conflict(ids[0], ids[1])
  }

  lemma {:induction false} MatchingIs(rules: Rules, word: Word, n: nat)
    requires n <= |rules|
    ensures var ids := Matching(rules, word, n);
            && IdsRise(ids) && (forall p: Layers.U16 :: p in ids <==> p < n && InLanguage(rules[p].path, word))
  {
    hide InLanguage;
    if n > 0 {
      MatchingIs(rules, word, n - 1);
      var ids := Matching(rules, word, n - 1);
      forall i | 0 <= i < |ids| ensures ids[i] < n - 1 {
        assert ids[i] in ids;
      }
    }
  }

  lemma VerdictInside(rules: Rules, word: Word)
    ensures var hits := Verdict(rules, word); hits.One? ==> hits.path < |rules|
  {
    MatchingIs(rules, word, |rules|);
    var ids := Matching(rules, word, |rules|);
    if |ids| == 1 { assert ids[0] in ids; }
  }

  /** A matching rule is a targeted path, and its id is in the list. */
  lemma MatchingTargets(rules: Rules, trail: Word, field: Field, p: nat)
    requires Layers.Admitted(ProgramOf(rules))
    ensures Layers.Targeted(ProgramOf(rules), trail, field, p)
       <==> p <= 0xFFFF && p in Matching(rules, trail + [field], |rules|)
  {
    hide InLanguage, Matching;
    MatchingIs(rules, trail + [field], |rules|);
  }

  lemma VerdictHits(rules: Rules, trail: Word, field: Field)
    requires Layers.Admitted(ProgramOf(rules))
    ensures HitsAre(ProgramOf(rules), trail, field, Verdict(rules, trail + [field]))
  {
    hide InLanguage, Matching, Layers.Targeted;
    var ids := Matching(rules, trail + [field], |rules|);
    MatchingIs(rules, trail + [field], |rules|);
    forall p: nat ensures Layers.Targeted(ProgramOf(rules), trail, field, p) <==> p <= 0xFFFF && p in ids {
      MatchingTargets(rules, trail, field, p);
    }
    if |ids| >= 2 {
      assert ids[0] in ids && ids[1] in ids;
      forall p: nat | p in ids ensures p == ids[0] || p >= ids[1] {
        var i :| 0 <= i < |ids| && ids[i] == p;
        if i > 1 { assert ids[1] < ids[i]; }
      }
    } else if |ids| == 1 {
      assert ids[0] in ids;
    }
  }

  /** The verdict is the one the matcher answers. */
  lemma VerdictIsTheMatchers(rules: Rules, trail: Word, field: Field, hits: Hits)
    requires Layers.Admitted(ProgramOf(rules))
    ensures HitsAre(ProgramOf(rules), trail, field, hits) <==> hits == Verdict(rules, trail + [field])
  {
    hide HitsAre, Verdict;
    VerdictHits(rules, trail, field);
    if HitsAre(ProgramOf(rules), trail, field, hits) {
      HitsUnique(ProgramOf(rules), trail, field, hits, Verdict(rules, trail + [field]));
    }
  }

  datatype Claim = Free | Clash(first: Layers.U16, second: Layers.U16) | By(rule: Layers.U16, action: Action)

  /** What the rules say about the record this word names: one action at most. */
  function ClaimAt(rules: Rules, word: Word): Claim {
    VerdictInside(rules, word);
    match Verdict(rules, word)
    case NoHit => Free
    case One(r) => By(r, rules[r].action)
    case Conflict(a, b) => Clash(a, b)
  }

  predicate OwnedAt(rules: Rules, word: Word) {
    ClaimAt(rules, word).By? && ClaimAt(rules, word).action.Owns()
  }

  /** The matcher's routing answer at this word: some state is staged. */
  predicate Routes(rules: Rules, word: Word)
    requires Layers.Admitted(ProgramOf(rules))
  {
    word != [] && Layers.Probed(Layers.LayerAt(ProgramOf(rules), word[..|word| - 1]), word[|word| - 1]) != []
  }

  /** The LEN records the walk commits: routed ones no claim owns or encloses. */
  function Walked(rules: Rules): Route
    requires Layers.Admitted(ProgramOf(rules))
  {
    word => Routes(rules, word) && forall m {:trigger word[..m]} :: 1 <= m <= |word| ==> !OwnedAt(rules, word[..m])
  }

  /** So the walk commits exactly where some path continues and nothing owns. */
  lemma WalkedByLanguage(rules: Rules, word: Word)
    requires Layers.Admitted(ProgramOf(rules)) && word != []
    ensures Walked(rules)(word)
       <==> Layers.Continues(ProgramOf(rules), word)
            && forall m {:trigger word[..m]} :: 1 <= m <= |word| ==> !OwnedAt(rules, word[..m])
  {
    var trail, field := word[..|word| - 1], word[|word| - 1];
    assert word == trail + [field];
    Layers.StagingIsContinuation(ProgramOf(rules), trail, field);
  }

  // ─── the judgment ───

  datatype FaultKind =
    | Oversize
    | Wire(breach: Breach)
    | TwoRules(first: Layers.U16, second: Layers.U16)
    | KindMismatch(rule: Layers.U16)
    | BadValueWidth(rule: Layers.U16, need: nat, have: nat)
    | BadTagWidth(rule: Layers.U16, need: nat, have: nat)
    | BadPayloadLength(rule: Layers.U16, need: nat, have: nat)
    | FillerUnfit(rule: Layers.U16, need: nat, have: nat)
    | ReplacementLength(rule: Layers.U16, need: nat, have: nat)
    | ReplacementWire(rule: Layers.U16, site: nat, cause: Breach)
    | ReplacementShape(rule: Layers.U16)

  datatype Fault = Fault(at: nat, kind: FaultKind)

  datatype Judged<+T> = Allowed(value: T) | Refused(fault: Fault)

  /** A LEN record's payload bytes, opaque or walked. */
  function LenPayload(item: Item): seq<Byte>
    requires item.Code() == LEN_CODE
  {
    if item.Len? then item.payload else BodyBytes(item.body)
  }

  /** A candidate must be exactly one lawful record of exactly the extent. */
  function JudgeReplacement(minimal: bool, rule: Layers.U16, bytes: seq<Byte>, at: nat, have: nat,
                            budget: nat): Judged<Planned> {
    if |bytes| != have then Refused(Fault(at, ReplacementLength(rule, |bytes|, have)))
    else
      match SkimItem(minimal, NO_ROUTE, [], budget, bytes, 0)
      case Broken(site, breach) => Refused(Fault(at, ReplacementWire(rule, site, breach)))
      case Got(p) => if p.rest == [] then Allowed(PayloadAt(at, bytes)) else Refused(Fault(at, ReplacementShape(rule)))
  }

  /** A claim on the record's whole extent, `have` bytes from `at`. */
  function ClaimExtent(minimal: bool, rule: Layers.U16, action: Action, budget: nat, at: nat,
                       have: nat): Judged<Planned>
    requires (action.ReplaceRecord? || action.Tombstone?) && have <= MAX_LEN
  {
    if action.ReplaceRecord? then JudgeReplacement(minimal, rule, action.record, at, have, budget)
    else if have < FillerNeed(action.filler) then Refused(Fault(at, FillerUnfit(rule, FillerNeed(action.filler), have)))
    else Allowed(FillerAt(at, have, action.filler))
  }

  /** One claimed record's single write; a renumber is judged with its interior. */
  function Claimed(minimal: bool, rule: Layers.U16, action: Action, budget: nat, at: nat, item: Item): Judged<Planned>
    requires !action.Renumber? && |ItemBytes(item)| <= MAX_LEN
  {
    var site := at + item.tagWidth;
    var mismatch := Refused(Fault(at, KindMismatch(rule)));
    match action
    case SetVarint(value) =>
      if !item.Varint? then mismatch
      else if WidthFits(minimal, EncodedLen(value), item.width) then Allowed(VarintAt(site, item.width, value))
      else Refused(Fault(at, BadValueWidth(rule, EncodedLen(value), item.width)))
    case SetI32(bits) => if item.I32? then Allowed(Fixed32At(site, bits)) else mismatch
    case SetI64(bits) => if item.I64? then Allowed(Fixed64At(site, bits)) else mismatch
    case SetPayload(bytes) =>
      if item.Code() != LEN_CODE then mismatch
      else if |bytes| == |LenPayload(item)| then Allowed(PayloadAt(site + item.prefixWidth, bytes))
      else Refused(Fault(at, BadPayloadLength(rule, |bytes|, |LenPayload(item)|)))
    case ReplaceRecord(_) => ClaimExtent(minimal, rule, action, budget, at, |ItemBytes(item)|)
    case Tombstone(_) => ClaimExtent(minimal, rule, action, budget, at, |ItemBytes(item)|)
  }

  /** The bytes before a container's body. */
  function HeaderSize(item: Item): nat {
    item.tagWidth + if item.Msg? || item.Len? then item.prefixWidth else 0
  }

  lemma BodyFits(item: Item)
    requires item.Msg? || item.Group?
    ensures |BodyBytes(item.body)| <= |PayloadBytes(item)| <= |ItemBytes(item)|
  {
    hide Spell;
  }

  function JudgeItem(minimal: bool, rules: Rules, trail: Word, budget: nat, at: nat, item: Item): Judged<seq<Planned>>
    requires |ItemBytes(item)| <= MAX_LEN
    decreases item, 2
  {
    var word := trail + [item.field];
    match ClaimAt(rules, word)
    case Clash(a, b) => Refused(Fault(at, TwoRules(a, b)))
    case Free => JudgeInside(minimal, rules, word, budget, at, item)
    case By(rule, action) =>
      if action.Renumber? then JudgeRenumber(minimal, rules, word, budget, at, item, rule, action.field)
      else
        match Claimed(minimal, rule, action, budget, at, item)
        case Allowed(w) => Allowed([w])
        case Refused(fault) => Refused(fault)
  }

  /** A renumber touches tags alone: the body is still walked, under the trail
      it was found at; a group's two tags are judged as one pair. */
  function JudgeRenumber(minimal: bool, rules: Rules, inner: Word, budget: nat, at: nat, item: Item,
                         rule: Layers.U16, field: Field): Judged<seq<Planned>>
    requires |ItemBytes(item)| <= MAX_LEN
    decreases item, 1
  {
    var word := TagWord(field, item.Code());
    if !WidthFits(minimal, EncodedLen(word), item.tagWidth) then
      Refused(Fault(at, BadTagWidth(rule, EncodedLen(word), item.tagWidth)))
    else
      match JudgeInside(minimal, rules, inner, budget, at, item)
      case Refused(fault) => Refused(fault)
      case Allowed(interior) =>
        if !item.Group? then Allowed([TagAt(at, item.tagWidth, word)] + interior)
        else
          var end := at + item.tagWidth + |BodyBytes(item.body)|;
          var endWord := TagWord(field, END_CODE);
          if !WidthFits(minimal, EncodedLen(endWord), item.endWidth) then
            Refused(Fault(end, BadTagWidth(rule, EncodedLen(endWord), item.endWidth)))
          else Allowed(interior + [TagAt(at, item.tagWidth, word)] + [TagAt(end, item.endWidth, endWord)])
  }

  function JudgeInside(minimal: bool, rules: Rules, inner: Word, budget: nat, at: nat, item: Item): Judged<seq<Planned>>
    requires |ItemBytes(item)| <= MAX_LEN
    decreases item, 0
  {
    if !item.Msg? && !item.Group? then Allowed([])
    else if budget == 0 then Refused(Fault(at, Wire(TooDeep)))
    else
      BodyFits(item);
      JudgeBody(minimal, rules, inner, budget - 1, at + HeaderSize(item), item.body)
  }

  function JudgeBody(minimal: bool, rules: Rules, trail: Word, budget: nat, at: nat,
                     items: seq<Item>): Judged<seq<Planned>>
    requires |BodyBytes(items)| <= MAX_LEN
    decreases items, 3
  {
    if items == [] then Allowed([])
    else
      match JudgeItem(minimal, rules, trail, budget, at, items[0])
      case Refused(fault) => Refused(fault)
      case Allowed(first) =>
        match JudgeBody(minimal, rules, trail, budget, at + |ItemBytes(items[0])|, items[1..])
        case Refused(fault) => Refused(fault)
        case Allowed(more) => Allowed(first + more)
  }

  // ─── the edit the rules mean ───

  /** The same record under another number. */
  function Renumbered(item: Item, field: Field): Item {
    item.(field := field)
  }

  /** What one claimed record becomes. */
  function Rewritten(minimal: bool, action: Action, budget: nat, item: Item): seq<Item> {
    match action
    case SetVarint(value) => if item.Varint? then [item.(value := value)] else [item]
    case SetI32(bits) => if item.I32? then [item.(bits32 := bits)] else [item]
    case SetI64(bits) => if item.I64? then [item.(bits64 := bits)] else [item]
    case SetPayload(bytes) =>
      if item.Code() == LEN_CODE then [Len(item.field, item.tagWidth, item.prefixWidth, bytes)] else [item]
    case Renumber(field) => [Renumbered(item, field)]
    case ReplaceRecord(bytes) =>
      (match ParseItem(minimal, NO_ROUTE, [], budget, bytes)
       case Some(p) => [p.item]
       case None => [item])
    case Tombstone(filler) =>
      if FillerNeed(filler) <= |ItemBytes(item)| <= MAX_LEN then Filling(minimal, |ItemBytes(item)|, filler) else [item]
  }

  function Edited(minimal: bool, rules: Rules, trail: Word, budget: nat, item: Item): seq<Item>
    decreases item, 1
  {
    var word := trail + [item.field];
    match ClaimAt(rules, word)
    case By(_, action) =>
      if action.Renumber? then [Renumbered(EditedInside(minimal, rules, word, budget, item), action.field)]
      else Rewritten(minimal, action, budget, item)
    case _ => [EditedInside(minimal, rules, word, budget, item)]
  }

  /** A container keeps its framing and edits its body under its own trail. */
  function EditedInside(minimal: bool, rules: Rules, inner: Word, budget: nat, item: Item): Item
    decreases item, 0
  {
    if (item.Msg? || item.Group?) && budget > 0
    then item.(body := EditedBody(minimal, rules, inner, budget - 1, item.body)) else item
  }

  function EditedBody(minimal: bool, rules: Rules, trail: Word, budget: nat, items: seq<Item>): seq<Item>
    decreases items, 2
  {
    if items == [] then []
    else Edited(minimal, rules, trail, budget, items[0]) + EditedBody(minimal, rules, trail, budget, items[1..])
  }
}
