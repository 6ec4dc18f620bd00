/** Wire records at their met widths, and a reference parser in both
    acceptance standards (src/wire.rs, src/wire/grouped.rs,
    src/cursor/grouped.rs). An `Item` is one record as spelled: every tag,
    prefix and varint carries the width it occupies. */
module Wire {
  import opened Sequences
  import opened Varints

  datatype Option<+T> = None | Some(value: T)

  type Field = f: int | 1 <= f <= 0x1FFF_FFFF witness 1
  type WordWidth = w: int | 1 <= w <= 5 witness 1
  type ValueWidth = w: int | 1 <= w <= 10 witness 1

  /** The top of the LEN length class, and of the construction cap. */
  const MAX_LEN := 0x7FFF_FFFF

  // The wire codes.
  const VARINT_CODE := 0
  const I64_CODE := 1
  const LEN_CODE := 2
  const GROUP_CODE := 3
  const END_CODE := 4
  const I32_CODE := 5

  function TagWord(field: Field, code: nat): Word32
    requires code < 8
  {
    8 * field + code
  }

  /** All eight codes of a field share one tag width. */
  lemma TagWidthIgnoresCode(field: Field, a: nat, b: nat)
    requires a < 8 && b < 8
    ensures EncodedLen(TagWord(field, a)) == EncodedLen(TagWord(field, b)) <= 5
  {
    EncodedLenSteps(TagWord(field, a));
    EncodedLenSteps(TagWord(field, b));
  }

  datatype Item =
    | Varint(field: Field, tagWidth: WordWidth, value: Word64, width: ValueWidth)
    | I64(field: Field, tagWidth: WordWidth, bits64: Word64)
    | I32(field: Field, tagWidth: WordWidth, bits32: Word32)
    | Len(field: Field, tagWidth: WordWidth, prefixWidth: WordWidth, payload: seq<Byte>)
    | Msg(field: Field, tagWidth: WordWidth, prefixWidth: WordWidth, body: seq<Item>)
    | Group(field: Field, tagWidth: WordWidth, endWidth: WordWidth, body: seq<Item>)
  {
    function Code(): nat
    {
      match this
      case Varint(_, _, _, _) => VARINT_CODE
      case I64(_, _, _) => I64_CODE
      case I32(_, _, _) => I32_CODE
      case Len(_, _, _, _) => LEN_CODE
      case Msg(_, _, _, _) => LEN_CODE
      case Group(_, _, _, _) => GROUP_CODE
    }
  }

  function Tag(field: Field, code: nat, width: WordWidth): seq<Byte>
    requires code < 8
  {
    Spell(TagWord(field, code), width)
  }

  /** The record's bytes: its tag, then its payload with the framing after it. */
  function ItemBytes(item: Item): seq<Byte>
    decreases item, 1
  {
    Tag(item.field, item.Code(), item.tagWidth) + PayloadBytes(item)
  }

  function PayloadBytes(item: Item): seq<Byte>
    decreases item, 0
  {
    match item
    case Varint(_, _, value, width) => Spell(value, width)
    case I64(_, _, bits) => LittleEndian(bits, 8)
    case I32(_, _, bits) => LittleEndian(bits, 4)
    case Len(_, _, width, payload) => Spell(|payload|, width) + payload
    case Msg(_, _, width, body) => Spell(|BodyBytes(body)|, width) + BodyBytes(body)
    case Group(field, _, width, body) => BodyBytes(body) + Tag(field, END_CODE, width)
  }

  function BodyBytes(items: seq<Item>): seq<Byte>
    decreases items
  {
    if items == [] then [] else ItemBytes(items[0]) + BodyBytes(items[1..])
  }

  lemma {:induction false} BodyBytesConcat(a: seq<Item>, b: seq<Item>)
    ensures BodyBytes(a + b) == BodyBytes(a) + BodyBytes(b)
  {
    hide Spell, EncodedLen, ReadVarint;
    hide ItemBytes;
    if a == [] {
      assert a + b == b;
    } else {
      BodyBytesConcat(a[1..], b);
      assert (a + b)[0] == a[0] && (a + b)[1..] == a[1..] + b;
      Associative(ItemBytes(a[0]), BodyBytes(a[1..]), BodyBytes(b));
    }
  }

  /** The authored-word width judgment: exact under the minimal standard,
      padded allowed under the tolerant one. */
  predicate WidthFits(minimal: bool, need: nat, have: nat) {
    if minimal then need == have else need <= have
  }

  predicate TagFits(minimal: bool, field: Field, code: nat, width: WordWidth)
    requires code < 8
  {
    WidthFits(minimal, EncodedLen(TagWord(field, code)), width)
  }

  /** Lawful under a standard: every width fits, every length in class. */
  predicate Lawful(minimal: bool, item: Item)
    decreases item
  {
    && TagFits(minimal, item.field, item.Code(), item.tagWidth)
    && match item
       case Varint(_, _, value, width) => WidthFits(minimal, EncodedLen(value), width)
       case I64(_, _, _) => true
       case I32(_, _, _) => true
       case Len(_, _, width, payload) =>
         |payload| <= MAX_LEN && WidthFits(minimal, EncodedLen(|payload|), width)
       case Msg(_, _, width, body) =>
         && LawfulBody(minimal, body) && |BodyBytes(body)| <= MAX_LEN
         && WidthFits(minimal, EncodedLen(|BodyBytes(body)|), width)
       case Group(field, _, width, body) =>
         LawfulBody(minimal, body) && TagFits(minimal, field, END_CODE, width)
  }

  predicate LawfulBody(minimal: bool, items: seq<Item>)
    decreases items
  {
    items == [] || (Lawful(minimal, items[0]) && LawfulBody(minimal, items[1..]))
  }

  lemma {:induction false} LawfulBodyConcat(minimal: bool, a: seq<Item>, b: seq<Item>)
    ensures LawfulBody(minimal, a + b) <==> LawfulBody(minimal, a) && LawfulBody(minimal, b)
  {
    if a == [] {
      assert a + b == b;
    } else {
      LawfulBodyConcat(minimal, a[1..], b);
      assert (a + b)[1..] == a[1..] + b;
    }
  }

  /** Nesting depth, over groups and committed messages alike. */
  function Depth(item: Item): nat
    decreases item
  {
    if item.Msg? || item.Group? then 1 + BodyDepth(item.body) else 0
  }

  function BodyDepth(items: seq<Item>): nat
    decreases items
  {
    if items == [] then 0
    else
      var d, rest := Depth(items[0]), BodyDepth(items[1..]);
      if d > rest then d else rest
  }

  /** A route says which LEN records, by their trail of container fields,
      are committed to be messages. */
  type Route = seq<Field> -> bool

  predicate Conforms(route: Route, trail: seq<Field>, item: Item)
    decreases item
  {
    match item
    case Varint(_, _, _, _) => true
    case I64(_, _, _) => true
    case I32(_, _, _) => true
    case Len(field, _, _, _) => !route(trail + [field])
    case Msg(field, _, _, body) => route(trail + [field]) && BodyConforms(route, trail + [field], body)
    case Group(field, _, _, body) => BodyConforms(route, trail + [field], body)
  }

  predicate BodyConforms(route: Route, trail: seq<Field>, items: seq<Item>)
    decreases items
  {
    items == [] || (Conforms(route, trail, items[0]) && BodyConforms(route, trail, items[1..]))
  }

  // ─── the reference parser ───

  datatype Window = TagWindow | LenWindow | ValueWindow
  {
    function Cap(): nat { if ValueWindow? then VALUE_CAP else TAG_CAP }
    function Last(): Byte {
      match this
      case TagWindow => TAG_LAST
      case LenWindow => LEN_LAST
      case ValueWindow => VALUE_LAST
    }
    function Limit(): nat {
      match this
      case TagWindow => 0x1_0000_0000
      case LenWindow => MAX_LEN + 1
      case ValueWindow => 0x1_0000_0000_0000_0000
    }
  }

  datatype Met = Met(word: Word64, width: nat)

  /** One varint through its window; the minimal standard refuses padding. */
  function ReadWord(minimal: bool, s: seq<Byte>, win: Window): (r: Option<Met>)
    ensures r.Some? ==> r.value.word < win.Limit() && 1 <= r.value.width <= win.Cap()
    ensures r.Some? ==> r.value.width <= |s|
  {
    match ReadVarint(s, win.Cap(), win.Last())
    case Ok(v, w) =>
      ReadIsSpelling(s, win.Cap(), win.Last());
      WindowCeiling(win, v, w);
      if minimal && EncodedLen(v) != w then None else Some(Met(v, w))
    case _ => None
  }

  lemma WindowCeiling(win: Window, v: nat, w: nat)
    requires InWindow(v, w, win.Cap(), win.Last())
    ensures v < win.Limit()
  {
    Ceilings();
    Powers();
    if w < win.Cap() {
      Pow128Monotone(w, win.Cap() - 1);
      assert Ceiling(VALUE_CAP, VALUE_LAST) == 128 * Ceiling(9, 1);
      PowBelowCeiling(win.Cap(), win.Last());
    }
  }

  lemma {:induction false} PowBelowCeiling(cap: nat, last: Byte)
    requires cap >= 2 && 1 <= last
    ensures Pow128(cap - 1) <= Ceiling(cap, last)
  {
    if cap > 2 {
      PowBelowCeiling(cap - 1, last);
    }
  }

  datatype Head = Head(field: Field, code: nat, width: WordWidth)

  function ReadHead(minimal: bool, s: seq<Byte>): (r: Option<Head>)
    ensures r.Some? ==> r.value.code < 8 && r.value.width <= |s|
  {
    match ReadWord(minimal, s, TagWindow)
    case None => None
    case Some(met) => if met.word / 8 == 0 then None else Some(Head(met.word / 8, met.word % 8, met.width))
  }

  datatype Parsed = Parsed(item: Item, rest: seq<Byte>)
  datatype Body = Body(items: seq<Item>, endWidth: nat, rest: seq<Byte>)

  /** One record: a group runs to its matching end tag, a routed LEN payload
      must itself be a whole message, any other LEN payload stays opaque.
      `budget` is the remaining container depth. */
  function ParseItem(minimal: bool, route: Route, trail: seq<Field>, budget: nat, s: seq<Byte>): (r: Option<Parsed>)
    ensures r.Some? ==> |r.value.rest| < |s|
    decreases |s|, 0
  {
    match ReadHead(minimal, s)
    case None => None
    case Some(head) =>
      var at := s[head.width..];
      if head.code == LEN_CODE then ParseLen(minimal, route, trail, budget, head, at)
      else if head.code == GROUP_CODE then ParseGroup(minimal, route, trail, budget, head, at)
      else ParseScalar(minimal, head, at)
  }

  function ParseScalar(minimal: bool, head: Head, at: seq<Byte>): (r: Option<Parsed>)
    ensures r.Some? ==> |r.value.rest| <= |at|
  {
    if head.code == VARINT_CODE then
      match ReadWord(minimal, at, ValueWindow)
      case None => None
      case Some(met) => Some(Parsed(Varint(head.field, head.width, met.word, met.width), at[met.width..]))
    else if head.code == I64_CODE && |at| >= 8 then
      LittleEndianIsOnto(at[..8]);
      Pow256Values();
      Some(Parsed(I64(head.field, head.width, FromLittleEndian(at[..8])), at[8..]))
    else if head.code == I32_CODE && |at| >= 4 then
      LittleEndianIsOnto(at[..4]);
      Pow256Values();
      Some(Parsed(I32(head.field, head.width, FromLittleEndian(at[..4])), at[4..]))
    else None
  }

  function ParseLen(minimal: bool, route: Route, trail: seq<Field>, budget: nat, head: Head,
                    at: seq<Byte>): (r: Option<Parsed>)
    ensures r.Some? ==> |r.value.rest| <= |at|
    decreases |at|, 2
  {
    match ReadWord(minimal, at, LenWindow)
    case None => None
    case Some(met) =>
      var tail := at[met.width..];
      if |tail| < met.word then None
      else if !route(trail + [head.field]) then
        Some(Parsed(Len(head.field, head.width, met.width, tail[..met.word]), tail[met.word..]))
      else if budget == 0 then None
      else
        match ParseBody(minimal, route, trail + [head.field], budget - 1, None, tail[..met.word])
        case None => None
        case Some(body) => Some(Parsed(Msg(head.field, head.width, met.width, body.items), tail[met.word..]))
  }

  function ParseGroup(minimal: bool, route: Route, trail: seq<Field>, budget: nat, head: Head,
                      at: seq<Byte>): (r: Option<Parsed>)
    ensures r.Some? ==> |r.value.rest| <= |at|
    decreases |at|, 2
  {
    if budget == 0 then None
    else
      match ParseBody(minimal, route, trail + [head.field], budget - 1, Some(head.field), at)
      case None => None
      case Some(body) => Some(Parsed(Group(head.field, head.width, body.endWidth, body.items), body.rest))
  }

  /** Records up to the end of input (`open` is None) or the end tag of `open`. */
  function ParseBody(minimal: bool, route: Route, trail: seq<Field>, budget: nat, open: Option<Field>,
                     s: seq<Byte>): (r: Option<Body>)
    ensures r.Some? ==> |r.value.rest| <= |s| && (open.Some? ==> 1 <= r.value.endWidth <= 5)
    decreases |s|, 1
  {
    if s == [] then
      if open.None? then Some(Body([], 0, [])) else None
    else
      match ReadHead(minimal, s)
      case None => None
      case Some(head) =>
        if head.code == END_CODE then
          if open == Some(head.field) then Some(Body([], head.width, s[head.width..])) else None
        else
          match ParseItem(minimal, route, trail, budget, s)
          case None => None
          case Some(first) =>
            match ParseBody(minimal, route, trail, budget, open, first.rest)
            case None => None
            case Some(body) => Some(Body([first.item] + body.items, body.endWidth, body.rest))
  }

  /** A whole document. */
  function Parse(minimal: bool, route: Route, budget: nat, s: seq<Byte>): Option<seq<Item>> {
    match ParseBody(minimal, route, [], budget, None, s)
    case None => None
    case Some(body) => Some(body.items)
  }

  // ─── every lawful spelling parses back to itself ───

  lemma ReadWordSpelled(minimal: bool, v: Word64, width: nat, win: Window, rest: seq<Byte>)
    requires WidthFits(minimal, EncodedLen(v), width) && width <= win.Cap() && v < win.Limit()
    ensures width >= 1 && ReadWord(minimal, Spell(v, width) + rest, win) == Some(Met(v, width))
  {
    Ceilings();
    EncodedLenIsLeast(v);
    MinimalOrWiderIsInWindow(v, width, win.Cap(), win.Last());
    ReadSpelling(v, width, win.Cap(), win.Last(), rest);
  }

  lemma ReadHeadSpelled(minimal: bool, field: Field, code: nat, width: WordWidth, rest: seq<Byte>)
    requires code < 8 && TagFits(minimal, field, code, width)
    ensures ReadHead(minimal, Tag(field, code, width) + rest) == Some(Head(field, code, width))
  {
    var word := TagWord(field, code);
    DivMod8(field, code);
    ReadWordSpelled(minimal, word, width, TagWindow, rest);
  }

  lemma DivMod8(q: nat, r: nat)
    requires r < 8
    ensures (8 * q + r) / 8 == q && (8 * q + r) % 8 == r
  {}

  lemma {:induction false} ParseItemSpelled(minimal: bool, route: Route, trail: seq<Field>, budget: nat, item: Item,
                                            rest: seq<Byte>)
    requires Lawful(minimal, item) && Conforms(route, trail, item) && Depth(item) <= budget
    ensures ParseItem(minimal, route, trail, budget, ItemBytes(item) + rest) == Some(Parsed(item, rest))
    decreases item, 1
  {
    hide Spell, EncodedLen, ReadVarint;
    var tag := Tag(item.field, item.Code(), item.tagWidth);
    var at := PayloadBytes(item) + rest;
    Associative(tag, PayloadBytes(item), rest);
    ReadHeadSpelled(minimal, item.field, item.Code(), item.tagWidth, at);
    assert (tag + at)[item.tagWidth..] == at;
    if item.Len? || item.Msg? {
      ParseLenSpelled(minimal, route, trail, budget, item, rest);
    } else if item.Group? {
      ParseGroupSpelled(minimal, route, trail, budget, item, rest);
    } else {
      ParseScalarSpelled(minimal, item, rest);
    }
  }

  lemma ParseScalarSpelled(minimal: bool, item: Item, rest: seq<Byte>)
    requires Lawful(minimal, item) && (item.Varint? || item.I64? || item.I32?)
    ensures ParseScalar(minimal, Head(item.field, item.Code(), item.tagWidth), PayloadBytes(item) + rest)
            == Some(Parsed(item, rest))
  {
    hide Spell, EncodedLen, ReadVarint;
    Pow256Values();
    var at := PayloadBytes(item) + rest;
    match item
    case Varint(_, _, value, width) =>
      ReadWordSpelled(minimal, value, width, ValueWindow, rest);
    case I64(_, _, bits) =>
      LittleEndianReadsBack(bits, 8);
      assert at[..8] == LittleEndian(bits, 8) && at[8..] == rest;
    case I32(_, _, bits) =>
      LittleEndianReadsBack(bits, 4);
      assert at[..4] == LittleEndian(bits, 4) && at[4..] == rest;
  }

  lemma {:induction false} ParseLenSpelled(minimal: bool, route: Route, trail: seq<Field>, budget: nat, item: Item,
                                           rest: seq<Byte>)
    requires item.Len? || item.Msg?
    requires Lawful(minimal, item) && Conforms(route, trail, item) && Depth(item) <= budget
    ensures ParseLen(minimal, route, trail, budget, Head(item.field, LEN_CODE, item.tagWidth),
                     PayloadBytes(item) + rest)
         == Some(Parsed(item, rest))
    decreases item, 0
  {
    hide Spell, EncodedLen, ReadVarint;
    if item.Len? {
      PrefixedSplits(minimal, item.payload, item.prefixWidth, rest);
    } else {
      var payload := BodyBytes(item.body);
      PrefixedSplits(minimal, payload, item.prefixWidth, rest);
      ParseBodySpelled(minimal, route, trail + [item.field], budget - 1, item.body, None, [], 0, []);
      assert payload + [] == payload;
      ParseLenCommits(minimal, route, trail, budget, Head(item.field, LEN_CODE, item.tagWidth),
                      PayloadBytes(item) + rest);
    }
  }

  lemma ParseLenCommits(minimal: bool, route: Route, trail: seq<Field>, budget: nat, head: Head, at: seq<Byte>)
    requires ReadWord(minimal, at, LenWindow).Some? && route(trail + [head.field]) && budget > 0
    requires var Met(word, width) := ReadWord(minimal, at, LenWindow).value;
             && |at| - width >= word
             && ParseBody(minimal, route, trail + [head.field], budget - 1, None, at[width..][..word]).Some?
    ensures var Met(word, width) := ReadWord(minimal, at, LenWindow).value;
            && var body := ParseBody(minimal, route, trail + [head.field], budget - 1, None, at[width..][..word]).value;
            && ParseLen(minimal, route, trail, budget, head, at)
               == Some(Parsed(Msg(head.field, head.width, width, body.items), at[width..][word..]))
  {}

  lemma PrefixedSplits(minimal: bool, payload: seq<Byte>, width: WordWidth, rest: seq<Byte>)
    requires |payload| <= MAX_LEN && WidthFits(minimal, EncodedLen(|payload|), width)
    ensures var at := Spell(|payload|, width) + payload + rest;
            && ReadWord(minimal, at, LenWindow) == Some(Met(|payload|, width))
            && at[width..][..|payload|] == payload && at[width..][|payload|..] == rest
  {
    hide Spell, EncodedLen, ReadVarint;
    var prefix := Spell(|payload|, width);
    Associative(prefix, payload, rest);
    ReadWordSpelled(minimal, |payload|, width, LenWindow, payload + rest);
    assert (prefix + (payload + rest))[width..] == payload + rest;
  }

  lemma {:induction false} ParseGroupSpelled(minimal: bool, route: Route, trail: seq<Field>, budget: nat, item: Item,
                                             rest: seq<Byte>)
    requires item.Group?
    requires Lawful(minimal, item) && Conforms(route, trail, item) && Depth(item) <= budget
    ensures ParseGroup(minimal, route, trail, budget, Head(item.field, GROUP_CODE, item.tagWidth),
                       PayloadBytes(item) + rest)
         == Some(Parsed(item, rest))
    decreases item, 0
  {
    hide Spell, EncodedLen, ReadVarint;
    var end := Tag(item.field, END_CODE, item.endWidth);
    Associative(BodyBytes(item.body), end, rest);
    ReadHeadSpelled(minimal, item.field, END_CODE, item.endWidth, rest);
    assert (end + rest)[item.endWidth..] == rest;
    ParseBodySpelled(minimal, route, trail + [item.field], budget - 1, item.body, Some(item.field), end + rest,
                     item.endWidth, rest);
  }

  /** Spelled records before any `tail` that ends the body parse as themselves. */
  lemma {:induction false} ParseBodySpelled(minimal: bool, route: Route, trail: seq<Field>, budget: nat,
                                            items: seq<Item>,
                         open: Option<Field>, tail: seq<Byte>, endWidth: nat, rest: seq<Byte>)
    requires LawfulBody(minimal, items) && BodyConforms(route, trail, items) && BodyDepth(items) <= budget
    requires ParseBody(minimal, route, trail, budget, open, tail) == Some(Body([], endWidth, rest))
    ensures ParseBody(minimal, route, trail, budget, open, BodyBytes(items) + tail) == Some(Body(items, endWidth, rest))
    decreases items
  {
    hide Spell, EncodedLen, ReadVarint;
    if items == [] {
      assert BodyBytes(items) + tail == tail;
    } else {
      var more := BodyBytes(items[1..]) + tail;
      Associative(ItemBytes(items[0]), BodyBytes(items[1..]), tail);
      ItemHeadSpelled(minimal, items[0], more);
      ParseItemSpelled(minimal, route, trail, budget, items[0], more);
      ParseBodySpelled(minimal, route, trail, budget, items[1..], open, tail, endWidth, rest);
      ParseBodyStep(minimal, route, trail, budget, open, ItemBytes(items[0]) + more, items[0], more);
      assert [items[0]] + items[1..] == items;
    }
  }

  lemma ParseBodyStep(minimal: bool, route: Route, trail: seq<Field>, budget: nat, open: Option<Field>,
                      s: seq<Byte>, item: Item, more: seq<Byte>)
    requires s != [] && ReadHead(minimal, s).Some? && ReadHead(minimal, s).value.code != END_CODE
    requires ParseItem(minimal, route, trail, budget, s) == Some(Parsed(item, more))
    requires ParseBody(minimal, route, trail, budget, open, more).Some?
    ensures var b := ParseBody(minimal, route, trail, budget, open, more).value;
            ParseBody(minimal, route, trail, budget, open, s) == Some(Body([item] + b.items, b.endWidth, b.rest))
  {}

  lemma ItemHeadSpelled(minimal: bool, item: Item, rest: seq<Byte>)
    requires TagFits(minimal, item.field, item.Code(), item.tagWidth)
    ensures ReadHead(minimal, ItemBytes(item) + rest) == Some(Head(item.field, item.Code(), item.tagWidth))
    ensures ItemBytes(item) + rest != []
  {
    hide Spell, EncodedLen, ReadVarint;
    Associative(Tag(item.field, item.Code(), item.tagWidth), PayloadBytes(item), rest);
    ReadHeadSpelled(minimal, item.field, item.Code(), item.tagWidth, PayloadBytes(item) + rest);
  }

  lemma ParseSpelled(minimal: bool, route: Route, budget: nat, items: seq<Item>)
    requires LawfulBody(minimal, items) && BodyConforms(route, [], items) && BodyDepth(items) <= budget
    ensures Parse(minimal, route, budget, BodyBytes(items)) == Some(items)
  {
    ParseBodySpelled(minimal, route, [], budget, items, None, [], 0, []);
    assert BodyBytes(items) + [] == BodyBytes(items);
  }

  // ─── and every accepted input is the spelling of what it parsed to ───

  lemma ReadWordSound(minimal: bool, s: seq<Byte>, win: Window)
    requires ReadWord(minimal, s, win).Some?
    ensures var met := ReadWord(minimal, s, win).value;
            WidthFits(minimal, EncodedLen(met.word), met.width) && s == Spell(met.word, met.width) + s[met.width..]
  {
    var met := ReadWord(minimal, s, win).value;
    ReadIsSpelling(s, win.Cap(), win.Last());
    InWindowIsMinimalOrWider(met.word, met.width, win.Cap(), win.Last());
  }

  lemma ReadHeadSound(minimal: bool, s: seq<Byte>)
    requires ReadHead(minimal, s).Some?
    ensures var h := ReadHead(minimal, s).value;
            TagFits(minimal, h.field, h.code, h.width) && s == Tag(h.field, h.code, h.width) + s[h.width..]
  {
    ReadWordSound(minimal, s, TagWindow);
    var met := ReadWord(minimal, s, TagWindow).value;
    assert 8 * (met.word / 8) + met.word % 8 == met.word;
  }

  lemma {:induction false} ParseItemSound(minimal: bool, route: Route, trail: seq<Field>, budget: nat, s: seq<Byte>)
    requires ParseItem(minimal, route, trail, budget, s).Some?
    ensures var Parsed(item, rest) := ParseItem(minimal, route, trail, budget, s).value;
            && Lawful(minimal, item) && Conforms(route, trail, item) && Depth(item) <= budget
            && s == ItemBytes(item) + rest
    decreases |s|, 0
  {
    hide Spell, EncodedLen, ReadVarint;
    ReadHeadSound(minimal, s);
    var h := ReadHead(minimal, s).value;
    var at := s[h.width..];
    var Parsed(item, rest) := ParseItem(minimal, route, trail, budget, s).value;
    if h.code == LEN_CODE {
      ParseLenSound(minimal, route, trail, budget, h, at);
    } else if h.code == GROUP_CODE {
      ParseGroupSound(minimal, route, trail, budget, h, at);
    } else {
      ParseScalarSound(minimal, h, at);
    }
    Associative(Tag(h.field, h.code, h.width), PayloadBytes(item), rest);
  }

  /** What a payload parser owes: the item it names, its laws, and its bytes. */
  predicate PayloadSound(minimal: bool, h: Head, at: seq<Byte>, p: Parsed)
    requires h.code < 8
  {
    && p.item.field == h.field && p.item.Code() == h.code && p.item.tagWidth == h.width
    && (TagFits(minimal, h.field, h.code, h.width) ==> Lawful(minimal, p.item))
    && at == PayloadBytes(p.item) + p.rest
  }

  lemma ParseScalarSound(minimal: bool, h: Head, at: seq<Byte>)
    requires h.code < 8 && ParseScalar(minimal, h, at).Some?
    ensures PayloadSound(minimal, h, at, ParseScalar(minimal, h, at).value)
  {
    hide Spell, EncodedLen, ReadVarint;
    if h.code == VARINT_CODE {
      ReadWordSound(minimal, at, ValueWindow);
    } else if h.code == I64_CODE {
      LittleEndianIsOnto(at[..8]);
      assert at == at[..8] + at[8..];
    } else {
      LittleEndianIsOnto(at[..4]);
      assert at == at[..4] + at[4..];
    }
  }

  lemma {:induction false} ParseLenSound(minimal: bool, route: Route, trail: seq<Field>, budget: nat, h: Head,
                                         at: seq<Byte>)
    requires h.code == LEN_CODE && ParseLen(minimal, route, trail, budget, h, at).Some?
    ensures var p := ParseLen(minimal, route, trail, budget, h, at).value;
            PayloadSound(minimal, h, at, p) && Conforms(route, trail, p.item) && Depth(p.item) <= budget
    decreases |at|, 2
  {
    hide Spell, EncodedLen, ReadVarint, ReadWord, ParseBody, PayloadSound, BodyBytes, Lawful, LawfulBody, BodyDepth;
    PrefixedSound(minimal, at);
    var met := ReadWord(minimal, at, LenWindow).value;
    var payload, rest := at[met.width..][..met.word], at[met.width..][met.word..];
    if route(trail + [h.field]) {
      ParseBodySound(minimal, route, trail + [h.field], budget - 1, None, payload);
      var body := ParseBody(minimal, route, trail + [h.field], budget - 1, None, payload).value;
      assert payload + [] == payload;
      MsgSound(minimal, h, at, met.width, body.items, rest);
    } else {
      OpaqueSound(minimal, h, at, met.width, payload, rest);
    }
  }

  lemma MsgSound(minimal: bool, h: Head, at: seq<Byte>, width: WordWidth, body: seq<Item>, rest: seq<Byte>)
    requires h.code == LEN_CODE && |BodyBytes(body)| <= MAX_LEN
             && at == Spell(|BodyBytes(body)|, width) + BodyBytes(body) + rest
    requires WidthFits(minimal, EncodedLen(|BodyBytes(body)|), width) && LawfulBody(minimal, body)
    ensures PayloadSound(minimal, h, at, Parsed(Msg(h.field, h.width, width, body), rest))
    ensures Depth(Msg(h.field, h.width, width, body)) == 1 + BodyDepth(body)
  {
    hide Spell, EncodedLen, BodyBytes, LawfulBody, BodyDepth;
  }

  lemma OpaqueSound(minimal: bool, h: Head, at: seq<Byte>, width: WordWidth, payload: seq<Byte>, rest: seq<Byte>)
    requires h.code == LEN_CODE && |payload| <= MAX_LEN && at == Spell(|payload|, width) + payload + rest
    requires WidthFits(minimal, EncodedLen(|payload|), width)
    ensures PayloadSound(minimal, h, at, Parsed(Len(h.field, h.width, width, payload), rest))
    ensures Depth(Len(h.field, h.width, width, payload)) == 0
  {
    hide Spell, EncodedLen;
  }

  lemma PrefixedSound(minimal: bool, at: seq<Byte>)
    requires ReadWord(minimal, at, LenWindow).Some?
    ensures var Met(word, width) := ReadWord(minimal, at, LenWindow).value;
            && WidthFits(minimal, EncodedLen(word), width)
            && (|at| - width >= word ==> at == Spell(word, width) + at[width..][..word] + at[width..][word..])
  {
    hide Spell, EncodedLen, ReadVarint;
    ReadWordSound(minimal, at, LenWindow);
    var Met(word, width) := ReadWord(minimal, at, LenWindow).value;
    if |at| - width >= word {
      var tail := at[width..];
      assert tail == tail[..word] + tail[word..];
      Associative(Spell(word, width), tail[..word], tail[word..]);
    }
  }

  lemma {:induction false} ParseGroupSound(minimal: bool, route: Route, trail: seq<Field>, budget: nat, h: Head,
                                           at: seq<Byte>)
    requires h.code == GROUP_CODE && ParseGroup(minimal, route, trail, budget, h, at).Some?
    ensures var p := ParseGroup(minimal, route, trail, budget, h, at).value;
            PayloadSound(minimal, h, at, p) && Conforms(route, trail, p.item) && Depth(p.item) <= budget
    decreases |at|, 2
  {
    hide Spell, EncodedLen, ReadVarint;
    ParseBodySound(minimal, route, trail + [h.field], budget - 1, Some(h.field), at);
  }

  function EndOf(open: Option<Field>, width: nat): seq<Byte>
    requires open.Some? ==> 1 <= width <= 5
  {
    if open.Some? then Tag(open.value, END_CODE, width) else []
  }

  lemma {:induction false} ParseBodySound(minimal: bool, route: Route, trail: seq<Field>, budget: nat,
                                          open: Option<Field>, s: seq<Byte>)
    requires ParseBody(minimal, route, trail, budget, open, s).Some?
    ensures var Body(items, width, rest) := ParseBody(minimal, route, trail, budget, open, s).value;
            && LawfulBody(minimal, items) && BodyConforms(route, trail, items) && BodyDepth(items) <= budget
            && (if open.Some? then TagFits(minimal, open.value, END_CODE, width) else rest == [])
            && s == BodyBytes(items) + EndOf(open, width) + rest
    decreases |s|, 1
  {
    hide Spell, EncodedLen, ReadVarint;
    if s != [] {
      ReadHeadSound(minimal, s);
      if ReadHead(minimal, s).value.code != END_CODE {
        ParseItemSound(minimal, route, trail, budget, s);
        var Parsed(item, more) := ParseItem(minimal, route, trail, budget, s).value;
        ParseBodySound(minimal, route, trail, budget, open, more);
        var Body(items, width, rest) := ParseBody(minimal, route, trail, budget, open, more).value;
        assert ([item] + items)[1..] == items;
        Associative(BodyBytes(items), EndOf(open, width), rest);
        Associative(ItemBytes(item), BodyBytes(items), EndOf(open, width) + rest);
        Associative(ItemBytes(item) + BodyBytes(items), EndOf(open, width), rest);
      }
    }
  }

  /** Parsing is exactly the inverse of spelling: a document is accepted iff
      it is the spelling of some lawful, conforming, bounded record list, and
      that list is unique. */
  lemma ParseIsInverse(minimal: bool, route: Route, budget: nat, s: seq<Byte>, items: seq<Item>)
    ensures Parse(minimal, route, budget, s) == Some(items)
       <==> && s == BodyBytes(items) && LawfulBody(minimal, items) && BodyConforms(route, [], items)
            && BodyDepth(items) <= budget
  {
    if Parse(minimal, route, budget, s) == Some(items) {
      ParseBodySound(minimal, route, [], budget, None, s);
    } else if s == BodyBytes(items) && LawfulBody(minimal, items) && BodyConforms(route, [], items)
      && BodyDepth(items) <= budget {
      ParseSpelled(minimal, route, budget, items);
    }
  }

  // ─── the unrouted reading ───

  /** Commits no LEN record: every payload stays opaque. */
  const NO_ROUTE: Route := _ => false

  /** The same bytes read without a route. */
  function Opaque(item: Item): Item
    decreases item, 1
  {
    match item
    case Msg(field, tagWidth, prefixWidth, body) => Len(field, tagWidth, prefixWidth, BodyBytes(body))
    case Group(field, tagWidth, endWidth, body) => Group(field, tagWidth, endWidth, OpaqueBody(body))
    case _ => item
  }

  function OpaqueBody(items: seq<Item>): seq<Item>
    decreases items
  {
    if items == [] then [] else [Opaque(items[0])] + OpaqueBody(items[1..])
  }

  lemma {:induction false} OpaqueReads(minimal: bool, trail: seq<Field>, item: Item)
    ensures ItemBytes(Opaque(item)) == ItemBytes(item)
    ensures Lawful(minimal, item) ==> Lawful(minimal, Opaque(item))
    ensures Conforms(NO_ROUTE, trail, Opaque(item)) && Depth(Opaque(item)) <= Depth(item)
    decreases item, 1
  {
    hide Spell, EncodedLen;
    if item.Group? {
      OpaqueBodyReads(minimal, trail + [item.field], item.body);
    }
  }

  lemma {:induction false} OpaqueBodyReads(minimal: bool, trail: seq<Field>, items: seq<Item>)
    ensures BodyBytes(OpaqueBody(items)) == BodyBytes(items)
    ensures LawfulBody(minimal, items) ==> LawfulBody(minimal, OpaqueBody(items))
    ensures BodyConforms(NO_ROUTE, trail, OpaqueBody(items)) && BodyDepth(OpaqueBody(items)) <= BodyDepth(items)
    decreases items, 0
  {
    hide Spell, EncodedLen;
    if items != [] {
      OpaqueReads(minimal, trail, items[0]);
      OpaqueBodyReads(minimal, trail, items[1..]);
      assert OpaqueBody(items)[1..] == OpaqueBody(items[1..]);
    }
  }

  /** Lawful bytes re-ingest without a route, groups intact and payloads opaque. */
  lemma ReadsOpaquely(minimal: bool, budget: nat, items: seq<Item>)
    requires LawfulBody(minimal, items) && BodyDepth(items) <= budget
    ensures Parse(minimal, NO_ROUTE, budget, BodyBytes(items)) == Some(OpaqueBody(items))
  {
    OpaqueBodyReads(minimal, [], items);
    ParseSpelled(minimal, NO_ROUTE, budget, OpaqueBody(items));
  }

  lemma {:induction false} BodyDepthConcat(a: seq<Item>, b: seq<Item>)
    ensures BodyDepth(a + b) == if BodyDepth(a) > BodyDepth(b) then BodyDepth(a) else BodyDepth(b)
  {
    if a == [] {
      assert a + b == b;
    } else {
      BodyDepthConcat(a[1..], b);
      assert (a + b)[1..] == a[1..] + b;
    }
  }
}
