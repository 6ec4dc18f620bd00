/** The cursor's record steps with the position and class of every refusal
    (src/cursor/grouped.rs, src/inplace/grouped.rs). */
module Scanning {
  import opened Varints
  import opened Wire

  datatype Breach = BadVarint | BadTag | Cut | Grouping | TooDeep | Padded

  datatype Scan<+T> = Got(value: T) | Broken(at: nat, breach: Breach)

  /** What a step delivers, and what is left of the window. */
  datatype Entry =
    | Whole(item: Item, rest: seq<Byte>)
    | Enter(field: Field, width: WordWidth, rest: seq<Byte>)
    | Exit(width: WordWidth, rest: seq<Byte>)
  {
    /** The number a delivered head carries. */
    function Number(): Field
      requires !Exit?
    {
      if Whole? then item.field else field
    }

    /** A head delivered with `size` bytes left, its record's bytes accounted. */
    predicate Delivered(size: nat, room: nat) {
      && !Exit? && |rest| < size && (Enter? ==> room > 0 && width + |rest| == size)
      && (Whole? ==> !item.Msg? && !item.Group? && |ItemBytes(item)| + |rest| == size)
      && (Whole? && item.Len? ==> |item.payload| + |rest| < size)
    }
  }

  /** The window first, then the padding a minimal standard refuses. */
  function ScanWord(minimal: bool, s: seq<Byte>, win: Window, at: nat): (r: Scan<Met>)
    ensures r.Got? <==> ReadWord(minimal, s, win).Some?
    ensures r.Got? ==> r.value == ReadWord(minimal, s, win).value
    ensures r.Broken? ==> r.at == at && (r.breach.BadVarint? || r.breach.Padded?)
  {
    match ReadVarint(s, win.Cap(), win.Last())
    case Ok(v, w) =>
      ReadIsSpelling(s, win.Cap(), win.Last());
      WindowCeiling(win, v, w);
      if minimal && EncodedLen(v) != w then Broken(at, Padded) else Got(Met(v, w))
    case _ => Broken(at, BadVarint)
  }

  function ScanHead(minimal: bool, s: seq<Byte>, at: nat): (r: Scan<Head>)
    ensures r.Got? <==> ReadHead(minimal, s).Some?
    ensures r.Got? ==> r.value == ReadHead(minimal, s).value
    ensures r.Broken? ==> r.at == at
  {
    match ScanWord(minimal, s, TagWindow, at)
    case Broken(p, breach) => Broken(p, breach)
    case Got(met) => if met.word / 8 == 0 then Broken(at, BadTag) else Got(Head(met.word / 8, met.word % 8, met.width))
  }

  /** A scalar's value behind its head. */
  function ScanScalar(minimal: bool, head: Head, s: seq<Byte>, at: nat): (r: Scan<Entry>)
    requires head.code == VARINT_CODE || head.code == I64_CODE || head.code == I32_CODE
    ensures r.Got? <==> ParseScalar(minimal, head, s).Some?
    ensures r.Got? ==> r.value == Whole(ParseScalar(minimal, head, s).value.item,
                                        ParseScalar(minimal, head, s).value.rest)
    ensures r.Got? ==> r.value.item.Varint? || r.value.item.I64? || r.value.item.I32?
    ensures r.Broken? ==> r.at == at
  {
    if head.code == VARINT_CODE then
      match ScanWord(minimal, s, ValueWindow, at)
      case Broken(p, breach) => Broken(p, breach)
      case Got(met) => Got(Whole(Varint(head.field, head.width, met.word, met.width), s[met.width..]))
    else
      match ParseScalar(minimal, head, s)
      case None => Broken(at, Cut)
      case Some(p) => Got(Whole(p.item, p.rest))
  }

  /** A LEN record's prefix and payload window; the payload stays opaque. */
  function ScanLen(minimal: bool, head: Head, s: seq<Byte>, at: nat): (r: Scan<Entry>)
    ensures r.Got? <==>
              var met := ReadWord(minimal, s, LenWindow);
              met.Some? && |s| - met.value.width >= met.value.word
    ensures r.Got? ==> var Met(word, width) := ReadWord(minimal, s, LenWindow).value;
                       r.value == Whole(Len(head.field, head.width, width, s[width..][..word]), s[width..][word..])
    ensures r.Broken? ==> at <= r.at <= at + |s|
  {
    match ScanWord(minimal, s, LenWindow, at)
    case Broken(p, breach) => Broken(p, breach)
    case Got(met) =>
      if |s| - met.width < met.word then Broken(at + met.width, Cut)
      else Got(Whole(Len(head.field, head.width, met.width, s[met.width..][..met.word]), s[met.width..][met.word..]))
  }

  /** One step at a nonempty window under the innermost `open` group, `room` being
      how many more groups this cursor may open. A head is judged before its code
      is looked at, its code before anything behind it. */
  function NextEntry(minimal: bool, open: Option<Field>, room: nat, s: seq<Byte>, at: nat): (r: Scan<Entry>)
    requires s != []
    ensures r.Got? ==>
              && |r.value.rest| < |s| && (r.value.Enter? ==> room > 0 && |r.value.rest| + r.value.width == |s|)
              && (r.value.Exit? ==> open.Some? && |r.value.rest| + r.value.width == |s|)
    ensures r.Got? && r.value.Whole? ==> !r.value.item.Msg? && !r.value.item.Group?
    ensures r.Got? && r.value.Whole? && r.value.item.Len? ==> |r.value.item.payload| + |r.value.rest| < |s|
    ensures r.Broken? ==> at <= r.at <= at + |s|
  {
    match ScanHead(minimal, s, at)
    case Broken(p, breach) => Broken(p, breach)
    case Got(head) =>
      var tail := s[head.width..];
      if head.code == VARINT_CODE || head.code == I64_CODE || head.code == I32_CODE then
        ScanScalar(minimal, head, tail, at + head.width)
      else if head.code == LEN_CODE then ScanLen(minimal, head, tail, at + head.width)
      else if head.code == GROUP_CODE then
        if room == 0 then Broken(at, TooDeep) else Got(Enter(head.field, head.width, tail))
      else if head.code == END_CODE then
        if open == Some(head.field) then Got(Exit(head.width, tail)) else Broken(at, Grouping)
      else Broken(at, BadTag)
  }

  // ─── the fault-reporting reader ───

  /** Records up to the end of the window, or to the end tag of `open`, with the
      first refusal's position: a LEN payload's window is judged before its
      depth, its depth before its interior. */
  function SkimBody(minimal: bool, route: Route, trail: seq<Field>, budget: nat, open: Option<Field>, s: seq<Byte>,
                    at: nat): (r: Scan<Body>)
    ensures r.Got? ==> |r.value.rest| <= |s|
    ensures r.Got? && open.Some? ==> 1 <= r.value.endWidth <= 5 && |r.value.rest| + r.value.endWidth <= |s|
    ensures r.Broken? ==> at <= r.at <= at + |s|
    decreases |s|, 1
  {
    hide NextEntry, SkimEntry, ItemBytes;
    if s == [] then
      if open.None? then Got(Body([], 0, [])) else Broken(at, Grouping)
    else
      match NextEntry(minimal, open, budget, s, at)
      case Broken(p, breach) => Broken(p, breach)
      case Got(Exit(width, rest)) => Got(Body([], width, rest))
      case Got(entry) =>
        match SkimEntry(minimal, route, trail, budget, entry, |s|, at)
        case Broken(p, breach) => Broken(p, breach)
        case Got(first) =>
          match SkimBody(minimal, route, trail, budget, open, first.rest, at + |s| - |first.rest|)
          case Broken(p, breach) => Broken(p, breach)
          case Got(body) => Got(Body([first.item] + body.items, body.endWidth, body.rest))
  }

  /** What lies inside a delivered head, `size` bytes being left at the head. */
  function SkimEntry(minimal: bool, route: Route, trail: seq<Field>, budget: nat, entry: Entry, size: nat,
                     at: nat): (r: Scan<Parsed>)
    requires !entry.Exit? && |entry.rest| < size && (entry.Enter? ==> budget > 0)
    requires entry.Whole? && entry.item.Len? ==> |entry.item.payload| + |entry.rest| < size
    ensures r.Got? ==> |r.value.rest| < size
    ensures r.Broken? ==> at <= r.at <= at + size
    decreases size, 0
  {
    match entry
    case Whole(item, rest) =>
      if item.Len? && route(trail + [item.field]) then
        if budget == 0 then Broken(at, TooDeep)
        else
          match SkimBody(minimal, route, trail + [item.field], budget - 1, None, item.payload,
                         at + size - |rest| - |item.payload|)
          case Broken(p, breach) => Broken(p, breach)
          case Got(body) => Got(Parsed(Msg(item.field, item.tagWidth, item.prefixWidth, body.items), rest))
      else Got(Parsed(item, rest))
    case Enter(field, width, rest) =>
      match SkimBody(minimal, route, trail + [field], budget - 1, Some(field), rest, at + size - |rest|)
      case Broken(p, breach) => Broken(p, breach)
      case Got(body) => Got(Parsed(Group(field, width, body.endWidth, body.items), body.rest))
  }

  /** Exactly one record from the start of a window of its own. */
  function SkimItem(minimal: bool, route: Route, trail: seq<Field>, budget: nat, s: seq<Byte>,
                    at: nat): (r: Scan<Parsed>)
    ensures r.Broken? ==> at <= r.at <= at + |s|
  {
    if s == [] then Broken(at, BadVarint)
    else
      match NextEntry(minimal, None, budget, s, at)
      case Broken(p, breach) => Broken(p, breach)
      case Got(entry) => SkimEntry(minimal, route, trail, budget, entry, |s|, at)
  }

  // ─── the reader accepts what the parser accepts ───

  /** A delivered head is the parser's head, and its inside is read alike. */
  predicate EntryAgrees(minimal: bool, route: Route, trail: seq<Field>, open: Option<Field>, budget: nat,
                        s: seq<Byte>, r: Scan<Entry>)
    requires s != []
  {
    var head := ReadHead(minimal, s);
    match r
    case Broken(_, _) =>
      head.Some? ==> if head.value.code == END_CODE then open != Some(head.value.field)
                     else ParseItem(minimal, route, trail, budget, s).None?
    case Got(entry) => head.Some? && HeadAgrees(minimal, route, trail, open, budget, s, head.value, entry)
  }

  predicate HeadAgrees(minimal: bool, route: Route, trail: seq<Field>, open: Option<Field>, budget: nat, s: seq<Byte>,
                       head: Head, entry: Entry)
  {
    var item := ParseItem(minimal, route, trail, budget, s);
    match entry
    case Exit(width, rest) =>
      open.Some? && head == Head(open.value, END_CODE, width) && width <= |s| && rest == s[width..]
    case Enter(field, width, rest) =>
      head == Head(field, GROUP_CODE, width) && item == ParseGroup(minimal, route, trail, budget, head, rest)
    case Whole(whole, rest) =>
      head.code != END_CODE
      && item == if whole.Len? then LenInside(minimal, route, trail, budget, whole, rest) else Some(Parsed(whole, rest))
  }

  lemma EntryParses(minimal: bool, route: Route, trail: seq<Field>, open: Option<Field>, budget: nat, s: seq<Byte>,
                    at: nat)
    requires s != []
    ensures EntryAgrees(minimal, route, trail, open, budget, s, NextEntry(minimal, open, budget, s, at))
  {
    hide ParseBody, ParseItem, ReadWord, ReadHead, ParseScalar, ParseLen, ScanLen;
    var head := ReadHead(minimal, s);
    if head.Some? {
      var tail := s[head.value.width..];
      ParseItemStep(minimal, route, trail, budget, s, head.value);
      if head.value.code == LEN_CODE {
        LenParses(minimal, route, trail, budget, head.value, tail, at + head.value.width);
      } else {
        ScalarCodes(minimal, head.value, tail);
      }
    }
  }

  lemma ParseItemStep(minimal: bool, route: Route, trail: seq<Field>, budget: nat, s: seq<Byte>, head: Head)
    requires ReadHead(minimal, s) == Some(head)
    ensures ParseItem(minimal, route, trail, budget, s)
         == if head.code == LEN_CODE then ParseLen(minimal, route, trail, budget, head, s[head.width..])
            else if head.code == GROUP_CODE then ParseGroup(minimal, route, trail, budget, head, s[head.width..])
            else ParseScalar(minimal, head, s[head.width..])
    ensures head.code == GROUP_CODE && budget == 0 ==> ParseItem(minimal, route, trail, budget, s).None?
  {
    hide ReadHead, ParseLen, ParseScalar, ParseBody;
  }

  lemma ScalarCodes(minimal: bool, head: Head, s: seq<Byte>)
    ensures ParseScalar(minimal, head, s).Some? ==>
              && !ParseScalar(minimal, head, s).value.item.Len?
              && (head.code == VARINT_CODE || head.code == I64_CODE || head.code == I32_CODE)
  {
    hide FromLittleEndian, ReadWord;
  }

  /** The parser on a LEN record whose window holds. */
  function LenInside(minimal: bool, route: Route, trail: seq<Field>, budget: nat, item: Item,
                     rest: seq<Byte>): Option<Parsed>
    requires item.Len?
  {
    if !route(trail + [item.field]) then Some(Parsed(item, rest))
    else if budget == 0 then None
    else
      match ParseBody(minimal, route, trail + [item.field], budget - 1, None, item.payload)
      case None => None
      case Some(body) => Some(Parsed(Msg(item.field, item.tagWidth, item.prefixWidth, body.items), rest))
  }

  predicate LenAgrees(minimal: bool, route: Route, trail: seq<Field>, budget: nat, r: Scan<Entry>, p: Option<Parsed>) {
    match r
    case Broken(_, _) => p.None?
    case Got(entry) =>
      entry.Whole? && entry.item.Len? && p == LenInside(minimal, route, trail, budget, entry.item, entry.rest)
  }

  lemma LenParses(minimal: bool, route: Route, trail: seq<Field>, budget: nat, head: Head, s: seq<Byte>, at: nat)
    requires head.code == LEN_CODE
    ensures LenAgrees(minimal, route, trail, budget, ScanLen(minimal, head, s, at),
                      ParseLen(minimal, route, trail, budget, head, s))
  {
    hide ParseBody, ReadWord, ScanWord;
  }

  function Told<T>(r: Scan<T>): Option<T> {
    match r
    case Got(value) => Some(value)
    case Broken(_, _) => None
  }

  lemma {:induction false} SkimEntryParses(minimal: bool, route: Route, trail: seq<Field>, budget: nat,
                                           open: Option<Field>, s: seq<Byte>, at: nat)
    requires s != [] && NextEntry(minimal, open, budget, s, at).Got?
             && !NextEntry(minimal, open, budget, s, at).value.Exit?
    ensures ParseItem(minimal, route, trail, budget, s)
         == Told(SkimEntry(minimal, route, trail, budget, NextEntry(minimal, open, budget, s, at).value, |s|, at))
    decreases |s|, 0
  {
    hide NextEntry, ParseItem, ParseBody, SkimBody, ReadHead;
    EntryParses(minimal, route, trail, open, budget, s, at);
    match NextEntry(minimal, open, budget, s, at).value
    case Whole(item, rest) =>
      if item.Len? && route(trail + [item.field]) && budget > 0 {
        SkimParses(minimal, route, trail + [item.field], budget - 1, None, item.payload,
                   at + |s| - |rest| - |item.payload|);
      }
    case Enter(field, width, rest) =>
      SkimParses(minimal, route, trail + [field], budget - 1, Some(field), rest, at + |s| - |rest|);
  }

  /** So skimming is parsing, with every refusal's place and class told. */
  lemma {:induction false} SkimParses(minimal: bool, route: Route, trail: seq<Field>, budget: nat,
                                      open: Option<Field>, s: seq<Byte>, at: nat)
    ensures ParseBody(minimal, route, trail, budget, open, s)
            == Told(SkimBody(minimal, route, trail, budget, open, s, at))
    decreases |s|, 1
  {
    hide NextEntry, ParseItem, SkimEntry, ReadHead, ParseBody, SkimBody, ParseGroup, LenInside;
    if s == [] {
      WindowEnd(minimal, route, trail, budget, open, at);
    } else {
      EntryParses(minimal, route, trail, open, budget, s, at);
      ParseBodyStep(minimal, route, trail, budget, open, s);
      SkimBodyStep(minimal, route, trail, budget, open, s, at);
      var entry := NextEntry(minimal, open, budget, s, at);
      if entry.Got? && !entry.value.Exit? {
        SkimEntryParses(minimal, route, trail, budget, open, s, at);
        var first := SkimEntry(minimal, route, trail, budget, entry.value, |s|, at);
        if first.Got? {
          SkimParses(minimal, route, trail, budget, open, first.value.rest, at + |s| - |first.value.rest|);
        }
      }
    }
  }

  lemma WindowEnd(minimal: bool, route: Route, trail: seq<Field>, budget: nat, open: Option<Field>, at: nat)
    ensures SkimBody(minimal, route, trail, budget, open, [], at)
            == if open.None? then Got(Body([], 0, [])) else Broken(at, Grouping)
    ensures ParseBody(minimal, route, trail, budget, open, []) == if open.None? then Some(Body([], 0, [])) else None
  {}

  lemma ParseBodyStep(minimal: bool, route: Route, trail: seq<Field>, budget: nat, open: Option<Field>, s: seq<Byte>)
    requires s != []
    ensures var head, item, body := ReadHead(minimal, s), ParseItem(minimal, route, trail, budget, s),
                                    ParseBody(minimal, route, trail, budget, open, s);
            && (head.None? ==> body.None?)
            && (head.Some? && head.value.code == END_CODE ==>
                  body == if open == Some(head.value.field)
                          then Some(Body([], head.value.width, s[head.value.width..])) else None)
            && (head.Some? && head.value.code != END_CODE ==>
                  body == if item.None? then None
                    else Prepended(item.value.item, ParseBody(minimal, route, trail, budget, open, item.value.rest)))
  {
    hide ReadHead, ParseItem;
  }

  function Prepended(item: Item, body: Option<Body>): Option<Body> {
    match body
    case None => None
    case Some(b) => Some(Body([item] + b.items, b.endWidth, b.rest))
  }

  lemma SkimBodyStep(minimal: bool, route: Route, trail: seq<Field>, budget: nat, open: Option<Field>, s: seq<Byte>,
                     at: nat)
    requires s != []
    ensures var entry, body := NextEntry(minimal, open, budget, s, at),
                               SkimBody(minimal, route, trail, budget, open, s, at);
            && (entry.Broken? ==> body == Broken(entry.at, entry.breach))
            && (entry.Got? && entry.value.Exit? ==> body == Got(Body([], entry.value.width, entry.value.rest)))
            && (entry.Got? && !entry.value.Exit? ==>
                  var first := SkimEntry(minimal, route, trail, budget, entry.value, |s|, at);
                  if first.Broken? then body == Broken(first.at, first.breach)
                  else
                    var more := SkimBody(minimal, route, trail, budget, open, first.value.rest,
                                         at + |s| - |first.value.rest|);
                    if more.Broken? then body == Broken(more.at, more.breach)
                    else body == Got(Body([first.value.item] + more.value.items, more.value.endWidth, more.value.rest)))
  {
    hide NextEntry, SkimEntry;
  }

  lemma SkimItemParses(minimal: bool, route: Route, trail: seq<Field>, budget: nat, s: seq<Byte>, at: nat)
    ensures ParseItem(minimal, route, trail, budget, s) == Told(SkimItem(minimal, route, trail, budget, s, at))
  {
    hide NextEntry, SkimEntry;
    if s == [] {
      assert ReadVarint([], TAG_CAP, TAG_LAST) == Truncated;
    } else {
      hide ParseItem;
      EntryParses(minimal, route, trail, None, budget, s, at);
      var entry := NextEntry(minimal, None, budget, s, at);
      if entry.Got? {
        SkimEntryParses(minimal, route, trail, budget, None, s, at);
      } else {
        EndTagAlone(minimal, route, trail, budget, s);
      }
    }
  }

  /** No record starts where no head or an end tag stands. */
  lemma EndTagAlone(minimal: bool, route: Route, trail: seq<Field>, budget: nat, s: seq<Byte>)
    ensures ReadHead(minimal, s).None? || ReadHead(minimal, s).value.code == END_CODE
            ==> ParseItem(minimal, route, trail, budget, s).None?
  {
    hide ReadHead;
  }

  lemma NextDelivers(minimal: bool, open: Option<Field>, room: nat, s: seq<Byte>, at: nat)
    requires s != [] && NextEntry(minimal, open, room, s, at).Got? && !NextEntry(minimal, open, room, s, at).value.Exit?
    ensures NextEntry(minimal, open, room, s, at).value.Delivered(|s|, room)
  {
    hide NextEntry, ParseItem, ItemBytes, ReadHead, ParseGroup;
    EntryParses(minimal, NO_ROUTE, [], open, room, s, at);
    if NextEntry(minimal, open, room, s, at).value.Whole? {
      ParseItemSound(minimal, NO_ROUTE, [], room, s);
    }
  }

  // ─── an opaque inside is skimmed without its route ───

  /** No word below the trail is routed. */
  ghost predicate Unrouted(route: Route, trail: seq<Field>) {
    forall word: seq<Field> :: |trail| < |word| && word[..|trail|] == trail ==> !route(word)
  }

  lemma UnroutedBelow(route: Route, trail: seq<Field>, field: Field)
    requires Unrouted(route, trail)
    ensures !route(trail + [field]) && Unrouted(route, trail + [field])
  {
    assert (trail + [field])[..|trail|] == trail;
    forall word: seq<Field> | |trail| + 1 < |word| && word[..|trail| + 1] == trail + [field] ensures !route(word) {
      assert word[..|trail|] == word[..|trail| + 1][..|trail|] == trail;
    }
  }

  lemma {:induction false} SkimUnrouted(minimal: bool, route: Route, trail: seq<Field>, other: seq<Field>,
                                        budget: nat, open: Option<Field>, s: seq<Byte>, at: nat)
    requires Unrouted(route, trail)
    ensures SkimBody(minimal, route, trail, budget, open, s, at)
            == SkimBody(minimal, NO_ROUTE, other, budget, open, s, at)
    decreases |s|, 1
  {
    hide NextEntry, SkimEntry, SkimBody, Unrouted;
    if s == [] {
      WindowEnd(minimal, route, trail, budget, open, at);
      WindowEnd(minimal, NO_ROUTE, other, budget, open, at);
    } else {
      SkimBodyStep(minimal, route, trail, budget, open, s, at);
      SkimBodyStep(minimal, NO_ROUTE, other, budget, open, s, at);
      var entry := NextEntry(minimal, open, budget, s, at);
      if entry.Got? && !entry.value.Exit? {
        EntryUnrouted(minimal, route, trail, other, budget, entry.value, |s|, at);
        var first := SkimEntry(minimal, route, trail, budget, entry.value, |s|, at);
        if first.Got? {
          SkimUnrouted(minimal, route, trail, other, budget, open, first.value.rest, at + |s| - |first.value.rest|);
        }
      }
    }
  }

  lemma {:induction false} EntryUnrouted(minimal: bool, route: Route, trail: seq<Field>, other: seq<Field>,
                                         budget: nat, entry: Entry, size: nat, at: nat)
    requires Unrouted(route, trail)
    requires !entry.Exit? && |entry.rest| < size && (entry.Enter? ==> budget > 0)
    requires entry.Whole? && entry.item.Len? ==> |entry.item.payload| + |entry.rest| < size
    ensures SkimEntry(minimal, route, trail, budget, entry, size, at)
            == SkimEntry(minimal, NO_ROUTE, other, budget, entry, size, at)
    decreases size, 0
  {
    hide SkimBody, Unrouted;
    UnroutedBelow(route, trail, entry.Number());
    if entry.Enter? {
      SkimUnrouted(minimal, route, trail + [entry.field], other + [entry.field], budget - 1, Some(entry.field),
                   entry.rest, at + size - |entry.rest|);
    }
  }

  // ─── what follows a record is the end of its window ───

  predicate Ends(rest: seq<Byte>, s: seq<Byte>) {
    |rest| <= |s| && rest == s[|s| - |rest|..]
  }

  lemma EndsThrough(a: seq<Byte>, b: seq<Byte>, c: seq<Byte>)
    requires Ends(a, b) && Ends(b, c)
    ensures Ends(a, c)
  {}

  lemma NextEnds(minimal: bool, open: Option<Field>, room: nat, s: seq<Byte>, at: nat)
    requires s != [] && NextEntry(minimal, open, room, s, at).Got?
    ensures Ends(NextEntry(minimal, open, room, s, at).value.rest, s)
  {
    hide ReadHead, ReadWord, ScanHead, ScanScalar, ScanLen;
    var head := ReadHead(minimal, s);
    if head.Some? {
      ScalarEnds(minimal, head.value, s[head.value.width..]);
    }
  }

  lemma ScalarEnds(minimal: bool, head: Head, s: seq<Byte>)
    ensures ParseScalar(minimal, head, s).Some? ==> Ends(ParseScalar(minimal, head, s).value.rest, s)
  {
    hide ReadWord, FromLittleEndian;
  }

  lemma {:induction false} SkimEnds(minimal: bool, route: Route, trail: seq<Field>, budget: nat, open: Option<Field>,
                                    s: seq<Byte>, at: nat)
    requires SkimBody(minimal, route, trail, budget, open, s, at).Got?
    ensures Ends(SkimBody(minimal, route, trail, budget, open, s, at).value.rest, s)
    decreases |s|, 1
  {
    hide NextEntry, SkimEntry, SkimBody, Ends;
    if s == [] {
      WindowEnd(minimal, route, trail, budget, open, at);
      assert Ends([], []) by { EndsSelf([]); }
    } else {
      SkimBodyStep(minimal, route, trail, budget, open, s, at);
      var entry := NextEntry(minimal, open, budget, s, at);
      NextEnds(minimal, open, budget, s, at);
      if !entry.value.Exit? {
        EntryEnds(minimal, route, trail, budget, entry.value, |s|, at);
        var first := SkimEntry(minimal, route, trail, budget, entry.value, |s|, at).value;
        EndsThrough(first.rest, entry.value.rest, s);
        SkimEnds(minimal, route, trail, budget, open, first.rest, at + |s| - |first.rest|);
        EndsThrough(SkimBody(minimal, route, trail, budget, open, first.rest, at + |s| - |first.rest|).value.rest,
                    first.rest, s);
      }
    }
  }

  lemma EndsSelf(s: seq<Byte>)
    ensures Ends(s, s)
  {}

  lemma {:induction false} EntryEnds(minimal: bool, route: Route, trail: seq<Field>, budget: nat, entry: Entry,
                                     size: nat, at: nat)
    requires !entry.Exit? && |entry.rest| < size && (entry.Enter? ==> budget > 0)
    requires entry.Whole? && entry.item.Len? ==> |entry.item.payload| + |entry.rest| < size
    requires SkimEntry(minimal, route, trail, budget, entry, size, at).Got?
    ensures Ends(SkimEntry(minimal, route, trail, budget, entry, size, at).value.rest, entry.rest)
    decreases size, 0
  {
    hide SkimBody;
    if entry.Enter? {
      SkimEnds(minimal, route, trail + [entry.field], budget - 1, Some(entry.field), entry.rest,
               at + size - |entry.rest|);
    }
  }
}
