/** What a breach says of the bytes: the place and class of the first refusal, by
    spellings alone (src/cursor/grouped.rs, src/inplace/grouped.rs). */
module Breaches {
  import opened Sequences
  import opened Varints
  import opened Wire
  import opened Scanning

  // ─── words ───

  /** A spelling of the word stands at the front, inside the window. */
  predicate Stands(s: seq<Byte>, win: Window, word: nat, width: nat) {
    InWindow(word, width, win.Cap(), win.Last()) && width <= |s| && s[..width] == Spell(word, width)
  }

  /** The standard takes that spelling: the minimal one takes no padding. */
  predicate Fair(minimal: bool, s: seq<Byte>, win: Window, word: nat, width: nat) {
    Stands(s, win, word, width) && (minimal ==> width == EncodedLen(word))
  }

  /** No word of the window, or a padded one the standard refuses. */
  ghost predicate WordBreaks(minimal: bool, s: seq<Byte>, win: Window, breach: Breach) {
    || (breach.BadVarint? && forall word: nat, width: nat :: !Stands(s, win, word, width))
    || (breach.Padded? && minimal
        && exists word: nat, width: nat :: Stands(s, win, word, width) && EncodedLen(word) < width)
  }

  lemma StandsReads(s: seq<Byte>, win: Window, word: nat, width: nat)
    ensures Stands(s, win, word, width) <==> ReadVarint(s, win.Cap(), win.Last()) == Ok(word, width)
  {
    hide Spell, ReadVarint;
    if Stands(s, win, word, width) {
      ReadSpelling(word, width, win.Cap(), win.Last(), s[width..]);
      assert s == Spell(word, width) + s[width..];
    }
    if ReadVarint(s, win.Cap(), win.Last()) == Ok(word, width) {
      ReadIsSpelling(s, win.Cap(), win.Last());
    }
  }

  /** A word is read exactly where a fair spelling stands, and refused for what
      its bytes are. */
  lemma WordTold(minimal: bool, s: seq<Byte>, win: Window, at: nat)
    ensures var r := ScanWord(minimal, s, win, at);
            && (forall word: nat, width: nat :: Fair(minimal, s, win, word, width)
                  <==> r.Got? && r.value.word == word && r.value.width == width)
            && (forall breach :: WordBreaks(minimal, s, win, breach) <==> r == Broken(at, breach))
  {
    hide Stands, ReadVarint, EncodedLen;
    var read := ReadVarint(s, win.Cap(), win.Last());
    forall word: nat, width: nat ensures Stands(s, win, word, width) <==> read == Ok(word, width) {
      StandsReads(s, win, word, width);
    }
    if read.Ok? {
      NoNarrower(s, win, read.value, read.width);
      assert Stands(s, win, read.value, read.width);
    }
  }

  lemma NoNarrower(s: seq<Byte>, win: Window, word: nat, width: nat)
    requires Stands(s, win, word, width)
    ensures EncodedLen(word) <= width
  {
    hide Spell, EncodedLen;
    WindowCeiling(win, word, width);
    InWindowIsMinimalOrWider(word, width, win.Cap(), win.Last());
  }

  // ─── heads ───

  /** A head stands at the front: number and code of a fair tag word. */
  predicate HeadStands(minimal: bool, s: seq<Byte>, field: nat, code: nat, width: nat) {
    code < 8 && Fair(minimal, s, TagWindow, 8 * field + code, width)
  }

  /** What can be wrong at or right behind a head, before anything is entered:
      no number or no such kind, a value cut short, a group past its depth, an
      end tag that closes nothing here. */
  ghost predicate HeadBreaks(minimal: bool, budget: nat, open: Option<Field>, s: seq<Byte>, off: nat, breach: Breach) {
    || (off == 0 && WordBreaks(minimal, s, TagWindow, breach))
    || exists field: nat, code: nat, width: nat :: HeadStands(minimal, s, field, code, width)
         && BehindHead(minimal, budget, open, field, code, width, s[width..], off, breach)
  }

  ghost predicate BehindHead(minimal: bool, budget: nat, open: Option<Field>, field: nat, code: nat, width: nat,
                             tail: seq<Byte>, off: nat, breach: Breach)
  {
    if field == 0 || code > I32_CODE then off == 0 && breach.BadTag?
    else if code == VARINT_CODE then off == width && WordBreaks(minimal, tail, ValueWindow, breach)
    else if code == I64_CODE then off == width && breach.Cut? && |tail| < 8
    else if code == I32_CODE then off == width && breach.Cut? && |tail| < 4
    else if code == GROUP_CODE then off == 0 && breach.TooDeep? && budget == 0
    else if code == END_CODE then off == 0 && breach.Grouping? && (open.None? || open.value != field)
    else off >= width && PrefixBreaks(minimal, tail, off - width, breach)
  }

  /** A length that is no word, or one the bytes left do not reach. */
  ghost predicate PrefixBreaks(minimal: bool, tail: seq<Byte>, off: nat, breach: Breach) {
    || (off == 0 && WordBreaks(minimal, tail, LenWindow, breach))
    || (breach.Cut? && exists len: nat :: CutShort(minimal, tail, len, off))
  }

  /** A length is read and fewer bytes than it asks for are left. */
  predicate CutShort(minimal: bool, tail: seq<Byte>, len: nat, prefix: nat) {
    Fair(minimal, tail, LenWindow, len, prefix) && |tail| - prefix < len
  }

  lemma HeadTold(minimal: bool, s: seq<Byte>, at: nat)
    ensures var r := ScanWord(minimal, s, TagWindow, at);
            forall field: nat, code: nat, width: nat :: HeadStands(minimal, s, field, code, width)
              <==> r.Got? && field == r.value.word / 8 && code == r.value.word % 8 && width == r.value.width
  {
    hide Fair, EncodedLen;
    WordTold(minimal, s, TagWindow, at);
  }

  /** The cursor refuses at a head exactly what is wrong there, where it is wrong. */
  lemma NextTold(minimal: bool, budget: nat, open: Option<Field>, s: seq<Byte>, at: nat, off: nat, breach: Breach)
    requires s != []
    ensures NextEntry(minimal, open, budget, s, at) == Broken(at + off, breach)
       <==> HeadBreaks(minimal, budget, open, s, off, breach)
  {
    hide ScanWord, WordBreaks, HeadStands, BehindHead;
    WordTold(minimal, s, TagWindow, at);
    HeadTold(minimal, s, at);
    var r := ScanWord(minimal, s, TagWindow, at);
    if r.Got? {
      var field, code, width := r.value.word / 8, r.value.word % 8, r.value.width;
      assert HeadStands(minimal, s, field, code, width);
      TailTold(minimal, budget, open, s, at, off, breach);
    }
  }

  lemma TailTold(minimal: bool, budget: nat, open: Option<Field>, s: seq<Byte>, at: nat, off: nat, breach: Breach)
    requires s != [] && ScanWord(minimal, s, TagWindow, at).Got?
    ensures var met := ScanWord(minimal, s, TagWindow, at).value;
            NextEntry(minimal, open, budget, s, at) == Broken(at + off, breach)
            <==> BehindHead(minimal, budget, open, met.word / 8, met.word % 8, met.width, s[met.width..], off, breach)
  {
    hide ScanWord, WordBreaks, PrefixBreaks, ScanScalar, ScanLen, ReadWord, ReadHead, ParseScalar, EncodedLen;
    var met := ScanWord(minimal, s, TagWindow, at).value;
    var tail, code := s[met.width..], met.word % 8;
    if met.word / 8 > 0 {
      var head := Head(met.word / 8, code, met.width);
      if code == VARINT_CODE || code == I64_CODE || code == I32_CODE {
        ScalarTold(minimal, head, tail, at, off, breach);
      } else if code == LEN_CODE {
        LenTold(minimal, head, tail, at, off, breach);
      }
    }
  }

  lemma ScalarTold(minimal: bool, head: Head, tail: seq<Byte>, at: nat, off: nat, breach: Breach)
    requires head.code == VARINT_CODE || head.code == I64_CODE || head.code == I32_CODE
    ensures ScanScalar(minimal, head, tail, at + head.width) == Broken(at + off, breach)
       <==> && off == head.width
            && if head.code == VARINT_CODE then WordBreaks(minimal, tail, ValueWindow, breach)
               else breach.Cut? && |tail| < if head.code == I64_CODE then 8 else 4
  {
    hide WordBreaks, FromLittleEndian;
    WordTold(minimal, tail, ValueWindow, at + head.width);
  }

  lemma LenTold(minimal: bool, head: Head, tail: seq<Byte>, at: nat, off: nat, breach: Breach)
    ensures ScanLen(minimal, head, tail, at + head.width) == Broken(at + off, breach)
       <==> off >= head.width && PrefixBreaks(minimal, tail, off - head.width, breach)
  {
    hide WordBreaks, ScanWord, Fair;
    var next := at + head.width;
    WordTold(minimal, tail, LenWindow, next);
    var len := ScanWord(minimal, tail, LenWindow, next);
    if len.Got? && |tail| - len.value.width < len.value.word {
      assert CutShort(minimal, tail, len.value.word, len.value.width);
    }
  }

  // ─── at every depth ───

  /** A group's start tag stands at the front. */
  predicate GroupOpens(minimal: bool, s: seq<Byte>, field: Field, width: WordWidth, rest: seq<Byte>) {
    |rest| < |s| && TagFits(minimal, field, GROUP_CODE, width) && s == Tag(field, GROUP_CODE, width) + rest
  }

  /** A LEN record stands at the front whose payload is committed to be read. */
  predicate LenOpens(minimal: bool, route: Route, trail: seq<Field>, s: seq<Byte>, item: Item, rest: seq<Byte>) {
    && item.Len? && Lawful(minimal, item) && route(trail + [item.field])
    && s == ItemBytes(item) + rest && |item.payload| < |s|
  }

  /** A whole record within its depth stands at the front. */
  predicate Precedes(minimal: bool, route: Route, trail: seq<Field>, budget: nat, s: seq<Byte>, item: Item,
                     rest: seq<Byte>) {
    && |rest| < |s| && s == ItemBytes(item) + rest
    && Lawful(minimal, item) && Conforms(route, trail, item) && Depth(item) <= budget
  }

  /** A container opens at the front, past its depth or broken inside. */
  ghost predicate InsideBreaks(minimal: bool, route: Route, trail: seq<Field>, budget: nat, s: seq<Byte>, off: nat,
                               breach: Breach)
    decreases |s|, 0
  {
    || (budget > 0 && exists field: Field, width: WordWidth, rest: seq<Byte> ::
          && GroupOpens(minimal, s, field, width, rest) && off >= width
          && Breaks(minimal, route, trail + [field], budget - 1, Some(field), rest, off - width, breach))
    || (exists item: Item, rest: seq<Byte> ::
          && LenOpens(minimal, route, trail, s, item, rest)
          && if budget == 0 then off == 0 && breach.TooDeep?
             else
               && off >= item.tagWidth + item.prefixWidth
               && Breaks(minimal, route, trail + [item.field], budget - 1, None, item.payload,
                         off - item.tagWidth - item.prefixWidth, breach))
  }

  /** The bytes break `off` bytes in: a group never closed, a head, an inside, or
      any of these behind whole records. */
  ghost predicate Breaks(minimal: bool, route: Route, trail: seq<Field>, budget: nat, open: Option<Field>,
                         s: seq<Byte>, off: nat, breach: Breach)
    decreases |s|, 1
  {
    || (s == [] && open.Some? && off == 0 && breach.Grouping?)
    || (s != [] && HeadBreaks(minimal, budget, open, s, off, breach))
    || (s != [] && InsideBreaks(minimal, route, trail, budget, s, off, breach))
    || (exists item: Item, rest: seq<Byte> ::
          && Precedes(minimal, route, trail, budget, s, item, rest) && off >= |ItemBytes(item)|
          && Breaks(minimal, route, trail, budget, open, rest, off - |ItemBytes(item)|, breach))
  }

  lemma GroupMet(minimal: bool, budget: nat, open: Option<Field>, s: seq<Byte>, at: nat, field: Field,
                 width: WordWidth, rest: seq<Byte>)
    requires s != [] && GroupOpens(minimal, s, field, width, rest) && budget > 0
    ensures NextEntry(minimal, open, budget, s, at) == Got(Enter(field, width, rest))
  {
    hide Spell, EncodedLen, ReadHead, ReadWord;
    ReadHeadSpelled(minimal, field, GROUP_CODE, width, rest);
    assert s[width..] == rest;
  }

  lemma LenMet(minimal: bool, route: Route, trail: seq<Field>, budget: nat, open: Option<Field>, s: seq<Byte>, at: nat,
               item: Item, rest: seq<Byte>)
    requires s != [] && LenOpens(minimal, route, trail, s, item, rest)
    ensures NextEntry(minimal, open, budget, s, at) == Got(Whole(item, rest))
  {
    hide NextEntry, ParseItem, ReadHead, ParseGroup, Lawful, ItemBytes;
    ParseItemSpelled(minimal, NO_ROUTE, [], budget, item, rest);
    EntryParses(minimal, NO_ROUTE, [], open, budget, s, at);
    EndTagAlone(minimal, NO_ROUTE, [], budget, s);
    NoGroupHere(minimal, budget, open, s, at, item, rest);
  }

  lemma NoGroupHere(minimal: bool, budget: nat, open: Option<Field>, s: seq<Byte>, at: nat, item: Item, rest: seq<Byte>)
    requires s != [] && item.Len? && Lawful(minimal, item) && s == ItemBytes(item) + rest
    ensures ReadHead(minimal, s).Some? && ReadHead(minimal, s).value.code == LEN_CODE
  {
    hide Spell, EncodedLen, ReadHead;
    Associative(Tag(item.field, LEN_CODE, item.tagWidth), PayloadBytes(item), rest);
    ReadHeadSpelled(minimal, item.field, LEN_CODE, item.tagWidth, PayloadBytes(item) + rest);
  }

  lemma RecordMet(minimal: bool, route: Route, trail: seq<Field>, budget: nat, open: Option<Field>, s: seq<Byte>,
                  at: nat, item: Item, rest: seq<Byte>)
    requires s != [] && Precedes(minimal, route, trail, budget, s, item, rest)
    ensures var entry := NextEntry(minimal, open, budget, s, at);
            && entry.Got? && !entry.value.Exit?
            && SkimEntry(minimal, route, trail, budget, entry.value, |s|, at) == Got(Parsed(item, rest))
  {
    hide NextEntry, SkimEntry, ParseItem, ReadHead, ParseGroup, Lawful, ItemBytes, Conforms, Depth;
    ParseItemSpelled(minimal, route, trail, budget, item, rest);
    EntryParses(minimal, route, trail, open, budget, s, at);
    EndTagAlone(minimal, route, trail, budget, s);
    if NextEntry(minimal, open, budget, s, at).Got? {
      SkimEntryParses(minimal, route, trail, budget, open, s, at);
    }
  }

  /** What a delivered head is. */
  lemma EntryOpens(minimal: bool, budget: nat, open: Option<Field>, s: seq<Byte>, at: nat)
    requires s != [] && NextEntry(minimal, open, budget, s, at).Got?
    requires !NextEntry(minimal, open, budget, s, at).value.Exit?
    ensures var entry := NextEntry(minimal, open, budget, s, at).value;
            && (entry.Enter? ==> budget > 0 && GroupOpens(minimal, s, entry.field, entry.width, entry.rest))
            && (entry.Whole? ==>
                  && Lawful(minimal, entry.item) && s == ItemBytes(entry.item) + entry.rest
                  && (entry.item.Len? ==>
                        && |entry.item.payload| < |s|
                        && |ItemBytes(entry.item)|
                          == entry.item.tagWidth + entry.item.prefixWidth + |entry.item.payload|))
  {
    hide NextEntry, ParseItem, ReadHead, ParseGroup, Spell, EncodedLen, Lawful;
    EntryParses(minimal, NO_ROUTE, [], open, budget, s, at);
    NextEnds(minimal, open, budget, s, at);
    var entry := NextEntry(minimal, open, budget, s, at).value;
    if entry.Enter? {
      ReadHeadSound(minimal, s);
    } else {
      ParseItemSound(minimal, NO_ROUTE, [], budget, s);
    }
  }

  /** Where the inside of the first record breaks, the reader is refused, and the
      other way round. */
  lemma {:induction false} InsideTold(minimal: bool, route: Route, trail: seq<Field>, budget: nat, open: Option<Field>,
                                      s: seq<Byte>, at: nat, off: nat, breach: Breach)
    requires s != []
    ensures var entry := NextEntry(minimal, open, budget, s, at);
            InsideBreaks(minimal, route, trail, budget, s, off, breach)
            <==> && entry.Got? && !entry.value.Exit?
                 && SkimEntry(minimal, route, trail, budget, entry.value, |s|, at) == Broken(at + off, breach)
    decreases |s|, 0
  {
    var entry := NextEntry(minimal, open, budget, s, at);
    if InsideBreaks(minimal, route, trail, budget, s, off, breach) {
      InsideRefused(minimal, route, trail, budget, open, s, at, off, breach);
    }
    if entry.Got? && !entry.value.Exit?
       && SkimEntry(minimal, route, trail, budget, entry.value, |s|, at) == Broken(at + off, breach) {
      RefusedInside(minimal, route, trail, budget, open, s, at, off, breach);
    }
  }

  lemma {:induction false} InsideRefused(minimal: bool, route: Route, trail: seq<Field>, budget: nat,
                                         open: Option<Field>, s: seq<Byte>, at: nat, off: nat, breach: Breach)
    requires s != [] && InsideBreaks(minimal, route, trail, budget, s, off, breach)
    ensures var entry := NextEntry(minimal, open, budget, s, at);
            && entry.Got? && !entry.value.Exit?
            && SkimEntry(minimal, route, trail, budget, entry.value, |s|, at) == Broken(at + off, breach)
    decreases |s|, 0, 1
  {
    hide NextEntry, SkimEntry, Breaks, GroupOpens, Lawful, ItemBytes;
    if field: Field, width: WordWidth, rest: seq<Byte> :|
      && budget > 0 && GroupOpens(minimal, s, field, width, rest) && off >= width
      && Breaks(minimal, route, trail + [field], budget - 1, Some(field), rest, off - width, breach) {
      GroupRefused(minimal, route, trail, budget, open, s, at, field, width, rest, off, breach);
    } else {
      var item, rest :| LenOpens(minimal, route, trail, s, item, rest)
        && if budget == 0 then off == 0 && breach.TooDeep?
           else
             && off >= item.tagWidth + item.prefixWidth
             && Breaks(minimal, route, trail + [item.field], budget - 1, None, item.payload,
                       off - item.tagWidth - item.prefixWidth, breach);
      LenRefused(minimal, route, trail, budget, open, s, at, item, rest, off, breach);
    }
  }

  lemma {:induction false} GroupRefused(minimal: bool, route: Route, trail: seq<Field>, budget: nat,
                                        open: Option<Field>, s: seq<Byte>, at: nat, field: Field, width: WordWidth,
                                        rest: seq<Byte>, off: nat, breach: Breach)
    requires s != [] && budget > 0 && GroupOpens(minimal, s, field, width, rest) && off >= width
    requires Breaks(minimal, route, trail + [field], budget - 1, Some(field), rest, off - width, breach)
    ensures var entry := NextEntry(minimal, open, budget, s, at);
            && entry == Got(Enter(field, width, rest))
            && SkimEntry(minimal, route, trail, budget, entry.value, |s|, at) == Broken(at + off, breach)
    decreases |s|, 0, 0
  {
    hide NextEntry, SkimBody, Breaks, Tag;
    GroupMet(minimal, budget, open, s, at, field, width, rest);
    BreachIs(minimal, route, trail + [field], budget - 1, Some(field), rest, at + width, off - width, breach);
  }

  lemma {:induction false} LenRefused(minimal: bool, route: Route, trail: seq<Field>, budget: nat,
                                      open: Option<Field>, s: seq<Byte>, at: nat, item: Item, rest: seq<Byte>,
                                      off: nat, breach: Breach)
    requires s != [] && LenOpens(minimal, route, trail, s, item, rest)
    requires if budget == 0 then off == 0 && breach.TooDeep?
             else
               && off >= item.tagWidth + item.prefixWidth
               && Breaks(minimal, route, trail + [item.field], budget - 1, None, item.payload,
                         off - item.tagWidth - item.prefixWidth, breach)
    ensures var entry := NextEntry(minimal, open, budget, s, at);
            && entry == Got(Whole(item, rest))
            && SkimEntry(minimal, route, trail, budget, entry.value, |s|, at) == Broken(at + off, breach)
    decreases |s|, 0, 0
  {
    hide NextEntry, SkimBody, Breaks, ItemBytes, Lawful;
    LenMet(minimal, route, trail, budget, open, s, at, item, rest);
    if budget > 0 {
      var head := item.tagWidth + item.prefixWidth;
      EntryOpens(minimal, budget, open, s, at);
      BreachIs(minimal, route, trail + [item.field], budget - 1, None, item.payload, at + head, off - head, breach);
    }
  }

  lemma {:induction false} RefusedInside(minimal: bool, route: Route, trail: seq<Field>, budget: nat,
                                         open: Option<Field>, s: seq<Byte>, at: nat, off: nat, breach: Breach)
    requires s != [] && NextEntry(minimal, open, budget, s, at).Got?
    requires !NextEntry(minimal, open, budget, s, at).value.Exit?
    requires SkimEntry(minimal, route, trail, budget, NextEntry(minimal, open, budget, s, at).value, |s|, at)
          == Broken(at + off, breach)
    ensures InsideBreaks(minimal, route, trail, budget, s, off, breach)
    decreases |s|, 0, 0
  {
    hide NextEntry, SkimBody, Breaks, Tag, ItemBytes, Lawful;
    EntryOpens(minimal, budget, open, s, at);
    match NextEntry(minimal, open, budget, s, at).value
    case Enter(field, width, rest) =>
      var inner := SkimBody(minimal, route, trail + [field], budget - 1, Some(field), rest, at + width);
      assert inner == Broken(at + off, breach);
      BreachIs(minimal, route, trail + [field], budget - 1, Some(field), rest, at + width, off - width, breach);
    case Whole(item, rest) =>
      assert LenOpens(minimal, route, trail, s, item, rest);
      if budget > 0 {
        var head := item.tagWidth + item.prefixWidth;
        var inner := SkimBody(minimal, route, trail + [item.field], budget - 1, None, item.payload, at + head);
        assert inner == Broken(at + off, breach);
        BreachIs(minimal, route, trail + [item.field], budget - 1, None, item.payload, at + head, off - head, breach);
      }
  }

  /** The first refusal, place and class, is exactly the one the bytes call for. */
  lemma {:induction false} BreachIs(minimal: bool, route: Route, trail: seq<Field>, budget: nat, open: Option<Field>,
                                    s: seq<Byte>, at: nat, off: nat, breach: Breach)
    ensures SkimBody(minimal, route, trail, budget, open, s, at) == Broken(at + off, breach)
       <==> Breaks(minimal, route, trail, budget, open, s, off, breach)
    decreases |s|, 1
  {
    hide NextEntry, SkimEntry, SkimBody, HeadBreaks, InsideBreaks, ItemBytes, Lawful, Conforms, Depth;
    if s == [] {
      WindowEnd(minimal, route, trail, budget, open, at);
    } else {
      NextTold(minimal, budget, open, s, at, off, breach);
      InsideTold(minimal, route, trail, budget, open, s, at, off, breach);
      SkimBodyStep(minimal, route, trail, budget, open, s, at);
      BehindRecord(minimal, route, trail, budget, open, s, at, off, breach);
    }
  }

  /** Behind a whole record the bytes break where what follows does. */
  lemma {:induction false} BehindRecord(minimal: bool, route: Route, trail: seq<Field>, budget: nat,
                                        open: Option<Field>, s: seq<Byte>, at: nat, off: nat, breach: Breach)
    requires s != []
    ensures var entry := NextEntry(minimal, open, budget, s, at);
            (exists item: Item, rest: seq<Byte> ::
               && Precedes(minimal, route, trail, budget, s, item, rest) && off >= |ItemBytes(item)|
               && Breaks(minimal, route, trail, budget, open, rest, off - |ItemBytes(item)|, breach))
            <==> && entry.Got? && !entry.value.Exit?
                 && SkimEntry(minimal, route, trail, budget, entry.value, |s|, at).Got?
                 && var rest := SkimEntry(minimal, route, trail, budget, entry.value, |s|, at).value.rest;
                    SkimBody(minimal, route, trail, budget, open, rest, at + |s| - |rest|) == Broken(at + off, breach)
    decreases |s|, 0, 1
  {
    hide NextEntry, SkimEntry, SkimBody, Breaks, Precedes, ItemBytes;
    var entry := NextEntry(minimal, open, budget, s, at);
    if item: Item, rest: seq<Byte> :|
      && Precedes(minimal, route, trail, budget, s, item, rest) && off >= |ItemBytes(item)|
      && Breaks(minimal, route, trail, budget, open, rest, off - |ItemBytes(item)|, breach) {
      RestTold(minimal, route, trail, budget, open, s, at, item, rest, off, breach);
    }
    if entry.Got? && !entry.value.Exit? && SkimEntry(minimal, route, trail, budget, entry.value, |s|, at).Got? {
      FirstPrecedes(minimal, route, trail, budget, open, s, at);
      var Parsed(item, rest) := SkimEntry(minimal, route, trail, budget, entry.value, |s|, at).value;
      if off >= |ItemBytes(item)| {
        RestTold(minimal, route, trail, budget, open, s, at, item, rest, off, breach);
      }
    }
  }

  lemma FirstPrecedes(minimal: bool, route: Route, trail: seq<Field>, budget: nat, open: Option<Field>, s: seq<Byte>,
                      at: nat)
    requires s != [] && NextEntry(minimal, open, budget, s, at).Got?
    requires !NextEntry(minimal, open, budget, s, at).value.Exit?
    requires SkimEntry(minimal, route, trail, budget, NextEntry(minimal, open, budget, s, at).value, |s|, at).Got?
    ensures var first := SkimEntry(minimal, route, trail, budget, NextEntry(minimal, open, budget, s, at).value, |s|,
                                   at).value;
            && Precedes(minimal, route, trail, budget, s, first.item, first.rest)
            && |ItemBytes(first.item)| + |first.rest| == |s|
  {
    hide NextEntry, SkimEntry, ParseItem, ItemBytes, Lawful, Conforms, Depth;
    SkimEntryParses(minimal, route, trail, budget, open, s, at);
    ParseItemSound(minimal, route, trail, budget, s);
  }

  /** The record read first, and what breaks behind it. */
  lemma {:induction false} RestTold(minimal: bool, route: Route, trail: seq<Field>, budget: nat, open: Option<Field>,
                                    s: seq<Byte>, at: nat, item: Item, rest: seq<Byte>, off: nat, breach: Breach)
    requires s != [] && Precedes(minimal, route, trail, budget, s, item, rest) && off >= |ItemBytes(item)|
    ensures var entry := NextEntry(minimal, open, budget, s, at);
            && entry.Got? && !entry.value.Exit?
            && SkimEntry(minimal, route, trail, budget, entry.value, |s|, at) == Got(Parsed(item, rest))
    ensures Breaks(minimal, route, trail, budget, open, rest, off - |ItemBytes(item)|, breach)
       <==> SkimBody(minimal, route, trail, budget, open, rest, at + |s| - |rest|) == Broken(at + off, breach)
    decreases |s|, 0, 0
  {
    hide NextEntry, SkimEntry, SkimBody, Breaks, ItemBytes, Lawful, Conforms, Depth;
    RecordMet(minimal, route, trail, budget, open, s, at, item, rest);
    BreachIs(minimal, route, trail, budget, open, rest, at + |ItemBytes(item)|, off - |ItemBytes(item)|, breach);
  }

  /** A document is unreadable exactly where it breaks, and it breaks in one way. */
  lemma UnreadableIffBreaks(minimal: bool, route: Route, budget: nat, bytes: seq<Byte>)
    ensures Parse(minimal, route, budget, bytes).None?
       <==> exists off: nat, breach :: Breaks(minimal, route, [], budget, None, bytes, off, breach)
    ensures forall m: nat, n: nat, a, b ::
              Breaks(minimal, route, [], budget, None, bytes, m, a)
              && Breaks(minimal, route, [], budget, None, bytes, n, b) ==>
                m == n && a == b
  {
    hide SkimBody, ParseBody, Breaks;
    SkimParses(minimal, route, [], budget, None, bytes, 0);
    var skim := SkimBody(minimal, route, [], budget, None, bytes, 0);
    forall off: nat, breach
      ensures Breaks(minimal, route, [], budget, None, bytes, off, breach) <==> skim == Broken(off, breach)
    {
      BreachIs(minimal, route, [], budget, None, bytes, 0, off, breach);
    }
    if skim.Broken? {
      assert Breaks(minimal, route, [], budget, None, bytes, skim.at, skim.breach);
    }
  }

  /** One record in a window of its own breaks at its head or inside. */
  ghost predicate RecordBreaks(minimal: bool, route: Route, trail: seq<Field>, budget: nat, s: seq<Byte>, off: nat,
                               breach: Breach)
  {
    if s == [] then off == 0 && breach.BadVarint?
    else
      HeadBreaks(minimal, budget, None, s, off, breach) || InsideBreaks(minimal, route, trail, budget, s, off, breach)
  }

  lemma RecordBreachIs(minimal: bool, route: Route, trail: seq<Field>, budget: nat, s: seq<Byte>, off: nat,
                       breach: Breach)
    ensures SkimItem(minimal, route, trail, budget, s, 0) == Broken(off, breach)
       <==> RecordBreaks(minimal, route, trail, budget, s, off, breach)
  {
    hide NextEntry, SkimEntry, HeadBreaks, InsideBreaks;
    if s != [] {
      NextTold(minimal, budget, None, s, 0, off, breach);
      InsideTold(minimal, route, trail, budget, None, s, 0, off, breach);
      NoExitOutside(minimal, budget, s);
    }
  }

  lemma NoExitOutside(minimal: bool, budget: nat, s: seq<Byte>)
    requires s != []
    ensures NextEntry(minimal, None, budget, s, 0).Got? ==> !NextEntry(minimal, None, budget, s, 0).value.Exit?
  {
    hide NextEntry;
  }
}
