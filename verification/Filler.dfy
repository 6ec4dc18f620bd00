/** The tombstone filler: lawful records of one field tiling an exact extent
    (src/inplace.rs). */
module Filler {
  import opened Sequences
  import opened Varints
  import opened Wire

  /** Interiors `prefix + payload` with no minimal-prefix solution. */
  function GapSplit(n: nat): bool {
    n == 129 || n == 16_386 || n == 2_097_155 || n == 268_435_460
  }

  function SplitPrefix(n: nat): WordWidth {
    if n <= 128 then 1
    else if n <= 16_385 then 2
    else if n <= 2_097_154 then 3
    else if n <= 268_435_459 then 4
    else 5
  }

  /** `p` bytes of minimal prefix before `n - p` bytes of payload. */
  predicate SolvesPrefix(n: Word32, p: nat) {
    1 <= p <= 5 && p <= n && EncodedLen(n - p) == p
  }

  /** The fixed-point equation is unsolvable exactly on the gap set; elsewhere
      the class read-off is its one solution. */
  lemma PrefixEquation(n: Word32, p: nat)
    requires n >= 2
    ensures SolvesPrefix(n, p) <==> !GapSplit(n) && p == SplitPrefix(n)
  {
    if 1 <= p <= 5 && p <= n {
      EncodedLenSteps(n - p);
    }
  }

  /** The gap set is `2^(7k) + k`. */
  lemma GapSetFormula(n: nat)
    ensures GapSplit(n) <==> exists k :: 1 <= k <= 4 && n == Pow128(k) + k
  {
    Powers();
    if n == 129 { assert n == Pow128(1) + 1; }
    if n == 16_386 { assert n == Pow128(2) + 2; }
    if n == 2_097_155 { assert n == Pow128(3) + 3; }
    if n == 268_435_460 { assert n == Pow128(4) + 4; }
  }

  /** Peeling one minimal varint filler of any tag width leaves the gap set. */
  lemma PeelLeavesGap(n: nat, t: WordWidth)
    requires GapSplit(n)
    ensures n - (t + 1) >= 2 && !GapSplit(n - (t + 1))
  {}

  function TagWidthOf(field: Field): (t: WordWidth)
  {
    TagWidthIgnoresCode(field, LEN_CODE, LEN_CODE);
    EncodedLen(TagWord(field, LEN_CODE))
  }

  /** A minimal tag and a one-byte empty prefix: the least filling there is. */
  function FillerNeed(field: Field): nat {
    EncodedLen(TagWord(field, LEN_CODE)) + 1
  }

  function Zeros(n: nat): (s: seq<Byte>)
    ensures |s| == n && forall i :: 0 <= i < n ==> s[i] == 0
  {
    seq(n, _ => 0)
  }

  // ─── what a lawful filling is ───

  /** One zeroed record of the field: a zero varint, or a zero LEN payload. */
  predicate ZeroRecord(field: Field, item: Item) {
    && item.field == field
    && ((item.Varint? && item.value == 0)
        || (item.Len? && forall i :: 0 <= i < |item.payload| ==> item.payload[i] == 0))
  }

  /** One or two lawful zeroed records of the field, exactly filling `width`. */
  predicate Fills(minimal: bool, width: nat, field: Field, items: seq<Item>) {
    && 1 <= |items| <= 2
    && (forall i :: 0 <= i < |items| ==> ZeroRecord(field, items[i]))
    && LawfulBody(minimal, items)
    && |BodyBytes(items)| == width
  }

  /** The filling the machine writes. */
  function Filling(minimal: bool, width: nat, field: Field): seq<Item>
    requires FillerNeed(field) <= width <= MAX_LEN
  {
    var t := TagWidthOf(field);
    if minimal && GapSplit(width - t) then
      PeelLeavesGap(width - t, t);
      [Varint(field, t, 0, 1), OneFiller(minimal, width - (t + 1), field)]
    else [OneFiller(minimal, width, field)]
  }

  function OneFiller(minimal: bool, width: nat, field: Field): Item
    requires FillerNeed(field) <= width
  {
    var t := TagWidthOf(field);
    var n := width - t;
    if if minimal then n == 1 else n <= 10 then Varint(field, t, 0, n)
    else
      var p := if minimal then SplitPrefix(n) else 5;
      Len(field, t, p, Zeros(n - p))
  }

  lemma VarintFillerLawful(minimal: bool, field: Field, n: ValueWidth)
    requires minimal ==> n == 1
    ensures var item := Varint(field, TagWidthOf(field), 0, n);
            ZeroRecord(field, item) && Lawful(minimal, item) && |ItemBytes(item)| == TagWidthOf(field) + n
  {
    hide Spell, EncodedLen;
    TagWidthIgnoresCode(field, LEN_CODE, VARINT_CODE);
    EncodedLenSteps(0);
  }

  lemma LenFillerLawful(minimal: bool, field: Field, p: WordWidth, payload: nat)
    requires payload <= MAX_LEN && WidthFits(minimal, EncodedLen(payload), p)
    ensures var item := Len(field, TagWidthOf(field), p, Zeros(payload));
            ZeroRecord(field, item) && Lawful(minimal, item) && |ItemBytes(item)| == TagWidthOf(field) + p + payload
  {
    hide Spell, EncodedLen;
    TagWidthIgnoresCode(field, LEN_CODE, VARINT_CODE);
  }

  lemma OneFillerLawful(minimal: bool, width: nat, field: Field)
    requires FillerNeed(field) <= width <= MAX_LEN
    requires minimal ==> !GapSplit(width - TagWidthOf(field))
    ensures var item := OneFiller(minimal, width, field);
            ZeroRecord(field, item) && Lawful(minimal, item) && |ItemBytes(item)| == width
  {
    hide Spell, EncodedLen, Lawful, ItemBytes;
    var n := width - TagWidthOf(field);
    if if minimal then n == 1 else n <= 10 {
      VarintFillerLawful(minimal, field, n);
    } else {
      PrefixSolved(minimal, n);
      var p: WordWidth := if minimal then SplitPrefix(n) else 5;
      LenFillerLawful(minimal, field, p, n - p);
    }
  }

  lemma PrefixSolved(minimal: bool, n: nat)
    requires n <= MAX_LEN && (if minimal then n >= 2 && !GapSplit(n) else n > 10)
    ensures var p := if minimal then SplitPrefix(n) else 5;
            p <= n && WidthFits(minimal, EncodedLen(n - p), p)
  {
    if minimal {
      PrefixEquation(n, SplitPrefix(n));
    } else {
      EncodedLenSteps(n - 5);
    }
  }

  /** Every extent from the need up is filled lawfully under both standards:
      the solvability theorem. */
  lemma FillingFills(minimal: bool, width: nat, field: Field)
    requires FillerNeed(field) <= width <= MAX_LEN
    ensures Fills(minimal, width, field, Filling(minimal, width, field))
  {
    hide ItemBytes, Spell, Lawful, OneFiller, EncodedLen;
    var t: nat := TagWidthOf(field);
    var items := Filling(minimal, width, field);
    if minimal && GapSplit(width - t) {
      PeelLeavesGap(width - t, t);
      OneFillerLawful(minimal, t + 1, field);
      PeeledFiller(minimal, field);
      OneFillerLawful(minimal, width - (t + 1), field);
      assert items[1..] == [OneFiller(minimal, width - (t + 1), field)];
    } else {
      OneFillerLawful(minimal, width, field);
    }
    LoneBody(minimal, items[|items| - 1]);
  }

  lemma PeeledFiller(minimal: bool, field: Field)
    ensures TagWidthOf(field) + 1 == FillerNeed(field)
    ensures OneFiller(minimal, TagWidthOf(field) + 1, field) == Varint(field, TagWidthOf(field), 0, 1)
  {}

  lemma LoneBody(minimal: bool, item: Item)
    ensures BodyBytes([item]) == ItemBytes(item) && (LawfulBody(minimal, [item]) <==> Lawful(minimal, item))
  {
    assert [item][1..] == [];
    assert ItemBytes(item) + [] == ItemBytes(item);
  }

  /** Below the need nothing fills: the refusal is exact. */
  lemma NothingFillsLess(minimal: bool, width: nat, field: Field, items: seq<Item>)
    requires width < FillerNeed(field)
    ensures !Fills(minimal, width, field, items)
  {
    hide Spell, EncodedLen, ItemBytes;
    if items != [] && ZeroRecord(field, items[0]) && LawfulBody(minimal, items) {
      RecordHoldsTag(minimal, items[0]);
      TagWidthIgnoresCode(field, LEN_CODE, items[0].Code());
      assert |BodyBytes(items)| == |ItemBytes(items[0])| + |BodyBytes(items[1..])|;
    }
  }

  /** Which filling is written: tags at their least width; one record wherever one
      fills, else the least filler in front; a varint wherever one of that width is
      lawful, else a LEN record, its prefix five bytes where padding is taken. */
  lemma FillingChosen(minimal: bool, width: nat, field: Field)
    requires FillerNeed(field) <= width <= MAX_LEN
    ensures var items, t := Filling(minimal, width, field), EncodedLen(TagWord(field, LEN_CODE));
            var last := items[|items| - 1];
            && (forall i :: 0 <= i < |items| ==> items[i].tagWidth == t)
            && (|items| == 1 <==> exists one :: Fills(minimal, width, field, [one]))
            && (|items| == 2 ==> items[0] == Varint(field, t, 0, 1))
            && (last.Varint? <==> WidthFits(minimal, 1, |ItemBytes(last)| - t) && |ItemBytes(last)| - t <= 10)
            && (last.Len? && !minimal ==> last.prefixWidth == 5)
  {
    hide Spell, EncodedLen, ItemBytes, Lawful, BodyBytes;
    var t: nat := TagWidthOf(field);
    var items := Filling(minimal, width, field);
    if minimal && GapSplit(width - t) {
      PeelLeavesGap(width - t, t);
      OneFillerLawful(minimal, width - (t + 1), field);
      forall one ensures !Fills(minimal, width, field, [one]) {
        GapTakesTwo(width, field, one);
      }
    } else {
      OneFillerLawful(minimal, width, field);
      FillingFills(minimal, width, field);
    }
  }

  /** On the gap set no single record fills. */
  lemma GapTakesTwo(width: nat, field: Field, one: Item)
    requires width <= MAX_LEN && width >= TagWidthOf(field) && GapSplit(width - TagWidthOf(field))
    ensures !Fills(true, width, field, [one])
  {
    hide Spell, EncodedLen;
    if Fills(true, width, field, [one]) {
      LoneBody(true, one);
      assert ZeroRecord(field, [one][0]);
      TagWidthIgnoresCode(field, LEN_CODE, one.Code());
      EncodedLenSteps(0);
      if one.Len? {
        PrefixEquation(width - TagWidthOf(field), one.prefixWidth);
      }
    }
  }

  lemma RecordHoldsTag(minimal: bool, item: Item)
    requires Lawful(minimal, item)
    ensures |ItemBytes(item)| >= EncodedLen(TagWord(item.field, item.Code())) + |PayloadBytes(item)|
    ensures item.Varint? || item.Len? ==> |PayloadBytes(item)| >= 1
  {
    hide Spell, EncodedLen;
  }

  // ─── the writer ───

  /** Overwrites the extent with its filling; no byte outside it moves. */
  method Fill(minimal: bool, buf: array<Byte>, start: nat, extent: nat, field: Field)
    requires FillerNeed(field) <= extent <= MAX_LEN && start + extent <= buf.Length
    modifies buf
    ensures buf[..] == old(buf[..start]) + BodyBytes(Filling(minimal, extent, field)) + old(buf[start + extent..])
  {
    hide Spell, ItemBytes, EncodedLen, BodyBytes, Filling, OneFiller;
    TagWidthIgnoresCode(field, VARINT_CODE, LEN_CODE);
    var at, width := start, extent;
    var t := EncodedLen(TagWord(field, LEN_CODE));
    FillingSpelled(minimal, extent, field);
    if minimal && GapSplit(width - t) {
      PeelLeavesGap(width - t, t);
      Peel(buf, at, field, t);
      at := at + t + 1;
      width := width - (t + 1);
      ghost var before, peeled, after := buf[..start], buf[start..at], buf[at + width..];
      assert before == old(buf[..start]) && after == old(buf[start + extent..]);
      assert peeled == ItemBytes(Varint(field, t, 0, 1));
      FillRest(minimal, buf, start, at, width, field);
    } else {
      FillOne(minimal, buf, at, width, field);
    }
  }

  method Peel(buf: array<Byte>, at: nat, field: Field, t: WordWidth)
    requires at + t + 1 <= buf.Length
    modifies buf
    ensures buf[..at] == old(buf[..at]) && buf[at + t + 1..] == old(buf[at + t + 1..])
    ensures buf[at..at + t + 1] == ItemBytes(Varint(field, t, 0, 1))
  {
    hide Spell, ItemBytes, EncodedLen;
    ghost var before, after := old(buf[..at]), old(buf[at + t + 1..]);
    VarintSpelled(Varint(field, t, 0, 1));
    FillVarint(buf, at, field, t, 1);
    assert buf[..][..at] == before && buf[..][at..at + t + 1] == ItemBytes(Varint(field, t, 0, 1));
    assert buf[..][at + t + 1..] == after;
  }

  method FillRest(minimal: bool, buf: array<Byte>, start: nat, at: nat, width: nat, field: Field)
    requires FillerNeed(field) <= width <= MAX_LEN && start <= at && at + width <= buf.Length
    requires minimal ==> !GapSplit(width - TagWidthOf(field))
    modifies buf
    ensures buf[..] == old(buf[..start]) + (old(buf[start..at]) + ItemBytes(OneFiller(minimal, width, field)))
            + old(buf[at + width..])
  {
    hide Spell, ItemBytes, EncodedLen, OneFiller;
    FillOne(minimal, buf, at, width, field);
    assert old(buf[..at]) == old(buf[..start]) + old(buf[start..at]);
    Associative(old(buf[..start]), old(buf[start..at]), ItemBytes(OneFiller(minimal, width, field)));
  }

  lemma FillingSpelled(minimal: bool, extent: nat, field: Field)
    requires FillerNeed(field) <= extent <= MAX_LEN
    ensures var t := TagWidthOf(field);
            if minimal && GapSplit(extent - t)
            then FillerNeed(field) <= extent - (t + 1)
                 && |ItemBytes(Varint(field, t, 0, 1))| == t + 1
                 && BodyBytes(Filling(minimal, extent, field))
                    == ItemBytes(Varint(field, t, 0, 1)) + ItemBytes(OneFiller(minimal, extent - (t + 1), field))
            else BodyBytes(Filling(minimal, extent, field)) == ItemBytes(OneFiller(minimal, extent, field))
  {
    hide Spell, OneFiller, EncodedLen, ItemBytes;
    var t := TagWidthOf(field);
    var items := Filling(minimal, extent, field);
    LoneBody(minimal, items[|items| - 1]);
    if minimal && GapSplit(extent - t) {
      PeelLeavesGap(extent - t, t);
      assert items[1..] == [items[1]];
      VarintSpelled(Varint(field, t, 0, 1));
    }
  }

  /** The single filler record: tag, then a padded zero or prefix and zeros. */
  method FillOne(minimal: bool, buf: array<Byte>, at: nat, width: nat, field: Field)
    requires FillerNeed(field) <= width <= MAX_LEN && at + width <= buf.Length
    requires minimal ==> !GapSplit(width - TagWidthOf(field))
    modifies buf
    ensures buf[..] == old(buf[..at]) + ItemBytes(OneFiller(minimal, width, field)) + old(buf[at + width..])
  {
    hide Spell, EncodedLen, ItemBytes, FromLittleEndian;
    TagWidthIgnoresCode(field, VARINT_CODE, LEN_CODE);
    var t := EncodedLen(TagWord(field, LEN_CODE));
    var n := width - t;
    if if minimal then n == 1 else n <= 10 {
      FillVarint(buf, at, field, t, n);
      return;
    }
    PrefixSolved(minimal, n);
    FillLen(buf, at, field, t, if minimal then SplitPrefix(n) else 5, n);
  }

  /** Two varints side by side. */
  method WritePair(buf: array<Byte>, at: nat, a: Word64, wa: nat, b: Word64, wb: nat)
    requires wa >= 1 && wb >= 1 && at + wa + wb <= buf.Length
    modifies buf
    ensures buf[..] == old(buf[..at]) + (Spell(a, wa) + Spell(b, wb)) + old(buf[at + wa + wb..])
  {
    hide Spell;
    ghost var before, after := buf[..at], buf[at + wa + wb..];
    WriteAt(buf, at, a, wa);
    assert buf[..at + wa] == before + Spell(a, wa);
    assert buf[at + wa + wb..] == after;
    WriteAt(buf, at + wa, b, wb);
    Associative(before, Spell(a, wa), Spell(b, wb));
  }

  method FillVarint(buf: array<Byte>, at: nat, field: Field, t: WordWidth, n: ValueWidth)
    requires at + t + n <= buf.Length
    modifies buf
    ensures buf[..] == old(buf[..at]) + ItemBytes(Varint(field, t, 0, n)) + old(buf[at + t + n..])
  {
    hide Spell, EncodedLen, ItemBytes;
    VarintSpelled(Varint(field, t, 0, n));
    WritePair(buf, at, TagWord(field, VARINT_CODE), t, 0, n);
  }

  method FillLen(buf: array<Byte>, at: nat, field: Field, t: WordWidth, p: WordWidth, n: nat)
    requires p <= n <= MAX_LEN && at + t + n <= buf.Length
    modifies buf
    ensures buf[..] == old(buf[..at]) + ItemBytes(Len(field, t, p, Zeros(n - p))) + old(buf[at + t + n..])
  {
    hide Spell, EncodedLen, ItemBytes, Zeros;
    var payload := n - p;
    ghost var before, after := buf[..at], buf[at + t + n..];
    ghost var head := Spell(TagWord(field, LEN_CODE), t) + Spell(payload, p);
    WritePair(buf, at, TagWord(field, LEN_CODE), t, payload, p);
    HeadWritten(buf[..], before, head, at + t + p, n - p);
    assert buf[at + t + n..] == after;
    ZeroOut(buf, at + t + p, payload);
    LenSpelled(Len(field, t, p, Zeros(payload)));
    Associative(before, head, Zeros(payload));
  }

  lemma HeadWritten(buf: seq<Byte>, before: seq<Byte>, head: seq<Byte>, end: nat, payload: nat)
    requires end == |before| + |head| && end + payload <= |buf| && before + head <= buf
    ensures buf[..end] == before + head
  {}

  lemma VarintSpelled(item: Item)
    requires item.Varint?
    ensures ItemBytes(item) == Spell(TagWord(item.field, VARINT_CODE), item.tagWidth) + Spell(item.value, item.width)
  {
    hide Spell, EncodedLen;
  }

  lemma LenSpelled(item: Item)
    requires item.Len?
    ensures ItemBytes(item)
         == Spell(TagWord(item.field, LEN_CODE), item.tagWidth) + Spell(|item.payload|, item.prefixWidth) + item.payload
  {
    hide Spell, EncodedLen;
    Associative(Tag(item.field, LEN_CODE, item.tagWidth), Spell(|item.payload|, item.prefixWidth), item.payload);
  }

  method ZeroOut(buf: array<Byte>, at: nat, n: nat)
    requires at + n <= buf.Length
    modifies buf
    ensures buf[..] == old(buf[..at]) + Zeros(n) + old(buf[at + n..])
  {
    forall k | at <= k < at + n {
      buf[k] := 0;
    }
  }
}
