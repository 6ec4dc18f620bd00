/** Base-128 varints: widths, spellings at an explicit width, and the
    windowed tolerant read (src/varint.rs, src/varint/slice.rs). */
module Varints {

  type Byte = b: int | 0 <= b < 0x100
  type Word32 = v: int | 0 <= v < 0x1_0000_0000
  type Word64 = v: int | 0 <= v < 0x1_0000_0000_0000_0000

  function Pow128(n: nat): (p: nat)
    ensures p > 0
  {
    if n == 0 then 1 else 128 * Pow128(n - 1)
  }

  function Pow2(n: nat): (p: nat)
    ensures p > 0
  {
    if n == 0 then 1 else 2 * Pow2(n - 1)
  }

  function BitWidth(v: nat): nat {
    if v == 0 then 0 else 1 + BitWidth(v / 2)
  }

  /** The branch-free width formula. */
  function EncodedLen(v: nat): (n: nat)
    ensures n >= 1
  {
    BitWidth(v) * 9 / 64 + 1
  }

  lemma {:induction false} BitWidthBounds(v: nat)
    ensures v < Pow2(BitWidth(v))
    ensures v > 0 ==> BitWidth(v) > 0 && Pow2(BitWidth(v) - 1) <= v
  {
    if v > 0 {
      BitWidthBounds(v / 2);
    }
  }

  lemma {:induction false} Pow2Monotone(m: nat, n: nat)
    requires m <= n
    ensures Pow2(m) <= Pow2(n)
    decreases n - m
  {
    if m < n {
      Pow2Monotone(m, n - 1);
    }
  }

  lemma {:induction false} Pow2Of7(n: nat)
    ensures Pow2(7 * n) == Pow128(n)
  {
    if n > 0 {
      Pow2Of7(n - 1);
      var k := 7 * n;
      assert Pow2(k) == 2 * Pow2(k - 1);
      assert Pow2(k - 1) == 2 * Pow2(k - 2);
      assert Pow2(k - 2) == 2 * Pow2(k - 3);
      assert Pow2(k - 3) == 2 * Pow2(k - 4);
      assert Pow2(k - 4) == 2 * Pow2(k - 5);
      assert Pow2(k - 5) == 2 * Pow2(k - 6);
      assert Pow2(k - 6) == 2 * Pow2(k - 7);
    }
  }

  lemma {:induction false} Pow128Monotone(m: nat, n: nat)
    requires m <= n
    ensures Pow128(m) <= Pow128(n)
    decreases n - m
  {
    if m < n {
      Pow128Monotone(m, n - 1);
    }
  }

  lemma Powers()
    ensures Pow128(1) == 0x80 && Pow128(2) == 0x4000 && Pow128(3) == 0x20_0000
    ensures Pow128(4) == 0x1000_0000 && Pow128(5) == 0x8_0000_0000
    ensures Pow2(64) == 0x1_0000_0000_0000_0000
  {
    assert Pow128(3) == 128 * Pow128(2);
    assert Pow128(4) == 128 * Pow128(3);
    assert Pow128(5) == 128 * Pow128(4);
    Pow2Of7(5);
    Pow2Of7(9);
    assert Pow128(7) == 128 * Pow128(6) && Pow128(6) == 128 * Pow128(5);
    assert Pow128(9) == 128 * Pow128(8) && Pow128(8) == 128 * Pow128(7);
    assert Pow2(64) == 2 * Pow2(63);
  }

  /** The formula is the least number of seven-bit groups that holds the value. */
  lemma EncodedLenIsLeast(v: Word64)
    ensures 1 <= EncodedLen(v) <= 10
    ensures v < Pow128(EncodedLen(v))
    ensures forall n: nat :: 1 <= n && v < Pow128(n) ==> EncodedLen(v) <= n
  {
    var b := BitWidth(v);
    var k := EncodedLen(v);
    BitWidthBounds(v);
    Powers();
    if b > 64 {
      Pow2Monotone(64, b - 1);
    }
    Pow2Monotone(b, if b <= 7 * k then 7 * k else b);
    Pow2Of7(k);
    if k > 1 {
      Pow2Monotone(7 * (k - 1), b - 1);
      Pow2Of7(k - 1);
      forall n: nat | 1 <= n && v < Pow128(n)
        ensures k <= n
      {
        if n < k {
          Pow128Monotone(n, k - 1);
        }
      }
    }
  }

  /** Widths of 32-bit words, read off the seven-bit boundaries. */
  lemma EncodedLenSteps(v: Word32)
    ensures EncodedLen(v) ==
            if v < 0x80 then 1 else if v < 0x4000 then 2
            else if v < 0x20_0000 then 3 else if v < 0x1000_0000 then 4 else 5
  {
    EncodedLenIsLeast(v);
    Powers();
    var k := EncodedLen(v);
    if k > 1 {
      assert !(v < Pow128(k - 1));
    }
  }

  /** `write64_at`: seven-bit groups, continuation bits on all but the last byte. */
  function Spell(v: nat, width: nat): (s: seq<Byte>)
    requires width >= 1
    ensures |s| == width
  {
    if width == 1 then [v % 256] else [v % 128 + 128] + Spell(v / 128, width - 1)
  }

  method WriteAt(buf: array<Byte>, at: nat, value: Word64, width: nat)
    requires 1 <= width && at + width <= buf.Length
    modifies buf
    ensures buf[..] == old(buf[..at]) + Spell(value, width) + old(buf[at + width..])
  {
    ghost var spelling := Spell(value, width);
    var limit := width - 1;
    var v: nat := value;
    var i := 0;
    while i < limit
      invariant 0 <= i <= limit
      invariant forall k :: 0 <= k < buf.Length && !(at <= k < at + i) ==> buf[k] == old(buf[k])
      invariant forall k :: 0 <= k < i ==> buf[at + k] == spelling[k]
      invariant spelling[i..] == Spell(v, width - i)
    {
      assert spelling[i..][0] == v % 128 + 128;
      assert spelling[i + 1..] == spelling[i..][1..];
      buf[at + i] := v % 128 + 128;
      v := v / 128;
      i := i + 1;
    }
    assert spelling[limit..][0] == v % 256;
    buf[at + limit] := v % 256;
  }

  /** The value shifted right by `i` groups of seven bits. */
  function SevensOff(v: nat, i: nat): nat
    decreases i
  {
    if i == 0 then v else SevensOff(v / 128, i - 1)
  }

  /** Byte by byte: seven bits of the value from the low end up, and the high bit
      on every byte but the last. */
  lemma {:induction false} SpellDigits(v: nat, width: nat, i: nat)
    requires 1 <= width && v < Pow128(width) && i < width
    ensures Spell(v, width)[i] == SevensOff(v, i) % 128 + if i < width - 1 then 128 else 0
  {
    if i > 0 {
      SpellDigits(v / 128, width - 1, i - 1);
    } else if width == 1 {
      assert Pow128(1) == 128 * Pow128(0);
    }
  }

  // ─── the windowed tolerant read ───

  datatype Read = Ok(value: nat, width: nat) | Truncated | TooWide | OutOfClass

  /** Any terminating encoding within `cap` bytes whose full-width terminal
      byte is at most `last`. */
  function ReadVarint(s: seq<Byte>, cap: nat, last: Byte): Read
    decreases cap
  {
    if cap == 0 then TooWide
    else if s == [] then Truncated
    else if s[0] < 128 then
      if cap == 1 && s[0] > last then OutOfClass else Ok(s[0], 1)
    else
      match ReadVarint(s[1..], cap - 1, last)
      case Ok(v, w) => Ok(s[0] - 128 + 128 * v, w + 1)
      case fault => fault
  }

  /** One past the largest value a `cap`-byte window admits. */
  function Ceiling(cap: nat, last: Byte): nat
    requires cap >= 1
  {
    if cap == 1 then last + 1 else 128 * Ceiling(cap - 1, last)
  }

  predicate InWindow(v: nat, width: nat, cap: nat, last: Byte) {
    1 <= width <= cap && last < 128 && v < if width == cap then Ceiling(cap, last) else Pow128(width)
  }

  /** A spelling inside the window reads back, whatever follows it. */
  lemma {:induction false} ReadSpelling(v: nat, width: nat, cap: nat, last: Byte, rest: seq<Byte>)
    requires InWindow(v, width, cap, last)
    ensures ReadVarint(Spell(v, width) + rest, cap, last) == Ok(v, width)
    decreases width
  {
    hide Spell, ReadVarint;
    var s := Spell(v, width) + rest;
    SpellStep(v, width);
    if width > 1 {
      WindowShrinks(v, width, cap, last);
      ReadSpelling(v / 128, width - 1, cap - 1, last, rest);
      assert s[1..] == Spell(v / 128, width - 1) + rest;
      ReadStep(s, cap, last);
    } else {
      LoneByte(s, v, cap, last);
    }
  }

  lemma SpellStep(v: nat, width: nat)
    requires width >= 1
    ensures Spell(v, width) == if width == 1 then [v % 256] else [v % 128 + 128] + Spell(v / 128, width - 1)
  {}

  lemma WindowShrinks(v: nat, width: nat, cap: nat, last: Byte)
    requires InWindow(v, width, cap, last) && width > 1
    ensures InWindow(v / 128, width - 1, cap - 1, last)
  {}

  lemma WindowWidens(v: nat, b: Byte, width: nat, cap: nat, last: Byte)
    requires InWindow(v, width, cap, last) && b >= 128
    ensures InWindow(b - 128 + 128 * v, width + 1, cap + 1, last)
  {}

  lemma ReadStep(s: seq<Byte>, cap: nat, last: Byte)
    requires s != [] && s[0] >= 128 && cap > 0
    ensures ReadVarint(s, cap, last) ==
            match ReadVarint(s[1..], cap - 1,
                             last) { case Ok(v, w) => Ok(s[0] - 128 + 128 * v, w + 1) case fault => fault }
  {}

  lemma LoneByte(s: seq<Byte>, v: nat, cap: nat, last: Byte)
    requires InWindow(v, 1, cap, last) && s != [] && s[0] == v % 256
    ensures ReadVarint(s, cap, last) == Ok(v, 1)
  {}

  /** A read consumed exactly the spelling of its value at the met width. */
  lemma {:induction false} ReadIsSpelling(s: seq<Byte>, cap: nat, last: Byte)
    requires last < 128
    requires ReadVarint(s, cap, last).Ok?
    ensures var r := ReadVarint(s, cap, last);
            && InWindow(r.value, r.width, cap, last) && r.width <= |s|
            && s == Spell(r.value, r.width) + s[r.width..]
    decreases cap
  {
    hide Spell, InWindow;
    if s[0] >= 128 {
      ReadIsSpelling(s[1..], cap - 1, last);
      var r := ReadVarint(s[1..], cap - 1, last);
      WindowWidens(r.value, s[0], r.width, cap - 1, last);
      GroupPrepended(s[0], r.value);
      SpellStep(s[0] - 128 + 128 * r.value, r.width + 1);
      FrontOfRest(s, Spell(r.value, r.width), r.width);
    } else {
      LoneIsSpelling(s, cap, last);
    }
  }

  lemma FrontOfRest(s: seq<Byte>, spelled: seq<Byte>, width: nat)
    requires s != [] && width < |s| && s[1..] == spelled + s[1..][width..]
    ensures s == ([s[0]] + spelled) + s[width + 1..]
  {
    assert s == [s[0]] + s[1..];
    assert s[1..][width..] == s[width + 1..];
  }

  lemma GroupPrepended(b: Byte, v: nat)
    requires b >= 128
    ensures (b - 128 + 128 * v) / 128 == v && (b - 128 + 128 * v) % 128 + 128 == b
  {}

  lemma LoneIsSpelling(s: seq<Byte>, cap: nat, last: Byte)
    requires last < 128 && s != [] && s[0] < 128 && ReadVarint(s, cap, last).Ok?
    ensures ReadVarint(s, cap, last) == Ok(s[0], 1) && InWindow(s[0], 1, cap, last)
    ensures s == Spell(s[0], 1) + s[1..]
  {}

  // The three windows: record heads, length prefixes, varint values.
  const TAG_CAP := 5
  const TAG_LAST: Byte := 0x0F
  const LEN_CAP := 5
  const LEN_LAST: Byte := 0x07
  const VALUE_CAP := 10
  const VALUE_LAST: Byte := 0x01

  lemma Ceilings()
    ensures Ceiling(TAG_CAP, TAG_LAST) == 0x1_0000_0000
    ensures Ceiling(LEN_CAP, LEN_LAST) == 0x8000_0000
    ensures Ceiling(VALUE_CAP, VALUE_LAST) == 0x1_0000_0000_0000_0000
  {
    assert Ceiling(3, 15) == 128 * Ceiling(2, 15);
    assert Ceiling(4, 15) == 128 * Ceiling(3, 15);
    assert Ceiling(3, 7) == 128 * Ceiling(2, 7);
    assert Ceiling(4, 7) == 128 * Ceiling(3, 7);
    assert Ceiling(3, 1) == 128 * Ceiling(2, 1);
    assert Ceiling(5, 1) == 128 * Ceiling(4, 1) && Ceiling(4, 1) == 128 * Ceiling(3, 1);
    assert Ceiling(7, 1) == 128 * Ceiling(6, 1) && Ceiling(6, 1) == 128 * Ceiling(5, 1);
    assert Ceiling(9, 1) == 128 * Ceiling(8, 1) && Ceiling(8, 1) == 128 * Ceiling(7, 1);
  }

  /** Any width from the minimal one up to the window is admitted. */
  lemma MinimalOrWiderIsInWindow(v: Word64, width: nat, cap: nat, last: Byte)
    requires EncodedLen(v) <= width <= cap && last < 128 && v < Ceiling(cap, last)
    ensures InWindow(v, width, cap, last)
  {
    EncodedLenIsLeast(v);
    Pow128Monotone(EncodedLen(v), width);
  }

  /** No admitted spelling is narrower than the minimal width. */
  lemma {:induction false} CeilingBelowPower(cap: nat, last: Byte)
    requires cap >= 1 && last < 128
    ensures Ceiling(cap, last) <= Pow128(cap)
  {
    if cap > 1 {
      CeilingBelowPower(cap - 1, last);
    }
  }

  lemma InWindowIsMinimalOrWider(v: Word64, width: nat, cap: nat, last: Byte)
    requires InWindow(v, width, cap, last)
    ensures EncodedLen(v) <= width
  {
    EncodedLenIsLeast(v);
    CeilingBelowPower(cap, last);
  }

  // ─── little-endian words ───

  function LittleEndian(bits: nat, n: nat): (s: seq<Byte>)
    ensures |s| == n
  {
    if n == 0 then [] else [bits % 256] + LittleEndian(bits / 256, n - 1)
  }

  function FromLittleEndian(s: seq<Byte>): nat {
    if s == [] then 0 else s[0] + 256 * FromLittleEndian(s[1..])
  }

  function Pow256(n: nat): (p: nat)
    ensures p > 0
  {
    if n == 0 then 1 else 256 * Pow256(n - 1)
  }

  lemma {:induction false} LittleEndianReadsBack(bits: nat, n: nat)
    requires bits < Pow256(n)
    ensures FromLittleEndian(LittleEndian(bits, n)) == bits
  {
    if n > 0 {
      LittleEndianReadsBack(bits / 256, n - 1);
      assert LittleEndian(bits, n)[1..] == LittleEndian(bits / 256, n - 1);
    }
  }

  lemma {:induction false} LittleEndianIsOnto(s: seq<Byte>)
    ensures FromLittleEndian(s) < Pow256(|s|)
    ensures LittleEndian(FromLittleEndian(s), |s|) == s
  {
    if s != [] {
      LittleEndianIsOnto(s[1..]);
      var v := FromLittleEndian(s);
      assert v / 256 == FromLittleEndian(s[1..]) && v % 256 == s[0];
      assert s == [s[0]] + s[1..];
    }
  }

  /** The word shifted right by `i` bytes. */
  function BytesOff(v: nat, i: nat): nat
    decreases i
  {
    if i == 0 then v else BytesOff(v / 256, i - 1)
  }

  /** Byte by byte, from the low end up. */
  lemma {:induction false} LittleEndianDigits(bits: nat, n: nat, i: nat)
    requires i < n
    ensures LittleEndian(bits, n)[i] == BytesOff(bits, i) % 256
  {
    if i > 0 {
      LittleEndianDigits(bits / 256, n - 1, i - 1);
    }
  }

  lemma Pow256Values()
    ensures Pow256(4) == 0x1_0000_0000
    ensures Pow256(8) == 0x1_0000_0000_0000_0000
  {
    assert Pow256(4) == 256 * Pow256(3) && Pow256(3) == 256 * Pow256(2);
    assert Pow256(6) == 256 * Pow256(5) && Pow256(5) == 256 * Pow256(4);
    assert Pow256(8) == 256 * Pow256(7) && Pow256(7) == 256 * Pow256(6);
  }
}
