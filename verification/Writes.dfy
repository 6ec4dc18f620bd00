/** Planned equal-width writes and the infallible loop that lands them
    (src/inplace.rs). */
module Writes {
  import opened Varints
  import opened Wire
  import opened Filler

  // ─── planned writes and the write loop ───

  datatype Write =
    | VarintAt(at: nat, width: ValueWidth, value: Word64)
    | Fixed32At(at: nat, bits32: Word32)
    | Fixed64At(at: nat, bits64: Word64)
    | PayloadAt(at: nat, bytes: seq<Byte>)
    | TagAt(at: nat, tagWidth: WordWidth, word: Word32)
    | FillerAt(at: nat, extent: nat, field: Field)
  {
    /** The one judged fact an entry's bytes lean on. */
    predicate Proven() {
      FillerAt? ==> FillerNeed(field) <= extent <= MAX_LEN
    }

    function Size(): nat {
      match this
      case VarintAt(_, width, _) => width
      case Fixed32At(_, _) => 4
      case Fixed64At(_, _) => 8
      case PayloadAt(_, bytes) => |bytes|
      case TagAt(_, width, _) => width
      case FillerAt(_, extent, _) => extent
    }

    predicate Covers(k: int) {
      at <= k < at + Size()
    }
  }

  type Planned = w: Write | w.Proven() witness Fixed32At(0, 0)

  /** The bytes an entry lands: a pure function of the entry. */
  function WriteBytes(minimal: bool, w: Planned): (s: seq<Byte>)
    ensures |s| == w.Size()
  {
    match w
    case VarintAt(_, width, value) => Spell(value, width)
    case Fixed32At(_, bits) => LittleEndian(bits, 4)
    case Fixed64At(_, bits) => LittleEndian(bits, 8)
    case PayloadAt(_, bytes) => bytes
    case TagAt(_, width, word) => Spell(word, width)
    case FillerAt(_, extent, field) =>
      FillingFills(minimal, extent, field);
      BodyBytes(Filling(minimal, extent, field))
  }

  predicate Within(ws: seq<Planned>, lo: nat, hi: nat) {
    forall w :: w in ws ==> lo <= w.at && w.at + w.Size() <= hi
  }

  function Land(minimal: bool, buf: seq<Byte>, w: Planned): (r: seq<Byte>)
    requires w.at + w.Size() <= |buf|
    ensures |r| == |buf|
  {
    buf[..w.at] + WriteBytes(minimal, w) + buf[w.at + w.Size()..]
  }

  /** The buffer after the first `n` writes. */
  function Landed(minimal: bool, buf: seq<Byte>, ws: seq<Planned>, n: nat): (r: seq<Byte>)
    requires n <= |ws| && Within(ws, 0, |buf|)
    ensures |r| == |buf|
  {
    if n == 0 then buf else Land(minimal, Landed(minimal, buf, ws, n - 1), ws[n - 1])
  }

  method Store(buf: array<Byte>, at: nat, bytes: seq<Byte>)
    requires at + |bytes| <= buf.Length
    modifies buf
    ensures buf[..] == old(buf[..at]) + bytes + old(buf[at + |bytes|..])
  {
    forall k | 0 <= k < |bytes| {
      buf[at + k] := bytes[k];
    }
  }

  method LandOne(minimal: bool, buf: array<Byte>, w: Planned)
    requires w.at + w.Size() <= buf.Length
    modifies buf
    ensures buf[..] == Land(minimal, old(buf[..]), w)
  {
    hide Spell, BodyBytes, Filling, FillerNeed;
    match w
    case VarintAt(at, width, value) => WriteAt(buf, at, value, width);
    case Fixed32At(at, bits) => Store(buf, at, LittleEndian(bits, 4));
    case Fixed64At(at, bits) => Store(buf, at, LittleEndian(bits, 8));
    case PayloadAt(at, bytes) => Store(buf, at, bytes);
    case TagAt(at, width, word) => WriteAt(buf, at, word, width);
    case FillerAt(at, extent, field) => Fill(minimal, buf, at, extent, field);
    assert old(buf[..w.at]) == old(buf[..])[..w.at];
    assert old(buf[w.at + w.Size()..]) == old(buf[..])[w.at + w.Size()..];
  }

  /** The infallible write loop. */
  method Commit(minimal: bool, buf: array<Byte>, writes: seq<Planned>)
    requires Within(writes, 0, buf.Length)
    modifies buf
    ensures buf[..] == Landed(minimal, old(buf[..]), writes, |writes|)
  {
    hide Land, WriteBytes;
    var i := 0;
    while i < |writes|
      invariant 0 <= i <= |writes| && |old(buf[..])| == buf.Length
      invariant buf[..] == Landed(minimal, old(buf[..]), writes, i)
    {
      LandOne(minimal, buf, writes[i]);
      i := i + 1;
    }
  }

  // ─── disjoint writes: a landing is where it was planned, whatever the order ───

  predicate Separate(a: Write, b: Write) {
    a.at + a.Size() <= b.at || b.at + b.Size() <= a.at
  }

  /** Two planned writes never touch one byte. */
  predicate Apart(ws: seq<Planned>) {
    forall a, b :: a in ws && b in ws ==> a == b || Separate(a, b)
  }

  /** One byte of the buffer across the last write. */
  lemma LandedStep(minimal: bool, buf: seq<Byte>, ws: seq<Planned>, n: nat, k: nat)
    requires Within(ws, 0, |buf|) && n <= |ws| && k < |buf|
    ensures Landed(minimal, buf, ws, n)[k]
         == if n == 0 then buf[k]
            else if ws[n - 1].Covers(k) then WriteBytes(minimal, ws[n - 1])[k - ws[n - 1].at]
            else Landed(minimal, buf, ws, n - 1)[k]
  {
    hide WriteBytes;
  }

  lemma {:induction false} LandedOutside(minimal: bool, buf: seq<Byte>, ws: seq<Planned>, n: nat, k: nat)
    requires Within(ws, 0, |buf|) && n <= |ws| && k < |buf|
    requires forall i :: 0 <= i < n ==> !ws[i].Covers(k)
    ensures Landed(minimal, buf, ws, n)[k] == buf[k]
  {
    hide WriteBytes, Landed;
    LandedStep(minimal, buf, ws, n, k);
    if n > 0 {
      LandedOutside(minimal, buf, ws, n - 1, k);
    }
  }

  lemma {:induction false} LandedInside(minimal: bool, buf: seq<Byte>, ws: seq<Planned>, n: nat, i: nat, k: nat)
    requires Within(ws, 0, |buf|) && Apart(ws) && i < n <= |ws| && ws[i].Covers(k)
    ensures Landed(minimal, buf, ws, n)[k] == WriteBytes(minimal, ws[i])[k - ws[i].at]
  {
    hide WriteBytes, Landed;
    LandedStep(minimal, buf, ws, n, k);
    if ws[n - 1] != ws[i] {
      assert Separate(ws[n - 1], ws[i]);
      LandedInside(minimal, buf, ws, n - 1, i, k);
    }
  }

  /** Two lists of the same disjoint writes, in whatever order, land one buffer. */
  lemma OrderIsIrrelevant(minimal: bool, buf: seq<Byte>, a: seq<Planned>, b: seq<Planned>)
    requires Within(a, 0, |buf|) && Apart(a)
    requires forall w :: w in a <==> w in b
    ensures Within(b, 0, |buf|) && Landed(minimal, buf, a, |a|) == Landed(minimal, buf, b, |b|)
  {
    hide WriteBytes, Landed;
    forall k | 0 <= k < |buf| ensures Landed(minimal, buf, a, |a|)[k] == Landed(minimal, buf, b, |b|)[k] {
      ByteAgrees(minimal, buf, a, b, k);
    }
  }

  lemma ByteAgrees(minimal: bool, buf: seq<Byte>, a: seq<Planned>, b: seq<Planned>, k: nat)
    requires Within(a, 0, |buf|) && Within(b, 0, |buf|) && Apart(a) && Apart(b) && k < |buf|
    requires forall w :: w in a <==> w in b
    ensures Landed(minimal, buf, a, |a|)[k] == Landed(minimal, buf, b, |b|)[k]
  {
    hide WriteBytes, Landed, Within, Apart, Write.Covers;
    if w :| w in a && w.Covers(k) {
      var i :| 0 <= i < |a| && a[i] == w;
      var j :| 0 <= j < |b| && b[j] == w;
      LandedInside(minimal, buf, a, |a|, i, k);
      LandedInside(minimal, buf, b, |b|, j, k);
    } else {
      LandedOutside(minimal, buf, a, |a|, k);
      LandedOutside(minimal, buf, b, |b|, k);
    }
  }

  lemma {:induction false} LandedConcat(minimal: bool, buf: seq<Byte>, a: seq<Planned>, b: seq<Planned>, n: nat)
    requires Within(a, 0, |buf|) && Within(b, 0, |buf|) && n <= |b|
    ensures Within(a + b, 0, |buf|)
    ensures Landed(minimal, buf, a + b, |a| + n) == Landed(minimal, Landed(minimal, buf, a, |a|), b, n)
  {
    hide Land;
    if n > 0 {
      LandedConcat(minimal, buf, a, b, n - 1);
    } else {
      LandedPrefix(minimal, buf, a, b, |a|);
    }
  }

  lemma {:induction false} LandedPrefix(minimal: bool, buf: seq<Byte>, a: seq<Planned>, b: seq<Planned>, n: nat)
    requires Within(a, 0, |buf|) && Within(b, 0, |buf|) && n <= |a|
    ensures Within(a + b, 0, |buf|)
    ensures Landed(minimal, buf, a + b, n) == Landed(minimal, buf, a, n)
  {
    hide Land;
    if n > 0 {
      LandedPrefix(minimal, buf, a, b, n - 1);
    }
  }
}
