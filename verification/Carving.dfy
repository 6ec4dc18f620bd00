/** One caller slab carved into typed lanes: alignment, tiling and exact
    pricing at every address (src/fixed.rs, src/fixed_inplace.rs). */
module Carving {
  import opened Wire

  /** One past the largest address-sized word. */
  const WORDS := 0x1_0000_0000_0000_0000
  const MAX_WORD: nat := WORDS - 1

  type Addr = a: int | 0 <= a < 0x1_0000_0000_0000_0000

  /** One ladder entry: element alignment and size, and a slot count. */
  datatype LaneSpec = LaneSpec(align: nat, size: nat, cap: nat)

  datatype Extent = Extent(start: nat, bytes: nat)

  predicate IsPow2(n: nat) {
    n == 1 || (n > 1 && n % 2 == 0 && IsPow2(n / 2))
  }

  /** `x` is a multiple of `a`. */
  predicate Divides(a: nat, x: nat) {
    a > 0 && x % a == 0
  }

  /** A lane's exact byte size. */
  function Bytes(lane: LaneSpec): nat {
    lane.cap * lane.size
  }

  /** Lane elements as the compiler lays them out: the alignment divides the size. */
  predicate LawfulLane(lane: LaneSpec) {
    IsPow2(lane.align) && lane.align < WORDS && Divides(lane.align, lane.size)
  }

  predicate Descends(aligns: seq<nat>) {
    forall i, j :: 0 <= i < j < |aligns| ==> aligns[j] <= aligns[i]
  }

  predicate Adjacent(aligns: seq<nat>, n: nat) {
    forall i :: 0 < i < n && i < |aligns| ==> aligns[i] <= aligns[i - 1]
  }

  function Aligns(lanes: seq<LaneSpec>): (r: seq<nat>)
    ensures |r| == |lanes| && forall i :: 0 <= i < |r| ==> r[i] == lanes[i].align
  {
    seq(|lanes|, i requires 0 <= i < |lanes| => lanes[i].align)
  }

  /** A ladder its module asserts: lawful lanes in descending alignment order. */
  predicate Ladder(lanes: seq<LaneSpec>) {
    (forall i :: 0 <= i < |lanes| ==> LawfulLane(lanes[i])) && Descends(Aligns(lanes))
  }

  // ─── multiples and powers of two ───

  lemma AtLeastOnce(a: nat, k: int)
    requires k >= 1
    ensures a * k >= a
  {}

  lemma Quotients(a: nat, x: int, y: int)
    ensures a * x - a * y == a * (x - y)
  {}

  lemma Distribute(a: nat, x: nat, y: nat)
    ensures a * x + a * y == a * (x + y)
  {}

  lemma DividesProduct(a: nat, q: nat)
    requires a > 0
    ensures Divides(a, a * q)
  {
    var d, r := (a * q) / a, (a * q) % a;
    Quotients(a, q, d);
    assert a * (q - d) == r;
    if q > d {
      AtLeastOnce(a, q - d);
    } else if q < d {
      AtLeastOnce(a, d - q);
      Quotients(a, d, q);
    }
  }

  lemma Quotient(a: nat, x: nat) returns (q: nat)
    requires Divides(a, x)
    ensures x == a * q
  {
    q := x / a;
  }

  lemma DividesSum(a: nat, x: nat, y: nat)
    requires Divides(a, x) && Divides(a, y)
    ensures Divides(a, x + y)
  {
    hide Divides;
    var p := Quotient(a, x);
    var q := Quotient(a, y);
    Distribute(a, p, q);
    Positive(a, x);
    DividesProduct(a, p + q);
  }

  lemma Positive(a: nat, x: nat)
    requires Divides(a, x)
    ensures a > 0
  {}

  lemma Regroup(a: nat, b: nat, c: nat)
    ensures (a * b) * c == a * (b * c)
  {}

  lemma DividesChain(a: nat, b: nat, x: nat)
    requires Divides(a, b) && Divides(b, x)
    ensures Divides(a, x)
  {
    hide Divides;
    var p := Quotient(a, b);
    var q := Quotient(b, x);
    Regroup(a, p, q);
    Positive(a, b);
    DividesProduct(a, p * q);
  }

  lemma DividesBytes(a: nat, lane: LaneSpec)
    requires Divides(a, lane.size)
    ensures Divides(a, Bytes(lane))
  {
    hide Divides;
    var p := Quotient(a, lane.size);
    Regroup(a, p, lane.cap);
    Positive(a, lane.size);
    DividesProduct(a, p * lane.cap);
  }

  lemma {:induction false} Pow2Divides(a: nat, b: nat)
    requires IsPow2(a) && IsPow2(b) && a <= b
    ensures Divides(a, b)
    decreases b
  {
    hide Divides;
    if a > 1 {
      Pow2Divides(a / 2, b / 2);
      var q := Quotient(a / 2, b / 2);
      Regroup(2, a / 2, q);
      DividesProduct(a, q);
    } else {
      DividesProduct(1, b);
    }
  }

  // ─── the ladder's static side ───

  function MaxAlign(aligns: seq<nat>, n: nat): (m: nat)
    requires n <= |aligns|
    ensures m >= 1 && forall i :: 0 <= i < n ==> aligns[i] <= m
    ensures m == 1 || exists i :: 0 <= i < n && aligns[i] == m
  {
    if n == 0 then 1
    else if aligns[n - 1] > MaxAlign(aligns, n - 1) then aligns[n - 1] else MaxAlign(aligns, n - 1)
  }

  /** The head alignment is the ladder's maximum, one for a ladder of bytes. */
  method HeadAlign(aligns: seq<nat>) returns (max: nat)
    ensures max == MaxAlign(aligns, |aligns|)
  {
    max := 1;
    var i := 0;
    while i < |aligns|
      invariant 0 <= i <= |aligns| && max == MaxAlign(aligns, i)
    {
      if aligns[i] > max {
        max := aligns[i];
      }
      i := i + 1;
    }
  }

  /** Checking neighbours decides the whole order. */
  method Descending(aligns: seq<nat>) returns (ok: bool)
    ensures ok <==> Descends(aligns)
  {
    var i := 1;
    while i < |aligns|
      invariant 1 <= i && (aligns != [] ==> i <= |aligns|)
      invariant Adjacent(aligns, i)
    {
      if aligns[i] > aligns[i - 1] {
        return false;
      }
      i := i + 1;
    }
    forall a, b | 0 <= a < b < |aligns| ensures aligns[b] <= aligns[a] {
      NeighboursOrder(aligns, a, b);
    }
    return true;
  }

  lemma {:induction false} NeighboursOrder(aligns: seq<nat>, a: nat, b: nat)
    requires a <= b < |aligns| && Adjacent(aligns, |aligns|)
    ensures aligns[b] <= aligns[a]
    decreases b
  {
    if a < b {
      NeighboursOrder(aligns, a, b - 1);
    }
  }

  /** A ladder's head alignment is a power of two every lane's divides. */
  lemma HeadDivides(lanes: seq<LaneSpec>, k: nat)
    requires Ladder(lanes) && k < |lanes|
    ensures var head := MaxAlign(Aligns(lanes), |lanes|);
            IsPow2(head) && head < WORDS && Divides(lanes[k].align, head)
  {
    var head := MaxAlign(Aligns(lanes), |lanes|);
    HeadIsPow2(lanes);
    Pow2Divides(lanes[k].align, head);
  }

  lemma HeadIsPow2(lanes: seq<LaneSpec>)
    requires Ladder(lanes)
    ensures var head := MaxAlign(Aligns(lanes), |lanes|); IsPow2(head) && head < WORDS
  {
    var head := MaxAlign(Aligns(lanes), |lanes|);
    if head != 1 {
      var i :| 0 <= i < |lanes| && Aligns(lanes)[i] == head;
      assert LawfulLane(lanes[i]);
    }
  }

  // ─── the carve ───

  /** The lanes' bytes before lane `k`. */
  function Offset(lanes: seq<LaneSpec>, k: nat): nat
    requires k <= |lanes|
  {
    if k == 0 then 0 else Offset(lanes, k - 1) + Bytes(lanes[k - 1])
  }

  /** The exact price: the head's worst pad, then every lane's exact size. */
  function Price(lanes: seq<LaneSpec>): nat {
    MaxAlign(Aligns(lanes), |lanes|) - 1 + Offset(lanes, |lanes|)
  }

  function WrappingNeg(a: Addr): Addr {
    (WORDS - a) % WORDS
  }

  function Pad(addr: Addr, head: nat): nat
    requires head > 0
  {
    WrappingNeg(addr) % head
  }

  /** The pad is the one step under a head alignment that reaches a multiple. */
  lemma PadAligns(addr: Addr, head: nat)
    requires IsPow2(head) && head < WORDS
    ensures Pad(addr, head) < head && Divides(head, addr + Pad(addr, head))
  {
    hide Divides, IsPow2;
    WordsIsPow2();
    Pow2Divides(head, WORDS);
    Positive(head, WORDS);
    if addr == 0 {
      assert WrappingNeg(addr) == 0;
      DividesProduct(head, 0);
    } else {
      var n := WORDS - addr;
      assert WrappingNeg(addr) == n;
      var q := Quotient(head, WORDS);
      var d := n / head;
      assert n == head * d + n % head;
      Quotients(head, q, d);
      if q < d {
        AtLeastOnce(head, d - q);
        Quotients(head, d, q);
        assert false;
      }
      DividesProduct(head, q - d);
    }
  }

  lemma WordsIsPow2()
    ensures IsPow2(WORDS)
  {
    assert IsPow2(0x1_0000);
    Squared(0x1_0000, 0x1_0000);
    Squared(0x1_0000_0000, 0x1_0000_0000);
  }

  lemma {:induction false} Squared(a: nat, b: nat)
    requires IsPow2(a) && IsPow2(b)
    ensures IsPow2(a * b)
    decreases b
  {
    hide IsPow2;
    Halves(b);
    if b > 1 {
      var c := b / 2;
      Squared(a, c);
      Regroup(2, a, c);
      Regroup(a, 2, c);
      Doubled(a * c);
    }
  }

  lemma Halves(n: nat)
    requires IsPow2(n)
    ensures n == 1 || (n > 1 && n == 2 * (n / 2) && IsPow2(n / 2))
  {}

  lemma Doubled(n: nat)
    requires IsPow2(n)
    ensures IsPow2(2 * n)
  {
    assert 2 * n / 2 == n;
  }

  class Carver {
    const head: nat
    var at: nat
    var left: nat

    /** Skips the pad before the first aligned address. */
    constructor (addr: Addr, len: nat, head: nat)
      requires IsPow2(head) && head < WORDS && Pad(addr, head) <= len
      ensures this.head == head && at == addr + Pad(addr, head) && left == len - Pad(addr, head)
      ensures Divides(head, at)
    {
      PadAligns(addr, head);
      this.head := head;
      var pad := Pad(addr, head);
      at := addr + pad;
      left := len - pad;
    }

    /** Splits one lane's extent off the front. */
    method Split(lane: LaneSpec) returns (extent: Extent)
      requires Bytes(lane) <= left
      modifies this`at, this`left
      ensures extent == Extent(old(at), Bytes(lane))
      ensures at == old(at) + extent.bytes && left == old(left) - extent.bytes
    {
      var bytes := Bytes(lane);
      extent := Extent(at, bytes);
      at := at + bytes;
      left := left - bytes;
    }
  }

  /** What a carve owes: every lane aligned and exactly sized, the extents
      tiling one run of the slab from its aligned head without a gap. */
  predicate Tiles(lanes: seq<LaneSpec>, extents: seq<Extent>, start: nat) {
    |extents| == |lanes| && Tiled(lanes, extents, start)
  }

  /** The lanes carved so far. */
  predicate Tiled(lanes: seq<LaneSpec>, extents: seq<Extent>, start: nat) {
    && |extents| <= |lanes|
    && forall k :: 0 <= k < |extents| ==>
         extents[k] == Extent(start + Offset(lanes, k), Bytes(lanes[k])) && Divides(lanes[k].align, extents[k].start)
  }

  /** The next lane's head is aligned: it follows a multiple of a multiple. */
  lemma StaysAligned(lanes: seq<LaneSpec>, head: nat, start: nat, k: nat)
    requires Ladder(lanes) && k < |lanes| && head == MaxAlign(Aligns(lanes), |lanes|) && Divides(head, start)
    ensures Divides(lanes[k].align, start + Offset(lanes, k))
  {
    hide Divides, Ladder, Bytes, MaxAlign, Aligns, IsPow2, Offset;
    HeadDivides(lanes, k);
    DividesChain(lanes[k].align, head, start);
    OffsetAligned(lanes, k, k);
    DividesSum(lanes[k].align, start, Offset(lanes, k));
  }

  lemma {:induction false} OffsetAligned(lanes: seq<LaneSpec>, k: nat, n: nat)
    requires Ladder(lanes) && n <= k < |lanes|
    ensures Divides(lanes[k].align, Offset(lanes, n))
    decreases n
  {
    hide Divides, Bytes, IsPow2;
    assert LawfulLane(lanes[k]);
    if n > 0 {
      OffsetAligned(lanes, k, n - 1);
      var lane := lanes[n - 1];
      assert LawfulLane(lane);
      assert Aligns(lanes)[k] <= Aligns(lanes)[n - 1];
      Pow2Divides(lanes[k].align, lane.align);
      DividesChain(lanes[k].align, lane.align, lane.size);
      DividesBytes(lanes[k].align, lane);
      DividesSum(lanes[k].align, Offset(lanes, n - 1), Bytes(lane));
    } else {
      Positive(lanes[k].align, lanes[k].size);
      DividesProduct(lanes[k].align, 0);
    }
  }

  lemma {:induction false} OffsetMonotone(lanes: seq<LaneSpec>, m: nat, n: nat)
    requires m <= n <= |lanes|
    ensures Offset(lanes, m) <= Offset(lanes, n)
    decreases n - m
  {
    if m < n {
      OffsetMonotone(lanes, m, n - 1);
    }
  }

  lemma OffsetNothing(lanes: seq<LaneSpec>)
    ensures Offset(lanes, 0) == 0
  {}

  lemma OffsetStep(lanes: seq<LaneSpec>, k: nat)
    requires k < |lanes|
    ensures Offset(lanes, k) + Bytes(lanes[k]) == Offset(lanes, k + 1) <= Offset(lanes, |lanes|)
  {
    hide Bytes;
    OffsetMonotone(lanes, k + 1, |lanes|);
  }

  /** The carve theorem: a slab of at least the exact price carves, at every
      address, into aligned, gap-free, exactly sized lanes inside the slab. */
  method Carve(addr: Addr, len: nat, lanes: seq<LaneSpec>) returns (extents: seq<Extent>)
    requires Ladder(lanes) && Price(lanes) <= len
    ensures var start := addr + Pad(addr, MaxAlign(Aligns(lanes), |lanes|));
            Tiles(lanes, extents, start) && start + Offset(lanes, |lanes|) <= addr + len
  {
    hide Ladder, IsPow2, Pad, Divides, Bytes, MaxAlign, Aligns, Offset;
    HeadIsPow2(lanes);
    var head := HeadAlign(Aligns(lanes));
    PadAligns(addr, head);
    var carver := new Carver(addr, len, head);
    ghost var start := carver.at;
    OffsetNothing(lanes);
    extents := [];
    var i := 0;
    while i < |lanes|
      invariant 0 <= i == |extents| <= |lanes|
      invariant carver.at == start + Offset(lanes, i) && carver.at + carver.left == addr + len
      invariant Tiled(lanes, extents, start)
    {
      StaysAligned(lanes, head, start, i);
      OffsetStep(lanes, i);
      var extent := carver.Split(lanes[i]);
      extents := extents + [extent];
      i := i + 1;
    }
  }

  /** Disjoint follows: a later lane starts at or after an earlier lane's end. */
  lemma TilesAreDisjoint(lanes: seq<LaneSpec>, extents: seq<Extent>, start: nat, i: nat, j: nat)
    requires Tiles(lanes, extents, start) && i < j < |lanes|
    ensures extents[i].start + extents[i].bytes <= extents[j].start
    ensures j == i + 1 ==> extents[i].start + extents[i].bytes == extents[j].start
  {
    hide Bytes, Divides, Offset;
    OffsetStep(lanes, i);
    OffsetMonotone(lanes, i + 1, j);
  }

  /** The price is exact: just past a multiple of the head alignment the pad is
      worst, and a priced slab there is consumed to its last byte. */
  lemma PriceIsTight(addr: Addr, below: nat, lanes: seq<LaneSpec>)
    requires Ladder(lanes) && Divides(MaxAlign(Aligns(lanes), |lanes|), below)
    requires addr == if MaxAlign(Aligns(lanes), |lanes|) == 1 then below else below + 1
    ensures Pad(addr, MaxAlign(Aligns(lanes), |lanes|)) + Offset(lanes, |lanes|) == Price(lanes)
  {
    hide Divides, Pad, IsPow2, Ladder, Bytes, Offset, WrappingNeg;
    var head := MaxAlign(Aligns(lanes), |lanes|);
    HeadIsPow2(lanes);
    PadAligns(addr, head);
    if head > 1 {
      PadFromOne(below, head, Pad(addr, head));
    }
  }

  lemma PadFromOne(below: nat, head: nat, pad: nat)
    requires head > 1 && pad < head && Divides(head, below) && Divides(head, below + 1 + pad)
    ensures pad == head - 1
  {
    hide Divides;
    var q := Quotient(head, below);
    var r := Quotient(head, below + 1 + pad);
    Quotients(head, r, q);
    assert head * (r - q) == 1 + pad;
    if r - q >= 2 {
      Quotients(head, r - q, 1);
      AtLeastOnce(head, r - q - 1);
    } else if r - q <= 0 {
      NotPositive(head, r - q);
    }
  }

  lemma NotPositive(a: nat, k: int)
    requires k <= 0
    ensures a * k <= 0
  {}

  // ─── pricing in words ───

  function Saturated(n: nat): Addr {
    if n > MAX_WORD then MAX_WORD else n
  }

  class Demand {
    var total: Addr

    constructor (head: nat)
      requires 0 < head < WORDS
      ensures total == head - 1
    {
      total := head - 1;
    }

    method Lane(lane: LaneSpec)
      modifies this
      ensures total == Saturated(old(total) + Saturated(Bytes(lane)))
    {
      total := Saturated(total + Saturated(Bytes(lane)));
    }
  }

  /** The saturating price of a ladder is its exact price, capped: it never
      under-prices a demand a real slab could meet. */
  method Priced(lanes: seq<LaneSpec>) returns (bytes: Addr)
    requires Ladder(lanes)
    ensures bytes == Saturated(Price(lanes))
  {
    hide Ladder, IsPow2, Bytes, MaxAlign, Aligns;
    HeadIsPow2(lanes);
    var head := HeadAlign(Aligns(lanes));
    var demand := new Demand(head);
    var i := 0;
    while i < |lanes|
      invariant 0 <= i <= |lanes| && demand.total == Saturated(head - 1 + Offset(lanes, i))
    {
      demand.Lane(lanes[i]);
      i := i + 1;
    }
    bytes := demand.total;
  }

  /** The door: refuses exactly the slabs shorter than the exact price, and
      carves every other one, wherever it sits. No slab spans the last word. */
  method Door(addr: Addr, len: nat, lanes: seq<LaneSpec>) returns (extents: Option<seq<Extent>>)
    requires Ladder(lanes) && len < MAX_WORD
    ensures extents.None? <==> len < Price(lanes)
    ensures extents.Some? ==>
              var start := addr + Pad(addr, MaxAlign(Aligns(lanes), |lanes|));
              Tiles(lanes, extents.value, start) && start + Offset(lanes, |lanes|) <= addr + len
  {
    hide Ladder, IsPow2, Pad, Tiles, Bytes, Divides;
    var need := Priced(lanes);
    if len < need {
      return None;
    }
    var carved := Carve(addr, len, lanes);
    return Some(carved);
  }
}
