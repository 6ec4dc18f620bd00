/** When an admitted path is the only admitted spelling of its selection: the
    exact class on which structural equality is selection equality
    (src/path.rs). */
module Spelling {
  import opened Wire
  import opened Paths
  import opened Embeddings
  import A = Admission

  // ─── loose hops ───

  /** A wildcard at `k` whose set holds the field. */
  predicate HoldsAt(p: Path, k: int, f: Field) {
    0 <= k < |p| && p[k].AnyDepth? && f in p[k].descend
  }

  /** Both neighbours are wildcards over the hop's field, neither set inside
      the other: the hop is pinned between them. */
  predicate Pinned(p: Path, k: nat)
    requires k < |p|
  {
    && p[k].Hop? && HoldsAt(p, k - 1, p[k].field) && HoldsAt(p, k + 1, p[k].field)
    && !A.Comparable(p[k - 1].descend, p[k + 1].descend)
  }

  /** A hop some neighbouring wildcard could have taken, and nothing pins. */
  predicate LooseAt(p: Path, k: nat)
    requires k < |p|
  {
    && p[k].Hop? && (HoldsAt(p, k - 1, p[k].field) || HoldsAt(p, k + 1, p[k].field))
    && !Pinned(p, k)
  }

  /** Some hop before the terminal is loose. */
  predicate Loose(p: Path) {
    exists k :: 0 <= k < |p| - 1 && LooseAt(p, k)
  }

  predicate Tight(p: Path) {
    forall k :: 0 <= k < |p| ==> !LooseAt(p, k)
  }

  /** Lawful wildcards, none next to a comparable one. */
  predicate Neat(p: Path) {
    && (forall k :: 0 <= k < |p| && p[k].AnyDepth? ==> p[k].descend != [] && A.Rising(p[k].descend))
    && forall k :: 1 <= k < |p| ==> !A.Respelled(p, k)
  }

  // ─── a tight path maps to itself in one way ───

  /** A wildcard that could take the segment on its left pins it there. */
  lemma TakesLeft(p: Path, k: nat)
    requires Neat(p) && Tight(p) && 1 <= k < |p| && p[k].AnyDepth? && Lands(p[k - 1], p[k])
    ensures k >= 2 && Pinned(p, k - 1) && !Lands(p[k - 2], p[k])
  {
    assert !A.Respelled(p, k) && !LooseAt(p, k - 1);
  }

  lemma TakesRight(p: Path, k: nat)
    requires Neat(p) && Tight(p) && k + 1 < |p| && p[k].AnyDepth? && Lands(p[k + 1], p[k])
    ensures k + 2 < |p| && Pinned(p, k + 1) && !Lands(p[k + 2], p[k])
  {
    assert !A.Respelled(p, k + 1) && !LooseAt(p, k + 1);
  }

  /** What lies between two segments of one image has that image. */
  lemma MapsBetween(x: Path, p: Path, m: seq<nat>, a: nat, b: nat, c: nat)
    requires Maps(x, p, m) && a <= b <= c < |x| && m[a] == m[c]
    ensures m[b] == m[a] < |p| && Lands(x[b], p[m[a]])
  {}

  lemma NothingPulledRight(p: Path, m: seq<nat>, i: nat, k: nat)
    requires Neat(p) && Tight(p) && Maps(p, p, m) && i < k < |p| && p[i].AnyDepth? && p[k].AnyDepth?
    ensures |m| == |p| && !(m[i] == k == m[k])
  {
    hide Neat, Tight, Maps, Lands;
    MapsShape(p, p, m);
    if m[i] == k == m[k] {
      MapsBetween(p, p, m, i, k - 1, k);
      if i <= k - 2 {
        MapsBetween(p, p, m, i, k - 2, k);
      }
      TakesLeft(p, k);
    }
  }

  lemma NothingPulledLeft(p: Path, m: seq<nat>, i: nat, k: nat)
    requires Neat(p) && Tight(p) && Maps(p, p, m) && k < i < |p| && p[i].AnyDepth? && p[k].AnyDepth?
    ensures |m| == |p| && !(m[i] == k == m[k])
  {
    hide Neat, Tight, Maps, Lands;
    MapsShape(p, p, m);
    if m[i] == k == m[k] {
      MapsBetween(p, p, m, k, k + 1, i);
      if k + 2 <= i {
        MapsBetween(p, p, m, k, k + 2, i);
      }
      TakesRight(p, k);
    }
  }

  lemma {:induction false} NotUp(p: Path, m: seq<nat>, i: nat)
    requires Neat(p) && Tight(p) && Maps(p, p, m) && i < |p| && p[i].AnyDepth?
    ensures m[i] <= i
    decreases |p| - i
  {
    hide Neat, Tight;
    if m[i] > i {
      NotUp(p, m, m[i]);
      NothingPulledRight(p, m, i, m[i]);
    }
  }

  lemma {:induction false} NotDown(p: Path, m: seq<nat>, i: nat)
    requires Neat(p) && Tight(p) && Maps(p, p, m) && i < |p| && p[i].AnyDepth?
    ensures m[i] >= i
    decreases i
  {
    hide Neat, Tight;
    if m[i] < i {
      NotDown(p, m, m[i]);
      NothingPulledLeft(p, m, i, m[i]);
    }
  }

  /** Every wildcard of a tight path stays put under any map of it to itself. */
  lemma StarsStay(p: Path, m: seq<nat>)
    requires Neat(p) && Tight(p) && Maps(p, p, m)
    ensures forall i :: 0 <= i < |p| && p[i].AnyDepth? ==> m[i] == i
  {
    hide Neat, Tight, Maps;
    forall i | 0 <= i < |p| && p[i].AnyDepth? ensures i < |m| && m[i] == i {
      MapsShape(p, p, m);
      NotUp(p, m, i);
      NotDown(p, m, i);
    }
  }

  lemma MapsShape(x: Path, p: Path, m: seq<nat>)
    requires Maps(x, p, m)
    ensures |m| == |x|
  {}

  /** And a hop stays a hop unless it is pinned. */
  lemma HopStays(p: Path, m: seq<nat>, k: nat)
    requires Neat(p) && Tight(p) && Maps(p, p, m) && k < |p| && p[k].Hop?
    ensures |m| == |p| && m[k] < |p| && (p[m[k]].Hop? || Pinned(p, k))
  {
    hide Neat, Tight, Maps, Lands;
    MapsShape(p, p, m);
    MapsBetween(p, p, m, k, k, k);
    StarsStay(p, m);
    var s := m[k];
    if p[s].AnyDepth? {
      if k < s {
        MapsBetween(p, p, m, k, s - 1, s);
        if k <= s - 2 {
          MapsBetween(p, p, m, k, s - 2, s);
        }
        TakesLeft(p, s);
      } else {
        MapsBetween(p, p, m, s, s + 1, k);
        if s + 2 <= k {
          MapsBetween(p, p, m, s, s + 2, k);
        }
        TakesRight(p, s);
      }
    }
  }

  // ─── the letters a pinned hop keeps apart ───

  /** If `x` holds `p` and spells, side by side between the images of a pinned
      hop's neighbours, a letter the right one lacks and one the left one lacks,
      then `x` is not included in `p`: nothing is left to spell the hop. */
  lemma PinnedParts(p: Path, x: Path, at: seq<nat>, k: nat, a: nat)
    requires Neat(p) && Tight(p) && k < |p| && Pinned(p, k) && Filled(x) && Maps(p, x, at)
    requires at[k - 1] < a && a + 1 < at[k + 1] && x[a].Hop? && x[a + 1].Hop?
    requires x[a].field !in p[k + 1].descend && x[a + 1].field !in p[k - 1].descend
    ensures !Included(x, p)
  {
    hide Neat, Tight, Filled, Included, Close, Maps, Pinned, Lands;
    PinnedShape(p, k);
    if Included(x, p) {
      var m := InclusionMaps(x, p);
      var self := MapsThrough(p, x, p, at, m);
      StarsStay(p, self);
      MapsShape(p, x, at);
      MapsRange(p, x, at, k - 1);
      MapsRange(p, x, at, k + 1);
      MapsOrder(x, p, m, at[k - 1], a);
      MapsOrder(x, p, m, a, a + 1);
      MapsOrder(x, p, m, a + 1, at[k + 1]);
      MapsRange(x, p, m, a);
      MapsRange(x, p, m, a + 1);
      LeftLetter(p, k, m[a], x[a]);
      RightLetter(p, k, m[a + 1], x[a + 1]);
      CloseAt(x, p, m, a, k);
    }
  }

  lemma PinnedShape(p: Path, k: nat)
    requires k < |p| && Pinned(p, k)
    ensures 1 <= k && k + 1 < |p| && p[k].Hop? && p[k - 1].AnyDepth? && p[k + 1].AnyDepth?
    ensures p[k].field in p[k - 1].descend && p[k].field in p[k + 1].descend
    ensures !A.Contains(p[k + 1].descend, p[k - 1].descend) && !A.Contains(p[k - 1].descend, p[k + 1].descend)
  {}

  lemma LeftLetter(p: Path, k: nat, s: nat, letter: Segment)
    requires k < |p| && Pinned(p, k) && k - 1 <= s <= k + 1
    requires letter.Hop? && letter.field !in p[k + 1].descend && Lands(letter, p[s])
    ensures s == k - 1
  {}

  lemma RightLetter(p: Path, k: nat, s: nat, letter: Segment)
    requires k < |p| && Pinned(p, k) && k - 1 <= s <= k + 1
    requires letter.Hop? && letter.field !in p[k - 1].descend && Lands(letter, p[s])
    ensures s == k + 1
  {}

  lemma MapsRange(x: Path, p: Path, m: seq<nat>, a: nat)
    requires Maps(x, p, m) && a < |x|
    ensures |m| == |x| && m[a] < |p| && Lands(x[a], p[m[a]])
  {}

  lemma MapsOrder(x: Path, p: Path, m: seq<nat>, a: nat, b: nat)
    requires Maps(x, p, m) && a < b < |x|
    ensures |m| == |x| && m[a] <= m[b] < |p| && (m[a] == m[b] ==> p[m[a]].AnyDepth?)
  {}

  lemma CloseAt(x: Path, p: Path, m: seq<nat>, a: nat, k: nat)
    requires Maps(x, p, m) && Close(x, p, m) && a + 1 < |x| && x[a].Hop? && x[a + 1].Hop? && k < |p| && p[k].Hop?
    ensures |m| == |x| && !(m[a] < k < m[a + 1])
  {}

  // ─── two spellings of one selection ───

  /** Inclusion both ways, as maps: what the rest of the proof stands on. */
  ghost predicate Matched(p: Path, q: Path, there: seq<nat>, back: seq<nat>) {
    Neat(p) && Tight(p) && Neat(q) && Included(q, p) && Maps(p, q, there) && Maps(q, p, back)
  }

  /** There and back, a wildcard of the tight path meets its own set again. */
  lemma StarImage(p: Path, q: Path, there: seq<nat>, back: seq<nat>, i: nat)
    requires Matched(p, q, there, back) && i < |p| && p[i].AnyDepth?
    ensures |there| == |p| && |back| == |q| && there[i] < |q| && q[there[i]] == p[i] && back[there[i]] == i
  {
    var self := MapsThrough(p, q, p, there, back);
    StarsStay(p, self);
    var d, e := p[i].descend, q[there[i]].descend;
    A.RisingSetsAreSlices(d, e);
  }

  lemma HopImage(p: Path, q: Path, there: seq<nat>, back: seq<nat>, k: nat)
    requires Matched(p, q, there, back) && k < |p| && p[k].Hop? && !Pinned(p, k)
    ensures |there| == |p| && there[k] < |q| && q[there[k]] == p[k]
  {
    hide Neat, Tight, Pinned;
    var self := MapsThrough(p, q, p, there, back);
    HopStays(p, self, k);
    MapsRange(p, q, there, k);
    MapsRange(q, p, back, there[k]);
  }

  lemma ApartLetter(d: seq<Field>, e: seq<Field>) returns (f: Field)
    requires !A.Contains(e, d)
    ensures f in d && f !in e
  {
    var i :| 0 <= i < |d| && d[i] !in e;
    f := d[i];
  }

  /** `q` with all between `i` and `j` replaced by two letters. */
  function Bridged(q: Path, i: nat, j: nat, u: Field, v: Field): (x: Path)
    requires i < j < |q|
    ensures |x| == i + 3 + |q| - j && x[i + 1] == Hop(u) && x[i + 2] == Hop(v)
    ensures (forall a :: 0 <= a <= i ==> x[a] == q[a]) && forall a :: i + 3 <= a < |x| ==> x[a] == q[a - (i + 3) + j]
  {
    q[..i + 1] + [Hop(u), Hop(v)] + q[j..]
  }

  lemma BridgeIncluded(q: Path, i: nat, j: nat, u: Field, v: Field)
    requires i < j < |q| && q[i].AnyDepth? && q[j].AnyDepth? && u in q[i].descend && v in q[j].descend
    requires forall t :: i < t < j ==> q[t].AnyDepth?
    ensures Included(Bridged(q, i, j, u, v), q)
  {
    hide Included, Covers;
    var x := Bridged(q, i, j, u, v);
    var m := BridgeMap(q, i, j);
    BridgeMaps(q, i, j, u, v);
    BridgeCovers(q, i, j, u, v);
    CoverIncludes(x, q, m);
  }

  /** The bridge's two letters fall on the two wildcards, the rest on itself. */
  function BridgeMap(q: Path, i: nat, j: nat): (m: seq<nat>)
    requires i < j < |q|
    ensures |m| == i + 3 + |q| - j
    ensures forall a :: 0 <= a < |m| ==>
              m[a] == if a <= i then a else if a == i + 1 then i else if a == i + 2 then j else a - (i + 3) + j
  {
    seq(i + 3 + |q| - j, a requires 0 <= a < i + 3 + |q| - j =>
      if a <= i then a else if a == i + 1 then i else if a == i + 2 then j else a - (i + 3) + j)
  }

  lemma BridgeMaps(q: Path, i: nat, j: nat, u: Field, v: Field)
    requires i < j < |q| && q[i].AnyDepth? && q[j].AnyDepth? && u in q[i].descend && v in q[j].descend
    ensures Maps(Bridged(q, i, j, u, v), q, BridgeMap(q, i, j))
  {
    hide Bridged, BridgeMap;
    var x, m := Bridged(q, i, j, u, v), BridgeMap(q, i, j);
    forall a | 0 <= a < |x| ensures m[a] < |q| && Lands(x[a], q[m[a]]) {
      LandsOnSelf(q[m[a]]);
    }
  }

  lemma BridgeCovers(q: Path, i: nat, j: nat, u: Field, v: Field)
    requires i < j < |q| && q[i].AnyDepth? && q[j].AnyDepth? && u in q[i].descend && v in q[j].descend
    requires forall t :: i < t < j ==> q[t].AnyDepth?
    ensures Covers(Bridged(q, i, j, u, v), q, BridgeMap(q, i, j))
  {
    hide Bridged, BridgeMap, Maps;
    var m := BridgeMap(q, i, j);
    forall t | 0 <= t < |q| && q[t].Hop? ensures t in m {
      if t <= i { assert m[t] == t; } else { assert m[t - j + i + 3] == t; }
    }
  }

  lemma LandsOnSelf(s: Segment)
    ensures Lands(s, s)
  {}

  /** Around a pinned hop the other spelling has a hop too. */
  lemma HopBetween(p: Path, q: Path, there: seq<nat>, back: seq<nat>, k: nat) returns (t: nat)
    requires Matched(p, q, there, back) && k < |p| && Pinned(p, k)
    ensures |there| == |p| && there[k - 1] < t < there[k + 1] < |q| && q[t].Hop?
  {
    hide Neat, Tight, Included, Filled, Bridged, Pinned, Maps, Lands, Matched;
    PinnedShape(p, k);
    StarImage(p, q, there, back, k - 1);
    StarImage(p, q, there, back, k + 1);
    ImagesOrdered(p, q, there, back, k);
    var i, j := there[k - 1], there[k + 1];
    NoHopBetween(p, q, there, back, k);
    t :| i < t < j && !q[t].AnyDepth?;
  }

  lemma ImagesOrdered(p: Path, q: Path, there: seq<nat>, back: seq<nat>, k: nat)
    requires Matched(p, q, there, back) && k < |p| && Pinned(p, k)
    requires |there| == |p| && |back| == |q| && there[k - 1] < |q| && there[k + 1] < |q|
    requires back[there[k - 1]] == k - 1 && back[there[k + 1]] == k + 1
    ensures there[k - 1] < there[k + 1]
  {
    hide Neat, Tight, Included, Pinned;
    PinnedShape(p, k);
    MapsOrder(p, q, there, k - 1, k + 1);
  }

  lemma NoHopBetween(p: Path, q: Path, there: seq<nat>, back: seq<nat>, k: nat)
    requires Matched(p, q, there, back) && k < |p| && Pinned(p, k)
    requires |there| == |p| && there[k - 1] < there[k + 1] < |q| && q[there[k - 1]] == p[k - 1]
             && q[there[k + 1]] == p[k + 1]
    ensures !(forall t :: there[k - 1] < t < there[k + 1] ==> q[t].AnyDepth?)
  {
    hide Neat, Tight, Included, Filled, Bridged, Pinned, Maps, Lands;
    PinnedShape(p, k);
    var i, j := there[k - 1], there[k + 1];
    if forall t :: i < t < j ==> q[t].AnyDepth? {
      var u := ApartLetter(p[k - 1].descend, p[k + 1].descend);
      var v := ApartLetter(p[k + 1].descend, p[k - 1].descend);
      var x := Bridged(q, i, j, u, v);
      BridgeIncluded(q, i, j, u, v);
      IncludedThrough(x, q, p);
      var at := BridgeHolds(p, q, there, k, u, v);
      BridgeFilled(q, i, j, u, v);
      PinnedParts(p, x, at, k, i + 1);
    }
  }

  lemma IncludedThrough(x: Path, y: Path, z: Path)
    requires Included(x, y) && Included(y, z)
    ensures Included(x, z)
  {}

  lemma BridgeFilled(q: Path, i: nat, j: nat, u: Field, v: Field)
    requires Neat(q) && i < j < |q|
    ensures Filled(Bridged(q, i, j, u, v))
  {
    var x := Bridged(q, i, j, u, v);
    forall a | 0 <= a < |x| && x[a].AnyDepth? ensures x[a].descend != [] {
      assert a <= i || a >= i + 3;
    }
  }

  /** The bridged path still holds `p`. */
  lemma BridgeHolds(p: Path, q: Path, there: seq<nat>, k: nat, u: Field, v: Field) returns (at: seq<nat>)
    requires Maps(p, q, there) && k < |p| && Pinned(p, k) && there[k - 1] < there[k + 1]
    requires q[there[k - 1]] == p[k - 1] && q[there[k + 1]] == p[k + 1]
    ensures Maps(p, Bridged(q, there[k - 1], there[k + 1], u, v), at)
    ensures |there| == |at| == |p| && 1 <= k && k + 1 < |p| && at[k - 1] == there[k - 1]
            && at[k + 1] == there[k - 1] + 3
  {
    hide Bridged, Lands, Maps, Pinned;
    PinnedShape(p, k);
    MapsShape(p, q, there);
    var i, j := there[k - 1], there[k + 1];
    MapsRange(p, q, there, k + 1);
    var x := Bridged(q, i, j, u, v);
    at := seq(|p|, a requires 0 <= a < |p| => Crossing(there[a], k, a, i, j));
    forall a | 0 <= a < |p| ensures at[a] < |x| && Lands(p[a], x[at[a]]) {
      CrossingLands(p, q, there, k, u, v, a);
    }
    forall a, b | 0 <= a < b < |p| ensures at[a] <= at[b] && (at[a] == at[b] ==> x[at[a]].AnyDepth?) {
      CrossingRises(p, q, there, k, u, v, a, b);
    }
    MapsBuilt(p, x, at);
  }

  lemma MapsBuilt(x: Path, p: Path, m: seq<nat>)
    requires |m| == |x| && (forall a :: 0 <= a < |x| ==> m[a] < |p| && Lands(x[a], p[m[a]]))
    requires forall a, b :: 0 <= a < b < |x| ==> m[a] <= m[b] && (m[a] == m[b] ==> p[m[a]].AnyDepth?)
    ensures Maps(x, p, m)
  {}

  /** Where segment `a`, standing at `t` in `q`, stands in the bridged path. */
  function Crossing(t: nat, k: nat, a: nat, i: nat, j: nat): nat {
    if a < k then t else if a == k || t < j then i else t - j + i + 3
  }

  lemma CrossingLands(p: Path, q: Path, there: seq<nat>, k: nat, u: Field, v: Field, a: nat)
    requires Maps(p, q, there) && k < |p| && Pinned(p, k) && there[k - 1] < there[k + 1] && a < |p|
    requires q[there[k - 1]] == p[k - 1] && q[there[k + 1]] == p[k + 1]
    ensures var i, j := there[k - 1], there[k + 1];
            var c, x := Crossing(there[a], k, a, i, j), Bridged(q, i, j, u, v);
            && c < |x| && Lands(p[a], x[c])
            && (a < k ==> c == there[a] <= i) && (a == k ==> c == i)
            && (a > k ==> there[a] >= j && c == there[a] - j + i + 3)
            && (a != k ==> x[c] == q[there[a]]) && x[i] == q[i]
  {
    hide Lands, Maps, Pinned, Bridged;
    PinnedShape(p, k);
    MapsRange(p, q, there, a);
    MapsRange(p, q, there, k + 1);
    if a < k - 1 {
      MapsOrder(p, q, there, a, k - 1);
    }
    if k + 1 < a {
      MapsOrder(p, q, there, k + 1, a);
    }
    if a == k {
      HopIntoStar(p[k], p[k - 1]);
    }
  }

  lemma HopIntoStar(hop: Segment, star: Segment)
    requires hop.Hop? && star.AnyDepth? && hop.field in star.descend
    ensures Lands(hop, star)
  {}

  lemma CrossingRises(p: Path, q: Path, there: seq<nat>, k: nat, u: Field, v: Field, a: nat, b: nat)
    requires Maps(p, q, there) && k < |p| && Pinned(p, k) && there[k - 1] < there[k + 1] && a < b < |p|
    requires q[there[k - 1]] == p[k - 1] && q[there[k + 1]] == p[k + 1]
    ensures var i, j := there[k - 1], there[k + 1];
            var c, d, x := Crossing(there[a], k, a, i, j), Crossing(there[b], k, b, i, j), Bridged(q, i, j, u, v);
            c <= d < |x| && (c == d ==> x[c].AnyDepth?)
  {
    hide Lands, Maps, Pinned, Bridged, Crossing;
    PinnedShape(p, k);
    CrossingLands(p, q, there, k, u, v, a);
    CrossingLands(p, q, there, k, u, v, b);
    MapsOrder(p, q, there, a, b);
  }

  // ─── the tight path threads through the other spelling ───

  /** `p`, segment for segment and in order, inside `q`; hops meet every hop. */
  predicate Threads(p: Path, q: Path, via: seq<nat>) {
    && |via| == |p|
    && (forall a :: 0 <= a < |p| ==> via[a] < |q| && q[via[a]] == p[a])
    && (forall a, b :: 0 <= a < b < |p| ==> via[a] < via[b])
    && forall t :: 0 <= t < |q| && q[t].Hop? ==> t in via
  }

  /** One segment's place: its image, or for a pinned hop some hop between its
      neighbours' images. */
  predicate Placed(p: Path, q: Path, there: seq<nat>, a: nat, t: nat)
    requires |there| == |p| && a < |p|
  {
    && t < |q| && q[t].Hop? == p[a].Hop? && (p[a].AnyDepth? ==> q[t] == p[a])
    && if Pinned(p, a) then there[a - 1] < t < there[a + 1] else t == there[a]
  }

  lemma {:induction false} Place(p: Path, q: Path, there: seq<nat>, back: seq<nat>, n: nat) returns (via: seq<nat>)
    requires Matched(p, q, there, back) && |there| == |p| && n <= |p|
    ensures |via| == n && forall a :: 0 <= a < n ==> Placed(p, q, there, a, via[a])
  {
    hide Matched, Pinned;
    if n == 0 {
      via := [];
    } else {
      via := Place(p, q, there, back, n - 1);
      var t: nat;
      if Pinned(p, n - 1) {
        t := HopBetween(p, q, there, back, n - 1);
        PinnedShape(p, n - 1);
      } else if p[n - 1].Hop? {
        t := there[n - 1];
        HopImage(p, q, there, back, n - 1);
      } else {
        t := there[n - 1];
        StarImage(p, q, there, back, n - 1);
      }
      via := via + [t];
    }
  }

  lemma PlacedNext(p: Path, q: Path, there: seq<nat>, back: seq<nat>, a: nat, s: nat, t: nat)
    requires Matched(p, q, there, back) && |there| == |p| && a + 1 < |p|
    requires Placed(p, q, there, a, s) && Placed(p, q, there, a + 1, t)
    ensures s < t
  {
    hide Matched, Pinned;
    if Pinned(p, a) {
      PinnedShape(p, a);
      NotPinnedStar(p, a + 1);
    } else if Pinned(p, a + 1) {
      PinnedShape(p, a + 1);
    } else {
      ThereRises(p, q, there, back, a);
    }
  }

  /** Neighbours that keep their kind keep apart. */
  lemma ThereRises(p: Path, q: Path, there: seq<nat>, back: seq<nat>, a: nat)
    requires Matched(p, q, there, back) && |there| == |p| && a + 1 < |p|
    requires there[a] < |q| && q[there[a]].Hop? == p[a].Hop? && there[a + 1] < |q|
             && q[there[a + 1]].Hop? == p[a + 1].Hop?
    ensures there[a] < there[a + 1]
  {
    hide Neat, Tight, Included, Maps;
    MapsOrder(p, q, there, a, a + 1);
    if p[a].AnyDepth? && p[a + 1].AnyDepth? {
      StarImage(p, q, there, back, a);
      StarImage(p, q, there, back, a + 1);
    }
  }

  lemma NotPinnedStar(p: Path, k: nat)
    requires k < |p| && p[k].AnyDepth?
    ensures !Pinned(p, k)
  {}

  lemma {:induction false} PlacedRise(p: Path, q: Path, there: seq<nat>, back: seq<nat>, via: seq<nat>, a: nat, b: nat)
    requires Matched(p, q, there, back) && |there| == |p| == |via| && a < b < |p|
    requires forall c :: 0 <= c < |p| ==> Placed(p, q, there, c, via[c])
    ensures via[a] < via[b]
    decreases b
  {
    hide Matched, Placed;
    PlacedNext(p, q, there, back, b - 1, via[b - 1], via[b]);
    if a < b - 1 {
      PlacedRise(p, q, there, back, via, a, b - 1);
    }
  }

  // ─── equal hops, by the shortest word ───

  function Hops(p: Path, n: nat): nat
    requires n <= |p|
  {
    if n == 0 then 0 else Hops(p, n - 1) + if p[n - 1].Hop? then 1 else 0
  }

  lemma {:induction false} HopsRise(p: Path, m: nat, n: nat)
    requires m <= n <= |p|
    ensures Hops(p, m) <= Hops(p, n)
    decreases n
  {
    if m < n {
      HopsRise(p, m, n - 1);
    }
  }

  /** The word of the hops alone, the path's one shortest. */
  lemma {:induction false} BareHops(p: Path, k: nat)
    requires k <= |p|
    ensures |A.Bare(p)| == Hops(p, |p|)
    ensures k < |p| && p[k].Hop? ==> Hops(p, k) < |A.Bare(p)| && A.Bare(p)[Hops(p, k)] == p[k].field
  {
    hide A.Bare;
    if p != [] {
      BareStep(p);
      BareHops(p[1..], if k > 0 then k - 1 else 0);
      HopsShift(p, |p|);
      HopsShift(p, k);
    } else {
      BareNothing();
    }
  }

  lemma BareNothing()
    ensures A.Bare([]) == []
  {}

  lemma BareStep(p: Path)
    requires p != []
    ensures A.Bare(p) == (if p[0].Hop? then [p[0].field] else []) + A.Bare(p[1..])
  {}

  lemma {:induction false} HopsShift(p: Path, n: nat)
    requires p != [] && n <= |p|
    ensures n > 0 ==> Hops(p, n) == (if p[0].Hop? then 1 else 0) + Hops(p[1..], n - 1)
  {
    if n > 1 {
      HopsShift(p, n - 1);
    }
  }

  lemma {:induction false} BareIsShortest(p: Path, word: Word)
    requires InLanguage(p, word)
    ensures |word| >= |A.Bare(p)| && (|word| == |A.Bare(p)| ==> word == A.Bare(p))
    decreases |p|, |word|
  {
    if p != [] {
      if p[0].Hop? {
        InLanguageHop(p, word);
        BareIsShortest(p[1..], word[1..]);
        assert word == [word[0]] + word[1..];
      } else {
        InLanguageStar(p, word);
        if InLanguage(p[1..], word) {
          BareIsShortest(p[1..], word);
        } else {
          BareIsShortest(p, word[1..]);
        }
      }
    }
  }

  lemma OneBare(p: Path, q: Path)
    requires Included(p, q) && Included(q, p)
    ensures A.Bare(p) == A.Bare(q)
  {
    A.BareIsSpelled(p);
    A.BareIsSpelled(q);
    BareIsShortest(q, A.Bare(p));
    BareIsShortest(p, A.Bare(q));
  }

  /** As many hops as segments threaded past, and one more for a hop missed. */
  lemma {:induction false} HopsThreaded(p: Path, q: Path, via: seq<nat>, a: nat, t: nat)
    requires |via| == |p| && a <= |p| && t < |q| && q[t].Hop? && t !in via
    requires forall c :: 0 <= c < |p| ==> via[c] < |q| && (p[c].Hop? ==> q[via[c]].Hop?)
    requires forall c, d :: 0 <= c < d < |p| ==> via[c] < via[d]
    ensures var b := if a < |p| then via[a] else |q|;
            b <= |q| && Hops(q, b) >= Hops(p, a) + if t < b then 1 else 0
  {
    var b := if a < |p| then via[a] else |q|;
    if a == 0 {
      if t < b { HopsRise(q, t + 1, b); }
    } else {
      HopsThreaded(p, q, via, a - 1, t);
      var c := via[a - 1];
      assert c != t;
      HopsRise(q, c + 1, b);
      if c < t < b {
        HopsRise(q, c + 1, t);
        HopsRise(q, t + 1, b);
      }
    }
  }

  /** Between two places, at least the hops threaded between them. */
  lemma {:induction false} HopsBetween(p: Path, q: Path, via: seq<nat>, a: nat, b: nat)
    requires |via| == |p| && a <= b <= |p|
    requires forall c :: 0 <= c < |p| ==> via[c] < |q| && (p[c].Hop? ==> q[via[c]].Hop?)
    requires forall c, d :: 0 <= c < d < |p| ==> via[c] < via[d]
    ensures var s, t := if a < |p| then via[a] else |q|, if b < |p| then via[b] else |q|;
            s <= t <= |q| && Hops(q, t) - Hops(q, s) >= Hops(p, b) - Hops(p, a)
    decreases b
  {
    if a < b {
      HopsBetween(p, q, via, a, b - 1);
      HopsRise(q, via[b - 1] + 1, if b < |p| then via[b] else |q|);
    }
  }

  /** A threaded hop is the same hop: as many precede it in both spellings. */
  lemma SameHop(p: Path, q: Path, via: seq<nat>, a: nat)
    requires |via| == |p| && a < |p| && p[a].Hop? && A.Bare(p) == A.Bare(q)
    requires forall c :: 0 <= c < |p| ==> via[c] < |q| && (p[c].Hop? ==> q[via[c]].Hop?)
    requires forall c, d :: 0 <= c < d < |p| ==> via[c] < via[d]
    ensures q[via[a]] == p[a]
  {
    hide Hops, A.Bare;
    NoHops(p);
    NoHops(q);
    HopsBetween(p, q, via, 0, a);
    HopsBetween(p, q, via, a, |p|);
    HopsRise(q, 0, via[0]);
    BareHops(p, a);
    BareHops(q, via[a]);
  }

  lemma NoHops(p: Path)
    ensures Hops(p, 0) == 0
  {}

  /** A tight path threads through every other neat spelling of its selection. */
  lemma Thread(p: Path, q: Path, there: seq<nat>, back: seq<nat>) returns (via: seq<nat>)
    requires Matched(p, q, there, back) && Included(p, q)
    ensures Threads(p, q, via)
  {
    hide Matched, Placed, Hops, A.Bare;
    MatchedShape(p, q, there, back);
    via := Place(p, q, there, back, |p|);
    OneBare(p, q);
    forall c | 0 <= c < |p| ensures via[c] < |q| && (p[c].Hop? ==> q[via[c]].Hop?)
           && (p[c].AnyDepth? ==> q[via[c]] == p[c]) {
      PlacedKind(p, q, there, c, via[c]);
    }
    forall c, d | 0 <= c < d < |p| ensures via[c] < via[d] {
      PlacedRise(p, q, there, back, via, c, d);
    }
    forall c | 0 <= c < |p| ensures q[via[c]] == p[c] {
      if p[c].Hop? {
        SameHop(p, q, via, c);
      }
    }
    forall t | 0 <= t < |q| && q[t].Hop? ensures t in via {
      if t !in via {
        HopsThreaded(p, q, via, |p|, t);
        BareHops(p, 0);
        BareHops(q, 0);
      }
    }
  }

  lemma MatchedShape(p: Path, q: Path, there: seq<nat>, back: seq<nat>)
    requires Matched(p, q, there, back)
    ensures |there| == |p| && |back| == |q| && Neat(p) && Tight(p) && Neat(q) && Included(q, p) && Maps(p, q, there)
            && Maps(q, p, back)
  {}

  lemma PlacedKind(p: Path, q: Path, there: seq<nat>, a: nat, t: nat)
    requires |there| == |p| && a < |p| && Placed(p, q, there, a, t)
    ensures t < |q| && (p[a].Hop? ==> q[t].Hop?) && (p[a].AnyDepth? ==> q[t] == p[a])
  {
    hide Pinned;
  }

  // ─── and nothing is left over ───

  /** `p` threaded through `q`, its wildcards found again on the way back. */
  ghost predicate Woven(p: Path, q: Path, via: seq<nat>, back: seq<nat>) {
    && Neat(p) && Tight(p) && Neat(q) && Included(q, p) && Threads(p, q, via) && Maps(q, p, back)
    && forall i :: 0 <= i < |p| && p[i].AnyDepth? ==> back[via[i]] == i
  }

  lemma Weave(p: Path, q: Path, via: seq<nat>, back: seq<nat>)
    requires Neat(p) && Tight(p) && Neat(q) && Included(q, p) && Threads(p, q, via) && Maps(q, p, back)
    ensures Woven(p, q, via, back)
  {
    hide Neat, Tight, Included;
    forall a | 0 <= a < |p| ensures Lands(p[a], q[via[a]]) {
      LandsOnSelf(p[a]);
    }
    assert Maps(p, q, via);
    var self := MapsThrough(p, q, p, via, back);
    StarsStay(p, self);
  }

  /** `p` with two letters let in before segment `k`. */
  function Spread(p: Path, k: nat, u: Field, v: Field): (x: Path)
    requires k <= |p|
    ensures |x| == |p| + 2 && x[k] == Hop(u) && x[k + 1] == Hop(v)
    ensures (forall a :: 0 <= a < k ==> x[a] == p[a]) && forall a :: k + 2 <= a < |x| ==> x[a] == p[a - 2]
  {
    p[..k] + [Hop(u), Hop(v)] + p[k..]
  }

  /** Letters that wildcards of `q` between two places could spell. */
  lemma SpreadIncluded(p: Path, q: Path, via: seq<nat>, k: nat, u: Field, v: Field, s: nat, t: nat)
    requires Threads(p, q, via) && 1 <= k < |p| && via[k - 1] <= s <= t <= via[k]
    requires Lands(Hop(u), q[s]) && q[s].AnyDepth? && Lands(Hop(v), q[t]) && q[t].AnyDepth?
    ensures Included(Spread(p, k, u, v), q)
  {
    hide Lands, Threads, Maps, Covers, Included, Spread, SpreadAt;
    ThreadsShape(p, q, via);
    var x := Spread(p, k, u, v);
    var m := seq(|x|, a requires 0 <= a < |x| => SpreadAt(via, k, s, t, a));
    forall a | 0 <= a < |x| ensures m[a] < |q| && Lands(x[a], q[m[a]]) {
      SpreadLands(p, q, via, k, u, v, s, t, a);
    }
    forall a, b | 0 <= a < b < |x| ensures m[a] <= m[b] && (m[a] == m[b] ==> q[m[a]].AnyDepth?) {
      SpreadRises(p, q, via, k, s, t, a, b);
    }
    MapsBuilt(x, q, m);
    SpreadCovers(p, q, via, k, u, v, s, t, m);
    CoverIncludes(x, q, m);
  }

  lemma ThreadsShape(p: Path, q: Path, via: seq<nat>)
    requires Threads(p, q, via)
    ensures |via| == |p|
  {}

  lemma ThreadAt(p: Path, q: Path, via: seq<nat>, a: nat, b: nat)
    requires Threads(p, q, via) && a <= b < |p|
    ensures |via| == |p| && via[a] <= via[b] < |q| && q[via[a]] == p[a] && (a < b ==> via[a] < via[b])
  {}

  /** Where segment `a` of the spread path stands in `q`. */
  function SpreadAt(via: seq<nat>, k: nat, s: nat, t: nat, a: nat): nat
    requires k <= |via| && a < |via| + 2
  {
    if a < k then via[a] else if a == k then s else if a == k + 1 then t else via[a - 2]
  }

  lemma SpreadLands(p: Path, q: Path, via: seq<nat>, k: nat, u: Field, v: Field, s: nat, t: nat, a: nat)
    requires Threads(p, q, via) && 1 <= k < |p| && via[k - 1] <= s <= t <= via[k] && a < |p| + 2
    requires Lands(Hop(u), q[s]) && Lands(Hop(v), q[t])
    ensures |via| == |p| && SpreadAt(via, k, s, t, a) < |q|
            && Lands(Spread(p, k, u, v)[a], q[SpreadAt(via, k, s, t, a)])
  {
    hide Lands, Threads, Spread;
    ThreadAt(p, q, via, k, k);
    var b := if a < k then a else if a < k + 2 then 0 else a - 2;
    ThreadAt(p, q, via, b, b);
    LandsOnSelf(p[b]);
  }

  lemma SpreadRises(p: Path, q: Path, via: seq<nat>, k: nat, s: nat, t: nat, a: nat, b: nat)
    requires Threads(p, q, via) && 1 <= k < |p| && via[k - 1] <= s <= t <= via[k] && a < b < |p| + 2
    requires q[s].AnyDepth? && q[t].AnyDepth?
    ensures |via| == |p|
    ensures var c, d := SpreadAt(via, k, s, t, a), SpreadAt(via, k, s, t, b);
            c <= d < |q| && (c == d ==> q[c].AnyDepth?)
  {
    hide Threads;
    ThreadAt(p, q, via, k, k);
    if b < k {
      ThreadAt(p, q, via, a, b);
    } else if a >= k + 2 {
      ThreadAt(p, q, via, a - 2, b - 2);
    } else {
      if a < k {
        ThreadAt(p, q, via, a, k - 1);
        ThreadAt(p, q, via, k - 1, k);
      }
      if b >= k + 2 {
        ThreadAt(p, q, via, k, b - 2);
      }
    }
  }

  lemma SpreadCovers(p: Path, q: Path, via: seq<nat>, k: nat, u: Field, v: Field, s: nat, t: nat, m: seq<nat>)
    requires Threads(p, q, via) && k <= |via| && |m| == |p| + 2 && Maps(Spread(p, k, u, v), q, m)
    requires forall a :: 0 <= a < |m| ==> m[a] == SpreadAt(via, k, s, t, a)
    ensures Covers(Spread(p, k, u, v), q, m)
  {
    hide Lands, Spread, Maps;
    forall h | 0 <= h < |q| && q[h].Hop? ensures h in m {
      assert h in via;
      var a :| 0 <= a < |via| && via[a] == h;
      assert m[if a < k then a else a + 2] == h;
    }
  }

  lemma SpreadHolds(p: Path, k: nat, u: Field, v: Field) returns (at: seq<nat>)
    requires k <= |p|
    ensures Maps(p, Spread(p, k, u, v), at) && forall a :: 0 <= a < |p| ==> at[a] == if a < k then a else a + 2
  {
    at := seq(|p|, a requires 0 <= a < |p| => if a < k then a else a + 2);
    forall a | 0 <= a < |p| ensures Lands(p[a], Spread(p, k, u, v)[at[a]]) {
      LandsOnSelf(p[a]);
    }
  }

  lemma SpreadFilled(p: Path, k: nat, u: Field, v: Field)
    requires Neat(p) && k <= |p|
    ensures Filled(Spread(p, k, u, v))
  {
    var x := Spread(p, k, u, v);
    forall a | 0 <= a < |x| && x[a].AnyDepth? ensures x[a].descend != [] {
      assert a < k || a >= k + 2;
    }
  }

  /** A wildcard left over just before a pinned hop adds nothing to its left
      neighbour. */
  lemma LeftOverLeft(p: Path, q: Path, via: seq<nat>, k: nat, t: nat)
    requires Neat(p) && Tight(p) && Neat(q) && Included(q, p) && Threads(p, q, via)
    requires k < |p| && Pinned(p, k) && via[k - 1] < t < via[k] && q[t].AnyDepth?
    ensures A.Contains(p[k - 1].descend, q[t].descend)
  {
    hide Neat, Tight, Included, Threads, Filled, Spread, Pinned, Maps;
    PinnedShape(p, k);
    ThreadAt(p, q, via, k - 1, k);
    if !A.Contains(p[k - 1].descend, q[t].descend) {
      var u := ApartLetter(p[k - 1].descend, p[k + 1].descend);
      var v := ApartLetter(q[t].descend, p[k - 1].descend);
      var x := Spread(p, k, u, v);
      SpreadIncluded(p, q, via, k, u, v, via[k - 1], t);
      IncludedThrough(x, q, p);
      var at := SpreadHolds(p, k, u, v);
      SpreadFilled(p, k, u, v);
      PinnedParts(p, x, at, k, k);
    }
  }

  lemma LeftOverRight(p: Path, q: Path, via: seq<nat>, k: nat, t: nat)
    requires Neat(p) && Tight(p) && Neat(q) && Included(q, p) && Threads(p, q, via)
    requires k < |p| && Pinned(p, k) && |via| == |p| && via[k] < t < via[k + 1] && q[t].AnyDepth?
    ensures A.Contains(p[k + 1].descend, q[t].descend)
  {
    hide Neat, Tight, Included, Threads, Filled, Spread, Pinned, Maps;
    PinnedShape(p, k);
    ThreadAt(p, q, via, k, k + 1);
    ThreadAt(p, q, via, k + 1, k + 1);
    if !A.Contains(p[k + 1].descend, q[t].descend) {
      var u := ApartLetter(q[t].descend, p[k + 1].descend);
      var v := ApartLetter(p[k + 1].descend, p[k - 1].descend);
      var x := Spread(p, k + 1, u, v);
      SpreadIncluded(p, q, via, k + 1, u, v, t, via[k + 1]);
      IncludedThrough(x, q, p);
      var at := SpreadHolds(p, k + 1, u, v);
      SpreadFilled(p, k + 1, u, v);
      PinnedParts(p, x, at, k, k + 1);
    }
  }

  /** A wildcard left over just before place `a` cannot go back to or past `a`. */
  lemma NoneBeforeRight(p: Path, q: Path, via: seq<nat>, back: seq<nat>, a: nat, u: nat)
    requires Woven(p, q, via, back) && a < |p| && |via| == |p| && |back| == |q| && 1 <= via[a] < |q|
    requires q[via[a] - 1].AnyDepth? && (a > 0 ==> forall t :: via[a - 1] < t < via[a] ==> q[t].AnyDepth?)
    requires a > 0 ==> via[a - 1] < via[a] - 1
    requires a <= u
    ensures back[via[a] - 1] != u
  {
    hide Neat, Tight, Included, Threads, Maps, Lands, Pinned;
    var e := via[a] - 1;
    if back[e] == u {
      MapsRange(q, p, back, e);
      LandsInStar(q[e], p[u]);
      ThreadAt(p, q, via, a, u);
      if u == a {
        NeatApart(q, via[a]);
      } else {
        ThreadAt(p, q, via, a, u - 1);
        ThreadAt(p, q, via, u - 1, u);
        MapsBetween(q, p, back, e, via[u - 1], via[u]);
        if a <= u - 2 {
          ThreadAt(p, q, via, a, u - 2);
          ThreadAt(p, q, via, u - 2, u);
          MapsBetween(q, p, back, e, via[u - 2], via[u]);
        }
        TakesLeft(p, u);
        PinnedShape(p, a);
        LeftOverLeft(p, q, via, a, via[a - 1] + 1);
        ThreadAt(p, q, via, a - 1, a);
        NeatApart(q, via[a - 1] + 1);
      }
    }
  }

  /** And one just after place `a` cannot go back to or before `a`. */
  lemma NoneAfterLeft(p: Path, q: Path, via: seq<nat>, back: seq<nat>, a: nat, u: nat)
    requires Woven(p, q, via, back) && a < |p| && |via| == |p| && |back| == |q| && via[a] + 1 < |q|
    requires q[via[a] + 1].AnyDepth?
    requires a + 1 < |p| ==> via[a + 1] <= |q| && forall t :: via[a] < t < via[a + 1] ==> q[t].AnyDepth?
    requires a + 1 < |p| ==> via[a] + 1 < via[a + 1]
    requires u <= a
    ensures back[via[a] + 1] != u
  {
    hide Neat, Tight, Included, Threads, Maps, Lands, Pinned;
    var e := via[a] + 1;
    if back[e] == u {
      MapsRange(q, p, back, e);
      LandsInStar(q[e], p[u]);
      ThreadAt(p, q, via, u, a);
      ThreadAt(p, q, via, a, a);
      if u == a {
        NeatApart(q, e);
      } else {
        ThreadAt(p, q, via, u + 1, a);
        ThreadAt(p, q, via, u, u + 1);
        MapsBetween(q, p, back, via[u], via[u + 1], e);
        if u + 2 <= a {
          ThreadAt(p, q, via, u + 2, a);
          ThreadAt(p, q, via, u, u + 2);
          MapsBetween(q, p, back, via[u], via[u + 2], e);
        }
        TakesRight(p, u);
        PinnedShape(p, a);
        ThreadAt(p, q, via, a, a + 1);
        ThreadAt(p, q, via, a + 1, a + 1);
        LeftOverRight(p, q, via, a, via[a + 1] - 1);
        NeatApart(q, via[a + 1]);
      }
    }
  }

  lemma LandsInStar(s: Segment, t: Segment)
    requires s.AnyDepth? && Lands(s, t)
    ensures t.AnyDepth? && A.Contains(t.descend, s.descend)
  {}

  lemma NeatApart(q: Path, t: nat)
    requires Neat(q) && 1 <= t < |q| && q[t - 1].AnyDepth? && q[t].AnyDepth?
    ensures !A.Contains(q[t].descend, q[t - 1].descend) && !A.Contains(q[t - 1].descend, q[t].descend)
  {
    assert !A.Respelled(q, t);
  }

  lemma Uncovered(p: Path, q: Path, via: seq<nat>, a: nat)
    requires Threads(p, q, via) && a <= |p|
    ensures |via| == |p| && forall c :: 0 <= c < |p| ==> via[c] < |q|
    ensures var lo, hi := if a > 0 then via[a - 1] else -1, if a < |p| then via[a] else |q|;
            lo < hi && forall t :: lo < t < hi ==> q[t].AnyDepth?
  {
    var lo, hi := if a > 0 then via[a - 1] else -1, if a < |p| then via[a] else |q|;
    forall c | 0 <= c < |p| ensures c < a ==> via[c] <= lo {
      if c < a { ThreadAt(p, q, via, c, a - 1); }
    }
    forall c | 0 <= c < |p| ensures a <= c ==> hi <= via[c] {
      if a <= c { ThreadAt(p, q, via, a, c); }
    }
  }

  /** No segment of `q` lies between neighbouring places. */
  lemma NoGap(p: Path, q: Path, via: seq<nat>, back: seq<nat>, a: nat)
    requires Woven(p, q, via, back) && a <= |p|
    ensures |via| == |p| && (if a < |p| then via[a] else |q|) == (if a > 0 then via[a - 1] else -1) + 1
  {
    hide Neat, Tight, Included, Threads, Maps, Lands;
    Uncovered(p, q, via, a);
    var lo, hi := if a > 0 then via[a - 1] else -1, if a < |p| then via[a] else |q|;
    MapsShape(q, p, back);
    if hi > lo + 1 {
      MapsRange(q, p, back, lo + 1);
      MapsRange(q, p, back, hi - 1);
      if a < |p| && a <= back[hi - 1] {
        NoneBeforeRight(p, q, via, back, a, back[hi - 1]);
      }
      if a > 0 && back[lo + 1] <= a - 1 {
        NoneAfterLeft(p, q, via, back, a - 1, back[lo + 1]);
      }
      if lo + 1 < hi - 1 {
        MapsOrder(q, p, back, lo + 1, hi - 1);
      }
    }
  }

  lemma {:induction false} PlacesAre(p: Path, q: Path, via: seq<nat>, back: seq<nat>, a: nat)
    requires Woven(p, q, via, back) && a <= |p|
    ensures |via| == |p| && (if a < |p| then via[a] else |q|) == a
  {
    hide Woven;
    NoGap(p, q, via, back, a);
    if a > 0 {
      PlacesAre(p, q, via, back, a - 1);
    }
  }

  /** Two neat spellings of one selection, one of them tight, are one spelling. */
  lemma TightIsOnly(p: Path, q: Path)
    requires Neat(p) && Tight(p) && Neat(q) && A.OneSelection(p, q)
    ensures p == q
  {
    hide Neat, Tight, Woven;
    NeatFilled(p);
    NeatFilled(q);
    var there := InclusionMaps(p, q);
    var back := InclusionMaps(q, p);
    var via := Thread(p, q, there, back);
    Weave(p, q, via, back);
    PlacesAre(p, q, via, back, |p|);
    forall a | 0 <= a < |p| ensures p[a] == q[a] {
      PlacesAre(p, q, via, back, a);
    }
  }

  lemma NeatFilled(p: Path)
    requires Neat(p)
    ensures Filled(p)
  {}
}
