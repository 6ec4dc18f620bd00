/** Language inclusion between paths as maps between their segments: an
    inclusion forces a map, and a map that covers the hops gives an inclusion
    (src/path.rs). */
module Embeddings {
  import opened Wire
  import opened Paths
  import A = Admission

  // ─── a word cut along a path ───

  /** Cut points: segment `s` spells the word between cuts `s` and `s + 1`. */
  predicate Cuts(path: Path, word: Word, cuts: seq<nat>) {
    && |cuts| == |path| + 1 && cuts[0] == 0 && cuts[|path|] == |word|
    && forall s :: 0 <= s < |path| ==> CutAt(path, word, cuts, s)
  }

  predicate CutAt(path: Path, word: Word, cuts: seq<nat>, s: nat)
    requires s < |path| && |cuts| == |path| + 1
  {
    cuts[s] <= cuts[s + 1] <= |word| && Spans(path[s], word[cuts[s]..cuts[s + 1]])
  }

  lemma {:induction false} CutsExist(path: Path, word: Word) returns (cuts: seq<nat>)
    requires InLanguage(path, word)
    ensures Cuts(path, word, cuts)
  {
    hide InLanguage, CutAt;
    if path == [] {
      NothingSpells(word);
      cuts := [0];
    } else {
      var k := FirstPiece(path, word);
      var tail := CutsExist(path[1..], word[k..]);
      cuts := [0] + seq(|tail|, s requires 0 <= s < |tail| => k + tail[s]);
      FirstCut(path, word, cuts, k);
      forall s | 1 <= s < |path| ensures CutAt(path, word, cuts, s) {
        CutShifts(path, word, cuts, k, tail, s);
      }
    }
  }

  lemma NothingSpells(word: Word)
    ensures InLanguage([], word) <==> word == []
  {}

  lemma FirstCut(path: Path, word: Word, cuts: seq<nat>, k: nat)
    requires path != [] && k <= |word| && Spans(path[0], word[..k]) && |cuts| == |path| + 1 && cuts[0] == 0
             && cuts[1] == k
    ensures CutAt(path, word, cuts, 0)
  {
    assert word[0..k] == word[..k];
  }

  lemma CutShifts(path: Path, word: Word, cuts: seq<nat>, k: nat, tail: seq<nat>, s: nat)
    requires 1 <= s < |path| && k <= |word| && Cuts(path[1..], word[k..], tail) && |cuts| == |path| + 1
    requires cuts[s] == k + tail[s - 1] && cuts[s + 1] == k + tail[s]
    ensures CutAt(path, word, cuts, s)
  {
    assert CutAt(path[1..], word[k..], tail, s - 1);
    SliceOfRest(word, k, cuts[s], cuts[s + 1]);
  }

  lemma {:induction false} CutsSpell(path: Path, word: Word, cuts: seq<nat>)
    requires Cuts(path, word, cuts)
    ensures InLanguage(path, word)
  {
    hide InLanguage, CutAt;
    if path == [] {
      NothingSpells(word);
    } else {
      var k := cuts[1];
      FirstSpans(path, word, cuts);
      var tail := seq(|path|, s requires 0 <= s < |path| => TailCut(path, word, cuts, s));
      forall s | 0 <= s < |path| - 1 ensures CutAt(path[1..], word[k..], tail, s) {
        CutShiftsBack(path, word, cuts, tail, s);
      }
      CutsSpell(path[1..], word[k..], tail);
      TakesPiece(path, word, k);
    }
  }

  lemma FirstSpans(path: Path, word: Word, cuts: seq<nat>)
    requires Cuts(path, word, cuts) && path != []
    ensures cuts[1] <= |word| && Spans(path[0], word[..cuts[1]])
  {
    assert CutAt(path, word, cuts, 0);
    assert word[0..cuts[1]] == word[..cuts[1]];
  }

  lemma CutShiftsBack(path: Path, word: Word, cuts: seq<nat>, tail: seq<nat>, s: nat)
    requires Cuts(path, word, cuts) && s + 1 < |path| && |tail| == |path| && cuts[1] <= |word|
    requires tail[s] == TailCut(path, word, cuts, s) && tail[s + 1] == TailCut(path, word, cuts, s + 1)
    ensures CutAt(path[1..], word[cuts[1]..], tail, s)
  {
    assert CutAt(path, word, cuts, s + 1);
    CutsRise(path, word, cuts, 1, s + 1);
    SliceOfRest(word, cuts[1], cuts[s + 1], cuts[s + 2]);
  }

  lemma SliceOfRest(word: Word, k: nat, lo: nat, hi: nat)
    requires k <= lo <= hi <= |word|
    ensures word[k..][lo - k..hi - k] == word[lo..hi]
  {}

  function TailCut(path: Path, word: Word, cuts: seq<nat>, s: nat): nat
    requires Cuts(path, word, cuts) && s < |path|
  {
    CutsRise(path, word, cuts, 1, s + 1);
    cuts[s + 1] - cuts[1]
  }

  lemma {:induction false} CutsRise(path: Path, word: Word, cuts: seq<nat>, a: nat, b: nat)
    requires Cuts(path, word, cuts) && a <= b <= |path|
    ensures cuts[a] <= cuts[b]
    decreases b
  {
    if a < b {
      CutsRise(path, word, cuts, a, b - 1);
      assert CutAt(path, word, cuts, b - 1);
    }
  }

  /** The segment that spells the letter at a position. */
  function Owner(path: Path, word: Word, cuts: seq<nat>, pos: nat, n: nat): (s: nat)
    requires Cuts(path, word, cuts) && n <= |path| && pos < cuts[n]
    ensures s < n && cuts[s] <= pos < cuts[s + 1]
    decreases n
  {
    if cuts[n - 1] <= pos then n - 1 else Owner(path, word, cuts, pos, n - 1)
  }

  lemma OwnerRises(path: Path, word: Word, cuts: seq<nat>, i: nat, j: nat)
    requires Cuts(path, word, cuts) && i <= j < |word|
    ensures Owner(path, word, cuts, i, |path|) <= Owner(path, word, cuts, j, |path|)
  {
    var s, t := Owner(path, word, cuts, i, |path|), Owner(path, word, cuts, j, |path|);
    if t < s {
      CutsRise(path, word, cuts, t + 1, s);
    }
  }

  /** What its owner says of a letter: a hop owns exactly its own one. */
  lemma OwnedLetter(path: Path, word: Word, cuts: seq<nat>, pos: nat)
    requires Cuts(path, word, cuts) && pos < |word|
    ensures var s := Owner(path, word, cuts, pos, |path|);
            && (path[s].Hop? ==> word[pos] == path[s].field && cuts[s] == pos && cuts[s + 1] == pos + 1)
            && (path[s].AnyDepth? ==> word[pos] in path[s].descend)
  {
    var s := Owner(path, word, cuts, pos, |path|);
    assert CutAt(path, word, cuts, s);
    var piece := word[cuts[s]..cuts[s + 1]];
    assert piece[pos - cuts[s]] == word[pos];
  }

  // ─── maps between paths ───

  /** What may stand for a segment: the same hop, or a wildcard that holds it. */
  predicate Lands(s: Segment, t: Segment) {
    match t
    case Hop(_) => s == t
    case AnyDepth(d) => if s.Hop? then s.field in d else A.Contains(d, s.descend)
  }

  /** An order-keeping map of segments; only a wildcard takes more than one. */
  predicate Maps(x: Path, p: Path, m: seq<nat>) {
    && |m| == |x|
    && (forall a :: 0 <= a < |x| ==> m[a] < |p| && Lands(x[a], p[m[a]]))
    && (forall a, b :: 0 <= a < b < |x| ==> m[a] <= m[b] && (m[a] == m[b] ==> p[m[a]].AnyDepth?))
  }

  /** Neighbouring hops are neighbouring letters: no hop is passed over between. */
  predicate Close(x: Path, p: Path, m: seq<nat>)
    requires Maps(x, p, m)
  {
    forall a, t :: 0 <= a < |x| - 1 && x[a].Hop? && x[a + 1].Hop? && m[a] < t < m[a + 1] ==> p[t].AnyDepth?
  }

  /** Every hop stands for a hop. */
  predicate Covers(x: Path, p: Path, m: seq<nat>)
    requires Maps(x, p, m)
  {
    forall t :: 0 <= t < |p| && p[t].Hop? ==> t in m
  }

  ghost predicate Included(x: Path, p: Path) {
    forall word: Word :: InLanguage(x, word) ==> InLanguage(p, word)
  }

  lemma LandsThrough(s: Segment, t: Segment, u: Segment)
    requires Lands(s, t) && Lands(t, u)
    ensures Lands(s, u)
  {
    if s.AnyDepth? && t.AnyDepth? && u.AnyDepth? {
      forall i | 0 <= i < |s.descend| ensures s.descend[i] in u.descend {
        assert s.descend[i] in t.descend;
      }
    }
  }

  /** Maps compose. */
  lemma MapsThrough(x: Path, y: Path, z: Path, m: seq<nat>, n: seq<nat>) returns (mn: seq<nat>)
    requires Maps(x, y, m) && Maps(y, z, n)
    ensures Maps(x, z, mn) && forall a :: 0 <= a < |x| ==> mn[a] == n[m[a]]
  {
    mn := seq(|x|, a requires 0 <= a < |x| => n[m[a]]);
    forall a | 0 <= a < |x| ensures mn[a] < |z| && Lands(x[a], z[mn[a]]) {
      LandsThrough(x[a], y[m[a]], z[n[m[a]]]);
    }
  }

  // ─── a covering map is an inclusion ───

  /** The first segment mapped to `t` or beyond. */
  function FirstAt(m: seq<nat>, t: nat, a: nat): (r: nat)
    requires a <= |m|
    ensures a <= r <= |m| && (r < |m| ==> m[r] >= t) && forall b :: a <= b < r ==> m[b] < t
    decreases |m| - a
  {
    if a == |m| || m[a] >= t then a else FirstAt(m, t, a + 1)
  }

  lemma FirstRises(x: Path, p: Path, m: seq<nat>, t: nat)
    requires Maps(x, p, m)
    ensures FirstAt(m, t, 0) <= FirstAt(m, t + 1, 0)
    ensures forall a :: 0 <= a < |x| ==> (FirstAt(m, t, 0) <= a < FirstAt(m, t + 1, 0) <==> m[a] == t)
  {}

  lemma CoverIncludes(x: Path, p: Path, m: seq<nat>)
    requires Maps(x, p, m) && Covers(x, p, m)
    ensures Included(x, p)
  {
    forall word: Word | InLanguage(x, word) ensures InLanguage(p, word) {
      var cuts := CutsExist(x, word);
      CoverSpells(x, p, m, word, cuts);
    }
  }

  lemma CoverSpells(x: Path, p: Path, m: seq<nat>, word: Word, cuts: seq<nat>)
    requires Maps(x, p, m) && Covers(x, p, m) && Cuts(x, word, cuts)
    ensures InLanguage(p, word)
  {
    var over := seq(|p| + 1, t requires 0 <= t <= |p| => cuts[FirstAt(m, t, 0)]);
    assert FirstAt(m, 0, 0) == 0 && FirstAt(m, |p|, 0) == |x|;
    forall t | 0 <= t < |p| ensures CutAt(p, word, over, t) {
      CoverCuts(x, p, m, word, cuts, t);
    }
    CutsSpell(p, word, over);
  }

  lemma CoverCuts(x: Path, p: Path, m: seq<nat>, word: Word, cuts: seq<nat>, t: nat)
    requires Maps(x, p, m) && Covers(x, p, m) && Cuts(x, word, cuts) && t < |p|
    ensures var lo, hi := cuts[FirstAt(m, t, 0)], cuts[FirstAt(m, t + 1, 0)];
            lo <= hi <= |word| && Spans(p[t], word[lo..hi])
  {
    FirstRises(x, p, m, t);
    var f, g := FirstAt(m, t, 0), FirstAt(m, t + 1, 0);
    CutsRise(x, word, cuts, f, g);
    CutsRise(x, word, cuts, g, |x|);
    if p[t].Hop? {
      var a :| 0 <= a < |m| && m[a] == t;
      assert f <= a < g;
      CoverOnce(x, p, m, t, a);
      assert CutAt(x, word, cuts, a);
    } else {
      forall i | 0 <= i < |word[cuts[f]..cuts[g]]| ensures word[cuts[f]..cuts[g]][i] in p[t].descend {
        LetterLands(x, p, m, word, cuts, t, cuts[f] + i);
      }
    }
  }

  /** A hop takes one segment alone. */
  lemma CoverOnce(x: Path, p: Path, m: seq<nat>, t: nat, a: nat)
    requires Maps(x, p, m) && t < |p| && p[t].Hop? && a < |x| && m[a] == t
    ensures FirstAt(m, t, 0) == a && FirstAt(m, t + 1, 0) == a + 1
  {
    FirstRises(x, p, m, t);
    forall b | 0 <= b < |x| && b != a ensures m[b] != t {
      assert b < a || a < b;
    }
    var f, g := FirstAt(m, t, 0), FirstAt(m, t + 1, 0);
    assert f <= a < g <= |x|;
    assert m[f] == t && m[g - 1] == t;
  }

  lemma LetterLands(x: Path, p: Path, m: seq<nat>, word: Word, cuts: seq<nat>, t: nat, pos: nat)
    requires Maps(x, p, m) && Cuts(x, word, cuts) && t < |p| && p[t].AnyDepth?
    requires cuts[FirstAt(m, t, 0)] <= pos < cuts[FirstAt(m, t + 1, 0)] <= |word|
    ensures word[pos] in p[t].descend
  {
    FirstRises(x, p, m, t);
    var f, g := FirstAt(m, t, 0), FirstAt(m, t + 1, 0);
    var a := Owner(x, word, cuts, pos, |x|);
    if a < f { CutsRise(x, word, cuts, a + 1, f); }
    if a >= g { CutsRise(x, word, cuts, g, a); }
    assert m[a] == t;
    OwnedLetter(x, word, cuts, pos);
  }

  // ─── an inclusion is a map ───

  /** A wildcard's set, spelled `n` times over. */
  function Repeated(d: seq<Field>, n: nat): Word {
    if n == 0 then [] else Repeated(d, n - 1) + d
  }

  function Block(s: Segment, n: nat): Word {
    if s.Hop? then [s.field] else Repeated(s.descend, n)
  }

  /** The first `k` segments, every wildcard pumped `n` times. */
  function Pumped(x: Path, n: nat, k: nat): Word
    requires k <= |x|
  {
    if k == 0 then [] else Pumped(x, n, k - 1) + Block(x[k - 1], n)
  }

  lemma {:induction false} PumpedPrefix(x: Path, n: nat, k: nat, e: nat)
    requires k <= e <= |x|
    ensures Pumped(x, n, k) <= Pumped(x, n, e)
    decreases e
  {
    if k < e {
      PumpedPrefix(x, n, k, e - 1);
    }
  }

  lemma {:induction false} RepeatedPrefix(d: seq<Field>, k: nat, e: nat)
    requires k <= e
    ensures Repeated(d, k) <= Repeated(d, e)
    decreases e
  {
    if k < e {
      RepeatedPrefix(d, k, e - 1);
    }
  }

  lemma {:induction false} RepeatedSpans(d: seq<Field>, n: nat)
    ensures Spans(AnyDepth(d), Repeated(d, n))
  {
    if n > 0 {
      RepeatedSpans(d, n - 1);
    }
  }

  /** Segment `k` of the pumped word is its block. */
  lemma PumpedPiece(x: Path, n: nat, k: nat)
    requires k < |x|
    ensures var word := Pumped(x, n, |x|);
            && |Pumped(x, n, k)| <= |Pumped(x, n, k + 1)| <= |word|
            && word[|Pumped(x, n, k)|..|Pumped(x, n, k + 1)|] == Block(x[k], n)
  {
    PumpedPrefix(x, n, k + 1, |x|);
  }

  lemma PumpedSpelled(x: Path, n: nat)
    ensures InLanguage(x, Pumped(x, n, |x|))
  {
    var word := Pumped(x, n, |x|);
    var cuts := seq(|x| + 1, k requires 0 <= k <= |x| => |Pumped(x, n, k)|);
    forall k | 0 <= k < |x| ensures CutAt(x, word, cuts, k) {
      PumpedPiece(x, n, k);
      if x[k].AnyDepth? {
        RepeatedSpans(x[k].descend, n);
      }
    }
    CutsSpell(x, word, cuts);
  }

  lemma {:induction false} Pigeons(b: seq<nat>, bound: nat) returns (c: nat)
    requires |b| > bound && (forall i :: 0 <= i < |b| ==> b[i] < bound)
    requires forall i, j :: 0 <= i < j < |b| ==> b[i] <= b[j]
    ensures c + 1 < |b| && b[c] == b[c + 1]
  {
    if b[|b| - 2] == b[|b| - 1] {
      c := |b| - 2;
    } else {
      c := Pigeons(b[..|b| - 1], bound - 1);
    }
  }

  predicate Filled(x: Path) {
    forall a :: 0 <= a < |x| && x[a].AnyDepth? ==> x[a].descend != []
  }

  /** Enough copies of a wildcard's set force one whole copy into one wildcard. */
  lemma BlockLands(p: Path, word: Word, cuts: seq<nat>, d: seq<Field>, base: nat, n: nat) returns (pos: nat)
    requires Cuts(p, word, cuts) && d != [] && n > |p|
    requires base + |Repeated(d, n)| <= |word| && word[base..base + |Repeated(d, n)|] == Repeated(d, n)
    ensures base <= pos < base + |Repeated(d, n)| && Lands(AnyDepth(d), p[Owner(p, word, cuts, pos, |p|)])
  {
    hide Cuts, Owner, Lands, Repeated;
    var starts := StartOwners(p, word, cuts, d, base, n, n);
    var c := Pigeons(starts, |p|);
    pos := base + |Repeated(d, c)|;
    CopySits(d, c, n);
    CopySits(d, c + 1, n);
    InSlice(word, base, Repeated(d, n), |Repeated(d, c)|, |d|);
    CopyLands(p, word, cuts, d, pos);
  }

  lemma InSlice(word: Word, base: nat, piece: Word, lo: nat, len: nat)
    requires base + |piece| <= |word| && word[base..base + |piece|] == piece && lo + len <= |piece|
    ensures word[base + lo..base + lo + len] == piece[lo..lo + len]
  {
    var a, b := word[base + lo..base + lo + len], piece[lo..lo + len];
    forall k | 0 <= k < len ensures a[k] == b[k] {
      assert piece[lo + k] == word[base..base + |piece|][lo + k];
    }
  }

  /** The owners of the first `k` copies' starts, in order. */
  lemma {:induction false} StartOwners(p: Path, word: Word, cuts: seq<nat>, d: seq<Field>, base: nat, n: nat, k: nat)
    returns (starts: seq<nat>)
    requires Cuts(p, word, cuts) && d != [] && k <= n && base + |Repeated(d, n)| <= |word|
    ensures |starts| == k && (forall i, j :: 0 <= i < j < k ==> starts[i] <= starts[j])
    ensures forall i :: 0 <= i < k ==>
              base + |Repeated(d, i)| < |word| && starts[i] == Owner(p, word, cuts, base + |Repeated(d, i)|, |p|) < |p|
    decreases k
  {
    hide Cuts, Owner, Repeated;
    CutsEnd(p, word, cuts);
    if k == 0 {
      starts := [];
    } else {
      var before := StartOwners(p, word, cuts, d, base, n, k - 1);
      CopySits(d, k - 1, n);
      var here := base + |Repeated(d, k - 1)|;
      if k > 1 {
        CopySits(d, k - 2, k - 1);
        OwnerRises(p, word, cuts, base + |Repeated(d, k - 2)|, here);
      }
      starts := before + [Owner(p, word, cuts, here, |p|)];
    }
  }

  lemma CutsEnd(p: Path, word: Word, cuts: seq<nat>)
    requires Cuts(p, word, cuts)
    ensures |cuts| == |p| + 1 && cuts[|p|] == |word|
  {}

  /** Where copy `k` of `n` sits. */
  lemma CopySits(d: seq<Field>, k: nat, n: nat)
    requires d != [] && k <= n
    ensures |Repeated(d, k)| <= |Repeated(d, n)| && (k < n ==> |Repeated(d, k)| + |d| <= |Repeated(d, n)|)
    ensures |Repeated(d, k + 1)| == |Repeated(d, k)| + |d|
    ensures k < n ==> Repeated(d, n)[|Repeated(d, k)|..|Repeated(d, k)| + |d|] == d
  {
    RepeatedPrefix(d, k, n);
    if k < n {
      RepeatedPrefix(d, k + 1, n);
      var all := Repeated(d, n);
      assert all[..|Repeated(d, k + 1)|] == Repeated(d, k) + d;
    }
  }

  lemma CopyLands(p: Path, word: Word, cuts: seq<nat>, d: seq<Field>, pos: nat)
    requires Cuts(p, word, cuts) && d != [] && pos + |d| < |word| && word[pos..pos + |d|] == d
    requires Owner(p, word, cuts, pos, |p|) == Owner(p, word, cuts, pos + |d|, |p|)
    ensures Lands(AnyDepth(d), p[Owner(p, word, cuts, pos, |p|)])
  {
    var s := Owner(p, word, cuts, pos, |p|);
    OwnedLetter(p, word, cuts, pos);
    forall i | 0 <= i < |d| ensures p[s].AnyDepth? && d[i] in p[s].descend {
      OwnerRises(p, word, cuts, pos, pos + i);
      OwnerRises(p, word, cuts, pos + i, pos + |d|);
      OwnedLetter(p, word, cuts, pos + i);
      assert word[pos..pos + |d|][i] == word[pos + i];
    }
  }

  /** A letter of segment `a`'s block in the pumped word, whose owner may stand
      for the segment. */
  predicate Chosen(x: Path, p: Path, cuts: seq<nat>, n: nat, a: nat, pos: nat)
    requires Cuts(p, Pumped(x, n, |x|), cuts) && a < |x|
  {
    && |Pumped(x, n, a)| <= pos < |Pumped(x, n, a + 1)| <= |Pumped(x, n, |x|)|
    && Lands(x[a], p[Owner(p, Pumped(x, n, |x|), cuts, pos, |p|)])
  }

  lemma SegmentLands(x: Path, p: Path, cuts: seq<nat>, n: nat, a: nat) returns (pos: nat)
    requires Filled(x) && n > |p| && a < |x| && Cuts(p, Pumped(x, n, |x|), cuts)
    ensures Chosen(x, p, cuts, n, a, pos)
  {
    hide Cuts, Owner, Pumped;
    var word, base := Pumped(x, n, |x|), |Pumped(x, n, a)|;
    PumpedPiece(x, n, a);
    CutsEnd(p, word, cuts);
    if x[a].Hop? {
      pos := base;
      assert word[base..base + 1][0] == word[base];
      OwnedLetter(p, word, cuts, pos);
    } else {
      pos := BlockLands(p, word, cuts, x[a].descend, base, n);
    }
  }

  lemma {:induction false} ChooseLetters(x: Path, p: Path, cuts: seq<nat>, n: nat, k: nat) returns (pos: seq<nat>)
    requires Filled(x) && n > |p| && k <= |x| && Cuts(p, Pumped(x, n, |x|), cuts)
    ensures |pos| == k && forall a :: 0 <= a < k ==> Chosen(x, p, cuts, n, a, pos[a])
  {
    hide Cuts, Chosen, Pumped, Filled;
    if k == 0 {
      pos := [];
    } else {
      pos := ChooseLetters(x, p, cuts, n, k - 1);
      var last := SegmentLands(x, p, cuts, n, k - 1);
      pos := pos + [last];
    }
  }

  lemma ChosenRise(x: Path, p: Path, cuts: seq<nat>, n: nat, a: nat, b: nat, i: nat, j: nat)
    requires Cuts(p, Pumped(x, n, |x|), cuts) && a < b < |x| && Chosen(x, p, cuts, n, a, i)
             && Chosen(x, p, cuts, n, b, j)
    ensures i < j < |Pumped(x, n, |x|)|
    ensures var s, t := Owner(p, Pumped(x, n, |x|), cuts, i, |p|), Owner(p, Pumped(x, n, |x|), cuts, j, |p|);
            s <= t && (s == t ==> p[s].AnyDepth?)
    ensures b == a + 1 && x[a].Hop? && x[b].Hop? ==> j == i + 1
  {
    hide Cuts, Owner, Pumped, Lands;
    var word := Pumped(x, n, |x|);
    PumpedPrefix(x, n, a + 1, b);
    PumpedPiece(x, n, a);
    PumpedPiece(x, n, b);
    CutsEnd(p, word, cuts);
    OwnerRises(p, word, cuts, i, j);
    OwnedLetter(p, word, cuts, i);
    OwnedLetter(p, word, cuts, j);
  }

  lemma LettersMap(x: Path, p: Path, cuts: seq<nat>, n: nat, pos: seq<nat>) returns (m: seq<nat>)
    requires Cuts(p, Pumped(x, n, |x|), cuts) && |pos| == |x|
             && forall a :: 0 <= a < |x| ==> Chosen(x, p, cuts, n, a, pos[a])
    ensures Maps(x, p, m) && Close(x, p, m)
  {
    hide Cuts, Owner, Pumped, Lands;
    var word := Pumped(x, n, |x|);
    CutsEnd(p, word, cuts);
    m := seq(|x|, a requires 0 <= a < |x| => ChosenOwner(x, p, cuts, n, a, pos[a]));
    forall a, b | 0 <= a < b < |x| ensures m[a] <= m[b] && (m[a] == m[b] ==> p[m[a]].AnyDepth?) {
      ChosenRise(x, p, cuts, n, a, b, pos[a], pos[b]);
    }
    forall a, t | 0 <= a < |x| - 1 && x[a].Hop? && x[a + 1].Hop? && m[a] < t < m[a + 1] ensures p[t].AnyDepth? {
      ChosenRise(x, p, cuts, n, a, a + 1, pos[a], pos[a + 1]);
      NothingBetween(p, word, cuts, pos[a], t);
    }
  }

  function ChosenOwner(x: Path, p: Path, cuts: seq<nat>, n: nat, a: nat, pos: nat): (s: nat)
    requires Cuts(p, Pumped(x, n, |x|), cuts) && a < |x| && Chosen(x, p, cuts, n, a, pos)
    ensures s < |p| && Lands(x[a], p[s])
  {
    Owner(p, Pumped(x, n, |x|), cuts, pos, |p|)
  }

  /** Between the owners of neighbouring letters nothing is spelled. */
  lemma NothingBetween(p: Path, word: Word, cuts: seq<nat>, pos: nat, t: nat)
    requires Cuts(p, word, cuts) && pos + 1 < |word|
    requires Owner(p, word, cuts, pos, |p|) < t < Owner(p, word, cuts, pos + 1, |p|)
    ensures p[t].AnyDepth?
  {
    var s, u := Owner(p, word, cuts, pos, |p|), Owner(p, word, cuts, pos + 1, |p|);
    CutsRise(p, word, cuts, s + 1, t);
    CutsRise(p, word, cuts, t + 1, u);
    assert CutAt(p, word, cuts, t);
  }

  /** Inclusion forces a map that passes over no hop between neighbouring letters. */
  lemma InclusionMaps(x: Path, p: Path) returns (m: seq<nat>)
    requires Filled(x) && Included(x, p)
    ensures Maps(x, p, m) && Close(x, p, m)
  {
    var n := |p| + 1;
    PumpedSpelled(x, n);
    var cuts := CutsExist(p, Pumped(x, n, |x|));
    var pos := ChooseLetters(x, p, cuts, n, |x|);
    m := LettersMap(x, p, cuts, n, pos);
  }
}
