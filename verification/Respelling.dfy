/** The second spelling a loose hop gives, and so the exact condition under
    which the duplicate judgment is a judgment of selections (src/path.rs). */
module Respelling {
  import opened Wire
  import opened Paths
  import opened Embeddings
  import opened Spelling
  import A = Admission

  // ─── paths by parts ───

  /** A word of a joined path splits into a word of each part. */
  lemma {:induction false} JoinedSplits(a: Path, b: Path, word: Word) returns (k: nat)
    requires InLanguage(a + b, word)
    ensures k <= |word| && InLanguage(a, word[..k]) && InLanguage(b, word[k..])
    decreases |a|
  {
    hide InLanguage;
    if a == [] {
      k := 0;
      NothingSpells(word[..0]);
      assert a + b == b && word[0..] == word;
    } else {
      assert (a + b)[1..] == a[1..] + b;
      var i := FirstPiece(a + b, word);
      var j := JoinedSplits(a[1..], b, word[i..]);
      k := i + j;
      assert word[i..][..j] == word[..k][i..] && word[i..][j..] == word[k..] && word[..k][..i] == word[..i];
      TakesPiece(a, word[..k], i);
    }
  }

  lemma {:induction false} JoinedSpells(a: Path, b: Path, word: Word, k: nat)
    requires k <= |word| && InLanguage(a, word[..k]) && InLanguage(b, word[k..])
    ensures InLanguage(a + b, word)
    decreases |a|
  {
    hide InLanguage;
    if a == [] {
      NothingSpells(word[..k]);
      assert a + b == b && word[0..] == word;
    } else {
      assert (a + b)[1..] == a[1..] + b;
      var i := FirstPiece(a, word[..k]);
      assert word[..k][i..] == word[i..][..k - i] && word[i..][k - i..] == word[k..] && word[..k][..i] == word[..i];
      JoinedSpells(a[1..], b, word[i..], k - i);
      TakesPiece(a + b, word, i);
    }
  }

  /** Equal parts may be exchanged. */
  lemma Exchange(x: Path, a: Path, b: Path, y: Path)
    requires A.OneSelection(a, b)
    ensures A.OneSelection(x + a + y, x + b + y)
  {
    hide InLanguage;
    forall word: Word ensures InLanguage(x + a + y, word) <==> InLanguage(x + b + y, word) {
      ExchangeOne(x, a, b, y, word);
      ExchangeOne(x, b, a, y, word);
    }
  }

  lemma ExchangeOne(x: Path, a: Path, b: Path, y: Path, word: Word)
    requires A.OneSelection(a, b)
    ensures InLanguage(x + a + y, word) ==> InLanguage(x + b + y, word)
  {
    hide InLanguage;
    if InLanguage(x + a + y, word) {
      var k := JoinedSplits(x + a, y, word);
      var j := JoinedSplits(x, a, word[..k]);
      JoinedSpells(x, b, word[..k], j);
      JoinedSpells(x + b, y, word, k);
    }
  }

  lemma OneThrough(p: Path, q: Path, r: Path)
    requires A.OneSelection(p, q) && A.OneSelection(q, r)
    ensures A.OneSelection(p, r)
  {
    hide InLanguage;
  }

  // ─── a hop between two wildcards ───

  predicate Over(d: seq<Field>, word: Word) {
    forall i :: 0 <= i < |word| ==> word[i] in d
  }

  /** The hop spells letter `i`, the wildcards what comes before and after. */
  predicate SplitAt(a: seq<Field>, f: Field, b: seq<Field>, word: Word, i: nat) {
    i < |word| && word[i] == f && Over(a, word[..i]) && Over(b, word[i + 1..])
  }

  lemma TripleSplits(a: seq<Field>, f: Field, b: seq<Field>, word: Word) returns (i: nat)
    requires InLanguage([AnyDepth(a), Hop(f), AnyDepth(b)], word)
    ensures SplitAt(a, f, b, word, i)
  {
    var p := [AnyDepth(a), Hop(f), AnyDepth(b)];
    var cuts := CutsExist(p, word);
    assert CutAt(p, word, cuts, 0) && CutAt(p, word, cuts, 1) && CutAt(p, word, cuts, 2);
    i := cuts[1];
    assert word[cuts[1]..cuts[2]] == [f];
    assert word[i] == word[cuts[1]..cuts[2]][0];
    assert word[cuts[0]..cuts[1]] == word[..i] && word[cuts[2]..cuts[3]] == word[i + 1..];
  }

  lemma TripleSpells(a: seq<Field>, f: Field, b: seq<Field>, word: Word, i: nat)
    requires SplitAt(a, f, b, word, i)
    ensures InLanguage([AnyDepth(a), Hop(f), AnyDepth(b)], word)
  {
    var p := [AnyDepth(a), Hop(f), AnyDepth(b)];
    var cuts := [0, i, i + 1, |word|];
    assert word[0..i] == word[..i] && word[i..i + 1] == [f] && word[i + 1..|word|] == word[i + 1..];
    assert CutAt(p, word, cuts, 0) && CutAt(p, word, cuts, 1) && CutAt(p, word, cuts, 2);
    CutsSpell(p, word, cuts);
  }

  function Without(d: seq<Field>, f: Field): (r: seq<Field>)
    ensures forall g :: g in r <==> g in d && g != f
  {
    if d == [] then [] else
      var r := Without(d[1..], f);
      assert d == [d[0]] + d[1..];
      if d[0] == f then r else [d[0]] + r
  }

  lemma {:induction false} WithoutRises(d: seq<Field>, f: Field)
    requires A.Rising(d)
    ensures A.Rising(Without(d, f))
  {
    if d != [] {
      WithoutRises(d[1..], f);
      var r := Without(d[1..], f);
      forall i | 0 <= i < |r| ensures d[0] < r[i] {
        assert r[i] in r;
        var k :| 0 <= k < |d[1..]| && d[1..][k] == r[i];
        assert d[0] < d[k + 1];
      }
    }
  }

  lemma LastLetter(word: Word, f: Field, i: nat) returns (j: nat)
    requires i < |word| && word[i] == f
    ensures i <= j < |word| && word[j] == f && forall k :: j < k < |word| ==> word[k] != f
    decreases |word| - i
  {
    if k: nat :| i < k < |word| && word[k] == f {
      j := LastLetter(word, f, k);
    } else {
      j := i;
    }
  }

  lemma FirstLetter(word: Word, f: Field, i: nat) returns (j: nat)
    requires i < |word| && word[i] == f
    ensures j <= i && word[j] == f && forall k :: 0 <= k < j ==> word[k] != f
    decreases i
  {
    if k: nat :| k < i && word[k] == f {
      j := FirstLetter(word, f, k);
    } else {
      j := i;
    }
  }

  /** The narrower wildcard after a hop need not hold the hop's field. */
  lemma ShedRight(l: seq<Field>, f: Field, r: seq<Field>)
    requires f in l && A.Contains(l, r)
    ensures A.OneSelection([AnyDepth(l), Hop(f), AnyDepth(r)], [AnyDepth(l), Hop(f), AnyDepth(Without(r, f))])
  {
    hide InLanguage;
    var p, q := [AnyDepth(l), Hop(f), AnyDepth(r)], [AnyDepth(l), Hop(f), AnyDepth(Without(r, f))];
    forall word: Word ensures InLanguage(p, word) <==> InLanguage(q, word) {
      if InLanguage(p, word) {
        var i := TripleSplits(l, f, r, word);
        var j := LastLetter(word, f, i);
        assert Over(l, word[..j]) by { ShedsLeftOf(l, f, r, word, i, j); }
        ShedsTail(l, f, r, word, i, j);
        TripleSpells(l, f, Without(r, f), word, j);
      }
      if InLanguage(q, word) {
        var i := TripleSplits(l, f, Without(r, f), word);
        TripleSpells(l, f, r, word, i);
      }
    }
  }

  lemma ShedsLeftOf(l: seq<Field>, f: Field, r: seq<Field>, word: Word, i: nat, j: nat)
    requires f in l && A.Contains(l, r) && SplitAt(l, f, r, word, i) && i <= j < |word|
    ensures Over(l, word[..j])
  {
    forall k | 0 <= k < j ensures word[k] in l {
      if k < i {
        assert word[..i][k] in l;
      } else if k > i {
        assert word[i + 1..][k - i - 1] in r;
      }
    }
  }

  lemma ShedsTail(l: seq<Field>, f: Field, r: seq<Field>, word: Word, i: nat, j: nat)
    requires SplitAt(l, f, r, word, i) && i <= j < |word| && forall k :: j < k < |word| ==> word[k] != f
    ensures Over(Without(r, f), word[j + 1..])
  {
    forall k | j < k < |word| ensures word[k] in Without(r, f) {
      assert word[i + 1..][k - i - 1] in r;
    }
  }

  lemma ShedsRightOf(l: seq<Field>, f: Field, r: seq<Field>, word: Word, i: nat, j: nat)
    requires f in r && A.Contains(r, l) && SplitAt(l, f, r, word, i) && j <= i
    ensures Over(r, word[j + 1..])
  {
    forall k | j < k < |word| ensures word[k] in r {
      if k < i {
        assert word[..i][k] in l;
      } else if k > i {
        assert word[i + 1..][k - i - 1] in r;
      }
    }
  }

  /** The narrower wildcard before a hop need not hold the hop's field. */
  lemma ShedLeft(l: seq<Field>, f: Field, r: seq<Field>)
    requires f in r && A.Contains(r, l)
    ensures A.OneSelection([AnyDepth(l), Hop(f), AnyDepth(r)], [AnyDepth(Without(l, f)), Hop(f), AnyDepth(r)])
  {
    hide InLanguage;
    var p, q := [AnyDepth(l), Hop(f), AnyDepth(r)], [AnyDepth(Without(l, f)), Hop(f), AnyDepth(r)];
    forall word: Word ensures InLanguage(p, word) <==> InLanguage(q, word) {
      if InLanguage(p, word) {
        var i := TripleSplits(l, f, r, word);
        var j := FirstLetter(word, f, i);
        ShedsRightOf(l, f, r, word, i, j);
        assert Over(Without(l, f), word[..j]) by {
          forall k | 0 <= k < |word[..j]| ensures word[..j][k] in Without(l, f) {
            assert word[..i][k] == word[k];
          }
        }
        TripleSpells(Without(l, f), f, r, word, j);
      }
      if InLanguage(q, word) {
        var i := TripleSplits(Without(l, f), f, r, word);
        TripleSpells(l, f, r, word, i);
      }
    }
  }

  /** A wildcard over nothing is nothing. */
  lemma EmptyWildcard()
    ensures A.OneSelection([AnyDepth([])], [])
  {
    forall word: Word ensures InLanguage([AnyDepth([])], word) <==> InLanguage([], word) {
      InLanguageStar([AnyDepth([])], word);
      assert [AnyDepth([])][1..] == [];
    }
  }

  /** A narrower wildcard beside a wider one is nothing. */
  lemma Collapses(wide: seq<Field>, narrow: seq<Field>)
    requires A.Contains(wide, narrow)
    ensures A.OneSelection([AnyDepth(wide), AnyDepth(narrow)], [AnyDepth(wide)])
    ensures A.OneSelection([AnyDepth(narrow), AnyDepth(wide)], [AnyDepth(wide)])
  {
    hide InLanguage;
    forall word: Word
      ensures InLanguage([AnyDepth(wide), AnyDepth(narrow)], word) <==> InLanguage([AnyDepth(wide)], word)
      ensures InLanguage([AnyDepth(narrow), AnyDepth(wide)], word) <==> InLanguage([AnyDepth(wide)], word)
    {
      A.StarCollapse(wide, narrow, [], word);
      assert [AnyDepth(wide), AnyDepth(narrow)] + [] == [AnyDepth(wide), AnyDepth(narrow)];
      assert [AnyDepth(narrow), AnyDepth(wide)] + [] == [AnyDepth(narrow), AnyDepth(wide)];
      assert [AnyDepth(wide)] + [] == [AnyDepth(wide)];
    }
  }

  // ─── shapes by parts ───

  /** Comparable wildcards meeting where two paths are joined. */
  predicate Clashes(a: Path, b: Path) {
    && a != [] && b != [] && a[|a| - 1].AnyDepth? && b[0].AnyDepth?
    && A.Comparable(a[|a| - 1].descend, b[0].descend)
  }

  lemma NeatJoined(a: Path, b: Path)
    ensures Neat(a + b) <==> Neat(a) && Neat(b) && !Clashes(a, b)
  {
    var p := a + b;
    if Neat(p) {
      forall k | 0 <= k < |a| ensures a[k] == p[k] {}
      forall k | 1 <= k < |a| ensures !A.Respelled(a, k) { assert !A.Respelled(p, k); }
      forall k | 0 <= k < |b| ensures b[k] == p[|a| + k] {}
      forall k | 1 <= k < |b| ensures !A.Respelled(b, k) { assert !A.Respelled(p, |a| + k); }
      if a != [] && b != [] { assert !A.Respelled(p, |a|); }
    }
    if Neat(a) && Neat(b) && !Clashes(a, b) {
      forall k | 0 <= k < |p| && p[k].AnyDepth? ensures p[k].descend != [] && A.Rising(p[k].descend) {
        assert p[k] == if k < |a| then a[k] else b[k - |a|];
      }
      forall k | 1 <= k < |p| ensures !A.Respelled(p, k) {
        if k < |a| { assert !A.Respelled(a, k); } else if k > |a| { assert !A.Respelled(b, k - |a|); }
      }
    }
  }

  lemma WellShapedIs(p: Path)
    ensures A.WellShaped(p) <==> p != [] && p[|p| - 1].Hop? && Neat(p)
  {
    if A.WellShaped(p) {
      assert A.LawfulSegment(p, |p| - 1);
      forall k | 0 <= k < |p| && p[k].AnyDepth? ensures p[k].descend != [] && A.Rising(p[k].descend) {
        assert A.LawfulSegment(p, k);
      }
    }
  }

  lemma NeatHop(f: Field)
    ensures Neat([Hop(f)])
  {}

  lemma NeatStar(d: seq<Field>)
    ensures Neat([AnyDepth(d)]) <==> d != [] && A.Rising(d)
  {
    assert [AnyDepth(d)][0].AnyDepth?;
  }

  // ─── the second spelling ───

  /** A neat path around a hop that is not its last segment. */
  predicate Around(p: Path, x: Path, f: Field, y: Path) {
    p == x + [Hop(f)] + y && y != [] && Neat(x) && Neat(y) && y[|y| - 1].Hop?
  }

  predicate Second(p: Path, q: Path) {
    A.WellShaped(q) && q != p && |q| <= |p| + 1
  }

  /** Only the left wildcard holds the field: a loop may follow the hop. */
  lemma LoopAfter(p: Path, x: Path, f: Field, y: Path) returns (q: Path)
    requires Around(p, x, f, y) && HoldsAt(x, |x| - 1, f) && !HoldsAt(y, 0, f)
    ensures Second(p, q) && A.OneSelection(p, q)
  {
    hide InLanguage, Neat, Without;
    var l, x' := x[|x| - 1].descend, x[..|x| - 1];
    q := x + [Hop(f)] + ([AnyDepth([f])] + y);
    NeatHop(f);
    NeatStar([f]);
    NeatJoined([AnyDepth([f])], y);
    assert !Clashes([AnyDepth([f])], y) by { LoopApart(f, y); }
    NeatJoined(x, [Hop(f)]);
    NeatJoined(x + [Hop(f)], [AnyDepth([f])] + y);
    WellShapedIs(q);
    ShedRight(l, f, [f]);
    WithoutAlone(f);
    LoopDrops(x', l, f, y);
    assert x == x' + [AnyDepth(l)];
    assert p == x' + [AnyDepth(l), Hop(f)] + y;
    assert q == x' + [AnyDepth(l), Hop(f), AnyDepth([f])] + y;
  }

  lemma WithoutAlone(f: Field)
    ensures Without([f], f) == []
  {
    assert [f][1..] == [];
  }

  lemma LoopApart(f: Field, y: Path)
    requires Neat(y) && !HoldsAt(y, 0, f)
    ensures !Clashes([AnyDepth([f])], y)
  {
    if y != [] && y[0].AnyDepth? {
      var d := y[0].descend;
      assert d[0] in d && d[0] != f;
      assert [f][0] == f;
    }
  }

  lemma LoopDrops(x: Path, l: seq<Field>, f: Field, y: Path)
    requires A.OneSelection([AnyDepth(l), Hop(f), AnyDepth([f])], [AnyDepth(l), Hop(f), AnyDepth([])])
    ensures A.OneSelection(x + [AnyDepth(l), Hop(f)] + y, x + [AnyDepth(l), Hop(f), AnyDepth([f])] + y)
  {
    hide InLanguage;
    EmptyWildcard();
    Exchange([AnyDepth(l), Hop(f)], [AnyDepth([])], [], []);
    assert [AnyDepth(l), Hop(f)] + [AnyDepth([])] + [] == [AnyDepth(l), Hop(f), AnyDepth([])];
    assert [AnyDepth(l), Hop(f)] + [] + [] == [AnyDepth(l), Hop(f)];
    OneThrough([AnyDepth(l), Hop(f), AnyDepth([f])], [AnyDepth(l), Hop(f), AnyDepth([])], [AnyDepth(l), Hop(f)]);
    Exchange(x, [AnyDepth(l), Hop(f), AnyDepth([f])], [AnyDepth(l), Hop(f)], y);
  }

  lemma LoopApartLeft(f: Field, x: Path)
    requires Neat(x) && !HoldsAt(x, |x| - 1, f)
    ensures !Clashes(x, [AnyDepth([f])])
  {
    if x != [] && x[|x| - 1].AnyDepth? {
      var d := x[|x| - 1].descend;
      assert d[0] in d && d[0] != f;
      assert [f][0] == f;
    }
  }

  lemma LoopLeads(x: Path, f: Field, r: seq<Field>, y: Path)
    requires A.OneSelection([AnyDepth([f]), Hop(f), AnyDepth(r)], [AnyDepth([]), Hop(f), AnyDepth(r)])
    ensures A.OneSelection(x + [Hop(f), AnyDepth(r)] + y, x + [AnyDepth([f]), Hop(f), AnyDepth(r)] + y)
  {
    hide InLanguage;
    EmptyWildcard();
    Exchange([], [AnyDepth([])], [], [Hop(f), AnyDepth(r)]);
    assert [] + [AnyDepth([])] + [Hop(f), AnyDepth(r)] == [AnyDepth([]), Hop(f), AnyDepth(r)];
    assert [] + [] + [Hop(f), AnyDepth(r)] == [Hop(f), AnyDepth(r)];
    OneThrough([AnyDepth([f]), Hop(f), AnyDepth(r)], [AnyDepth([]), Hop(f), AnyDepth(r)], [Hop(f), AnyDepth(r)]);
    Exchange(x, [AnyDepth([f]), Hop(f), AnyDepth(r)], [Hop(f), AnyDepth(r)], y);
  }

  /** Only the right wildcard holds the field: a loop may lead the hop. */
  lemma LoopBefore(p: Path, x: Path, f: Field, y: Path) returns (q: Path)
    requires Around(p, x, f, y) && !HoldsAt(x, |x| - 1, f) && HoldsAt(y, 0, f)
    ensures Second(p, q) && A.OneSelection(p, q)
  {
    hide InLanguage, Neat, Without;
    var r, y' := y[0].descend, y[1..];
    q := (x + [AnyDepth([f])]) + [Hop(f)] + y;
    NeatHop(f);
    NeatStar([f]);
    NeatJoined(x, [AnyDepth([f])]);
    LoopApartLeft(f, x);
    NeatJoined(x + [AnyDepth([f])], [Hop(f)]);
    NeatJoined(x + [AnyDepth([f])] + [Hop(f)], y);
    WellShapedIs(q);
    ShedLeft([f], f, r);
    WithoutAlone(f);
    LoopLeads(x, f, r, y');
    assert y == [AnyDepth(r)] + y';
    assert p == x + [Hop(f), AnyDepth(r)] + y';
    assert q == x + [AnyDepth([f]), Hop(f), AnyDepth(r)] + y';
  }

  /** What is left of the right wildcard vanishes into the next, or into nothing. */
  predicate Vanishes(d: seq<Field>, y: Path) {
    d == [] || (y != [] && y[0].AnyDepth? && A.Contains(y[0].descend, d))
  }

  lemma VanishesBefore(x: Path, d: seq<Field>, y: Path)
    requires Vanishes(d, y)
    ensures A.OneSelection(x + [AnyDepth(d)] + y, x + y)
  {
    hide InLanguage;
    if d == [] {
      EmptyWildcard();
      Exchange(x, [AnyDepth([])], [], y);
      assert x + [] + y == x + y;
    } else {
      var s, y' := y[0].descend, y[1..];
      Collapses(s, d);
      Exchange(x, [AnyDepth(d), AnyDepth(s)], [AnyDepth(s)], y');
      assert y == [AnyDepth(s)] + y';
      assert x + [AnyDepth(d)] + y == x + [AnyDepth(d), AnyDepth(s)] + y';
      assert x + y == x + [AnyDepth(s)] + y';
    }
  }

  /** Both hold it and the right set lies in the left: the right one sheds it. */
  lemma RightSheds(p: Path, x: Path, f: Field, y: Path) returns (q: Path)
    requires Around(p, x, f, y) && HoldsAt(x, |x| - 1, f) && HoldsAt(y, 0, f)
    requires A.Contains(x[|x| - 1].descend, y[0].descend)
    ensures Second(p, q) && |q| <= |p| && A.OneSelection(p, q)
  {
    hide InLanguage, Neat, Without;
    var l, x', r, y' := x[|x| - 1].descend, x[..|x| - 1], y[0].descend, y[1..];
    var d := Without(r, f);
    assert x == x' + [AnyDepth(l)] && y == [AnyDepth(r)] + y';
    NeatJoined([AnyDepth(r)], y');
    NeatJoined(x, [Hop(f)]);
    NeatHop(f);
    ShedRight(l, f, r);
    Exchange(x', [AnyDepth(l), Hop(f), AnyDepth(r)], [AnyDepth(l), Hop(f), AnyDepth(d)], y');
    assert p == x' + [AnyDepth(l), Hop(f), AnyDepth(r)] + y';
    var shed := x + [Hop(f)] + [AnyDepth(d)] + y';
    assert shed == x' + [AnyDepth(l), Hop(f), AnyDepth(d)] + y';
    if Vanishes(d, y') {
      q := x + [Hop(f)] + y';
      VanishesBefore(x + [Hop(f)], d, y');
      OneThrough(p, shed, q);
      NeatJoined(x + [Hop(f)], y');
    } else {
      q := shed;
      NeatStar(r);
      WithoutRises(r, f);
      NeatStar(d);
      ShrunkApart(r, d, y');
      NeatJoined(x + [Hop(f)], [AnyDepth(d)]);
      NeatJoined(x + [Hop(f)] + [AnyDepth(d)], y');
      assert q[|x| + 1] == AnyDepth(d) && p[|x| + 1] == AnyDepth(r);
    }
    WellShapedIs(q);
  }

  lemma ContainsThrough(a: seq<Field>, b: seq<Field>, c: seq<Field>)
    requires A.Contains(a, b) && A.Contains(b, c)
    ensures A.Contains(a, c)
  {
    forall i | 0 <= i < |c| ensures c[i] in a {
      assert c[i] in b;
    }
  }

  lemma ShrunkApart(r: seq<Field>, d: seq<Field>, y: Path)
    requires A.Contains(r, d) && !Clashes([AnyDepth(r)], y) && !Vanishes(d, y)
    ensures !Clashes([AnyDepth(d)], y)
  {
    if y != [] && y[0].AnyDepth? && A.Contains(d, y[0].descend) {
      ContainsThrough(r, d, y[0].descend);
    }
  }

  /** What is left of the left wildcard vanishes into the one before. */
  predicate VanishesAfter(x: Path, d: seq<Field>) {
    d == [] || (x != [] && x[|x| - 1].AnyDepth? && A.Contains(x[|x| - 1].descend, d))
  }

  lemma VanishesBehind(x: Path, d: seq<Field>, y: Path)
    requires VanishesAfter(x, d)
    ensures A.OneSelection(x + [AnyDepth(d)] + y, x + y)
  {
    hide InLanguage;
    if d == [] {
      EmptyWildcard();
      Exchange(x, [AnyDepth([])], [], y);
      assert x + [] + y == x + y;
    } else {
      var s, x' := x[|x| - 1].descend, x[..|x| - 1];
      Collapses(s, d);
      Exchange(x', [AnyDepth(s), AnyDepth(d)], [AnyDepth(s)], y);
      assert x == x' + [AnyDepth(s)];
      assert x + [AnyDepth(d)] + y == x' + [AnyDepth(s), AnyDepth(d)] + y;
      assert x + y == x' + [AnyDepth(s)] + y;
    }
  }

  lemma ShrunkApartLeft(x: Path, l: seq<Field>, d: seq<Field>)
    requires A.Contains(l, d) && !Clashes(x, [AnyDepth(l)]) && !VanishesAfter(x, d)
    ensures !Clashes(x, [AnyDepth(d)])
  {
    if x != [] && x[|x| - 1].AnyDepth? && A.Contains(d, x[|x| - 1].descend) {
      ContainsThrough(l, d, x[|x| - 1].descend);
    }
  }

  /** Both hold it and the left set lies in the right: the left one sheds it. */
  lemma LeftSheds(p: Path, x: Path, f: Field, y: Path) returns (q: Path)
    requires Around(p, x, f, y) && HoldsAt(x, |x| - 1, f) && HoldsAt(y, 0, f)
    requires A.Contains(y[0].descend, x[|x| - 1].descend)
    ensures Second(p, q) && |q| <= |p| && A.OneSelection(p, q)
  {
    hide InLanguage, Neat, Without;
    var l, x', r, y' := x[|x| - 1].descend, x[..|x| - 1], y[0].descend, y[1..];
    var d := Without(l, f);
    assert x == x' + [AnyDepth(l)] && y == [AnyDepth(r)] + y';
    NeatJoined(x', [AnyDepth(l)]);
    NeatHop(f);
    NeatJoined([Hop(f)], y);
    ShedLeft(l, f, r);
    Exchange(x', [AnyDepth(l), Hop(f), AnyDepth(r)], [AnyDepth(d), Hop(f), AnyDepth(r)], y');
    assert p == x' + [AnyDepth(l), Hop(f), AnyDepth(r)] + y';
    var shed := x' + [AnyDepth(d)] + ([Hop(f)] + y);
    assert shed == x' + [AnyDepth(d), Hop(f), AnyDepth(r)] + y';
    if VanishesAfter(x', d) {
      q := x' + ([Hop(f)] + y);
      VanishesBehind(x', d, [Hop(f)] + y);
      OneThrough(p, shed, q);
      NeatJoined(x', [Hop(f)] + y);
    } else {
      q := shed;
      NeatStar(l);
      WithoutRises(l, f);
      NeatStar(d);
      ShrunkApartLeft(x', l, d);
      NeatJoined(x', [AnyDepth(d)]);
      NeatJoined(x' + [AnyDepth(d)], [Hop(f)] + y);
      assert q[|x'|] == AnyDepth(d) && p[|x'|] == AnyDepth(l);
    }
    WellShapedIs(q);
  }

  /** A field's own loop leads its hop or follows it. */
  lemma LoopEitherSide(x: Path, f: Field, y: Path)
    ensures A.OneSelection(x + [AnyDepth([f]), Hop(f)] + y, x + [Hop(f), AnyDepth([f])] + y)
  {
    hide InLanguage, Without;
    ShedRight([f], f, [f]);
    ShedLeft([f], f, [f]);
    WithoutAlone(f);
    LoopDrops(x, [f], f, y);
    LoopLeads(x, f, [f], y);
    OneThrough(x + [AnyDepth([f]), Hop(f)] + y, x + [AnyDepth([f]), Hop(f), AnyDepth([f])] + y,
               x + [Hop(f), AnyDepth([f])] + y);
  }

  lemma SwapsRight(p: Path, x: Path, f: Field, y: Path) returns (q: Path)
    requires Around(p, x, f, y) && x != [] && x[|x| - 1] == AnyDepth([f]) && !HoldsAt(y, 0, f)
    ensures Second(p, q) && |q| <= |p| && A.OneSelection(p, q)
  {
    hide InLanguage, Neat;
    var x' := x[..|x| - 1];
    q := x' + [Hop(f)] + ([AnyDepth([f])] + y);
    assert x == x' + [AnyDepth([f])];
    NeatJoined(x', [AnyDepth([f])]);
    NeatHop(f);
    NeatStar([f]);
    LoopApart(f, y);
    NeatJoined([AnyDepth([f])], y);
    NeatJoined(x', [Hop(f)]);
    NeatJoined(x' + [Hop(f)], [AnyDepth([f])] + y);
    WellShapedIs(q);
    LoopEitherSide(x', f, y);
    assert p == x' + [AnyDepth([f]), Hop(f)] + y;
    assert q == x' + [Hop(f), AnyDepth([f])] + y;
    assert p[|x'|] != q[|x'|];
  }

  lemma SwapsLeft(p: Path, x: Path, f: Field, y: Path) returns (q: Path)
    requires Around(p, x, f, y) && y[0] == AnyDepth([f]) && !HoldsAt(x, |x| - 1, f)
    ensures Second(p, q) && |q| <= |p| && A.OneSelection(p, q)
  {
    hide InLanguage, Neat;
    var y' := y[1..];
    q := (x + [AnyDepth([f])]) + ([Hop(f)] + y');
    assert y == [AnyDepth([f])] + y';
    NeatJoined([AnyDepth([f])], y');
    NeatHop(f);
    NeatStar([f]);
    LoopApartLeft(f, x);
    NeatJoined(x, [AnyDepth([f])]);
    NeatJoined([Hop(f)], y');
    NeatJoined(x + [AnyDepth([f])], [Hop(f)] + y');
    WellShapedIs(q);
    LoopEitherSide(x, f, y');
    assert p == x + [Hop(f), AnyDepth([f])] + y';
    assert q == x + [AnyDepth([f]), Hop(f)] + y';
    assert p[|x|] != q[|x|];
  }

  /** A loose hop respelled with no segment to spare: both neighbours hold its
      field, so one sheds it, or its one holder holds nothing else. */
  predicate LooseInPlace(p: Path, k: nat)
    requires k < |p|
  {
    && LooseAt(p, k)
    && ((HoldsAt(p, k - 1, p[k].field) && HoldsAt(p, k + 1, p[k].field))
        || (k > 0 && p[k - 1] == AnyDepth([p[k].field])) || (k + 1 < |p| && p[k + 1] == AnyDepth([p[k].field])))
  }

  /** A loose hop gives a second admitted spelling of the same selection. */
  lemma RespellsAt(p: Path, k: nat) returns (q: Path)
    requires A.WellShaped(p) && k < |p| - 1 && LooseAt(p, k)
    ensures Second(p, q) && (LooseInPlace(p, k) ==> |q| <= |p|) && A.OneSelection(p, q)
  {
    hide Neat, InLanguage, A.OneSelection, Second, A.WellShaped;
    var x, f, y := p[..k], p[k].field, p[k + 1..];
    WellShapedIs(p);
    assert p == x + [Hop(f)] + y;
    NeatJoined(x + [Hop(f)], y);
    NeatJoined(x, [Hop(f)]);
    assert HoldsAt(x, |x| - 1, f) <==> HoldsAt(p, k - 1, f);
    assert HoldsAt(y, 0, f) <==> HoldsAt(p, k + 1, f);
    if !HoldsAt(y, 0, f) {
      if x[|x| - 1] == AnyDepth([f]) {
        q := SwapsRight(p, x, f, y);
      } else {
        q := LoopAfter(p, x, f, y);
      }
    } else if !HoldsAt(x, |x| - 1, f) {
      if y[0] == AnyDepth([f]) {
        q := SwapsLeft(p, x, f, y);
      } else {
        q := LoopBefore(p, x, f, y);
      }
    } else if A.Contains(x[|x| - 1].descend, y[0].descend) {
      q := RightSheds(p, x, f, y);
    } else {
      q := LeftSheds(p, x, f, y);
    }
  }

  lemma LooseRespells(p: Path) returns (q: Path)
    requires A.WellShaped(p) && Loose(p)
    ensures Second(p, q) && A.OneSelection(p, q)
  {
    hide A.OneSelection, Second, A.WellShaped, LooseAt;
    var k :| 0 <= k < |p| - 1 && LooseAt(p, k);
    q := RespellsAt(p, k);
  }

  // ─── the exact condition ───

  lemma LastHop(p: Path, z: Field, word: Word)
    ensures InLanguage(p + [Hop(z)], word) <==> word != [] && word[|word| - 1] == z && InLanguage(p, word[..|word| - 1])
  {
    hide InLanguage;
    if InLanguage(p + [Hop(z)], word) {
      var k := JoinedSplits(p, [Hop(z)], word);
      LoneHop(z, word[k..]);
      assert word[|word| - 1] == word[k..][0];
    }
    if word != [] && word[|word| - 1] == z && InLanguage(p, word[..|word| - 1]) {
      var k := |word| - 1;
      LoneHop(z, word[k..]);
      JoinedSpells(p, [Hop(z)], word, k);
    }
  }

  lemma LoneHop(z: Field, word: Word)
    ensures InLanguage([Hop(z)], word) <==> word == [z]
  {
    hide InLanguage;
    InLanguageHop([Hop(z)], word);
    if word != [] {
      assert [Hop(z)][1..] == [];
      NothingSpells(word[1..]);
      assert word == [word[0]] + word[1..];
    }
  }

  /** A path none of whose inner hops is loose is the only admitted spelling of
      its selection. */
  lemma TightIsAlone(p: Path, q: Path)
    requires A.WellShaped(p) && A.WellShaped(q) && !Loose(p) && A.OneSelection(p, q)
    ensures p == q
  {
    hide InLanguage, Neat;
    WellShapedIs(p);
    WellShapedIs(q);
    var m, n := |p| - 1, |q| - 1;
    var a, b := p[..m], q[..n];
    assert p == a + [p[m]] && q == b + [q[n]];
    NeatJoined(a, [p[m]]);
    NeatJoined(b, [q[n]]);
    A.BareIsSpelled(p);
    LastHop(a, p[m].field, A.Bare(p));
    LastHop(b, q[n].field, A.Bare(p));
    forall word: Word ensures InLanguage(a, word) <==> InLanguage(b, word) {
      var longer := word + [p[m].field];
      LastHop(a, p[m].field, longer);
      LastHop(b, q[n].field, longer);
      assert longer[..|longer| - 1] == word;
    }
    forall k | 0 <= k < |a| ensures !LooseAt(a, k) {
      assert !LooseAt(p, k);
    }
    TightIsOnly(a, b);
  }

  /** The exact condition: an admitted path has a second admitted spelling if
      and only if some hop before its terminal is loose. */
  lemma SecondSpellingIffLoose(p: Path)
    requires A.WellShaped(p)
    ensures Loose(p) <==> exists q: Path :: A.WellShaped(q) && q != p && A.OneSelection(p, q)
  {
    hide A.WellShaped, A.OneSelection;
    if Loose(p) {
      var q := LooseRespells(p);
    }
    if q: Path :| A.WellShaped(q) && q != p && A.OneSelection(p, q) {
      if !Loose(p) {
        TightIsAlone(p, q);
      }
    }
  }

  /** A path no respelling need lengthen: below the cap, or loose in place, or
      not loose at all. */
  predicate Spare(p: Path) {
    |p| < 0xFFFF || !Loose(p) || exists k :: 0 <= k < |p| - 1 && LooseInPlace(p, k)
  }

  /** The same under the segment cap: no second spelling of a path that is not
      loose, and one of a loose path wherever a respelling fits under the cap. */
  lemma SecondSpellingUnderCap(p: Path)
    requires A.Lawful(p)
    ensures (exists q: Path :: A.Lawful(q) && q != p && A.OneSelection(p, q)) ==> Loose(p)
    ensures Spare(p) ==> (Loose(p) <==> exists q: Path :: A.Lawful(q) && q != p && A.OneSelection(p, q))
  {
    hide A.WellShaped, A.OneSelection, LooseAt, LooseInPlace;
    if Loose(p) && Spare(p) {
      if |p| < 0xFFFF {
        var q := LooseRespells(p);
        assert A.Lawful(q);
      } else {
        var k :| 0 <= k < |p| - 1 && LooseInPlace(p, k);
        InPlaceIsLoose(p, k);
        var q := RespellsAt(p, k);
        assert A.Lawful(q);
      }
    }
    SecondSpellingIffLoose(p);
  }

  lemma InPlaceIsLoose(p: Path, k: nat)
    requires k < |p| && LooseInPlace(p, k)
    ensures LooseAt(p, k)
  {}

  /** Structural equality is selection equality exactly where it is asked of a
      path with no loose hop. */
  lemma TightSelectionIsSpelling(p: Path, q: Path)
    requires A.Lawful(p) && A.Lawful(q) && !Loose(p)
    ensures A.OneSelection(p, q) <==> p == q
  {
    if A.OneSelection(p, q) {
      TightIsAlone(p, q);
    }
  }
}
