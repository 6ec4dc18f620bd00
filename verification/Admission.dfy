/** Program admission: the shape laws of one path, the duplicate scan, and what
    the canonical spellings do and do not decide (src/path.rs). */
module Admission {
  import opened Wire
  import opened Paths
  import opened Layers

  datatype ShapeBreach =
    | EmptyPath
    | WildcardTarget
    | EmptyDescendSet(segment: nat)
    | UnsortedDescend(segment: nat)
    | AdjacentWildcards(segment: nat)

  datatype ProgramError =
    | TooManyPaths(count: nat)
    | PathTooLong(path: nat)
    | Shape(breach: ShapeBreach, path: nat)
    | DuplicatePath(first: nat, second: nat)

  predicate Rising(d: seq<Field>) {
    forall i, j :: 0 <= i < j < |d| ==> d[i] < d[j]
  }

  predicate Contains(outer: seq<Field>, inner: seq<Field>) {
    forall i :: 0 <= i < |inner| ==> inner[i] in outer
  }

  predicate Comparable(a: seq<Field>, b: seq<Field>) {
    Contains(a, b) || Contains(b, a)
  }

  // ─── the shape laws, stated ───

  predicate LawfulSegment(path: Path, k: nat)
    requires k < |path|
  {
    path[k].AnyDepth? ==> k + 1 < |path| && path[k].descend != [] && Rising(path[k].descend)
  }

  /** Neighbouring wildcards, one set inside the other. */
  predicate Respelled(path: Path, k: nat)
    requires 1 <= k < |path|
  {
    path[k - 1].AnyDepth? && path[k].AnyDepth? && Comparable(path[k - 1].descend, path[k].descend)
  }

  predicate LawfulUpTo(path: Path, n: nat)
    requires n <= |path|
  {
    forall k :: 0 <= k < n ==> LawfulSegment(path, k)
  }

  predicate FreshUpTo(path: Path, n: nat)
    requires n <= |path|
  {
    forall k :: 1 <= k < n ==> !Respelled(path, k)
  }

  predicate WellShaped(path: Path) {
    path != [] && LawfulUpTo(path, |path|) && FreshUpTo(path, |path|)
  }

  /** The breach a refusal must name: the first unlawful segment, and only on
      otherwise lawful segments the first respelled pair. */
  predicate FirstBreach(path: Path, breach: ShapeBreach) {
    match breach
    case EmptyPath => path == []
    case WildcardTarget =>
      path != [] && path[|path| - 1].AnyDepth? && LawfulUpTo(path, |path| - 1)
    case EmptyDescendSet(k) =>
      k + 1 < |path| && LawfulUpTo(path, k) && path[k] == AnyDepth([])
    case UnsortedDescend(k) =>
      k + 1 < |path| && LawfulUpTo(path, k) && path[k].AnyDepth? && path[k].descend != [] && !Rising(path[k].descend)
    case AdjacentWildcards(k) =>
      1 <= k < |path| && LawfulUpTo(path, |path|) && FreshUpTo(path, k) && Respelled(path, k)
  }

  /** A breach is named exactly when the path is not well shaped, and only one
      breach can be first. */
  lemma FirstBreachUnique(path: Path, a: ShapeBreach, b: ShapeBreach)
    requires FirstBreach(path, a) && FirstBreach(path, b)
    ensures a == b && !WellShaped(path)
  {
    var n := |path| - 1;
    if a.WildcardTarget? || b.WildcardTarget? { assert !LawfulSegment(path, n); }
    if a.EmptyDescendSet? || a.UnsortedDescend? { assert !LawfulSegment(path, a.segment); }
    if b.EmptyDescendSet? || b.UnsortedDescend? { assert !LawfulSegment(path, b.segment); }
  }

  // ─── the scans ───

  method DescendSubset(inner: seq<Field>, outer: seq<Field>) returns (subset: bool)
    ensures subset <==> Contains(outer, inner)
  {
    var i := 0;
    while i < |inner|
      invariant 0 <= i <= |inner| && forall k :: 0 <= k < i ==> inner[k] in outer
    {
      var found := false;
      var j := 0;
      while j < |outer|
        invariant 0 <= j <= |outer| && !found && inner[i] !in outer[..j]
      {
        if inner[i] == outer[j] {
          found := true;
          break;
        }
        assert outer[..j + 1] == outer[..j] + [outer[j]];
        j := j + 1;
      }
      if !found {
        assert outer[..|outer|] == outer;
        return false;
      }
      i := i + 1;
    }
    return true;
  }

  method IsRising(d: seq<Field>) returns (rising: bool)
    ensures rising <==> Rising(d)
  {
    var i := 1;
    while i < |d|
      invariant 1 <= i && (d != [] ==> i <= |d|) && (d == [] ==> i == 1)
      invariant forall j, k :: 0 <= j < k < i && k < |d| ==> d[j] < d[k]
    {
      if d[i - 1] >= d[i] {
        return false;
      }
      i := i + 1;
    }
    return true;
  }

  method JudgePath(path: Path) returns (breach: Option<ShapeBreach>)
    ensures breach.None? <==> WellShaped(path)
    ensures breach.Some? ==> FirstBreach(path, breach.value)
  {
    if path == [] {
      return Some(EmptyPath);
    }
    var terminal := |path| - 1;
    var seg := 0;
    while seg < |path|
      invariant 0 <= seg <= |path| && LawfulUpTo(path, seg)
    {
      if path[seg].AnyDepth? {
        if seg == terminal {
          assert !LawfulSegment(path, seg);
          return Some(WildcardTarget);
        }
        if path[seg].descend == [] {
          assert !LawfulSegment(path, seg);
          return Some(EmptyDescendSet(seg));
        }
        var rising := IsRising(path[seg].descend);
        if !rising {
          assert !LawfulSegment(path, seg);
          return Some(UnsortedDescend(seg));
        }
      }
      seg := seg + 1;
    }
    seg := 1;
    while seg < |path|
      invariant 1 <= seg <= |path| && FreshUpTo(path, seg)
    {
      if path[seg - 1].AnyDepth? && path[seg].AnyDepth? {
        var within := DescendSubset(path[seg - 1].descend, path[seg].descend);
        var without := DescendSubset(path[seg].descend, path[seg - 1].descend);
        if within || without {
          assert Respelled(path, seg);
          return Some(AdjacentWildcards(seg));
        }
      }
      seg := seg + 1;
    }
    return None;
  }

  method DescendEqual(a: seq<Field>, b: seq<Field>) returns (equal: bool)
    ensures equal <==> a == b
  {
    if |a| != |b| {
      return false;
    }
    var i := 0;
    while i < |a|
      invariant 0 <= i <= |a| && a[..i] == b[..i]
    {
      if a[i] != b[i] {
        return false;
      }
      assert a[..i + 1] == a[..i] + [a[i]] && b[..i + 1] == b[..i] + [b[i]];
      i := i + 1;
    }
    assert a[..i] == a && b[..i] == b;
    return true;
  }

  method PathsEqual(a: Path, b: Path) returns (equal: bool)
    ensures equal <==> a == b
  {
    if |a| != |b| {
      return false;
    }
    var i := 0;
    while i < |a|
      invariant 0 <= i <= |a| && a[..i] == b[..i]
    {
      var same := false;
      if a[i].Hop? && b[i].Hop? {
        same := a[i].field == b[i].field;
      } else if a[i].AnyDepth? && b[i].AnyDepth? {
        same := DescendEqual(a[i].descend, b[i].descend);
      }
      if !same {
        return false;
      }
      assert a[..i + 1] == a[..i] + [a[i]] && b[..i + 1] == b[..i] + [b[i]];
      i := i + 1;
    }
    assert a[..i] == a && b[..i] == b;
    return true;
  }

  predicate Lawful(path: Path) {
    |path| <= 0xFFFF && WellShaped(path)
  }

  predicate NoDuplicateBefore(paths: seq<Path>, first: nat, second: nat) {
    forall i, j :: 0 <= i < j < |paths| && (i < first || (i == first && j < second)) ==> paths[i] != paths[j]
  }

  /** The error a refusal must name: the first failing judgment in path order,
      else the lexicographically smallest duplicate pair. */
  predicate FirstError(paths: seq<Path>, error: ProgramError) {
    match error
    case TooManyPaths(count) => count == |paths| > 0xFFFF
    case PathTooLong(p) =>
      |paths| <= 0xFFFF && p < |paths| && |paths[p]| > 0xFFFF && forall k :: 0 <= k < p ==> Lawful(paths[k])
    case Shape(breach, p) =>
      |paths| <= 0xFFFF && p < |paths| && |paths[p]| <= 0xFFFF && FirstBreach(paths[p], breach)
      && forall k :: 0 <= k < p ==> Lawful(paths[k])
    case DuplicatePath(i, j) =>
      && |paths| <= 0xFFFF && (forall k :: 0 <= k < |paths| ==> Lawful(paths[k]))
      && i < j < |paths| && paths[i] == paths[j] && NoDuplicateBefore(paths, i, j)
  }

  predicate Admissible(paths: seq<Path>) {
    && |paths| <= 0xFFFF && (forall k :: 0 <= k < |paths| ==> Lawful(paths[k]))
    && forall i, j :: 0 <= i < j < |paths| ==> paths[i] != paths[j]
  }

  method Over(paths: seq<Path>) returns (error: Option<ProgramError>)
    ensures error.None? <==> Admissible(paths)
    ensures error.Some? ==> FirstError(paths, error.value)
  {
    if |paths| > 0xFFFF {
      return Some(TooManyPaths(|paths|));
    }
    var index := 0;
    while index < |paths|
      invariant 0 <= index <= |paths| && forall k :: 0 <= k < index ==> Lawful(paths[k])
    {
      if |paths[index]| > 0xFFFF {
        assert !Lawful(paths[index]);
        return Some(PathTooLong(index));
      }
      var breach := JudgePath(paths[index]);
      if breach.Some? {
        assert !Lawful(paths[index]);
        return Some(Shape(breach.value, index));
      }
      index := index + 1;
    }
    var first := 0;
    while first < |paths|
      invariant 0 <= first <= |paths| && NoDuplicateBefore(paths, first, 0)
    {
      var second := first + 1;
      while second < |paths|
        invariant first < second <= |paths| && NoDuplicateBefore(paths, first, second)
      {
        var equal := PathsEqual(paths[first], paths[second]);
        if equal {
          return Some(DuplicatePath(first, second));
        }
        second := second + 1;
      }
      first := first + 1;
    }
    return None;
  }

  /** An admitted program is one the matchers take, every lane an action's. */
  lemma AdmissiblePrograms(paths: seq<Path>)
    requires Admissible(paths)
    ensures Admitted(Program(paths, seq(|paths|, _ => Target)))
  {
    forall p | 0 <= p < |paths| ensures EndsOnHop(paths[p]) {
      assert Lawful(paths[p]) && LawfulSegment(paths[p], |paths[p]| - 1);
    }
  }

  // ─── what the canonical spellings decide ───

  /** Rising sets are equal as slices exactly when equal as sets. */
  lemma RisingSetsAreSlices(a: seq<Field>, b: seq<Field>)
    requires Rising(a) && Rising(b)
    ensures a == b <==> Contains(a, b) && Contains(b, a)
  {
    if Contains(a, b) && Contains(b, a) {
      SameElement(a, b, |a|);
      SameElement(b, a, |b|);
    }
  }

  lemma {:induction false} SameElement(a: seq<Field>, b: seq<Field>, n: nat)
    requires Rising(a) && Rising(b) && Contains(a, b) && Contains(b, a) && n <= |a|
    ensures n <= |b| && forall k :: 0 <= k < n ==> a[k] == b[k]
  {
    if n > 0 {
      SameElement(a, b, n - 1);
      var j :| 0 <= j < |b| && b[j] == a[n - 1];
      var i :| 0 <= i < |a| && a[i] == b[n - 1];
    }
  }

  /** A word of two wildcards: a run of each, then the rest. */
  predicate TwoRuns(a: seq<Field>, b: seq<Field>, rest: Path, word: Word, i: nat, j: nat) {
    i <= j <= |word| && Spans(AnyDepth(a), word[..i]) && Spans(AnyDepth(b), word[i..j]) && InLanguage(rest, word[j..])
  }

  lemma RunThen(d: seq<Field>, rest: Path, word: Word, k: nat)
    requires k <= |word| && Spans(AnyDepth(d), word[..k]) && InLanguage(rest, word[k..])
    ensures InLanguage([AnyDepth(d)] + rest, word)
  {
    hide InLanguage;
    var path := [AnyDepth(d)] + rest;
    assert path[1..] == rest;
    TakesPiece(path, word, k);
  }

  lemma RunOf(d: seq<Field>, rest: Path, word: Word) returns (k: nat)
    requires InLanguage([AnyDepth(d)] + rest, word)
    ensures k <= |word| && Spans(AnyDepth(d), word[..k]) && InLanguage(rest, word[k..])
  {
    var path := [AnyDepth(d)] + rest;
    assert path[1..] == rest;
    k := FirstPiece(path, word);
  }

  lemma StarPair(a: seq<Field>, b: seq<Field>, rest: Path, word: Word)
    ensures InLanguage([AnyDepth(a), AnyDepth(b)] + rest, word)
            <==> exists i: nat, j: nat :: TwoRuns(a, b, rest, word, i, j)
  {
    hide InLanguage, Spans;
    var inner := [AnyDepth(b)] + rest;
    assert [AnyDepth(a), AnyDepth(b)] + rest == [AnyDepth(a)] + inner;
    if InLanguage([AnyDepth(a)] + inner, word) {
      var i := RunOf(a, inner, word);
      var k := RunOf(b, rest, word[i..]);
      assert word[i..][..k] == word[i..i + k] && word[i..][k..] == word[i + k..];
      assert TwoRuns(a, b, rest, word, i, i + k);
    }
    if i: nat, j: nat :| TwoRuns(a, b, rest, word, i, j) {
      assert word[i..][..j - i] == word[i..j] && word[i..][j - i..] == word[j..];
      RunThen(b, rest, word[i..], j - i);
      RunThen(a, inner, word, i);
    }
  }

  /** The star collapse: over comparable sets the pair, in either order, is the
      wider star alone — a refused spelling is always redundant. */
  lemma StarCollapse(wide: seq<Field>, narrow: seq<Field>, rest: Path, word: Word)
    requires Contains(wide, narrow)
    ensures InLanguage([AnyDepth(wide), AnyDepth(narrow)] + rest, word) <==> InLanguage([AnyDepth(wide)] + rest, word)
    ensures InLanguage([AnyDepth(narrow), AnyDepth(wide)] + rest, word) <==> InLanguage([AnyDepth(wide)] + rest, word)
  {
    hide InLanguage;
    StarPair(wide, narrow, rest, word);
    StarPair(narrow, wide, rest, word);
    if InLanguage([AnyDepth(wide)] + rest, word) {
      var j := RunOf(wide, rest, word);
      assert word[0..j] == word[..j];
      assert TwoRuns(wide, narrow, rest, word, j, j) && TwoRuns(narrow, wide, rest, word, 0, j);
    }
    if i: nat, j: nat :| TwoRuns(wide, narrow, rest, word, i, j) || TwoRuns(narrow, wide, rest, word, i, j) {
      JoinOver(wide, word, i, j);
      RunThen(wide, rest, word, j);
    }
  }

  lemma JoinOver(d: seq<Field>, word: Word, i: nat, j: nat)
    requires i <= j <= |word| && Spans(AnyDepth(d), word[..i])
             && (forall k :: 0 <= k < |word[i..j]| ==> word[i..j][k] in d)
    ensures Spans(AnyDepth(d), word[..j])
  {
    forall k | 0 <= k < j ensures word[..j][k] in d {
      if k < i {
        assert word[..i][k] in d;
      } else {
        assert word[i..j][k - i] in d;
      }
    }
  }

  // ─── structural equality against selection equality ───

  ghost predicate OneSelection(p: Path, q: Path) {
    forall word: Word :: InLanguage(p, word) <==> InLanguage(q, word)
  }

  /** A star over one field commutes with a hop through that field. */
  lemma {:induction false} LoopCommutes(f: Field, rest: Path, word: Word)
    ensures InLanguage([AnyDepth([f]), Hop(f)] + rest, word) <==> InLanguage([Hop(f), AnyDepth([f])] + rest, word)
    decreases |word|
  {
    var before, after := [AnyDepth([f]), Hop(f)] + rest, [Hop(f), AnyDepth([f])] + rest;
    var hop, star := [Hop(f)] + rest, [AnyDepth([f])] + rest;
    assert before[1..] == hop && hop[1..] == rest && after[1..] == star && star[1..] == rest;
    InLanguageStar(before, word);
    InLanguageHop(hop, word);
    InLanguageHop(after, word);
    if word != [] {
      LoopCommutes(f, rest, word[1..]);
      InLanguageStar(star, word[1..]);
      InLanguageHop(after, word[1..]);
    }
  }

  /** Structural equality does not coincide with selection equality: admission
      takes both spellings of one selection as two paths. */
  lemma TwoSpellingsAdmitted()
    ensures var p, q: Path := [AnyDepth([1]), Hop(1), Hop(2)], [Hop(1), AnyDepth([1]), Hop(2)];
            Admissible([p, q]) && p != q && OneSelection(p, q)
  {
    var p, q: Path := [AnyDepth([1]), Hop(1), Hop(2)], [Hop(1), AnyDepth([1]), Hop(2)];
    assert LawfulSegment(p, 0) && LawfulSegment(p, 1) && LawfulSegment(p, 2) && LawfulSegment(q, 0)
           && LawfulSegment(q, 1) && LawfulSegment(q, 2);
    assert WellShaped(p) && WellShaped(q);
    assert p[0] != q[0];
    forall word: Word ensures InLanguage(p, word) <==> InLanguage(q, word) {
      LoopCommutes(1, [Hop(2)], word);
    }
    assert Lawful([p, q][0]) && Lawful([p, q][1]);
  }

  /** The shortest word of a path: its hops alone. */
  function Bare(path: Path): Word {
    if path == [] then [] else (if path[0].Hop? then [path[0].field] else []) + Bare(path[1..])
  }

  lemma {:induction false} BareIsSpelled(path: Path)
    ensures InLanguage(path, Bare(path))
  {
    if path != [] {
      hide InLanguage;
      BareIsSpelled(path[1..]);
      if path[0].Hop? {
        assert Bare(path)[1..] == Bare(path[1..]);
        InLanguageHop(path, Bare(path));
      } else {
        assert [] + Bare(path[1..]) == Bare(path[1..]);
        InLanguageStar(path, Bare(path));
      }
    }
  }

  /** A path with a wildcard selects at more than one depth. */
  lemma {:induction false} WildcardPumps(path: Path, k: nat) returns (word: Word)
    requires k < |path| && path[k].AnyDepth? && path[k].descend != []
    ensures InLanguage(path, word) && |word| == |Bare(path)| + 1
  {
    if k > 0 {
      var inner := WildcardPumps(path[1..], k - 1);
      if path[0].Hop? {
        word := [path[0].field] + inner;
        assert word[1..] == inner;
        InLanguageHop(path, word);
      } else {
        word := inner;
        InLanguageStar(path, word);
      }
    } else {
      word := [path[0].descend[0]] + Bare(path);
      assert word[1..] == Bare(path);
      BareIsSpelled(path);
      InLanguageStar(path, word);
    }
  }
}
