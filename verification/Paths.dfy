/** Path patterns, the language each denotes, and the position automaton the
    matcher compiles (src/path.rs). A word is the trail of container fields
    followed by a record's own field. */
module Paths {
  import opened Wire

  datatype Segment = Hop(field: Field) | AnyDepth(descend: seq<Field>)

  type Path = seq<Segment>
  type Word = seq<Field>

  // ─── the language ───

  /** The words of one segment: a single letter, or any word over the set. */
  predicate Spans(seg: Segment, word: Word) {
    match seg
    case Hop(f) => word == [f]
    case AnyDepth(d) => forall i :: 0 <= i < |word| ==> word[i] in d
  }

  /** `word` splits into consecutive pieces, one per segment. */
  predicate InLanguage(path: Path, word: Word) {
    if path == [] then word == []
    else exists k :: 0 <= k <= |word| && Spans(path[0], word[..k]) && InLanguage(path[1..], word[k..])
  }

  /** What every admitted path obeys: it is not empty and ends on a field. */
  predicate EndsOnHop(path: Path) {
    path != [] && path[|path| - 1].Hop?
  }

  lemma FirstPiece(path: Path, word: Word) returns (k: nat)
    requires path != [] && InLanguage(path, word)
    ensures k <= |word| && Spans(path[0], word[..k]) && InLanguage(path[1..], word[k..])
  {
    k :| 0 <= k <= |word| && Spans(path[0], word[..k]) && InLanguage(path[1..], word[k..]);
  }

  lemma TakesPiece(path: Path, word: Word, k: nat)
    requires path != [] && k <= |word| && Spans(path[0], word[..k]) && InLanguage(path[1..], word[k..])
    ensures InLanguage(path, word)
  {}

  // ─── one letter at a time ───

  lemma InLanguageHop(path: Path, word: Word)
    requires path != [] && path[0].Hop?
    ensures InLanguage(path, word) <==> word != [] && word[0] == path[0].field && InLanguage(path[1..], word[1..])
  {
    hide InLanguage;
    if word != [] && word[0] == path[0].field && InLanguage(path[1..], word[1..]) {
      assert word[..1] == [word[0]];
      TakesPiece(path, word, 1);
    }
    if InLanguage(path, word) {
      var k := FirstPiece(path, word);
      assert |word[..k]| == 1;
      assert word[0] == word[..k][0];
    }
  }

  lemma InLanguageStar(path: Path, word: Word)
    requires path != [] && path[0].AnyDepth?
    ensures InLanguage(path, word)
       <==> InLanguage(path[1..], word) || (word != [] && word[0] in path[0].descend && InLanguage(path, word[1..]))
  {
    hide InLanguage;
    if InLanguage(path, word) {
      StarSheds(path, word);
    }
    if InLanguage(path[1..], word) {
      assert word[0..] == word;
      TakesPiece(path, word, 0);
    }
    if word != [] && word[0] in path[0].descend && InLanguage(path, word[1..]) {
      StarTakes(path, word);
    }
  }

  lemma StarTakes(path: Path, word: Word)
    requires path != [] && path[0].AnyDepth?
    requires word != [] && word[0] in path[0].descend && InLanguage(path, word[1..])
    ensures InLanguage(path, word)
  {
    hide InLanguage;
    var k := FirstPiece(path, word[1..]);
    assert word[1..][k..] == word[k + 1..];
    assert word[..k + 1] == [word[0]] + word[1..][..k];
    TakesPiece(path, word, k + 1);
  }

  lemma StarSheds(path: Path, word: Word)
    requires path != [] && path[0].AnyDepth? && InLanguage(path, word)
    ensures InLanguage(path[1..], word) || (word != [] && word[0] in path[0].descend && InLanguage(path, word[1..]))
  {
    hide InLanguage;
    var k := FirstPiece(path, word);
    if k == 0 {
      assert word[0..] == word;
    } else {
      assert word[..k][0] in path[0].descend;
      assert word[1..][..k - 1] == word[..k][1..] && word[1..][k - 1..] == word[k..];
      TakesPiece(path, word[1..], k - 1);
    }
  }

  // ─── the position automaton ───

  /** The first field at or after `i`: where a wildcard run ends. */
  function HopAt(path: Path, i: nat): (h: nat)
    requires EndsOnHop(path) && i < |path|
    ensures i <= h < |path| && path[h].Hop?
    ensures forall j :: i <= j < h ==> path[j].AnyDepth?
    decreases |path| - i
  {
    if path[i].Hop? then i else HopAt(path, i + 1)
  }

  /** One record's field moves position `i` to position `j`. */
  predicate Moves(path: Path, i: nat, field: Field, j: nat)
    requires EndsOnHop(path) && i < |path|
  {
    var h := HopAt(path, i);
    || (h + 1 < |path| && path[h].field == field && j == h + 1)
    || (i <= j < h && field in path[j].descend)
  }

  /** Position `i` is at a record the path selects. */
  predicate Selects(path: Path, i: nat, field: Field)
    requires EndsOnHop(path) && i < |path|
  {
    HopAt(path, i) == |path| - 1 && path[|path| - 1].field == field
  }

  lemma {:induction false} EmptyIsNotSpelled(path: Path, i: nat)
    requires EndsOnHop(path) && i < |path|
    ensures !InLanguage(path[i..], [])
    decreases |path| - i
  {
    if path[i].Hop? {
      InLanguageHop(path[i..], []);
    } else {
      assert path[i..][1..] == path[i + 1..];
      EmptyIsNotSpelled(path, i + 1);
      InLanguageStar(path[i..], []);
    }
  }

  /** The last letter: a position spells `[field]` exactly where it selects it. */
  lemma {:induction false} SpellsOneLetter(path: Path, i: nat, field: Field)
    requires EndsOnHop(path) && i < |path|
    ensures InLanguage(path[i..], [field]) <==> Selects(path, i, field)
    decreases |path| - i
  {
    assert path[i..][1..] == path[i + 1..];
    if path[i].Hop? {
      InLanguageHop(path[i..], [field]);
      if i + 1 < |path| {
        EmptyIsNotSpelled(path, i + 1);
      }
    } else {
      SpellsOneLetter(path, i + 1, field);
      InLanguageStar(path[i..], [field]);
      EmptyIsNotSpelled(path, i);
      assert [field][1..] == [];
    }
  }

  /** A longer word: the first letter moves the position, the rest is spelled
      from where it moved. */
  lemma {:induction false} SpellsThroughMoves(path: Path, i: nat, field: Field, rest: Word)
    requires EndsOnHop(path) && i < |path| && rest != []
    ensures InLanguage(path[i..], [field] + rest)
       <==> exists j :: 0 <= j < |path| && Moves(path, i, field, j) && InLanguage(path[j..], rest)
    decreases |path| - i
  {
    hide InLanguage, Moves;
    var word := [field] + rest;
    assert word[1..] == rest && path[i..][1..] == path[i + 1..];
    if path[i].Hop? {
      InLanguageHop(path[i..], word);
      HopMoves(path, i, field);
      if i + 1 == |path| {
        EmptySpellsNothing(rest);
      } else if path[i].field == field {
        assert Moves(path, i, field, i + 1);
      }
    } else {
      InLanguageStar(path[i..], word);
      SpellsThroughMoves(path, i + 1, field, rest);
      StarMoves(path, i, field);
    }
  }

  lemma EmptySpellsNothing(word: Word)
    ensures InLanguage([], word) <==> word == []
  {}

  /** A field moves one way: past itself, on its own letter. */
  lemma HopMoves(path: Path, i: nat, field: Field)
    requires EndsOnHop(path) && i < |path| && path[i].Hop?
    ensures forall j :: 0 <= j < |path| ==> (Moves(path, i, field, j) <==> path[i].field == field && j == i + 1)
  {}

  /** A wildcard loops on its set, or moves as the position after it. */
  lemma StarMoves(path: Path, i: nat, field: Field)
    requires EndsOnHop(path) && i < |path| && path[i].AnyDepth?
    ensures i + 1 < |path|
    ensures forall j :: 0 <= j < |path| ==>
              (Moves(path, i, field, j) <==> (j == i && field in path[i].descend) || Moves(path, i + 1, field, j))
  {}

  /** Every position spells some word, so a staged state is never wasted. */
  lemma {:induction false} SpellsSomething(path: Path, i: nat) returns (word: Word)
    requires EndsOnHop(path) && i < |path|
    ensures word != [] && InLanguage(path[i..], word)
    decreases |path| - i
  {
    assert path[i..][1..] == path[i + 1..];
    if path[i].Hop? {
      var rest := [];
      if i + 1 < |path| {
        rest := SpellsSomething(path, i + 1);
      }
      word := [path[i].field] + rest;
      assert word[1..] == rest;
      InLanguageHop(path[i..], word);
    } else {
      word := SpellsSomething(path, i + 1);
      InLanguageStar(path[i..], word);
    }
  }

  /** `word` is a proper prefix of some word of the path's language. */
  ghost predicate ProperPrefix(path: Path, word: Word) {
    exists rest: Word :: rest != [] && InLanguage(path, word + rest)
  }

  // ─── whole trails ───

  /** The trail can move the path's head to position `j`. */
  ghost predicate Reaches(path: Path, trail: Word, j: nat)
    requires EndsOnHop(path)
  {
    if trail == [] then j == 0
    else
      var last := |trail| - 1;
      exists i :: 0 <= i < |path| && Reaches(path, trail[..last], i) && Moves(path, i, trail[last], j)
  }

  /** A word continuing the trail is spelled from some reached position. */
  lemma {:induction false} SpelledFromReached(path: Path, trail: Word, rest: Word)
    requires EndsOnHop(path) && rest != []
    ensures InLanguage(path, trail + rest)
       <==> exists i :: 0 <= i < |path| && Reaches(path, trail, i) && InLanguage(path[i..], rest)
    decreases |trail|
  {
    if trail == [] {
      assert trail + rest == rest && path[0..] == path;
      assert Reaches(path, [], 0);
    } else {
      var last := |trail| - 1;
      var before, f := trail[..last], trail[last];
      assert trail + rest == before + ([f] + rest);
      SpelledFromReached(path, before, [f] + rest);
      forall i | 0 <= i < |path|
        ensures InLanguage(path[i..], [f] + rest)
           <==> exists j :: 0 <= j < |path| && Moves(path, i, f, j) && InLanguage(path[j..], rest)
      {
        SpellsThroughMoves(path, i, f, rest);
      }
    }
  }

  /** A record is selected exactly from a reached position that selects it. */
  lemma SelectedFromReached(path: Path, trail: Word, field: Field)
    requires EndsOnHop(path)
    ensures InLanguage(path, trail + [field])
       <==> exists i :: 0 <= i < |path| && Reaches(path, trail, i) && Selects(path, i, field)
  {
    SpelledFromReached(path, trail, [field]);
    forall i | 0 <= i < |path|
      ensures InLanguage(path[i..], [field]) <==> Selects(path, i, field)
    {
      SpellsOneLetter(path, i, field);
    }
  }

  /** A container is worth entering exactly when its field moves some reached
      position. */
  lemma PrefixFromReached(path: Path, trail: Word, field: Field)
    requires EndsOnHop(path)
    ensures ProperPrefix(path, trail + [field])
       <==> exists i: nat, j: nat :: i < |path| && Reaches(path, trail, i) && Moves(path, i, field, j)
  {
    if ProperPrefix(path, trail + [field]) {
      var rest :| rest != [] && InLanguage(path, trail + [field] + rest);
      SpelledFromReached(path, trail + [field], rest);
      var j :| 0 <= j < |path| && Reaches(path, trail + [field], j);
      assert (trail + [field])[..|trail|] == trail;
    }
    if i: nat, j: nat :| i < |path| && Reaches(path, trail, i) && Moves(path, i, field, j) {
      assert (trail + [field])[..|trail|] == trail;
      assert Reaches(path, trail + [field], j);
      var rest := SpellsSomething(path, j);
      SpelledFromReached(path, trail + [field], rest);
    }
  }
}
