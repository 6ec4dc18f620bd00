/** Concatenation laws the byte modules share. */
module Sequences {
  function Flat<T>(slices: seq<seq<T>>): seq<T> {
    if slices == [] then [] else Flat(slices[..|slices| - 1]) + slices[|slices| - 1]
  }

  /** Slices flatten in turn, a lone one into itself. */
  lemma {:induction false} FlatInTurn<T>(a: seq<seq<T>>, b: seq<seq<T>>)
    ensures Flat(a + b) == Flat(a) + Flat(b)
    ensures |b| == 1 ==> Flat(b) == b[0]
  {
    if b == [] {
      assert a + b == a;
    } else {
      var n := |b| - 1;
      FlatInTurn(a, b[..n]);
      assert (a + b)[..|a| + n] == a + b[..n];
      Associative(Flat(a), Flat(b[..n]), b[n]);
    }
  }

  lemma Associative<T>(a: seq<T>, b: seq<T>, c: seq<T>)
    ensures (a + b) + c == a + (b + c)
  {}
}
