/** What one layer of the compiled matcher holds, as a function of the program
    and the trail of committed containers (src/path.rs). Both matchers are
    proved against these tables, and the tables against the language. */
module Layers {
  import opened Wire
  import opened Paths

  /** The matcher's state domain: every narrowing at a mint is checked by type. */
  type U16 = n: int | 0 <= n <= 0xFFFF

  datatype State = State(path: U16, seg: U16)

  datatype Lane = Target | Head | Tail

  /** Paths and the lane of each path's terminal. A gap lane may hold an empty
      path: a root-gap anchor that lives outside the automaton. */
  datatype Program = Program(paths: seq<Path>, lanes: seq<Lane>)

  predicate Admitted(prog: Program) {
    && |prog.paths| == |prog.lanes| <= 0xFFFF
    && forall p :: 0 <= p < |prog.paths| ==>
         && |prog.paths[p]| <= 0xFFFF
         && (EndsOnHop(prog.paths[p]) || (prog.paths[p] == [] && prog.lanes[p] != Target))
  }

  predicate LiveState(prog: Program, s: State)
    requires Admitted(prog)
  {
    s.path < |prog.paths| && s.seg < |prog.paths[s.path]|
  }

  predicate AllLive(prog: Program, states: seq<State>)
    requires Admitted(prog)
  {
    forall i :: 0 <= i < |states| ==> LiveState(prog, states[i])
  }

  // ─── ordered states ───

  predicate Before(a: State, b: State) {
    a.path < b.path || (a.path == b.path && a.seg < b.seg)
  }

  predicate Ascending(s: seq<State>) {
    forall i, j :: 0 <= i < j < |s| ==> Before(s[i], s[j])
  }

  predicate NonDescending(s: seq<State>) {
    forall i, j :: 0 <= i < j < |s| ==> !Before(s[j], s[i])
  }

  function Insert(x: State, s: seq<State>): (r: seq<State>)
    requires NonDescending(s)
    ensures NonDescending(r) && |r| == |s| + 1
    ensures forall y :: y in r <==> y == x || y in s
  {
    if s == [] then [x]
    else if Before(s[0], x) then
      var rest := Insert(x, s[1..]);
      assert forall y :: y in s <==> y == s[0] || y in s[1..];
      assert forall j :: 0 <= j < |rest| ==> !Before(rest[j], s[0]) by {
        forall j | 0 <= j < |rest| ensures !Before(rest[j], s[0]) { assert rest[j] in rest; }
      }
      [s[0]] + rest
    else [x] + s
  }

  /** What `sort_unstable` leaves behind. */
  function Sorted(s: seq<State>): (r: seq<State>)
    ensures NonDescending(r) && |r| == |s|
    ensures forall y :: y in r <==> y in s
  {
    if s == [] then [] else Insert(s[0], Sorted(s[1..]))
  }

  /** `dedup`: the first of every run of equal neighbours. */
  function Dedup(s: seq<State>, n: nat): (r: seq<State>)
    requires n <= |s|
    ensures |r| <= n
    ensures n > 0 ==> r != [] && r[|r| - 1] == s[n - 1]
    ensures forall y :: y in r <==> y in s[..n]
    ensures NonDescending(s) ==> Ascending(r)
  {
    if n == 0 then []
    else
      assert s[..n] == s[..n - 1] + [s[n - 1]];
      var before := Dedup(s, n - 1);
      if n > 1 && s[n - 1] == s[n - 2] then before else before + [s[n - 1]]
  }

  /** Sorting then collapsing: the canonical spelling of a set of states. */
  function Canonical(s: seq<State>): (r: seq<State>)
    ensures Ascending(r) && |r| <= |s|
    ensures forall y :: y in r <==> y in s
  {
    var sorted := Sorted(s);
    assert sorted[..|sorted|] == sorted;
    Dedup(sorted, |sorted|)
  }

  /** Only the set of states matters: whatever order or repeats arrive, the
      canonical spelling is one. */
  lemma {:induction false} AscendingIsUnique(a: seq<State>, b: seq<State>)
    requires Ascending(a) && Ascending(b)
    requires forall y :: y in a <==> y in b
    ensures a == b
  {
    if a != [] {
      assert a[0] in b;
      assert b[0] in a;
      assert a[0] == b[0];
      forall y
        ensures y in a[1..] <==> y in b[1..]
      {
        assert a == [a[0]] + a[1..] && b == [b[0]] + b[1..];
        if y in a[1..] {
          assert y in b && Before(a[0], y);
        }
        if y in b[1..] {
          assert y in a && Before(b[0], y);
        }
      }
      AscendingIsUnique(a[1..], b[1..]);
    }
    assert b != [] ==> b[0] in b;
  }

  // ─── the tables ───

  type TargetEntry = (Field, U16)
  type StageEntry = (Field, State)
  type WildEntry = (seq<Field>, State)
  type GapEntry = (Field, U16, Lane)

  datatype Tables = Tables(targets: seq<TargetEntry>, stages: seq<StageEntry>, wilds: seq<WildEntry>,
                           gaps: seq<GapEntry>)
  {
    function Plus(that: Tables): Tables {
      Tables(targets + that.targets, stages + that.stages, wilds + that.wilds, gaps + that.gaps)
    }
  }

  const NO_TABLES := Tables([], [], [], [])

  /** The wildcards from position `i` up to (not including) position `h`. */
  function Run(path: Path, id: U16, i: nat, h: nat): seq<WildEntry>
    requires i <= h <= |path| <= 0xFFFF
    requires forall j :: i <= j < h ==> path[j].AnyDepth?
    decreases h - i
  {
    if i == h then [] else Run(path, id, i, h - 1) + [(path[h - 1].descend, State(id, h - 1))]
  }

  /** One live state's chain: its wildcards, then its first field as a target, a
      gap anchor or a stage. */
  function Chain(prog: Program, s: State): Tables
    requires Admitted(prog) && LiveState(prog, s)
  {
    var path := prog.paths[s.path];
    var h := HopAt(path, s.seg);
    var f := path[h].field;
    var run := Run(path, s.path, s.seg, h);
    if h + 1 < |path| then Tables([], [(f, State(s.path, h + 1))], run, [])
    else if prog.lanes[s.path] == Target then Tables([(f, s.path)], [], run, [])
    else Tables([], [], run, [(f, s.path, prog.lanes[s.path])])
  }

  function Layer(prog: Program, states: seq<State>, n: nat): Tables
    requires Admitted(prog) && AllLive(prog, states) && n <= |states|
  {
    if n == 0 then NO_TABLES else Layer(prog, states, n - 1).Plus(Chain(prog, states[n - 1]))
  }

  // ─── probing ───

  function StagedFrom(stages: seq<StageEntry>, field: Field, n: nat): seq<State>
    requires n <= |stages|
  {
    if n == 0 then []
    else StagedFrom(stages, field, n - 1) + if stages[n - 1].0 == field then [stages[n - 1].1] else []
  }

  function LoopedFrom(wilds: seq<WildEntry>, field: Field, n: nat): seq<State>
    requires n <= |wilds|
  {
    if n == 0 then []
    else LoopedFrom(wilds, field, n - 1) + if field in wilds[n - 1].0 then [wilds[n - 1].1] else []
  }

  lemma StagedStep(stages: seq<StageEntry>, field: Field, n: nat)
    requires n <= |stages|
    ensures n == 0 ==> StagedFrom(stages, field, 0) == []
    ensures n > 0 ==> StagedFrom(stages, field, n)
                      == StagedFrom(stages, field, n - 1) + if stages[n - 1].0 == field then [stages[n - 1].1] else []
  {}

  lemma LoopedStep(wilds: seq<WildEntry>, field: Field, n: nat)
    requires n <= |wilds|
    ensures n == 0 ==> LoopedFrom(wilds, field, 0) == []
    ensures n > 0 ==> LoopedFrom(wilds, field, n)
                      == LoopedFrom(wilds, field, n - 1) + if field in wilds[n - 1].0 then [wilds[n - 1].1] else []
  {}

  /** The child states a container of `field` stages. */
  function Probed(layer: Tables, field: Field): seq<State> {
    StagedFrom(layer.stages, field, |layer.stages|) + LoopedFrom(layer.wilds, field, |layer.wilds|)
  }

  lemma {:induction false} StagedMember(stages: seq<StageEntry>, field: Field, n: nat, s: State)
    requires n <= |stages|
    ensures s in StagedFrom(stages, field, n) <==> exists k :: 0 <= k < n && stages[k] == (field, s)
  {
    if n > 0 {
      StagedMember(stages, field, n - 1, s);
    }
  }

  lemma {:induction false} LoopedMember(wilds: seq<WildEntry>, field: Field, n: nat, s: State)
    requires n <= |wilds|
    ensures s in LoopedFrom(wilds, field, n) <==> exists k :: 0 <= k < n && wilds[k].1 == s && field in wilds[k].0
  {
    if n > 0 {
      LoopedMember(wilds, field, n - 1, s);
    }
  }

  lemma ProbedMember(layer: Tables, field: Field, s: State)
    ensures s in Probed(layer, field)
       <==> ((exists k :: 0 <= k < |layer.stages| && layer.stages[k] == (field, s))
             || (exists k :: 0 <= k < |layer.wilds| && layer.wilds[k].1 == s && field in layer.wilds[k].0))
  {
    StagedMember(layer.stages, field, |layer.stages|, s);
    LoopedMember(layer.wilds, field, |layer.wilds|, s);
  }

  // ─── what a layer's entries are ───

  lemma {:induction false} RunEntries(path: Path, id: U16, i: nat, h: nat)
    requires i <= h <= |path| <= 0xFFFF
    requires forall j :: i <= j < h ==> path[j].AnyDepth?
    ensures |Run(path, id, i, h)| == h - i
    ensures forall k :: 0 <= k < h - i ==> Run(path, id, i, h)[k] == (path[i + k].descend, State(id, i + k))
    decreases h - i
  {
    if i < h {
      RunEntries(path, id, i, h - 1);
      var run := Run(path, id, i, h - 1);
      assert Run(path, id, i, h) == run + [(path[h - 1].descend, State(id, h - 1))];
    }
  }

  /** A run's wildcards keep a position where it stands. */
  lemma RunMoves(path: Path, id: U16, i: nat, h: nat, field: Field, t: State)
    requires i <= h <= |path| <= 0xFFFF
    requires forall j :: i <= j < h ==> path[j].AnyDepth?
    ensures var run := Run(path, id, i, h);
            (exists k :: 0 <= k < |run| && run[k].1 == t && field in run[k].0)
            <==> t.path == id && i <= t.seg < h && field in path[t.seg].descend
  {
    hide Run;
    RunEntries(path, id, i, h);
    if t.path == id && i <= t.seg < h {
      assert Run(path, id, i, h)[t.seg - i].1 == t;
    }
  }

  /** What one chain stages for `field` is what its position moves to. */
  lemma ChainMoves(prog: Program, s: State, field: Field, t: State)
    requires Admitted(prog) && LiveState(prog, s)
    ensures t in Probed(Chain(prog, s), field) <==> MovesTo(prog, s, field, t)
  {
    var path := prog.paths[s.path];
    var h := HopAt(path, s.seg);
    var c := Chain(prog, s);
    hide Probed, Run;
    ProbedMember(c, field, t);
    RunMoves(path, s.path, s.seg, h, field, t);
    assert c.wilds == Run(path, s.path, s.seg, h);
    if h + 1 < |path| {
      assert c.stages == [(path[h].field, State(s.path, h + 1))];
      assert c.stages[0] == (path[h].field, State(s.path, h + 1));
    }
    assert (exists k :: 0 <= k < |c.stages| && c.stages[k] == (field, t))
      <==> h + 1 < |path| && path[h].field == field && t == State(s.path, h + 1);
  }

  lemma StagedPlus(a: seq<StageEntry>, b: seq<StageEntry>, field: Field, s: State)
    ensures s in StagedFrom(a + b, field, |a + b|) <==> s in StagedFrom(a, field, |a|) || s in StagedFrom(b, field, |b|)
  {
    hide StagedFrom;
    StagedMember(a, field, |a|, s);
    StagedMember(b, field, |b|, s);
    StagedMember(a + b, field, |a + b|, s);
    if k :| 0 <= k < |b| && b[k] == (field, s) {
      assert (a + b)[|a| + k] == (field, s);
    }
    if k :| 0 <= k < |a| && a[k] == (field, s) {
      assert (a + b)[k] == (field, s);
    }
  }

  lemma LoopedPlus(a: seq<WildEntry>, b: seq<WildEntry>, field: Field, s: State)
    ensures s in LoopedFrom(a + b, field, |a + b|) <==> s in LoopedFrom(a, field, |a|) || s in LoopedFrom(b, field, |b|)
  {
    hide LoopedFrom;
    LoopedMember(a, field, |a|, s);
    LoopedMember(b, field, |b|, s);
    LoopedMember(a + b, field, |a + b|, s);
    if k :| 0 <= k < |b| && b[k].1 == s && field in b[k].0 {
      assert (a + b)[|a| + k] == b[k];
    }
    if k :| 0 <= k < |a| && a[k].1 == s && field in a[k].0 {
      assert (a + b)[k] == a[k];
    }
  }

  /** Staging over a whole layer is staging over each of its chains. */
  lemma ProbedPlus(a: Tables, b: Tables, field: Field, t: State)
    ensures t in Probed(a.Plus(b), field) <==> t in Probed(a, field) || t in Probed(b, field)
  {
    StagedPlus(a.stages, b.stages, field, t);
    LoopedPlus(a.wilds, b.wilds, field, t);
  }

  ghost predicate MovesTo(prog: Program, s: State, field: Field, t: State)
    requires Admitted(prog) && LiveState(prog, s)
  {
    t.path == s.path && EndsOnHop(prog.paths[s.path]) && Moves(prog.paths[s.path], s.seg, field, t.seg)
  }

  lemma {:induction false} LayerMoves(prog: Program, states: seq<State>, n: nat, field: Field, t: State)
    requires Admitted(prog) && AllLive(prog, states) && n <= |states|
    ensures t in Probed(Layer(prog, states, n), field) <==> exists k :: 0 <= k < n && MovesTo(prog, states[k], field, t)
  {
    hide MovesTo, Probed, Chain;
    if n > 0 {
      LayerMoves(prog, states, n - 1, field, t);
      ChainMoves(prog, states[n - 1], field, t);
      ProbedPlus(Layer(prog, states, n - 1), Chain(prog, states[n - 1]), field, t);
    } else {
      ProbedNothing(field);
    }
  }

  lemma ProbedNothing(field: Field)
    ensures Probed(NO_TABLES, field) == []
  {}

  /** Everything a layer stages is itself live. */
  lemma ProbedLive(prog: Program, states: seq<State>, field: Field)
    requires Admitted(prog) && AllLive(prog, states)
    ensures AllLive(prog, Probed(Layer(prog, states, |states|), field))
  {
    hide Probed, Layer;
    var staged := Probed(Layer(prog, states, |states|), field);
    forall i | 0 <= i < |staged|
      ensures LiveState(prog, staged[i])
    {
      assert staged[i] in staged;
      LayerMoves(prog, states, |states|, field, staged[i]);
    }
  }

  lemma CanonicalLive(prog: Program, states: seq<State>)
    requires Admitted(prog) && AllLive(prog, states)
    ensures AllLive(prog, Canonical(states))
  {
    hide Canonical;
    forall i | 0 <= i < |Canonical(states)|
      ensures LiveState(prog, Canonical(states)[i])
    {
      assert Canonical(states)[i] in states;
    }
  }

  // ─── the states live after a trail ───

  /** Every non-empty path at its head. */
  function Roots(prog: Program, n: nat): (r: seq<State>)
    requires Admitted(prog) && n <= |prog.paths|
    ensures AllLive(prog, r) && Ascending(r)
    ensures forall i :: 0 <= i < |r| ==> r[i].path < n
    ensures forall s :: s in r <==> s.path < n && s.seg == 0 && prog.paths[s.path] != []
  {
    if n == 0 then []
    else
      var before := Roots(prog, n - 1);
      if prog.paths[n - 1] == [] then before else before + [State(n - 1, 0)]
  }

  lemma RootsGrow(prog: Program, n: nat)
    requires Admitted(prog) && n < |prog.paths|
    ensures var a, b := Roots(prog, n), Roots(prog, n + 1);
            Layer(prog, b, |b|) == if prog.paths[n] == [] then Layer(prog, a, |a|)
                                   else Layer(prog, a, |a|).Plus(Chain(prog, State(n, 0)))
  {
    hide Chain, Layer;
    var a, b := Roots(prog, n), Roots(prog, n + 1);
    if prog.paths[n] == [] {
      assert b == a;
    } else {
      assert b == a + [State(n, 0)];
      LayerPrefix(prog, a, b, |a|);
      LayerStep(prog, b, |b|);
    }
  }

  lemma LayerEmpty(prog: Program, states: seq<State>)
    requires Admitted(prog) && AllLive(prog, states)
    ensures Layer(prog, states, 0) == NO_TABLES
  {}

  lemma LayerStep(prog: Program, states: seq<State>, n: nat)
    requires Admitted(prog) && AllLive(prog, states) && 0 < n <= |states|
    ensures Layer(prog, states, n) == Layer(prog, states, n - 1).Plus(Chain(prog, states[n - 1]))
  {}

  lemma {:induction false} LayerPrefix(prog: Program, a: seq<State>, b: seq<State>, n: nat)
    requires Admitted(prog) && AllLive(prog, a) && AllLive(prog, b) && n <= |a| && n <= |b|
    requires forall i :: 0 <= i < n ==> a[i] == b[i]
    ensures Layer(prog, a, n) == Layer(prog, b, n)
  {
    if n > 0 {
      LayerPrefix(prog, a, b, n - 1);
    }
  }

  function States(prog: Program, trail: Word): (r: seq<State>)
    requires Admitted(prog)
    ensures AllLive(prog, r) && Ascending(r)
    decreases |trail|
  {
    if trail == [] then Roots(prog, |prog.paths|)
    else
      var last := |trail| - 1;
      var parents := States(prog, trail[..last]);
      ProbedLive(prog, parents, trail[last]);
      CanonicalLive(prog, Probed(Layer(prog, parents, |parents|), trail[last]));
      Canonical(Probed(Layer(prog, parents, |parents|), trail[last]))
  }

  /** The current layer after committing `trail`. */
  function LayerAt(prog: Program, trail: Word): Tables
    requires Admitted(prog)
  {
    var states := States(prog, trail);
    Layer(prog, states, |states|)
  }

  /** All layers concatenated: what the flat tables hold. */
  function Stacked(prog: Program, trail: Word): Tables
    requires Admitted(prog)
    decreases |trail|
  {
    Below(prog, trail).Plus(LayerAt(prog, trail))
  }

  /** The suspended ancestor layers. */
  function Below(prog: Program, trail: Word): Tables
    requires Admitted(prog)
    decreases |trail|, 0
  {
    if trail == [] then NO_TABLES else Stacked(prog, trail[..|trail| - 1])
  }

  // ─── the tables against the language ───

  ghost predicate ReachedState(prog: Program, trail: Word, s: State)
    requires Admitted(prog)
  {
    s.path < |prog.paths| && EndsOnHop(prog.paths[s.path]) && Reaches(prog.paths[s.path], trail, s.seg)
  }

  /** The live states are exactly the positions the trail reaches. */
  lemma {:induction false} StatesReach(prog: Program, trail: Word, s: State)
    requires Admitted(prog)
    ensures s in States(prog, trail) <==> ReachedState(prog, trail, s)
    decreases |trail|
  {
    hide Canonical, Probed, Layer, Moves;
    if trail != [] {
      var last := |trail| - 1;
      var before, f := trail[..last], trail[last];
      var parents := States(prog, before);
      LayerMoves(prog, parents, |parents|, f, s);
      if s in States(prog, trail) {
        var k :| 0 <= k < |parents| && MovesTo(prog, parents[k], f, s);
        assert parents[k] in parents;
        StatesReach(prog, before, parents[k]);
      }
      if ReachedState(prog, trail, s) {
        var path := prog.paths[s.path];
        var i :| 0 <= i < |path| && Reaches(path, before, i) && Moves(path, i, f, s.seg);
        StatesReach(prog, before, State(s.path, i));
        var k :| 0 <= k < |parents| && parents[k] == State(s.path, i);
        assert MovesTo(prog, parents[k], f, s);
      }
    }
  }

  /** Path `p` selects a record `field` under the trail, on an action lane. */
  ghost predicate Targeted(prog: Program, trail: Word, field: Field, p: nat)
    requires Admitted(prog)
  {
    p < |prog.paths| && prog.lanes[p] == Target && InLanguage(prog.paths[p], trail + [field])
  }

  /** Insert anchor `p` of a gap lane names this container occurrence. */
  ghost predicate Anchored(prog: Program, trail: Word, field: Field, p: nat, lane: Lane)
    requires Admitted(prog)
  {
    p < |prog.paths| && lane != Target && prog.lanes[p] == lane && InLanguage(prog.paths[p], trail + [field])
  }

  ghost predicate SelectsAt(prog: Program, s: State, field: Field, p: nat)
    requires Admitted(prog) && LiveState(prog, s)
  {
    s.path == p && EndsOnHop(prog.paths[p]) && Selects(prog.paths[p], s.seg, field)
  }

  ghost predicate SomeSelects(prog: Program, states: seq<State>, n: nat, field: Field, p: nat)
    requires Admitted(prog) && AllLive(prog, states) && n <= |states|
  {
    exists k :: 0 <= k < n && SelectsAt(prog, states[k], field, p)
  }

  lemma {:induction false} LayerTerminals(prog: Program, states: seq<State>, n: nat, field: Field, p: U16)
    requires Admitted(prog) && AllLive(prog, states) && n <= |states|
    ensures SomeSelects(prog, states, n, field, p) ==> p < |prog.paths|
    ensures (field, p) in Layer(prog, states, n).targets
       <==> SomeSelects(prog, states, n, field, p) && prog.lanes[p] == Target
    ensures forall lane: Lane ::
              ((field, p, lane) in Layer(prog, states, n).gaps
               <==> SomeSelects(prog, states, n, field, p) && prog.lanes[p] == lane != Target)
  {
    hide Layer, Chain, SelectsAt;
    if n > 0 {
      LayerTerminals(prog, states, n - 1, field, p);
      LayerStep(prog, states, n);
      ChainTerminals(prog, states[n - 1], field, p);
      assert SomeSelects(prog, states, n, field, p)
        <==> SomeSelects(prog, states, n - 1, field, p) || SelectsAt(prog, states[n - 1], field, p);
    } else {
      LayerEmpty(prog, states);
    }
  }

  lemma ChainTerminals(prog: Program, s: State, field: Field, p: U16)
    requires Admitted(prog) && LiveState(prog, s)
    ensures SelectsAt(prog, s, field, p) ==> p < |prog.paths|
    ensures (field, p) in Chain(prog, s).targets <==> SelectsAt(prog, s, field, p) && prog.lanes[p] == Target
    ensures forall lane: Lane ::
              (field, p, lane) in Chain(prog, s).gaps <==>
                SelectsAt(prog, s, field, p) && prog.lanes[p] == lane != Target
  {
    hide Run;
  }

  lemma TerminalsReached(prog: Program, trail: Word, field: Field, p: nat)
    requires Admitted(prog) && p < |prog.paths|
    ensures SomeSelects(prog, States(prog, trail), |States(prog, trail)|, field, p)
       <==> InLanguage(prog.paths[p], trail + [field])
  {
    hide Selects, States;
    var states := States(prog, trail);
    if prog.paths[p] != [] {
      SelectedFromReached(prog.paths[p], trail, field);
      if k :| 0 <= k < |states| && SelectsAt(prog, states[k], field, p) {
        assert states[k] in states;
        StatesReach(prog, trail, states[k]);
      }
      if i :| 0 <= i < |prog.paths[p]| && Reaches(prog.paths[p], trail, i) && Selects(prog.paths[p], i, field) {
        StatesReach(prog, trail, State(p, i));
        var k :| 0 <= k < |states| && states[k] == State(p, i);
        assert SelectsAt(prog, states[k], field, p);
      }
    }
  }

  /** A layer's target entries are exactly the selections the languages call for. */
  lemma TargetsAreLanguage(prog: Program, trail: Word, field: Field, p: U16)
    requires Admitted(prog)
    ensures (field, p) in LayerAt(prog, trail).targets <==> Targeted(prog, trail, field, p)
  {
    hide Layer, States, SomeSelects, InLanguage;
    LayerTerminals(prog, States(prog, trail), |States(prog, trail)|, field, p);
    if p < |prog.paths| {
      TerminalsReached(prog, trail, field, p);
    }
  }

  /** And its gap entries are exactly the anchored insert rules. */
  lemma GapsAreLanguage(prog: Program, trail: Word, field: Field, p: U16, lane: Lane)
    requires Admitted(prog)
    ensures (field, p, lane) in LayerAt(prog, trail).gaps <==> Anchored(prog, trail, field, p, lane)
  {
    hide Layer, States, SomeSelects, InLanguage;
    LayerTerminals(prog, States(prog, trail), |States(prog, trail)|, field, p);
    if p < |prog.paths| {
      TerminalsReached(prog, trail, field, p);
    }
  }

  /** Some path continues past this container. */
  ghost predicate Continues(prog: Program, word: Word) {
    exists p :: 0 <= p < |prog.paths| && ProperPrefix(prog.paths[p], word)
  }

  /** A probe stages something exactly where some path's language continues. */
  lemma StagingIsContinuation(prog: Program, trail: Word, field: Field)
    requires Admitted(prog)
    ensures Probed(LayerAt(prog, trail), field) != [] <==> Continues(prog, trail + [field])
  {
    hide Layer, States, Probed, Moves;
    var states := States(prog, trail);
    var staged := Probed(LayerAt(prog, trail), field);
    if staged != [] {
      assert staged[0] in staged;
      LayerMoves(prog, states, |states|, field, staged[0]);
      var k :| 0 <= k < |states| && MovesTo(prog, states[k], field, staged[0]);
      assert states[k] in states;
      StatesReach(prog, trail, states[k]);
      PrefixFromReached(prog.paths[states[k].path], trail, field);
    }
    if Continues(prog, trail + [field]) {
      var p :| 0 <= p < |prog.paths| && ProperPrefix(prog.paths[p], trail + [field]);
      EmptyPathStops(prog.paths[p], trail + [field]);
      PrefixFromReached(prog.paths[p], trail, field);
      var i: nat, j: nat :| i < |prog.paths[p]| && Reaches(prog.paths[p], trail, i)
        && Moves(prog.paths[p], i, field, j);
      MovesInside(prog.paths[p], i, field, j);
      StatesReach(prog, trail, State(p, i));
      var k :| 0 <= k < |states| && states[k] == State(p, i);
      assert MovesTo(prog, states[k], field, State(p, j));
      LayerMoves(prog, states, |states|, field, State(p, j));
    }
  }

  lemma EmptyPathStops(path: Path, word: Word)
    requires ProperPrefix(path, word)
    ensures path != []
  {}

  lemma MovesInside(path: Path, i: nat, field: Field, j: nat)
    requires EndsOnHop(path) && i < |path| && Moves(path, i, field, j)
    ensures j < |path|
  {}

  // ─── the layer-order invariant ───

  predicate IdsAscend(targets: seq<TargetEntry>) {
    forall i, j :: 0 <= i < j < |targets| ==> targets[i].1 <= targets[j].1
  }

  predicate GapIdsAscend(gaps: seq<GapEntry>) {
    forall i, j :: 0 <= i < j < |gaps| ==> gaps[i].1 <= gaps[j].1
  }

  /** Ascending states flatten into non-decreasing path ids. */
  lemma {:induction false} LayerOrdered(prog: Program, states: seq<State>, n: nat)
    requires Admitted(prog) && AllLive(prog, states) && Ascending(states) && n <= |states|
    ensures IdsAscend(Layer(prog, states, n).targets) && GapIdsAscend(Layer(prog, states, n).gaps)
    ensures forall e :: e in Layer(prog, states, n).targets ==> n > 0 && e.1 <= states[n - 1].path
    ensures forall e :: e in Layer(prog, states, n).gaps ==> n > 0 && e.1 <= states[n - 1].path
  {
    if n > 0 {
      hide Layer, Chain, IdsAscend, GapIdsAscend;
      var s := states[n - 1];
      LayerOrdered(prog, states, n - 1);
      assert n > 1 ==> Before(states[n - 2], s);
      LayerStep(prog, states, n);
      ChainIds(prog, s);
      TargetAppended(Layer(prog, states, n - 1).targets, Chain(prog, s).targets, s.path);
      GapAppended(Layer(prog, states, n - 1).gaps, Chain(prog, s).gaps, s.path);
    }
  }

  /** A chain ends in at most one terminal, under its own path's id. */
  lemma ChainIds(prog: Program, s: State)
    requires Admitted(prog) && LiveState(prog, s)
    ensures |Chain(prog, s).targets| + |Chain(prog, s).gaps| <= 1
    ensures forall e :: e in Chain(prog, s).targets ==> e.1 == s.path
    ensures forall e :: e in Chain(prog, s).gaps ==> e.1 == s.path
  {
    hide Run;
  }

  lemma TargetAppended(a: seq<TargetEntry>, b: seq<TargetEntry>, id: U16)
    requires IdsAscend(a) && (forall e :: e in a ==> e.1 <= id)
    requires |b| <= 1 && (forall e :: e in b ==> e.1 == id)
    ensures IdsAscend(a + b) && forall e :: e in a + b ==> e.1 <= id
  {
    assert forall i :: 0 <= i < |a| ==> a[i] in a;
  }

  lemma GapAppended(a: seq<GapEntry>, b: seq<GapEntry>, id: U16)
    requires GapIdsAscend(a) && (forall e :: e in a ==> e.1 <= id)
    requires |b| <= 1 && (forall e :: e in b ==> e.1 == id)
    ensures GapIdsAscend(a + b) && forall e :: e in a + b ==> e.1 <= id
  {
    assert forall i :: 0 <= i < |a| ==> a[i] in a;
  }
}
