/** The demand derivation is exact: its counts are the numbers of states some walk
    stages, and its depth factor the depth a walk can hold one at
    (src/fixed_inplace.rs). */
module Demand {
  import opened Wire
  import opened Paths
  import opened Layers
  import opened Capacity

  // ─── one path's counts ───

  /** A stageable position of the path whose chain ends at the hop at `h`. */
  predicate EndsAt(path: Path, id: U16, h: nat, s: State)
    requires EndsOnHop(path)
  {
    s.path == id && s.seg < |path| && Stageable(path, s.seg) && HopAt(path, s.seg) == h
  }

  lemma {:induction false} HopOfRun(path: Path, i: nat, h: nat)
    requires EndsOnHop(path) && i <= h < |path| && path[h].Hop? && forall j :: i <= j < h ==> path[j].AnyDepth?
    ensures HopAt(path, i) == h
    decreases h - i
  {
    if i < h {
      HopOfRun(path, i + 1, h);
    }
  }

  /** Wildcards right before `k` stop at the path's head or at a hop. */
  lemma {:induction false} RunStops(path: Path, k: nat)
    requires k <= |path|
    ensures var n := RunLen(path, k); n < k ==> path[k - n - 1].Hop?
  {
    if k > 0 && path[k - 1].AnyDepth? {
      RunStops(path, k - 1);
    }
  }

  lemma EndersExact(path: Path, id: U16, h: nat, s: State)
    requires EndsOnHop(path) && h < |path| <= 0xFFFF && path[h].Hop?
    ensures s in Enders(path, id, h) <==> EndsAt(path, id, h, s)
  {
    var run := RunLen(path, h);
    RunStops(path, h);
    if EndsAt(path, id, h, s) {
      StageableIsEnder(path, id, s.seg);
    }
    if s in Enders(path, id, h) {
      var k :| 0 <= k < |Enders(path, id, h)| && Enders(path, id, h)[k] == s;
      HopOfRun(path, s.seg, h);
    }
  }

  lemma EndersDistinct(path: Path, id: U16, h: nat)
    requires h < |path| <= 0xFFFF
    ensures Distinct(Enders(path, id, h))
  {}

  lemma {:induction false} TargetsExact(path: Path, id: U16, k: nat, s: State)
    requires EndsOnHop(path) && k <= |path| <= 0xFFFF
    ensures s in TargetStates(path, id, k) <==> k == |path| && EndsAt(path, id, |path| - 1, s)
  {
    hide Enders, EndsAt;
    if k > 0 {
      TargetsExact(path, id, k - 1, s);
      if path[k - 1].Hop? && k == |path| {
        EndersExact(path, id, k - 1, s);
      }
    }
  }

  lemma {:induction false} TargetsDistinct(path: Path, id: U16, k: nat)
    requires EndsOnHop(path) && k <= |path| <= 0xFFFF
    ensures Distinct(TargetStates(path, id, k))
    ensures k < |path| ==> TargetStates(path, id, k) == []
  {
    hide Enders;
    if k > 0 {
      TargetsDistinct(path, id, k - 1);
      EndersDistinct(path, id, k - 1);
    }
  }

  lemma {:induction false} StagesExact(path: Path, id: U16, k: nat, s: State)
    requires EndsOnHop(path) && k <= |path| <= 0xFFFF
    ensures s in StageStates(path, id, k)
            <==> exists h :: 0 <= h < k && h + 1 < |path| && path[h].Hop? && EndsAt(path, id, h, s)
  {
    hide Enders, EndsAt;
    if k > 0 {
      StagesExact(path, id, k - 1, s);
      if path[k - 1].Hop? && k < |path| {
        EndersExact(path, id, k - 1, s);
      }
    }
  }

  lemma {:induction false} StagesDistinct(path: Path, id: U16, k: nat)
    requires EndsOnHop(path) && k <= |path| <= 0xFFFF
    ensures Distinct(StageStates(path, id, k))
  {
    hide Enders, StageStates;
    StagesStep(path, id, k);
    if k > 0 {
      StagesDistinct(path, id, k - 1);
      if path[k - 1].Hop? && k < |path| {
        EndersDistinct(path, id, k - 1);
        var before, more := StageStates(path, id, k - 1), Enders(path, id, k - 1);
        forall s | s in before ensures s !in more {
          StagesExact(path, id, k - 1, s);
          EndersExact(path, id, k - 1, s);
        }
        DistinctJoin(before, more);
      }
    }
  }

  lemma StagesStep(path: Path, id: U16, k: nat)
    requires k <= |path| <= 0xFFFF
    ensures k == 0 ==> StageStates(path, id, k) == []
    ensures k > 0 ==> StageStates(path, id, k) == StageStates(path, id, k - 1)
                      + if path[k - 1].Hop? && k < |path| then Enders(path, id, k - 1) else []
  {}

  lemma DistinctJoin(a: seq<State>, b: seq<State>)
    requires Distinct(a) && Distinct(b) && forall s :: s in a ==> s !in b
    ensures Distinct(a + b)
  {
    forall i, j | 0 <= i < j < |a + b| ensures (a + b)[i] != (a + b)[j] {
      if i < |a| <= j {
        assert a[i] in a && b[j - |a|] in b;
      }
    }
  }

  lemma {:induction false} WildsExact(path: Path, id: U16, k: nat, s: State)
    requires k <= |path| <= 0xFFFF
    ensures s in WildStates(path, id, k) <==> s.path == id && s.seg < k && path[s.seg].AnyDepth?
  {
    if k > 0 {
      WildsExact(path, id, k - 1, s);
    }
  }

  lemma {:induction false} WildsDistinct(path: Path, id: U16, k: nat)
    requires k <= |path| <= 0xFFFF
    ensures Distinct(WildStates(path, id, k))
  {
    if k > 0 {
      WildsDistinct(path, id, k - 1);
      WildsExact(path, id, k - 1, State(id, k - 1));
    }
  }

  // ─── the whole program's ───

  /** A stageable position of one of the first `n` paths, by where its chain ends. */
  predicate Counted(prog: Program, n: nat, terminal: bool, s: State)
    requires Admitted(prog) && n <= |prog.paths|
  {
    s.path < n && LiveState(prog, s) && Stageable(prog.paths[s.path], s.seg) && ChainsToTerminal(prog, s) == terminal
  }

  predicate WildAt(prog: Program, n: nat, s: State)
    requires Admitted(prog) && n <= |prog.paths|
  {
    s.path < n && LiveState(prog, s) && prog.paths[s.path][s.seg].AnyDepth?
  }

  lemma {:induction false} CensusIs(prog: Program, n: nat)
    requires Admitted(prog) && AllTargets(prog) && n <= |prog.paths|
    ensures var c := CensusOf(prog, n);
            && (forall s :: s in c.targets <==> Counted(prog, n, true, s))
            && (forall s :: s in c.stages <==> Counted(prog, n, false, s))
            && (forall s :: s in c.wilds <==> WildAt(prog, n, s))
            && Distinct(c.targets) && Distinct(c.stages) && Distinct(c.wilds)
            && (if n == 0 then c.longest == 0
                else (exists p :: 0 <= p < n && |prog.paths[p]| == c.longest)
                     && forall p :: 0 <= p < n ==> |prog.paths[p]| <= c.longest)
  {
    hide TargetStates, StageStates, WildStates;
    if n > 0 {
      CensusIs(prog, n - 1);
      var before, path, id := CensusOf(prog, n - 1), prog.paths[n - 1], n - 1;
      PathCounted(prog, n);
      TargetsDistinct(path, id, |path|);
      StagesDistinct(path, id, |path|);
      WildsDistinct(path, id, |path|);
      DistinctJoin(before.targets, TargetStates(path, id, |path|));
      DistinctJoin(before.stages, StageStates(path, id, |path|));
      DistinctJoin(before.wilds, WildStates(path, id, |path|));
    }
  }

  lemma PathCounted(prog: Program, n: nat)
    requires Admitted(prog) && AllTargets(prog) && 0 < n <= |prog.paths|
    ensures var path, id := prog.paths[n - 1], n - 1;
            && (forall s :: s in TargetStates(path, id, |path|) <==> Counted(prog, n, true, s) && s.path == id)
            && (forall s :: s in StageStates(path, id, |path|) <==> Counted(prog, n, false, s) && s.path == id)
            && (forall s :: s in WildStates(path, id, |path|) <==> WildAt(prog, n, s) && s.path == id)
  {
    hide TargetStates, StageStates, WildStates;
    var path, id := prog.paths[n - 1], n - 1;
    forall s
      ensures s in TargetStates(path, id, |path|) <==> Counted(prog, n, true, s) && s.path == id
      ensures s in StageStates(path, id, |path|) <==> Counted(prog, n, false, s) && s.path == id
      ensures s in WildStates(path, id, |path|) <==> WildAt(prog, n, s) && s.path == id
    {
      TargetsExact(path, id, |path|, s);
      StagesExact(path, id, |path|, s);
      WildsExact(path, id, |path|, s);
      if Counted(prog, n, false, s) && s.path == id {
        assert EndsAt(path, id, HopAt(path, s.seg), s);
      }
    }
  }

  // ─── stageable is staged by some walk ───

  /** No wildcard of the path is over nothing. */
  predicate Filled(path: Path) {
    forall k :: 0 <= k < |path| && path[k].AnyDepth? ==> path[k].descend != []
  }

  lemma OneMove(path: Path, trail: Word, i: nat, field: Field, j: nat)
    requires EndsOnHop(path) && i < |path| && Reaches(path, trail, i) && Moves(path, i, field, j)
    ensures Reaches(path, trail + [field], j)
  {
    var longer := trail + [field];
    assert longer[..|longer| - 1] == trail && longer[|longer| - 1] == field;
  }

  /** A trail that stages the position. */
  lemma {:induction false} TrailTo(path: Path, i: nat) returns (trail: Word)
    requires EndsOnHop(path) && Filled(path) && i < |path| && Stageable(path, i)
    ensures Reaches(path, trail, i)
    decreases i
  {
    if i == 0 {
      trail := [];
    } else if path[i - 1].Hop? {
      var run := RunLen(path, i - 1);
      RunStops(path, i - 1);
      var start := i - 1 - run;
      HopOfRun(path, start, i - 1);
      var before := TrailTo(path, start);
      OneMove(path, before, start, path[i - 1].field, i);
      trail := before + [path[i - 1].field];
    } else {
      var run := RunLen(path, i);
      RunStops(path, i);
      var start := i - run;
      var before := TrailTo(path, start);
      HopOfRun(path, start, HopAt(path, i));
      OneMove(path, before, start, path[i].descend[0], i);
      trail := before + [path[i].descend[0]];
    }
  }

  /** Some walk stages the state. */
  ghost predicate Staged(prog: Program, s: State)
    requires Admitted(prog)
  {
    exists trail :: s in States(prog, trail)
  }

  lemma StagedIffStageable(prog: Program, s: State)
    requires Admitted(prog) && LiveState(prog, s) && Filled(prog.paths[s.path])
    ensures Staged(prog, s) <==> Stageable(prog.paths[s.path], s.seg)
  {
    hide States;
    if Staged(prog, s) {
      var trail :| s in States(prog, trail);
      StatesReach(prog, trail, s);
      ReachesAreStageable(prog.paths[s.path], trail, s.seg);
    }
    if Stageable(prog.paths[s.path], s.seg) {
      var trail := TrailTo(prog.paths[s.path], s.seg);
      StatesReach(prog, trail, s);
    }
  }

  /** A state some walk stages, its chain ending at the terminal or before it. */
  ghost predicate StagedSomewhere(prog: Program, terminal: bool, s: State)
    requires Admitted(prog)
  {
    LiveState(prog, s) && ChainsToTerminal(prog, s) == terminal && Staged(prog, s)
  }

  /** The counts are exact: the target and stage counts are the numbers of states
      some walk stages, by where their chains end, and the wildcard count the
      number of wildcard positions. */
  lemma CensusIsExact(prog: Program)
    requires Admitted(prog) && AllTargets(prog) && forall p :: 0 <= p < |prog.paths| ==> Filled(prog.paths[p])
    ensures var c := WholeCensus(prog);
            && Distinct(c.targets) && (forall s :: s in c.targets <==> StagedSomewhere(prog, true, s))
            && Distinct(c.stages) && (forall s :: s in c.stages <==> StagedSomewhere(prog, false, s))
            && Distinct(c.wilds) && (forall s :: s in c.wilds <==> WildAt(prog, |prog.paths|, s))
            && (prog.paths != [] ==> exists p :: 0 <= p < |prog.paths| && |prog.paths[p]| == c.longest)
  {
    hide CensusOf, ChainsToTerminal, Staged, Stageable;
    CensusIs(prog, |prog.paths|);
    forall s, terminal: bool ensures Counted(prog, |prog.paths|, terminal, s) <==> StagedSomewhere(prog, terminal, s) {
      if LiveState(prog, s) {
        StagedIffStageable(prog, s);
      }
    }
  }

  // ─── the depth factor ───

  /** `n` steps into a path whose first `w` segments are hops, looping in the
      wildcard at `w` once there. */
  lemma {:induction false} DeepTrail(path: Path, w: nat, n: nat) returns (trail: Word)
    requires EndsOnHop(path) && Filled(path) && w < |path|
    requires (forall k :: 0 <= k < w ==> path[k].Hop?) && (path[w].AnyDepth? || n <= w)
    ensures |trail| == n && Reaches(path, trail, if n < w then n else w)
    decreases n
  {
    if n == 0 {
      trail := [];
    } else {
      var before := DeepTrail(path, w, n - 1);
      var i := if n - 1 < w then n - 1 else w;
      var field := if i < w then path[i].field else path[w].descend[0];
      OneMove(path, before, i, field, if n < w then n else w);
      trail := before + [field];
    }
  }

  lemma FirstWild(path: Path, i: nat) returns (w: nat)
    requires i < |path| && path[i].AnyDepth?
    ensures w <= i && path[w].AnyDepth? && forall k :: 0 <= k < w ==> path[k].Hop?
  {
    if k: nat :| k < i && path[k].AnyDepth? {
      w := FirstWild(path, k);
    } else {
      w := i;
    }
  }

  /** The depth factor is attained: within the limit some trail that deep holds a
      state, and none deeper does. */
  lemma DepthFactorIsDepth(prog: Program, limit: nat)
    requires Admitted(prog) && AllTargets(prog) && prog.paths != []
    requires forall p :: 0 <= p < |prog.paths| ==> Filled(prog.paths[p])
    ensures var depth := DepthFactor(WholeCensus(prog), limit);
            && (exists trail :: |trail| == depth - 1 <= limit && States(prog, trail) != [])
            && forall trail :: |trail| <= limit && States(prog, trail) != [] ==> |trail| < depth
  {
    hide States, CensusOf;
    var c := WholeCensus(prog);
    var depth := DepthFactor(c, limit);
    CensusIs(prog, |prog.paths|);
    var p, w;
    if c.wilds != [] {
      assert c.wilds[0] in c.wilds;
      p := c.wilds[0].path;
      w := FirstWild(prog.paths[p], c.wilds[0].seg);
    } else {
      p :| 0 <= p < |prog.paths| && |prog.paths[p]| == c.longest;
      w := c.longest - 1;
      forall k | 0 <= k < w ensures prog.paths[p][k].Hop? {
        assert !WildAt(prog, |prog.paths|, State(p, k));
      }
    }
    var trail := DeepTrail(prog.paths[p], w, depth - 1);
    var s := State(p, if depth - 1 < w then depth - 1 else w);
    StatesReach(prog, trail, s);
    assert s in States(prog, trail);
    if c.wilds == [] {
      forall other: Word | States(prog, other) != [] ensures |other| < c.longest {
        RigidLayersEnd(prog, other);
      }
    }
  }

  // ─── the slab's demand ───

  /** A list of exactly the states some walk stages, each once. */
  ghost predicate Enumerates(prog: Program, terminal: bool, states: seq<State>)
    requires Admitted(prog)
  {
    Distinct(states) && forall s :: s in states <==> StagedSomewhere(prog, terminal, s)
  }

  /** The deepest trail within the limit that holds a state is `deep` long. */
  ghost predicate Deepest(prog: Program, limit: nat, deep: nat)
    requires Admitted(prog)
  {
    && deep <= limit && (exists trail :: |trail| == deep && States(prog, trail) != [])
    && forall trail :: |trail| <= limit && States(prog, trail) != [] ==> |trail| <= deep
  }

  lemma SameLength(a: seq<State>, b: seq<State>)
    requires Distinct(a) && Distinct(b) && forall s :: s in a <==> s in b
    ensures |a| == |b|
  {
    DistinctFit(a, b);
    DistinctFit(b, a);
  }

  /** A list of exactly the wildcard positions, each once. */
  ghost predicate EnumeratesWilds(prog: Program, states: seq<State>)
    requires Admitted(prog)
  {
    Distinct(states) && forall s :: s in states <==> WildAt(prog, |prog.paths|, s)
  }

  /** Admitted paths of actions, no wildcard over nothing. */
  predicate WellFilled(prog: Program) {
    Admitted(prog) && AllTargets(prog) && prog.paths != []
      && forall p :: 0 <= p < |prog.paths| ==> Filled(prog.paths[p])
  }

  lemma CountsAre(prog: Program, terminal: bool, states: seq<State>)
    requires WellFilled(prog) && Enumerates(prog, terminal, states)
    ensures var c := WholeCensus(prog); |states| == if terminal then |c.targets| else |c.stages|
  {
    hide States, CensusOf, StagedSomewhere, WildAt;
    CensusIsExact(prog);
    var c := WholeCensus(prog);
    SameLength(states, if terminal then c.targets else c.stages);
  }

  lemma WildsAre(prog: Program, states: seq<State>)
    requires WellFilled(prog) && EnumeratesWilds(prog, states)
    ensures |states| == |WholeCensus(prog).wilds|
  {
    hide States, CensusOf, StagedSomewhere, WildAt;
    CensusIsExact(prog);
    SameLength(states, WholeCensus(prog).wilds);
  }

  /** The matcher lanes' capacities, from what walks do alone: the states staged at
      some trail, the wildcards, and the deepest trail that holds a state. */
  lemma DemandIsExact(prog: Program, limit: nat, grouped: bool, targets: seq<State>, stages: seq<State>,
                      wilds: seq<State>, deep: nat)
    requires WellFilled(prog) && Deepest(prog, limit, deep)
    requires Enumerates(prog, true, targets) && Enumerates(prog, false, stages) && EnumeratesWilds(prog, wilds)
    ensures Derived(prog, limit, grouped)
         == Caps(if grouped then limit else deep, Layered(|targets|, deep + 1), Layered(|stages|, deep + 1),
                 Layered(|wilds|, deep + 1), |stages| + |wilds|)
  {
    hide States, WholeCensus, DepthFactor, Layered, Deepest, Enumerates, EnumeratesWilds;
    CountsAre(prog, true, targets);
    CountsAre(prog, false, stages);
    WildsAre(prog, wilds);
    DepthIsDeepest(prog, limit, deep);
  }

  lemma DepthIsDeepest(prog: Program, limit: nat, deep: nat)
    requires Admitted(prog) && AllTargets(prog) && prog.paths != []
    requires forall p :: 0 <= p < |prog.paths| ==> Filled(prog.paths[p])
    requires Deepest(prog, limit, deep)
    ensures DepthFactor(WholeCensus(prog), limit) == deep + 1
  {
    hide States, CensusOf, DepthFactor;
    DepthFactorIsDepth(prog, limit);
    var depth := DepthFactor(WholeCensus(prog), limit);
    var a :| |a| == deep && States(prog, a) != [];
    var b :| |b| == depth - 1 <= limit && States(prog, b) != [];
  }
}
