/** The demand derivation: per-layer counts read off the static shape of a rule
    set, and the proof that no walk can hold more (src/fixed_inplace.rs). */
module Capacity {
  import opened Wire
  import opened Paths
  import opened Layers

  // ─── the fixed layer: wildcards land once ───

  predicate SeenIn(wilds: seq<WildEntry>, s: State) {
    exists k :: 0 <= k < |wilds| && wilds[k].1 == s
  }

  /** Landing the first `n` entries of a run, each state at most once. */
  function Landed(kept: seq<WildEntry>, run: seq<WildEntry>, n: nat): seq<WildEntry>
    requires n <= |run|
  {
    if n == 0 then kept
    else
      var before := Landed(kept, run, n - 1);
      if SeenIn(before, run[n - 1].1) then before else before + [run[n - 1]]
  }

  function Lean(prog: Program, states: seq<State>, n: nat): Tables
    requires Admitted(prog) && AllLive(prog, states) && n <= |states|
  {
    if n == 0 then NO_TABLES
    else
      var before, chain := Lean(prog, states, n - 1), Chain(prog, states[n - 1]);
      before.Plus(chain).(wilds := Landed(before.wilds, chain.wilds, |chain.wilds|))
  }

  function LeanAt(prog: Program, trail: Word): Tables
    requires Admitted(prog)
  {
    Lean(prog, States(prog, trail), |States(prog, trail)|)
  }

  function LeanStacked(prog: Program, trail: Word): Tables
    requires Admitted(prog)
    decreases |trail|
  {
    LeanBelow(prog, trail).Plus(LeanAt(prog, trail))
  }

  function LeanBelow(prog: Program, trail: Word): Tables
    requires Admitted(prog)
    decreases |trail|, 0
  {
    if trail == [] then NO_TABLES else LeanStacked(prog, trail[..|trail| - 1])
  }

  // ─── lean and full layers answer alike ───

  lemma LeanStep(prog: Program, states: seq<State>, n: nat)
    requires Admitted(prog) && AllLive(prog, states) && 0 < n <= |states|
    ensures var before, chain := Lean(prog, states, n - 1), Chain(prog, states[n - 1]);
            Lean(prog, states, n) == before.Plus(chain).(wilds := Landed(before.wilds, chain.wilds, |chain.wilds|))
  {}

  lemma LeanEmpty(prog: Program, states: seq<State>)
    requires Admitted(prog) && AllLive(prog, states)
    ensures Lean(prog, states, 0) == NO_TABLES
  {}

  /** A wildcard entry's descend set is its state's own segment. */
  predicate WildOf(prog: Program, e: WildEntry)
    requires Admitted(prog)
  {
    && LiveState(prog, e.1) && prog.paths[e.1.path][e.1.seg] == AnyDepth(e.0)
  }

  predicate AllWildOf(prog: Program, wilds: seq<WildEntry>)
    requires Admitted(prog)
  {
    forall k :: 0 <= k < |wilds| ==> WildOf(prog, wilds[k])
  }

  lemma ChainWilds(prog: Program, s: State)
    requires Admitted(prog) && LiveState(prog, s)
    ensures AllWildOf(prog, Chain(prog, s).wilds)
  {
    var path := prog.paths[s.path];
    RunEntries(path, s.path, s.seg, HopAt(path, s.seg));
  }

  /** Landing loses no entry and admits no other. */
  lemma {:induction false} LandedMembers(prog: Program, kept: seq<WildEntry>, run: seq<WildEntry>, n: nat)
    requires Admitted(prog) && AllWildOf(prog, kept) && AllWildOf(prog, run) && n <= |run|
    ensures AllWildOf(prog, Landed(kept, run, n))
    ensures forall e :: e in Landed(kept, run, n) <==> e in kept || e in run[..n]
  {
    if n > 0 {
      LandedMembers(prog, kept, run, n - 1);
      assert run[..n] == run[..n - 1] + [run[n - 1]];
      var before := Landed(kept, run, n - 1);
      if SeenIn(before, run[n - 1].1) {
        var k :| 0 <= k < |before| && before[k].1 == run[n - 1].1;
        assert before[k] == run[n - 1];
      }
    }
  }

  lemma {:induction false} LeanMembers(prog: Program, states: seq<State>, n: nat)
    requires Admitted(prog) && AllLive(prog, states) && n <= |states|
    ensures Lean(prog, states, n).targets == Layer(prog, states, n).targets
    ensures Lean(prog, states, n).stages == Layer(prog, states, n).stages
    ensures Lean(prog, states, n).gaps == Layer(prog, states, n).gaps
    ensures AllWildOf(prog, Lean(prog, states, n).wilds)
    ensures forall e :: e in Lean(prog, states, n).wilds <==> e in Layer(prog, states, n).wilds
  {
    hide Chain, Landed;
    if n > 0 {
      LeanMembers(prog, states, n - 1);
      ChainWilds(prog, states[n - 1]);
      var run := Chain(prog, states[n - 1]).wilds;
      LandedMembers(prog, Lean(prog, states, n - 1).wilds, run, |run|);
      assert run[..|run|] == run;
    }
  }

  /** Both layers stage the same states, so the child layer is one. */
  lemma LeanStagesSame(prog: Program, trail: Word, field: Field)
    requires Admitted(prog)
    ensures Canonical(Probed(LeanAt(prog, trail), field)) == States(prog, trail + [field])
    ensures (Probed(LeanAt(prog, trail), field) == []) == (Probed(LayerAt(prog, trail), field) == [])
  {
    hide Lean, Layer, Canonical, Probed;
    var states := States(prog, trail);
    var lean, full := LeanAt(prog, trail), LayerAt(prog, trail);
    LeanMembers(prog, states, |states|);
    forall s: State
      ensures s in Probed(lean, field) <==> s in Probed(full, field)
    {
      ProbedMember(lean, field, s);
      ProbedMember(full, field, s);
      SameWildAnswers(lean.wilds, full.wilds, field, s);
      SameWildAnswers(full.wilds, lean.wilds, field, s);
    }
    var a, b := Canonical(Probed(lean, field)), Canonical(Probed(full, field));
    AscendingIsUnique(a, b);
    assert (trail + [field])[..|trail|] == trail;
    if Probed(lean, field) != [] {
      assert Probed(lean, field)[0] in Probed(full, field);
    }
    if Probed(full, field) != [] {
      assert Probed(full, field)[0] in Probed(lean, field);
    }
  }

  lemma SameWildAnswers(a: seq<WildEntry>, b: seq<WildEntry>, field: Field, s: State)
    requires forall e :: e in a ==> e in b
    ensures (exists k :: 0 <= k < |a| && a[k].1 == s && field in a[k].0)
        ==> (exists k :: 0 <= k < |b| && b[k].1 == s && field in b[k].0)
  {
    if k :| 0 <= k < |a| && a[k].1 == s && field in a[k].0 {
      assert a[k] in a;
      var j :| 0 <= j < |b| && b[j] == a[k];
    }
  }

  // ─── static counts ───

  /** Wildcards immediately before position `k`. */
  function RunLen(path: Path, k: nat): (n: nat)
    requires k <= |path|
    ensures n <= k
    ensures forall i :: k - n <= i < k ==> path[i].AnyDepth?
  {
    if k > 0 && path[k - 1].AnyDepth? then 1 + RunLen(path, k - 1) else 0
  }

  /** Positions a descent can stage whose next hop is the one at `k`. */
  function Enders(path: Path, id: U16, k: nat): seq<State>
    requires k < |path| <= 0xFFFF
  {
    var run := RunLen(path, k);
    if run == 0 then [State(id, k)] else seq(run, i requires 0 <= i < run => State(id, k - run + i))
  }

  function TargetStates(path: Path, id: U16, k: nat): seq<State>
    requires k <= |path| <= 0xFFFF
  {
    if k == 0 then []
    else TargetStates(path, id, k - 1) + if path[k - 1].Hop? && k == |path| then Enders(path, id, k - 1) else []
  }

  function StageStates(path: Path, id: U16, k: nat): seq<State>
    requires k <= |path| <= 0xFFFF
  {
    if k == 0 then []
    else StageStates(path, id, k - 1) + if path[k - 1].Hop? && k < |path| then Enders(path, id, k - 1) else []
  }

  function WildStates(path: Path, id: U16, k: nat): seq<State>
    requires k <= |path| <= 0xFFFF
  {
    if k == 0 then []
    else WildStates(path, id, k - 1) + if path[k - 1].AnyDepth? then [State(id, k - 1)] else []
  }

  /** Everything a layer could ever hold, path by path. */
  datatype Census = Census(targets: seq<State>, stages: seq<State>, wilds: seq<State>, longest: nat)

  function CensusOf(prog: Program, n: nat): Census
    requires Admitted(prog) && n <= |prog.paths|
  {
    if n == 0 then Census([], [], [], 0)
    else
      var before, path := CensusOf(prog, n - 1), prog.paths[n - 1];
      Census(before.targets + TargetStates(path, n - 1, |path|),
             before.stages + StageStates(path, n - 1, |path|),
             before.wilds + WildStates(path, n - 1, |path|),
             if |path| > before.longest then |path| else before.longest)
  }

  function WholeCensus(prog: Program): Census
    requires Admitted(prog)
  {
    CensusOf(prog, |prog.paths|)
  }

  // ─── which states can be live ───

  /** A path's head, a position after a field, or a wildcard's own. */
  predicate Stageable(path: Path, i: nat)
    requires i < |path|
  {
    i == 0 || path[i].AnyDepth? || path[i - 1].Hop?
  }

  lemma MovesAreStageable(path: Path, i: nat, field: Field, j: nat)
    requires EndsOnHop(path) && i < |path| && Moves(path, i, field, j)
    ensures j < |path| && Stageable(path, j)
  {}

  lemma StatesAreStageable(prog: Program, trail: Word, k: nat)
    requires Admitted(prog) && k < |States(prog, trail)|
    ensures var s := States(prog, trail)[k]; LiveState(prog, s) && Stageable(prog.paths[s.path], s.seg)
  {
    hide States;
    var s := States(prog, trail)[k];
    assert s in States(prog, trail);
    StatesReach(prog, trail, s);
    ReachesAreStageable(prog.paths[s.path], trail, s.seg);
  }

  lemma ReachesAreStageable(path: Path, trail: Word, j: nat)
    requires EndsOnHop(path) && Reaches(path, trail, j)
    ensures j < |path| && Stageable(path, j)
  {
    if trail != [] {
      var last := |trail| - 1;
      var i :| 0 <= i < |path| && Reaches(path, trail[..last], i) && Moves(path, i, trail[last], j);
      MovesAreStageable(path, i, trail[last], j);
    }
  }

  lemma {:induction false} RunCovers(path: Path, i: nat, k: nat)
    requires i <= k <= |path| && forall j :: i <= j < k ==> path[j].AnyDepth?
    ensures k - i <= RunLen(path, k)
    decreases k - i
  {
    if i < k {
      RunCovers(path, i, k - 1);
    }
  }

  /** A stageable state is one of the enders of the field its chain ends at. */
  lemma StageableIsEnder(path: Path, id: U16, i: nat)
    requires EndsOnHop(path) && i < |path| <= 0xFFFF && Stageable(path, i)
    ensures State(id, i) in Enders(path, id, HopAt(path, i))
  {
    var h := HopAt(path, i);
    var run := RunLen(path, h);
    RunCovers(path, i, h);
    if run > 0 {
      assert i < h;
      assert Enders(path, id, h)[i - (h - run)] == State(id, i);
    }
  }

  lemma {:induction false} EndersCounted(path: Path, id: U16, h: nat, k: nat)
    requires h < k <= |path| <= 0xFFFF && path[h].Hop?
    ensures forall s :: s in Enders(path, id, h) ==>
              s in if h + 1 == |path| then TargetStates(path, id, k) else StageStates(path, id, k)
  {
    hide Enders;
    if h + 1 < k {
      EndersCounted(path, id, h, k - 1);
    }
  }

  lemma {:induction false} WildsCounted(path: Path, id: U16, i: nat, k: nat)
    requires i < k <= |path| <= 0xFFFF && path[i].AnyDepth?
    ensures State(id, i) in WildStates(path, id, k)
  {
    if i + 1 < k {
      WildsCounted(path, id, i, k - 1);
    }
  }

  lemma {:induction false} CensusHolds(prog: Program, n: nat, p: nat)
    requires Admitted(prog) && p < n <= |prog.paths|
    ensures forall s :: s in TargetStates(prog.paths[p], p, |prog.paths[p]|) ==> s in CensusOf(prog, n).targets
    ensures forall s :: s in StageStates(prog.paths[p], p, |prog.paths[p]|) ==> s in CensusOf(prog, n).stages
    ensures forall s :: s in WildStates(prog.paths[p], p, |prog.paths[p]|) ==> s in CensusOf(prog, n).wilds
    ensures |prog.paths[p]| <= CensusOf(prog, n).longest
  {
    hide TargetStates, StageStates, WildStates;
    if p + 1 < n {
      CensusHolds(prog, n - 1, p);
    }
  }

  // ─── distinct members of a list are no more than its length ───

  predicate Distinct(s: seq<State>) {
    forall i, j :: 0 <= i < j < |s| ==> s[i] != s[j]
  }

  lemma {:induction false} DistinctFit(a: seq<State>, b: seq<State>)
    requires Distinct(a) && forall s :: s in a ==> s in b
    ensures |a| <= |b|
  {
    if a != [] {
      var n := |a| - 1;
      assert a[n] in b;
      var k :| 0 <= k < |b| && b[k] == a[n];
      var rest := b[..k] + b[k + 1..];
      forall s | s in a[..n] ensures s in rest {
        var i :| 0 <= i < n && a[i] == s;
        assert a[i] in b;
        var j :| 0 <= j < |b| && b[j] == s;
        assert j != k;
        assert s in b[..k] || s in b[k + 1..];
      }
      DistinctFit(a[..n], rest);
    }
  }

  // ─── per-layer bounds ───

  predicate ChainsToTerminal(prog: Program, s: State)
    requires Admitted(prog) && LiveState(prog, s)
  {
    HopAt(prog.paths[s.path], s.seg) + 1 == |prog.paths[s.path]|
  }

  /** The live states whose chains end at (or before) the terminal. */
  function Picked(prog: Program, states: seq<State>, terminal: bool, n: nat): (r: seq<State>)
    requires Admitted(prog) && AllLive(prog, states) && n <= |states|
    ensures forall s :: s in r ==> exists k :: 0 <= k < n && states[k] == s && ChainsToTerminal(prog, s) == terminal
    ensures Ascending(states) ==> Distinct(r)
  {
    if n == 0 then []
    else
      Picked(prog, states, terminal, n - 1)
      + if ChainsToTerminal(prog, states[n - 1]) == terminal then [states[n - 1]] else []
  }

  predicate AllTargets(prog: Program) {
    forall p :: 0 <= p < |prog.lanes| ==> prog.lanes[p] == Target
  }

  lemma {:induction false} LeanCounts(prog: Program, states: seq<State>, n: nat)
    requires Admitted(prog) && AllTargets(prog) && AllLive(prog, states) && n <= |states|
    ensures |Lean(prog, states, n).targets| == |Picked(prog, states, true, n)|
    ensures |Lean(prog, states, n).stages| == |Picked(prog, states, false, n)|
  {
    hide Landed, Run, Chain, ChainsToTerminal, Lean, Picked;
    if n > 0 {
      LeanCounts(prog, states, n - 1);
      ChainCounts(prog, states[n - 1]);
      LeanStep(prog, states, n);
      PickedStep(prog, states, true, n);
      PickedStep(prog, states, false, n);
    } else {
      LeanEmpty(prog, states);
      PickedStep(prog, states, true, 0);
      PickedStep(prog, states, false, 0);
    }
  }

  lemma PickedStep(prog: Program, states: seq<State>, terminal: bool, n: nat)
    requires Admitted(prog) && AllLive(prog, states) && n <= |states|
    ensures n == 0 ==> Picked(prog, states, terminal, 0) == []
    ensures n > 0 ==> var last := if ChainsToTerminal(prog, states[n - 1]) == terminal then [states[n - 1]] else [];
                      Picked(prog, states, terminal, n) == Picked(prog, states, terminal, n - 1) + last
  {
    hide ChainsToTerminal;
  }

  /** A chain ends in one target entry or one stage entry, never both. */
  lemma ChainCounts(prog: Program, s: State)
    requires Admitted(prog) && AllTargets(prog) && LiveState(prog, s)
    ensures |Chain(prog, s).targets| == if ChainsToTerminal(prog, s) then 1 else 0
    ensures |Chain(prog, s).stages| == if ChainsToTerminal(prog, s) then 0 else 1
  {
    hide Run;
  }

  function StatesOf(wilds: seq<WildEntry>): seq<State> {
    seq(|wilds|, i requires 0 <= i < |wilds| => wilds[i].1)
  }

  lemma {:induction false} LandedDistinct(kept: seq<WildEntry>, run: seq<WildEntry>, n: nat)
    requires n <= |run| && Distinct(StatesOf(kept))
    ensures Distinct(StatesOf(Landed(kept, run, n)))
  {
    if n > 0 {
      LandedDistinct(kept, run, n - 1);
      var before := Landed(kept, run, n - 1);
      if !SeenIn(before, run[n - 1].1) {
        assert StatesOf(before + [run[n - 1]]) == StatesOf(before) + [run[n - 1].1];
      }
    }
  }

  lemma {:induction false} LeanDistinct(prog: Program, states: seq<State>, n: nat)
    requires Admitted(prog) && AllLive(prog, states) && n <= |states|
    ensures Distinct(StatesOf(Lean(prog, states, n).wilds))
  {
    hide Chain, Landed;
    if n > 0 {
      LeanDistinct(prog, states, n - 1);
      var run := Chain(prog, states[n - 1]).wilds;
      LandedDistinct(Lean(prog, states, n - 1).wilds, run, |run|);
    }
  }

  /** One layer never holds more than the census, entry kind by entry kind. */
  lemma LayerFits(prog: Program, trail: Word)
    requires Admitted(prog) && AllTargets(prog)
    ensures |LeanAt(prog, trail).targets| <= |WholeCensus(prog).targets|
    ensures |LeanAt(prog, trail).stages| <= |WholeCensus(prog).stages|
    ensures |LeanAt(prog, trail).wilds| <= |WholeCensus(prog).wilds|
  {
    hide Lean, States, CensusOf;
    var states := States(prog, trail);
    var n := |states|;
    LeanCounts(prog, states, n);
    PickedFits(prog, trail, true);
    PickedFits(prog, trail, false);
    var wilds := LeanAt(prog, trail).wilds;
    LeanMembers(prog, states, n);
    LeanDistinct(prog, states, n);
    forall s | s in StatesOf(wilds) ensures s in WholeCensus(prog).wilds {
      var k :| 0 <= k < |wilds| && wilds[k].1 == s;
      assert WildOf(prog, wilds[k]);
      WildsCounted(prog.paths[s.path], s.path, s.seg, |prog.paths[s.path]|);
      CensusHolds(prog, |prog.paths|, s.path);
    }
    DistinctFit(StatesOf(wilds), WholeCensus(prog).wilds);
  }

  lemma PickedFits(prog: Program, trail: Word, terminal: bool)
    requires Admitted(prog)
    ensures var states := States(prog, trail);
            |Picked(prog, states, terminal, |states|)|
            <= if terminal then |WholeCensus(prog).targets| else |WholeCensus(prog).stages|
  {
    hide States, CensusOf, Enders, TargetStates, StageStates;
    var states := States(prog, trail);
    var picked := Picked(prog, states, terminal, |states|);
    var all := if terminal then WholeCensus(prog).targets else WholeCensus(prog).stages;
    forall s | s in picked ensures s in all {
      var k :| 0 <= k < |states| && states[k] == s && ChainsToTerminal(prog, s) == terminal;
      StatesAreStageable(prog, trail, k);
      var path := prog.paths[s.path];
      var h := HopAt(path, s.seg);
      StageableIsEnder(path, s.path, s.seg);
      EndersCounted(path, s.path, h, |path|);
      CensusHolds(prog, |prog.paths|, s.path);
    }
    DistinctFit(picked, all);
  }

  // ─── whole stacks ───

  /** A path of hops alone is at the segment numbered by the depth, or nowhere. */
  lemma {:induction false} RigidReach(path: Path, trail: Word, j: nat)
    requires EndsOnHop(path) && (forall i :: 0 <= i < |path| ==> path[i].Hop?) && Reaches(path, trail, j)
    ensures j == |trail| < |path|
    decreases |trail|
  {
    if trail != [] {
      var last := |trail| - 1;
      var i :| 0 <= i < |path| && Reaches(path, trail[..last], i) && Moves(path, i, trail[last], j);
      RigidReach(path, trail[..last], i);
    }
  }

  /** So past the longest path every layer is empty. */
  lemma RigidLayersEnd(prog: Program, trail: Word)
    requires Admitted(prog) && WholeCensus(prog).wilds == []
    ensures States(prog, trail) != [] ==> |trail| < WholeCensus(prog).longest
  {
    hide States, CensusOf;
    var states := States(prog, trail);
    if states != [] {
      var s := states[0];
      assert s in states;
      StatesReach(prog, trail, s);
      var path := prog.paths[s.path];
      CensusHolds(prog, |prog.paths|, s.path);
      forall i | 0 <= i < |path| ensures path[i].Hop? {
        if path[i].AnyDepth? {
          WildsCounted(path, s.path, i, |path|);
        }
      }
      RigidReach(path, trail, s.seg);
    }
  }

  /** How many of the layers down to depth `d` can hold anything. */
  function BusyLayers(census: Census, d: nat): nat {
    if census.wilds != [] then d + 1
    else if d + 1 < census.longest then d + 1 else census.longest
  }

  lemma Times(a: nat, m: nat, n: nat)
    requires m <= n
    ensures a * m <= a * n
  {}

  lemma TimesNext(a: nat, m: nat)
    ensures a * (m + 1) == a * m + a
  {}

  lemma {:induction false} StackFits(prog: Program, trail: Word)
    requires Admitted(prog) && AllTargets(prog)
    ensures var c := WholeCensus(prog);
            && |LeanStacked(prog, trail).targets| <= |c.targets| * BusyLayers(c, |trail|)
            && |LeanStacked(prog, trail).stages| <= |c.stages| * BusyLayers(c, |trail|)
            && |LeanStacked(prog, trail).wilds| <= |c.wilds| * BusyLayers(c, |trail|)
    decreases |trail|
  {
    hide LeanAt, WholeCensus, States;
    var c := WholeCensus(prog);
    var d := |trail|;
    LayerFits(prog, trail);
    var below := 0;
    if d > 0 {
      StackFits(prog, trail[..d - 1]);
      below := BusyLayers(c, d - 1);
    }
    if BusyLayers(c, d) == below + 1 {
      TimesNext(|c.targets|, below);
      TimesNext(|c.stages|, below);
      TimesNext(|c.wilds|, below);
    } else {
      if c.wilds == [] {
        RigidLayersEnd(prog, trail);
      }
      EmptyLayer(prog, trail);
    }
  }

  lemma EmptyLayer(prog: Program, trail: Word)
    requires Admitted(prog)
    ensures States(prog, trail) == [] ==> LeanAt(prog, trail) == NO_TABLES
  {}

  // ─── the derived capacities ───

  /** The committed-layer bound, root included. */
  function DepthFactor(census: Census, limit: nat): nat {
    1 + if census.wilds != [] then limit
        else if limit < census.longest - 1 then limit
        else if census.longest == 0 then 0 else census.longest - 1
  }

  lemma BusyWithinFactor(census: Census, d: nat, limit: nat)
    requires d <= limit
    ensures BusyLayers(census, d) <= DepthFactor(census, limit)
  {}

  datatype Caps = Caps(levels: nat, targets: nat, stages: nat, wilds: nat, staged: nat)

  /** `Caps::derive`, its matcher lanes: a grouped door sizes the suspended
      marks at the depth limit itself, a groupless one at the depth factor. */
  function Derived(prog: Program, limit: nat, grouped: bool): Caps
    requires Admitted(prog)
  {
    var c := WholeCensus(prog);
    var depth := DepthFactor(c, limit);
    Caps(if grouped then limit else depth - 1, Layered(|c.targets|, depth), Layered(|c.stages|, depth),
         Layered(|c.wilds|, depth),
         |c.stages| + |c.wilds|)
  }

  /** One layer's entries, at every committed depth. */
  function Layered(perLayer: nat, depth: nat): nat {
    perLayer * depth
  }

  /** The capacity theorem: on every walk within the depth limit the stacked
      tables, one probe's staging, and the suspended marks fit their lanes. */
  lemma WalkFits(prog: Program, limit: nat, grouped: bool, trail: Word, field: Field)
    requires Admitted(prog) && AllTargets(prog) && |trail| <= limit
    ensures var caps := Derived(prog, limit, grouped);
            && |LeanStacked(prog, trail).targets| <= caps.targets
            && |LeanStacked(prog, trail).stages| <= caps.stages
            && |LeanStacked(prog, trail).wilds| <= caps.wilds
            && |Probed(LeanAt(prog, trail), field)| <= caps.staged
    ensures |trail| < limit && (grouped || Probed(LeanAt(prog, trail), field) != []) ==>
              |trail| < Derived(prog, limit, grouped).levels
  {
    hide LeanAt, LeanStacked, WholeCensus, States, Probed;
    var c := WholeCensus(prog);
    StackFits(prog, trail);
    BusyWithinFactor(c, |trail|, limit);
    Times(|c.targets|, BusyLayers(c, |trail|), DepthFactor(c, limit));
    Times(|c.stages|, BusyLayers(c, |trail|), DepthFactor(c, limit));
    Times(|c.wilds|, BusyLayers(c, |trail|), DepthFactor(c, limit));
    LayerFits(prog, trail);
    StagingFits(LeanAt(prog, trail), field);
    if |trail| < limit && !grouped && Probed(LeanAt(prog, trail), field) != [] && c.wilds == [] {
      RoutedDeeper(prog, trail, field);
      RigidLayersEnd(prog, trail + [field]);
    }
  }

  lemma RoutedDeeper(prog: Program, trail: Word, field: Field)
    requires Admitted(prog)
    ensures Probed(LeanAt(prog, trail), field) != [] ==> States(prog, trail + [field]) != []
  {
    hide Probed, LeanAt, Canonical;
    LeanStagesSame(prog, trail, field);
    var staged := Probed(LeanAt(prog, trail), field);
    if staged != [] {
      assert staged[0] in staged;
      assert staged[0] in Canonical(staged);
    }
  }

  lemma {:induction false} StagedFromFits(stages: seq<StageEntry>, field: Field, n: nat)
    requires n <= |stages|
    ensures |StagedFrom(stages, field, n)| <= n
  {
    if n > 0 {
      StagedFromFits(stages, field, n - 1);
    }
  }

  lemma {:induction false} LoopedFromFits(wilds: seq<WildEntry>, field: Field, n: nat)
    requires n <= |wilds|
    ensures |LoopedFrom(wilds, field, n)| <= n
  {
    if n > 0 {
      LoopedFromFits(wilds, field, n - 1);
    }
  }

  lemma StagingFits(layer: Tables, field: Field)
    ensures |Probed(layer, field)| <= |layer.stages| + |layer.wilds|
  {
    StagedFromFits(layer.stages, field, |layer.stages|);
    LoopedFromFits(layer.wilds, field, |layer.wilds|);
  }
}
