/** The matcher over carved lanes: arrays whose sizes come from the rule set's
    static shape, every push unchecked (src/fixed_inplace.rs). */
module Fixed {
  import opened Sequences
  import opened Wire
  import opened Paths
  import opened Layers
  import opened Matcher
  import opened Capacity

  /** A fixed-capacity stack: slots below `len` hold the entries. */
  class FixedLane<T(0)> {
    const slots: array<T>
    var len: nat

    ghost predicate Valid()
      reads this
    {
      len <= slots.Length
    }

    function Held(): seq<T>
      requires Valid()
      reads this, slots
    {
      slots[..len]
    }

    constructor (cap: nat)
      ensures Valid() && len == 0 && slots.Length == cap && fresh(slots)
    {
      slots := new T[cap];
      len := 0;
    }

    /** The judged push: refuses at capacity, with the lane unchanged. */
    method Push(value: T) returns (ok: bool)
      requires Valid()
      modifies this`len, slots
      ensures Valid() && ok == (old(len) < slots.Length)
      ensures Held() == if ok then old(Held()) + [value] else old(Held())
    {
      if len == slots.Length {
        return false;
      }
      PushUnchecked(value);
      ok := true;
    }

    /** The unjudged push: its caller owes the capacity proof. */
    method PushUnchecked(value: T)
      requires Valid() && len < slots.Length
      modifies this`len, slots
      ensures Valid() && Held() == old(Held()) + [value]
    {
      slots[len] := value;
      len := len + 1;
    }

    method Truncate(newLen: nat)
      requires Valid() && newLen <= len
      modifies this`len
      ensures Valid() && Held() == old(Held())[..newLen]
    {
      len := newLen;
    }

    method Pop() returns (top: Option<T>)
      requires Valid()
      modifies this`len
      ensures Valid()
      ensures old(len) == 0 ==> top == None && len == 0
      ensures old(len) > 0 ==> top == Some(old(Held())[old(len) - 1]) && Held() == old(Held())[..old(len) - 1]
    {
      if len == 0 {
        return None;
      }
      len := len - 1;
      top := Some(slots[len]);
    }
  }

  // ─── the static scan ───

  datatype PathStats = PathStats(targets: nat, stages: nat, wilds: nat, anyWild: bool, longest: nat, anyRenumber: bool)

  /** The scan's answer: stageable states of each kind, and the two switches. */
  predicate StatsAre(prog: Program, renumbers: seq<bool>, stats: PathStats)
    requires Admitted(prog)
  {
    var c := WholeCensus(prog);
    stats == PathStats(|c.targets|, |c.stages|, |c.wilds|, c.wilds != [], c.longest, true in renumbers)
  }

  /** One pass over the rules counts exactly the stageable states of each kind. */
  method ScanPaths(prog: Program, renumbers: seq<bool>) returns (stats: PathStats)
    requires Admitted(prog) && AllTargets(prog) && |renumbers| == |prog.paths|
    ensures StatsAre(prog, renumbers, stats)
  {
    hide TargetStates, StageStates, WildStates, CensusOf;
    var targets, stages, wilds, longest, anyRenumber := 0, 0, 0, 0, false;
    var p := 0;
    CensusStep(prog, 0);
    while p < |prog.paths|
      invariant 0 <= p <= |prog.paths| && (anyRenumber <==> true in renumbers[..p])
      invariant targets == |CensusOf(prog, p).targets| && stages == |CensusOf(prog, p).stages|
      invariant wilds == |CensusOf(prog, p).wilds| && longest == CensusOf(prog, p).longest
    {
      var steps := prog.paths[p];
      CensusStep(prog, p + 1);
      if |steps| > longest {
        longest := |steps|;
      }
      if renumbers[p] {
        anyRenumber := true;
      }
      assert renumbers[..p + 1] == renumbers[..p] + [renumbers[p]];
      var t, s, w := ScanSteps(steps, p);
      targets, stages, wilds := targets + t, stages + s, wilds + w;
      p := p + 1;
    }
    assert renumbers[..p] == renumbers;
    stats := PathStats(targets, stages, wilds, wilds > 0, longest, anyRenumber);
  }

  /** `run` counts the wildcards met since the last field. */
  method ScanSteps(steps: Path, ghost id: U16) returns (targets: nat, stages: nat, wilds: nat)
    requires |steps| <= 0xFFFF
    ensures targets == |TargetStates(steps, id, |steps|)|
    ensures stages == |StageStates(steps, id, |steps|)|
    ensures wilds == |WildStates(steps, id, |steps|)|
  {
    targets, stages, wilds := 0, 0, 0;
    var run := 0;
    var k := 0;
    while k < |steps|
      invariant 0 <= k <= |steps| && run == RunLen(steps, k)
      invariant targets == |TargetStates(steps, id, k)|
      invariant stages == |StageStates(steps, id, k)|
      invariant wilds == |WildStates(steps, id, k)|
    {
      match steps[k] {
        case AnyDepth(_) =>
          run := run + 1;
          wilds := wilds + 1;
        case Hop(_) =>
          var enders := run + if run == 0 then 1 else 0;
          if k + 1 == |steps| {
            targets := targets + enders;
          } else {
            stages := stages + enders;
          }
          run := 0;
      }
      k := k + 1;
    }
  }

  lemma CensusStep(prog: Program, n: nat)
    requires Admitted(prog) && n <= |prog.paths|
    ensures n == 0 ==> CensusOf(prog, 0) == Census([], [], [], 0)
    ensures n > 0 ==> var before, path := CensusOf(prog, n - 1), prog.paths[n - 1];
                      CensusOf(prog, n)
                      == Census(before.targets + TargetStates(path, n - 1, |path|),
                                before.stages + StageStates(path, n - 1, |path|),
                                before.wilds + WildStates(path, n - 1, |path|), if |path| > before.longest then |path|
                                  else before.longest)
  {}

  function DepthFactorOf(stats: PathStats, limit: nat): nat {
    1 + if stats.anyWild then limit
        else
          var walk := if stats.longest == 0 then 0 else stats.longest - 1;
          if limit < walk then limit else walk
  }

  // ─── the stacked state of the fixed tables ───

  function LeanMarks(prog: Program, trail: Word): Marks
    requires Admitted(prog)
  {
    var below := LeanBelow(prog, trail);
    Marks(|below.targets|, |below.stages|, |below.wilds|)
  }

  function LeanLevels(prog: Program, trail: Word): (r: seq<Marks>)
    requires Admitted(prog)
    ensures |r| == |trail|
  {
    if trail == [] then []
    else LeanLevels(prog, trail[..|trail| - 1]) + [LeanMarks(prog, trail[..|trail| - 1])]
  }

  lemma LeanSplits(prog: Program, trail: Word, all: Tables)
    requires Admitted(prog)
    requires all.targets == LeanStacked(prog, trail).targets && all.stages == LeanStacked(prog, trail).stages
    requires all.wilds == LeanStacked(prog, trail).wilds
    ensures var m := LeanMarks(prog, trail);
            && m.targets <= |all.targets| && m.stages <= |all.stages| && m.wilds <= |all.wilds|
            && all.targets[m.targets..] == LeanAt(prog, trail).targets
            && all.stages[m.stages..] == LeanAt(prog, trail).stages
            && all.wilds[m.wilds..] == LeanAt(prog, trail).wilds
            && LeanBelow(prog, trail).targets == all.targets[..m.targets]
            && LeanBelow(prog, trail).stages == all.stages[..m.stages]
            && LeanBelow(prog, trail).wilds == all.wilds[..m.wilds]
  {
    hide LeanAt, LeanBelow;
    LeanStackedIs(prog, trail);
  }

  lemma LeanStackedIs(prog: Program, trail: Word)
    requires Admitted(prog)
    ensures LeanStacked(prog, trail) == LeanBelow(prog, trail).Plus(LeanAt(prog, trail))
  {}

  /** Fixed and full layers hold the same target entries. */
  lemma LeanTargets(prog: Program, trail: Word)
    requires Admitted(prog)
    ensures LeanAt(prog, trail).targets == LayerAt(prog, trail).targets
  {
    hide Lean, Layer, States;
    LeanMembers(prog, States(prog, trail), |States(prog, trail)|);
  }

  lemma {:induction false} LandedGrows(kept: seq<WildEntry>, run: seq<WildEntry>, m: nat, n: nat)
    requires m <= n <= |run|
    ensures |Landed(kept, run, m)| <= |Landed(kept, run, n)|
    decreases n - m
  {
    if m < n {
      LandedGrows(kept, run, m, n - 1);
    }
  }

  /** A layer under construction never outgrows the finished layer. */
  lemma {:induction false} LeanGrows(prog: Program, states: seq<State>, m: nat, n: nat)
    requires Admitted(prog) && AllLive(prog, states) && m <= n <= |states|
    ensures |Lean(prog, states, m).targets| <= |Lean(prog, states, n).targets|
    ensures |Lean(prog, states, m).stages| <= |Lean(prog, states, n).stages|
    ensures |Lean(prog, states, m).wilds| <= |Lean(prog, states, n).wilds|
    decreases n - m
  {
    hide Lean, Landed, Chain;
    if m < n {
      LeanGrows(prog, states, m, n - 1);
      LeanStep(prog, states, n);
      var chain := Chain(prog, states[n - 1]);
      LandedGrows(Lean(prog, states, n - 1).wilds, chain.wilds, 0, |chain.wilds|);
      LandedNothing(Lean(prog, states, n - 1).wilds, chain.wilds);
    }
  }

  lemma LandedStep(kept: seq<WildEntry>, run: seq<WildEntry>, n: nat)
    requires 0 < n <= |run|
    ensures var before := Landed(kept, run, n - 1);
            Landed(kept, run, n) == if SeenIn(before, run[n - 1].1) then before else before + [run[n - 1]]
  {}

  /** One more entry lands, or was there; whatever lands has room at the end. */
  lemma LandedNext(kept: seq<WildEntry>, run: seq<WildEntry>, n: nat)
    requires n < |run|
    ensures var before := Landed(kept, run, n);
            && Landed(kept, run, n + 1) == (if SeenIn(before, run[n].1) then before else before + [run[n]])
            && (!SeenIn(before, run[n].1) ==> |before| < |Landed(kept, run, |run|)|)
  {
    hide SeenIn, Landed;
    LandedStep(kept, run, n + 1);
    LandedGrows(kept, run, n + 1, |run|);
  }

  function Heads(n: nat): (r: seq<State>)
    requires n <= 0x1_0000
    ensures |r| == n && forall i :: 0 <= i < n ==> r[i] == State(i, 0)
  {
    seq(n, i requires 0 <= i < n => State(i, 0))
  }

  lemma {:induction false} AllRoots(prog: Program, n: nat)
    requires Admitted(prog) && AllTargets(prog) && n <= |prog.paths|
    ensures Roots(prog, n) == Heads(n)
  {
    hide RunLen, Chain, Roots, Heads;
    RootsStep(prog, n);
    if n > 0 {
      AllRoots(prog, n - 1);
      assert prog.lanes[n - 1] == Target && prog.paths[n - 1] != [];
      assert Heads(n) == Heads(n - 1) + [State(n - 1, 0)];
    } else {
      assert Heads(0) == [];
    }
  }

  lemma RootsStep(prog: Program, n: nat)
    requires Admitted(prog) && n <= |prog.paths|
    ensures n == 0 ==> Roots(prog, n) == []
    ensures n > 0 && prog.paths[n - 1] != [] ==> Roots(prog, n) == Roots(prog, n - 1) + [State(n - 1, 0)]
  {}

  /** The root of the stack, and its states: every rule at its head. */
  lemma RootLean(prog: Program)
    requires Admitted(prog) && AllTargets(prog)
    ensures |States(prog, [])| == |prog.paths|
    ensures forall i :: 0 <= i < |prog.paths| ==> States(prog, [])[i] == State(i, 0)
    ensures LeanBelow(prog, []) == NO_TABLES && LeanMarks(prog, []) == Marks(0, 0, 0)
    ensures LeanStacked(prog, []) == LeanBelow(prog, []).Plus(Lean(prog, States(prog, []), |prog.paths|))
  {
    AllRoots(prog, |prog.paths|);
  }

  lemma LandedNothing(kept: seq<WildEntry>, run: seq<WildEntry>)
    ensures Landed(kept, run, 0) == kept
  {}

  lemma DerivedIs(prog: Program, renumbers: seq<bool>, stats: PathStats, limit: nat, grouped: bool)
    requires Admitted(prog) && StatsAre(prog, renumbers, stats)
    ensures Derived(prog, limit, grouped)
         == Caps(if grouped then limit else DepthFactorOf(stats, limit) - 1,
                 stats.targets * DepthFactorOf(stats, limit),
                 stats.stages * DepthFactorOf(stats, limit), stats.wilds * DepthFactorOf(stats, limit),
                 stats.stages + stats.wilds)
  {
    hide WholeCensus;
  }

  class FixedMatcher {
    const prog: Program
    const limit: nat
    const grouped: bool
    const targets: FixedLane<TargetEntry>
    const stages: FixedLane<StageEntry>
    const wilds: FixedLane<WildEntry>
    const staged: FixedLane<State>
    const levels: FixedLane<Marks>
    var layer: Marks

    ghost var trail: Word
    ghost var probed: Option<Field>

    ghost predicate Carved()
      reads this
    {
      && Admitted(prog) && AllTargets(prog)
      && var caps := Derived(prog, limit, grouped);
      && targets.slots.Length == caps.targets && stages.slots.Length == caps.stages
      && wilds.slots.Length == caps.wilds && staged.slots.Length == caps.staged && levels.slots.Length == caps.levels
    }

    ghost predicate LanesValid()
      reads this, targets, stages, wilds, staged, levels
      reads targets.slots, stages.slots, wilds.slots, staged.slots, levels.slots
    {
      targets.Valid() && stages.Valid() && wilds.Valid() && staged.Valid() && levels.Valid()
    }

    /** The three stacked lanes hold `all`. */
    ghost predicate Holds(all: Tables)
      requires LanesValid()
      reads this, targets, stages, wilds, staged, levels
      reads targets.slots, stages.slots, wilds.slots, staged.slots, levels.slots
    {
      targets.Held() == all.targets && stages.Held() == all.stages && wilds.Held() == all.wilds
    }

    ghost predicate Valid()
      reads this, targets, stages, wilds, staged, levels
      reads targets.slots, stages.slots, wilds.slots, staged.slots, levels.slots
    {
      && Carved() && LanesValid() && |trail| <= limit
      && Holds(LeanStacked(prog, trail))
      && layer == LeanMarks(prog, trail)
      && levels.Held() == LeanLevels(prog, trail)
      && (probed.Some? ==> staged.Held() == Probed(LeanAt(prog, trail), probed.value))
    }

    constructor (prog: Program, renumbers: seq<bool>, limit: nat, grouped: bool)
      requires Admitted(prog) && AllTargets(prog) && |renumbers| == |prog.paths|
      ensures Valid() && trail == [] && probed == None
      ensures fresh(targets) && fresh(stages) && fresh(wilds) && fresh(staged) && fresh(levels)
      ensures fresh(targets.slots) && fresh(stages.slots) && fresh(wilds.slots) && fresh(staged.slots)
              && fresh(levels.slots)
      ensures this.prog == prog && this.limit == limit && this.grouped == grouped
    {
      hide Derived, StatsAre, DepthFactorOf, LeanStacked, LeanMarks, LeanAt;
      var stats := ScanPaths(prog, renumbers);
      var depth := DepthFactorOf(stats, limit);
      DerivedIs(prog, renumbers, stats, limit, grouped);
      this.prog, this.limit, this.grouped := prog, limit, grouped;
      targets := new FixedLane(stats.targets * depth);
      stages := new FixedLane(stats.stages * depth);
      wilds := new FixedLane(stats.wilds * depth);
      staged := new FixedLane(stats.stages + stats.wilds);
      levels := new FixedLane(if grouped then limit else depth - 1);
      layer := Marks(0, 0, 0);
      trail, probed := [], None;
      new;
      CompileRoots();
    }

    /** The root layer: every rule enters at its head, in id order. */
    method CompileRoots()
      requires Carved() && LanesValid() && layer == Marks(0, 0, 0) && trail == [] && probed == None
      requires targets.len == stages.len == wilds.len == levels.len == 0
      modifies targets`len, targets.slots, stages`len, stages.slots, wilds`len, wilds.slots
      ensures Valid()
    {
      hide Lean, LeanBelow, LeanStacked, LeanMarks, States, Roots, Derived, Chain;
      RootLean(prog);
      LeanEmpty(prog, States(prog, []));
      var id := 0;
      while id < |prog.paths|
        invariant 0 <= id <= |prog.paths| && LanesValid()
        invariant Holds(LeanBelow(prog, []).Plus(Lean(prog, States(prog, []), id)))
      {
        FlattenNth(State(id, 0), [], id);
        id := id + 1;
      }
    }

    /** Lands one state's chain; no push can leave its lane. */
    method Flatten(s: State, ghost kept: seq<WildEntry>)
      requires Carved() && LanesValid() && LiveState(prog, s)
      requires layer.wilds <= wilds.len && kept == wilds.Held()[layer.wilds..]
      requires targets.len + |Chain(prog, s).targets| <= targets.slots.Length
      requires stages.len + |Chain(prog, s).stages| <= stages.slots.Length
      requires layer.wilds + |Landed(kept, Chain(prog, s).wilds, |Chain(prog, s).wilds|)| <= wilds.slots.Length
      modifies targets`len, targets.slots, stages`len, stages.slots, wilds`len, wilds.slots
      ensures LanesValid()
      ensures targets.Held() == old(targets.Held()) + Chain(prog, s).targets
      ensures stages.Held() == old(stages.Held()) + Chain(prog, s).stages
      ensures wilds.Held() == old(wilds.Held()[..layer.wilds])
              + Landed(kept, Chain(prog, s).wilds, |Chain(prog, s).wilds|)
    {
      hide Landed, Derived, Run, HopAt;
      var steps := prog.paths[s.path];
      var i := LandRun(s, kept);
      var field := steps[i].field;
      if i + 1 == |steps| {
        targets.PushUnchecked((field, s.path));
      } else {
        stages.PushUnchecked((field, State(s.path, i + 1)));
      }
    }

    /** The wildcards of a chain, each state landed once per layer; ends at the
        chain's field. */
    method LandRun(s: State, ghost kept: seq<WildEntry>) returns (i: nat)
      requires Carved() && wilds.Valid() && LiveState(prog, s)
      requires layer.wilds <= wilds.len && kept == wilds.Held()[layer.wilds..]
      requires var run := Run(prog.paths[s.path], s.path, s.seg, HopAt(prog.paths[s.path], s.seg));
               layer.wilds + |Landed(kept, run, |run|)| <= wilds.slots.Length
      modifies wilds`len, wilds.slots
      ensures wilds.Valid() && i == HopAt(prog.paths[s.path], s.seg)
      ensures var run := Run(prog.paths[s.path], s.path, s.seg, HopAt(prog.paths[s.path], s.seg));
              wilds.Held() == old(wilds.Held()[..layer.wilds]) + Landed(kept, run, |run|)
    {
      hide Landed, Derived, Run, HopAt, SeenIn, AllTargets;
      var steps := prog.paths[s.path];
      ghost var h := HopAt(steps, s.seg);
      ghost var run := Run(steps, s.path, s.seg, h);
      ghost var base := wilds.Held()[..layer.wilds];
      RunEntries(steps, s.path, s.seg, h);
      LandedNothing(kept, run);
      i := s.seg;
      while steps[i].AnyDepth?
        invariant s.seg <= i <= h && wilds.Valid()
        invariant wilds.Held() == base + Landed(kept, run, i - s.seg)
        decreases h - i
      {
        LandedNext(kept, run, i - s.seg);
        LandOne((steps[i].descend, State(s.path, i)), base, Landed(kept, run, i - s.seg));
        i := i + 1;
      }
    }

    /** The per-layer scan: a wildcard state already landed is skipped. */
    method LandOne(e: WildEntry, ghost base: seq<WildEntry>, ghost here: seq<WildEntry>)
      requires wilds.Valid() && wilds.Held() == base + here && |base| == layer.wilds
      requires !SeenIn(here, e.1) ==> wilds.len < wilds.slots.Length
      modifies wilds`len, wilds.slots
      ensures wilds.Valid() && wilds.Held() == base + if SeenIn(here, e.1) then here else here + [e]
    {
      assert forall k :: layer.wilds <= k < wilds.len ==> wilds.slots[k] == wilds.Held()[k] == here[k - layer.wilds];
      var seen := exists k :: layer.wilds <= k < wilds.len && wilds.slots[k].1 == e.1;
      if SeenIn(here, e.1) {
        var k :| 0 <= k < |here| && here[k].1 == e.1;
        assert wilds.slots[layer.wilds + k] == here[k];
      }
      if !seen {
        Associative(base, here, [e]);
        wilds.PushUnchecked(e);
      }
    }

    /** The `i`-th live state of the layer being opened. */
    method FlattenNth(s: State, ghost deeper: Word, ghost i: nat)
      requires Carved() && LanesValid() && layer == LeanMarks(prog, deeper) && |deeper| <= limit
      requires i < |States(prog, deeper)| && s == States(prog, deeper)[i]
      requires Holds(LeanBelow(prog, deeper).Plus(Lean(prog, States(prog, deeper), i)))
      modifies targets`len, targets.slots, stages`len, stages.slots, wilds`len, wilds.slots
      ensures LanesValid()
      ensures Holds(LeanBelow(prog, deeper).Plus(Lean(prog, States(prog, deeper), i + 1)))
    {
      hide Lean, LeanBelow, LeanStacked, States, Landed, Derived, Chain;
      ghost var states := States(prog, deeper);
      ghost var below := LeanBelow(prog, deeper);
      ghost var so := Lean(prog, states, i);
      LeanStep(prog, states, i + 1);
      LeanGrows(prog, states, i + 1, |states|);
      LeanStackedIs(prog, deeper);
      WalkFits(prog, limit, grouped, deeper, 1);
      assert wilds.Held()[layer.wilds..] == so.wilds && wilds.Held()[..layer.wilds] == below.wilds;
      Flatten(s, so.wilds);
      Associative(below.targets, so.targets, Chain(prog, s).targets);
      Associative(below.stages, so.stages, Chain(prog, s).stages);
    }

    lemma Current()
      requires Valid()
      ensures layer.targets <= targets.len && layer.stages <= stages.len && layer.wilds <= wilds.len
      ensures targets.Held()[layer.targets..] == LeanAt(prog, trail).targets
      ensures stages.Held()[layer.stages..] == LeanAt(prog, trail).stages
      ensures wilds.Held()[layer.wilds..] == LeanAt(prog, trail).wilds
    {
      hide LeanAt, LeanBelow, LeanStacked;
      LeanSplits(prog, trail, Tables(targets.Held(), stages.Held(), wilds.Held(), []));
    }

    // ─── the verdict fold ───

    method ProbeTarget(field: Field) returns (hits: Hits)
      requires Valid()
      ensures HitsAre(prog, trail, field, hits)
    {
      hide LayerAt, LeanAt, LeanStacked, LeanBelow, Targeted, LeanMarks, LeanLevels, HitsAre, Derived, AllTargets;
      Current();
      LeanTargets(prog, trail);
      LayerTargetsLaw(prog, trail, field);
      hits := FoldTargets(field, targets.Held()[layer.targets..]);
    }

    /** The fold over the current layer's target entries. */
    method FoldTargets(field: Field, ghost tail: seq<TargetEntry>) returns (hits: Hits)
      requires targets.Valid() && layer.targets <= targets.len && tail == targets.Held()[layer.targets..]
      requires Admitted(prog) && IdsAscend(tail)
      requires forall p: U16 :: (field, p) in tail <==> Targeted(prog, trail, field, p)
      ensures HitsAre(prog, trail, field, hits)
    {
      hide Targeted, HitsAre, IdsAscend;
      var found: Option<U16> := None;
      var i := layer.targets;
      while i < targets.len
        invariant layer.targets <= i <= targets.len
        invariant found.None? ==> forall k :: 0 <= k < i - layer.targets ==> tail[k].0 != field
        invariant found.Some? ==> exists k :: 0 <= k < i - layer.targets && tail[k] == (field, found.value)
        invariant found.Some? ==>
                    forall k :: 0 <= k < i - layer.targets && tail[k].0 == field ==> tail[k].1 == found.value
      {
        var e := targets.slots[i];
        assert e == tail[i - layer.targets];
        if e.0 == field {
          if found.None? {
            found := Some(e.1);
          } else if found.value != e.1 {
            ConflictIsSmallest(prog, trail, tail, field, i - layer.targets, found.value);
            return Conflict(found.value, e.1);
          }
        }
        i := i + 1;
      }
      NoConflict(prog, trail, tail, field, found);
      hits := if found.Some? then One(found.value) else NoHit;
    }

    // ─── routing ───

    method ProbeRoutes(field: Field) returns (routed: bool)
      requires Valid()
      modifies this`probed, staged`len, staged.slots
      ensures Valid() && probed == Some(field)
      ensures routed <==> Continues(prog, trail + [field])
      ensures routed == (staged.len != 0)
    {
      hide LeanAt, LeanStacked, LeanBelow, LeanMarks, LeanLevels, Continues, Probed, Derived;
      Current();
      StagingJudged(field);
      Stage(field, LeanAt(prog, trail));
      probed := Some(field);
      routed := staged.len != 0;
    }

    /** What one restaging yields: an answer by language, within its lane. */
    lemma StagingJudged(field: Field)
      requires Valid()
      ensures Probed(LeanAt(prog, trail), field) != [] <==> Continues(prog, trail + [field])
      ensures |Probed(LeanAt(prog, trail), field)| <= staged.slots.Length
    {
      hide LayerAt, LeanAt, LeanStacked, LeanMarks, LeanLevels, Continues, Probed, Derived;
      StagingIsContinuation(prog, trail, field);
      LeanStagesSame(prog, trail, field);
      WalkFits(prog, limit, grouped, trail, field);
    }

    /** Restages from the current layer: exact hops, then loops. */
    method Stage(field: Field, ghost here: Tables)
      requires stages.Valid() && wilds.Valid() && staged.Valid()
      requires layer.stages <= stages.len && stages.Held()[layer.stages..] == here.stages
      requires layer.wilds <= wilds.len && wilds.Held()[layer.wilds..] == here.wilds
      requires |Probed(here, field)| <= staged.slots.Length
      modifies staged`len, staged.slots
      ensures staged.Valid() && staged.Held() == Probed(here, field)
    {
      hide StagedFrom, LoopedFrom, Probed;
      staged.Truncate(0);
      StageHops(field, here);
      StageLoops(field, here);
    }

    method StageHops(field: Field, ghost here: Tables)
      requires stages.Valid() && staged.Valid() && staged.len == 0
      requires layer.stages <= stages.len && stages.Held()[layer.stages..] == here.stages
      requires |Probed(here, field)| <= staged.slots.Length
      modifies staged`len, staged.slots
      ensures staged.Valid() && staged.Held() == StagedFrom(here.stages, field, |here.stages|)
    {
      hide StagedFrom, LoopedFrom, Probed;
      StagedStep(here.stages, field, 0);
      var i := layer.stages;
      while i < stages.len
        invariant layer.stages <= i <= stages.len && staged.Valid()
        invariant staged.Held() == StagedFrom(here.stages, field, i - layer.stages)
      {
        assert stages.slots[i] == here.stages[i - layer.stages];
        StagedStep(here.stages, field, i - layer.stages + 1);
        ProbingFits(here, field, i - layer.stages + 1, 0);
        if stages.slots[i].0 == field {
          staged.PushUnchecked(stages.slots[i].1);
        }
        i := i + 1;
      }
    }

    method StageLoops(field: Field, ghost here: Tables)
      requires wilds.Valid() && staged.Valid() && staged.Held() == StagedFrom(here.stages, field, |here.stages|)
      requires layer.wilds <= wilds.len && wilds.Held()[layer.wilds..] == here.wilds
      requires |Probed(here, field)| <= staged.slots.Length
      modifies staged`len, staged.slots
      ensures staged.Valid() && staged.Held() == Probed(here, field)
    {
      hide StagedFrom, LoopedFrom;
      ghost var hops := staged.Held();
      LoopedStep(here.wilds, field, 0);
      var i := layer.wilds;
      while i < wilds.len
        invariant layer.wilds <= i <= wilds.len && staged.Valid()
        invariant staged.Held() == hops + LoopedFrom(here.wilds, field, i - layer.wilds)
      {
        assert wilds.slots[i] == here.wilds[i - layer.wilds];
        LoopedStep(here.wilds, field, i - layer.wilds + 1);
        ProbingFits(here, field, |here.stages|, i - layer.wilds + 1);
        if field in wilds.slots[i].0 {
          staged.PushUnchecked(wilds.slots[i].1);
        }
        i := i + 1;
      }
    }

    method Probe(field: Field) returns (hits: Hits, routed: bool)
      requires Valid()
      modifies this`probed, staged`len, staged.slots
      ensures Valid() && HitsAre(prog, trail, field, hits)
      ensures hits.Conflict? ==> !routed && probed == old(probed)
      ensures !hits.Conflict? ==> probed == Some(field) && (routed <==> Continues(prog, trail + [field]))
      ensures !hits.Conflict? ==> routed == (staged.len != 0)
    {
      hide HitsAre, Continues, LeanStacked, LeanAt, LeanMarks, LeanLevels;
      hits := ProbeTarget(field);
      if hits.Conflict? {
        return hits, false;
      }
      routed := ProbeRoutes(field);
    }

    // ─── descent and exit ───

    /** Enters the container the last route probe judged, within the depth
        limit; a groupless walk enters only routed containers. */
    method CommitDescent()
      requires Valid() && probed.Some? && |trail| < limit && (grouped || staged.len != 0)
      modifies this, targets`len, targets.slots, stages`len, stages.slots, wilds`len, wilds.slots
      modifies staged`len, staged.slots, levels`len, levels.slots
      ensures Valid() && trail == old(trail) + [old(probed).value] && probed == None
    {
      hide Lean, LeanAt, LeanBelow, LeanStacked, LeanLevels, States, Derived, Probed, Canonical, LeanMarks, AllTargets;
      ghost var deeper := trail + [probed.value];
      DescendedLean(prog, trail, probed.value);
      LevelFits();
      Suspend(LeanStacked(prog, trail));
      FlattenAll(deeper);
      trail, probed := deeper, None;
    }

    /** Orders what is staged and opens a layer at the lanes' ends. */
    method Suspend(ghost all: Tables)
      requires LanesValid() && Holds(all) && levels.len < levels.slots.Length
      modifies this`layer, staged`len, staged.slots, levels`len, levels.slots
      ensures LanesValid() && Holds(all) && staged.Held() == Canonical(old(staged.Held()))
      ensures levels.Held() == old(levels.Held()) + [old(layer)]
      ensures layer == Marks(|all.targets|, |all.stages|, |all.wilds|)
    {
      hide Canonical;
      SortAndDedup();
      levels.PushUnchecked(layer);
      layer := Marks(targets.len, stages.len, wilds.len);
    }

    /** A descent within the depth limit finds room for the marks it suspends. */
    lemma LevelFits()
      requires Valid() && probed.Some? && |trail| < limit && (grouped || staged.len != 0)
      ensures levels.len < levels.slots.Length
    {
      hide LeanAt, LeanStacked, LeanMarks, Derived, Probed;
      WalkFits(prog, limit, grouped, trail, probed.value);
    }

    /** Sorts the staged states and collapses repeats in place. */
    method SortAndDedup()
      requires staged.Valid()
      modifies staged`len, staged.slots
      ensures staged.Valid() && staged.Held() == Canonical(old(staged.Held()))
    {
      hide Sorted, Dedup;
      SortStaged();
      var unique := Compact(staged.slots, staged.len);
      staged.Truncate(unique);
    }

    /** `sort_unstable` over the initialized prefix. */
    method SortStaged()
      requires staged.Valid()
      modifies staged.slots
      ensures staged.Held() == Sorted(old(staged.Held()))
    {
      hide Sorted;
      var sorted := Sorted(staged.Held());
      forall k | 0 <= k < |sorted| {
        staged.slots[k] := sorted[k];
      }
    }

    /** Compiles the staged states into the layer just opened. */
    method FlattenAll(ghost deeper: Word)
      requires Carved() && LanesValid() && layer == LeanMarks(prog, deeper) && |deeper| <= limit
      requires staged.Held() == States(prog, deeper)
      requires Holds(LeanBelow(prog, deeper))
      modifies targets`len, targets.slots, stages`len, stages.slots, wilds`len, wilds.slots
      ensures LanesValid() && Holds(LeanStacked(prog, deeper))
    {
      hide Lean, LeanBelow, LeanStacked, LeanMarks, States, Derived;
      LeanEmpty(prog, States(prog, deeper));
      LeanStackedIs(prog, deeper);
      var i := 0;
      while i < staged.len
        invariant 0 <= i <= staged.len && LanesValid()
        invariant Holds(LeanBelow(prog, deeper).Plus(Lean(prog, States(prog, deeper), i)))
      {
        assert staged.slots[i] == staged.Held()[i];
        FlattenNth(staged.slots[i], deeper, i);
        i := i + 1;
      }
    }

    /** Cuts the three stacked lanes back to the current layer's marks. */
    method Unwind()
      requires Admitted(prog) && LanesValid() && Holds(LeanStacked(prog, trail)) && layer == LeanMarks(prog, trail)
      modifies targets`len, stages`len, wilds`len
      ensures LanesValid() && Holds(LeanBelow(prog, trail))
    {
      hide LeanAt, LeanStacked, LeanBelow, LeanMarks;
      LeanSplits(prog, trail, Tables(targets.Held(), stages.Held(), wilds.Held(), []));
      targets.Truncate(layer.targets);
      stages.Truncate(layer.stages);
      wilds.Truncate(layer.wilds);
    }

    /** Takes the parent's marks back from the suspended ones. */
    method Resume(ghost parent: Word)
      requires Admitted(prog) && levels.Valid() && trail != [] && parent == trail[..|trail| - 1]
      requires levels.Held() == LeanLevels(prog, trail)
      modifies this`layer, levels`len
      ensures levels.Valid() && layer == LeanMarks(prog, parent) && levels.Held() == LeanLevels(prog, parent)
    {
      hide LeanMarks;
      var marks := levels.Pop();
      if marks.Some? {
        layer := marks.value;
      }
    }

    /** Leaves a container: the parent's tables and marks, exactly. */
    method Exit()
      requires Valid() && trail != []
      modifies this, targets`len, stages`len, wilds`len, levels`len
      ensures Valid() && trail == old(trail)[..|old(trail)| - 1] && probed == None
    {
      hide LeanBelow, LeanStacked, LeanMarks, LeanLevels, LeanAt, Derived, AllTargets;
      ghost var parent := trail[..|trail| - 1];
      BelowIsParent(prog, trail);
      Unwind();
      Resume(parent);
      trail, probed := parent, None;
    }
  }

  lemma BelowIsParent(prog: Program, trail: Word)
    requires Admitted(prog) && trail != []
    ensures LeanBelow(prog, trail) == LeanStacked(prog, trail[..|trail| - 1])
  {}

  /** Collapses the repeats of a sorted prefix in place. */
  method Compact(slots: array<State>, len: nat) returns (unique: nat)
    requires len <= slots.Length
    modifies slots
    ensures unique <= len && slots[..unique] == Dedup(old(slots[..len]), len)
  {
    hide Dedup;
    ghost var sorted := slots[..len];
    ghost var kept: seq<State> := [];
    DedupStep(sorted, 0);
    unique := 0;
    var i := 0;
    while i < len
      invariant 0 <= unique == |kept| <= i <= len && kept == Dedup(sorted, i)
      invariant forall k :: 0 <= k < unique ==> slots[k] == kept[k]
      invariant forall k :: unique <= k < len ==> slots[k] == sorted[k]
      invariant i > 0 ==> slots[i - 1] == sorted[i - 1]
    {
      DedupStep(sorted, i + 1);
      if i == 0 || slots[i] != slots[i - 1] {
        Keep(slots, unique, i);
        unique, kept := unique + 1, kept + [sorted[i]];
      }
      i := i + 1;
    }
    assert slots[..unique] == kept;
  }

  /** One state moves down to the next free place. */
  method Keep(slots: array<State>, unique: nat, i: nat)
    requires unique <= i < slots.Length
    modifies slots
    ensures slots[unique] == slots[i] == old(slots[i])
    ensures forall k :: 0 <= k < slots.Length && k != unique ==> slots[k] == old(slots[k])
  {
    slots[unique] := slots[i];
  }

  lemma DedupStep(s: seq<State>, n: nat)
    requires n <= |s|
    ensures n == 0 ==> Dedup(s, 0) == []
    ensures n > 0 ==> Dedup(s, n) == if n > 1 && s[n - 1] == s[n - 2] then Dedup(s, n - 1)
            else Dedup(s, n - 1) + [s[n - 1]]
  {}

  lemma DescendedLean(prog: Program, trail: Word, field: Field)
    requires Admitted(prog)
    ensures var deeper := trail + [field];
            && States(prog, deeper) == Canonical(Probed(LeanAt(prog, trail), field))
            && LeanBelow(prog, deeper) == LeanStacked(prog, trail)
            && LeanMarks(prog, deeper) == Marks(|LeanStacked(prog, trail).targets|, |LeanStacked(prog, trail).stages|,
                                                |LeanStacked(prog, trail).wilds|)
            && LeanLevels(prog, deeper) == LeanLevels(prog, trail) + [LeanMarks(prog, trail)]
  {
    hide LeanAt, LeanStacked;
    assert (trail + [field])[..|trail|] == trail;
    LeanStagesSame(prog, trail, field);
  }

  lemma {:induction false} StagedFromGrows(stages: seq<StageEntry>, field: Field, m: nat, n: nat)
    requires m <= n <= |stages|
    ensures |StagedFrom(stages, field, m)| <= |StagedFrom(stages, field, n)|
    decreases n - m
  {
    if m < n {
      StagedFromGrows(stages, field, m, n - 1);
    }
  }

  lemma {:induction false} LoopedFromGrows(wilds: seq<WildEntry>, field: Field, m: nat, n: nat)
    requires m <= n <= |wilds|
    ensures |LoopedFrom(wilds, field, m)| <= |LoopedFrom(wilds, field, n)|
    decreases n - m
  {
    if m < n {
      LoopedFromGrows(wilds, field, m, n - 1);
    }
  }

  /** Staging in progress never outgrows the finished probe. */
  lemma ProbingFits(layer: Tables, field: Field, m: nat, n: nat)
    requires m <= |layer.stages| && n <= |layer.wilds|
    ensures |StagedFrom(layer.stages, field, m)| + |LoopedFrom(layer.wilds, field, n)| <= |Probed(layer, field)|
  {
    StagedFromGrows(layer.stages, field, m, |layer.stages|);
    LoopedFromGrows(layer.wilds, field, n, |layer.wilds|);
  }
}
