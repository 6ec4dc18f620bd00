/** The heap matcher: flat stacked tables, pushed on descent and truncated on
    exit, proved to answer by language (src/path.rs). */
module Matcher {
  import opened Wire
  import opened Paths
  import opened Layers

  datatype Marks = Marks(targets: nat, stages: nat, wilds: nat)

  datatype Hits = NoHit | One(path: U16) | Conflict(first: U16, second: U16)

  /** Both marks of a trail: where its current layer starts in each table. */
  function MarksAt(prog: Program, trail: Word): Marks
    requires Admitted(prog)
  {
    var below := Below(prog, trail);
    Marks(|below.targets|, |below.stages|, |below.wilds|)
  }

  function LevelsAt(prog: Program, trail: Word): seq<Marks>
    requires Admitted(prog)
  {
    if trail == [] then []
    else LevelsAt(prog, trail[..|trail| - 1]) + [MarksAt(prog, trail[..|trail| - 1])]
  }

  function GapMarksAt(prog: Program, trail: Word): seq<nat>
    requires Admitted(prog)
  {
    if trail == [] then []
    else GapMarksAt(prog, trail[..|trail| - 1]) + [|Below(prog, trail[..|trail| - 1]).gaps|]
  }

  predicate Gapped(prog: Program) {
    exists p :: 0 <= p < |prog.lanes| && prog.lanes[p] != Target
  }

  // ─── verdicts, by language ───

  /** The write fold: none, the one path, or the two smallest. */
  ghost predicate HitsAre(prog: Program, trail: Word, field: Field, hits: Hits)
    requires Admitted(prog)
  {
    match hits
    case NoHit => forall p: nat :: !Targeted(prog, trail, field, p)
    case One(a) => forall p: nat :: Targeted(prog, trail, field, p) <==> p == a
    case Conflict(a, b) =>
      && a < b && Targeted(prog, trail, field, a) && Targeted(prog, trail, field, b)
      && forall p: nat :: Targeted(prog, trail, field, p) ==> p == a || p >= b
  }

  /** The verdict is determined by the language alone. */
  lemma HitsUnique(prog: Program, trail: Word, field: Field, a: Hits, b: Hits)
    requires Admitted(prog) && HitsAre(prog, trail, field, a) && HitsAre(prog, trail, field, b)
    ensures a == b
  {
    hide Targeted;
    if a.One? { assert Targeted(prog, trail, field, a.path); }
    if b.One? { assert Targeted(prog, trail, field, b.path); }
  }

  predicate IdsRise(ids: seq<U16>) {
    forall i, j :: 0 <= i < j < |ids| ==> ids[i] < ids[j]
  }

  /** The read fold: every selecting path once, ascending. */
  ghost predicate DeliveryIs(prog: Program, trail: Word, field: Field, ids: seq<U16>)
    requires Admitted(prog)
  {
    IdsRise(ids) && forall p: U16 :: p in ids <==> Targeted(prog, trail, field, p)
  }

  /** The selecting paths among the first `n` entries, each once. */
  predicate Folded(entries: seq<TargetEntry>, field: Field, n: nat, ids: seq<U16>) {
    n <= |entries| && IdsRise(ids) && forall p: U16 :: p in ids <==> (field, p) in entries[..n]
  }

  lemma FoldTakes(entries: seq<TargetEntry>, field: Field, n: nat, ids: seq<U16>)
    requires IdsAscend(entries) && n < |entries| && Folded(entries, field, n, ids)
    ensures var e := entries[n];
            var met := e.0 == field && (ids == [] || ids[|ids| - 1] != e.1);
            Folded(entries, field, n + 1, if met then ids + [e.1] else ids)
  {
    var e := entries[n];
    assert entries[..n + 1] == entries[..n] + [e];
    forall k | 0 <= k < |ids| ensures ids[k] <= e.1 {
      assert ids[k] in ids;
      var j :| 0 <= j < n && entries[..n][j] == (field, ids[k]);
      assert entries[j].1 <= entries[n].1;
    }
    if ids != [] {
      assert ids[|ids| - 1] in ids;
    }
  }

  lemma {:induction false} RisingIsUnique(a: seq<U16>, b: seq<U16>)
    requires IdsRise(a) && IdsRise(b) && forall p: U16 :: p in a <==> p in b
    ensures a == b
  {
    if a != [] {
      assert a[0] in b && b[0] in a;
      assert a == [a[0]] + a[1..] && b == [b[0]] + b[1..];
      forall p: U16
        ensures p in a[1..] <==> p in b[1..]
      {
        if p in a[1..] { assert p in b && a[0] < p; }
        if p in b[1..] { assert p in a && b[0] < p; }
      }
      RisingIsUnique(a[1..], b[1..]);
    }
    assert b != [] ==> b[0] in b;
  }

  lemma TargetIdsFit(prog: Program, trail: Word, field: Field, p: nat)
    requires Admitted(prog)
    ensures Targeted(prog, trail, field, p) ==> p <= 0xFFFF
  {}

  lemma LayerTargetsLaw(prog: Program, trail: Word, field: Field)
    requires Admitted(prog)
    ensures IdsAscend(LayerAt(prog, trail).targets)
    ensures forall p: U16 :: (field, p) in LayerAt(prog, trail).targets <==> Targeted(prog, trail, field, p)
  {
    hide Layer, States, Targeted;
    LayerOrdered(prog, States(prog, trail), |States(prog, trail)|);
    forall p: U16
      ensures (field, p) in LayerAt(prog, trail).targets <==> Targeted(prog, trail, field, p)
    {
      TargetsAreLanguage(prog, trail, field, p);
    }
  }

  lemma LayerGapsLaw(prog: Program, trail: Word, field: Field, lane: Lane)
    requires Admitted(prog)
    ensures GapIdsAscend(LayerAt(prog, trail).gaps)
    ensures forall p: U16 :: (field, p, lane) in LayerAt(prog, trail).gaps <==> Anchored(prog, trail, field, p, lane)
  {
    hide Layer, States, Anchored;
    LayerOrdered(prog, States(prog, trail), |States(prog, trail)|);
    forall p: U16
      ensures (field, p, lane) in LayerAt(prog, trail).gaps <==> Anchored(prog, trail, field, p, lane)
    {
      GapsAreLanguage(prog, trail, field, p, lane);
    }
  }

  // ─── the gap store ───

  class GapTable {
    var entries: seq<GapEntry>
    var marks: seq<nat>
    var layer: nat
    var any: bool

    constructor ()
      ensures entries == [] && marks == [] && layer == 0 && !any
    {
      entries, marks, layer, any := [], [], 0, false;
    }

    method Push(field: Field, path: U16, lane: Lane)
      modifies this`entries
      ensures entries == old(entries) + [(field, path, lane)]
    {
      entries := entries + [(field, path, lane)];
    }

    /** A layer opens; gap-free tables keep no marks. */
    method Enter()
      modifies this`marks, this`layer
      ensures marks == if any then old(marks) + [old(layer)] else old(marks)
      ensures layer == if any then |entries| else old(layer)
    {
      if any {
        marks := marks + [layer];
        layer := |entries|;
      }
    }

    /** A layer closes: truncate to its snapshot, restore the parent's. */
    method Exit()
      requires any ==> marks != [] && layer <= |entries|
      modifies this
      ensures any == old(any)
      ensures any ==> entries == old(entries)[..old(layer)] && layer == old(marks)[|old(marks)| - 1]
                      && marks == old(marks)[..|old(marks)| - 1]
      ensures !any ==> entries == old(entries) && marks == old(marks) && layer == old(layer)
    {
      if any {
        entries := entries[..layer];
        layer := marks[|marks| - 1];
        marks := marks[..|marks| - 1];
      }
    }

    /** The gap lanes present at `field`. */
    method Probe(field: Field) returns (head: bool, tail: bool)
      requires layer <= |entries|
      ensures head <==> exists p: U16 :: (field, p, Lane.Head) in entries[layer..]
      ensures tail <==> exists p: U16 :: (field, p, Lane.Tail) in entries[layer..]
    {
      head, tail := false, false;
      var i := layer;
      while i < |entries|
        invariant layer <= i <= |entries|
        invariant head <==> exists p: U16 :: (field, p, Lane.Head) in entries[layer..i]
        invariant tail <==> exists p: U16 :: (field, p, Lane.Tail) in entries[layer..i]
      {
        assert entries[layer..i + 1] == entries[layer..i] + [entries[i]];
        if entries[i].0 == field {
          head := head || entries[i].2 == Lane.Head;
          tail := tail || entries[i].2 == Lane.Tail;
        }
        i := i + 1;
      }
      assert entries[layer..i] == entries[layer..];
    }

    /** Every rule of `lane` at `field`, ascending, repeats collapsed. */
    method Visit(field: Field, lane: Lane) returns (ids: seq<U16>)
      requires layer <= |entries| && GapIdsAscend(entries[layer..])
      ensures IdsRise(ids)
      ensures forall p: U16 :: p in ids <==> (field, p, lane) in entries[layer..]
    {
      ids := [];
      ghost var tail := entries[layer..];
      var i := layer;
      while i < |entries|
        invariant layer <= i <= |entries| && IdsRise(ids)
        invariant ids != [] ==> ids[|ids| - 1] in ids
        invariant forall p: U16 :: p in ids <==> (field, p, lane) in tail[..i - layer]
      {
        var e := entries[i];
        assert e == tail[i - layer] && tail[..i - layer + 1] == tail[..i - layer] + [e];
        if e.0 == field && e.2 == lane && (ids == [] || ids[|ids| - 1] != e.1) {
          forall k | 0 <= k < |ids| ensures ids[k] < e.1 {
            assert ids[k] in ids && ids[|ids| - 1] in ids;
          }
          ids := ids + [e.1];
        }
        i := i + 1;
      }
      assert tail[..i - layer] == tail;
    }

    /** The lowest rule of any lane at `field`. */
    method First(field: Field) returns (id: Option<U16>)
      requires layer <= |entries| && GapIdsAscend(entries[layer..])
      ensures id.None? ==> forall p: U16, lane: Lane :: (field, p, lane) !in entries[layer..]
      ensures id.Some? ==> (exists lane: Lane :: (field, id.value, lane) in entries[layer..])
                           && forall p: U16, lane: Lane :: (field, p, lane) in entries[layer..] ==> id.value <= p
    {
      ghost var tail := entries[layer..];
      var i := layer;
      while i < |entries|
        invariant layer <= i <= |entries|
        invariant forall k :: 0 <= k < i - layer ==> tail[k].0 != field
      {
        assert entries[i] == tail[i - layer];
        if entries[i].0 == field {
          return Some(entries[i].1);
        }
        i := i + 1;
      }
      id := None;
    }
  }

  // ─── table algebra ───

  lemma PlusAssociative(a: Tables, b: Tables, c: Tables)
    ensures a.Plus(b).Plus(c) == a.Plus(b.Plus(c))
  {}

  lemma PlusNothing(a: Tables)
    ensures a.Plus(NO_TABLES) == a && NO_TABLES.Plus(a) == a
  {}

  /** The stack splits at the marks into ancestors and current layer. */
  lemma StackSplits(prog: Program, trail: Word, all: Tables)
    requires Admitted(prog) && all == Stacked(prog, trail)
    ensures var m := MarksAt(prog, trail);
            && m.targets <= |all.targets| && m.stages <= |all.stages| && m.wilds <= |all.wilds|
            && |Below(prog, trail).gaps| <= |all.gaps|
            && all.targets[m.targets..] == LayerAt(prog, trail).targets
            && all.stages[m.stages..] == LayerAt(prog, trail).stages
            && all.wilds[m.wilds..] == LayerAt(prog, trail).wilds
            && all.gaps[|Below(prog, trail).gaps|..] == LayerAt(prog, trail).gaps
            && Below(prog, trail)
               == Tables(all.targets[..m.targets], all.stages[..m.stages], all.wilds[..m.wilds],
                         all.gaps[..|Below(prog, trail).gaps|])
  {
    hide LayerAt, Below;
    assert all == Below(prog, trail).Plus(LayerAt(prog, trail)) by { StackedIs(prog, trail); }
  }

  lemma StackedIs(prog: Program, trail: Word)
    requires Admitted(prog)
    ensures Stacked(prog, trail) == Below(prog, trail).Plus(LayerAt(prog, trail))
  {}

  lemma RootStack(prog: Program)
    requires Admitted(prog)
    ensures Layer(prog, Roots(prog, 0), |Roots(prog, 0)|) == NO_TABLES == Below(prog, [])
    ensures Stacked(prog, []) == Layer(prog, Roots(prog, |prog.paths|), |Roots(prog, |prog.paths|)|)
  {
    PlusNothing(LayerAt(prog, []));
  }

  lemma RootMarks(prog: Program)
    requires Admitted(prog)
    ensures MarksAt(prog, []) == Marks(0, 0, 0) && |Below(prog, []).gaps| == 0
  {}

  lemma {:induction false} UngappedLayer(prog: Program, states: seq<State>, n: nat)
    requires Admitted(prog) && AllLive(prog, states) && n <= |states| && !Gapped(prog)
    ensures Layer(prog, states, n).gaps == []
  {
    hide Run;
    if n > 0 {
      UngappedLayer(prog, states, n - 1);
    }
  }

  /** Without gap rules the gap table is empty at every depth. */
  lemma {:induction false} UngappedStack(prog: Program, trail: Word)
    requires Admitted(prog) && !Gapped(prog)
    ensures Stacked(prog, trail).gaps == [] && LayerAt(prog, trail).gaps == [] && Below(prog, trail).gaps == []
    decreases |trail|
  {
    UngappedLayer(prog, States(prog, trail), |States(prog, trail)|);
    if trail != [] {
      UngappedStack(prog, trail[..|trail| - 1]);
    }
  }

  // ─── the matcher ───

  class HeapMatcher {
    const prog: Program
    const gaps: GapTable
    var targets: seq<TargetEntry>
    var stages: seq<StageEntry>
    var wilds: seq<WildEntry>
    var layer: Marks
    var levels: seq<Marks>
    var staged: seq<State>

    /** The committed containers, and the field the last route probe judged. */
    ghost var trail: Word
    ghost var probed: Option<Field>

    function All(): Tables
      reads this, gaps
    {
      Tables(targets, stages, wilds, gaps.entries)
    }

    /** The tables, marks and levels are a function of program and trail. */
    ghost predicate Valid()
      reads this, gaps
    {
      && Admitted(prog)
      && All() == Stacked(prog, trail)
      && layer == MarksAt(prog, trail)
      && levels == LevelsAt(prog, trail)
      && gaps.any == Gapped(prog)
      && gaps.layer == |Below(prog, trail).gaps|
      && gaps.marks == (if gaps.any then GapMarksAt(prog, trail) else [])
      && (probed.Some? ==> staged == Probed(LayerAt(prog, trail), probed.value))
    }

    /** A machine outside every container: its one layer holds each path's head chain. */
    constructor (prog: Program)
      requires Admitted(prog)
      ensures Valid() && fresh(this) && fresh(gaps)
      ensures this.prog == prog && trail == [] && probed == None
    {
      this.prog := prog;
      gaps := new GapTable();
      targets, stages, wilds, levels, staged := [], [], [], [], [];
      layer := Marks(0, 0, 0);
      trail, probed := [], None;
      new;
      CompileRoots();
    }

    /** Flattens the chain at position zero of each path, in id order. */
    method CompileRoots()
      requires Admitted(prog) && All() == NO_TABLES && !gaps.any
      requires layer == Marks(0, 0, 0) && levels == [] && trail == [] && probed.None?
      requires gaps.layer == 0 && gaps.marks == []
      modifies this`targets, this`stages, this`wilds, gaps`entries, gaps`any
      ensures Valid()
    {
      hide Layer, Roots, Chain, Stacked, Below, MarksAt;
      RootStack(prog);
      RootMarks(prog);
      var gapped := false;
      var id := 0;
      while id < |prog.paths|
        invariant 0 <= id <= |prog.paths|
        invariant All() == Layer(prog, Roots(prog, id), |Roots(prog, id)|)
        invariant gapped <==> exists p :: 0 <= p < id && prog.lanes[p] != Target
      {
        RootsGrow(prog, id);
        Flatten(State(id, 0));
        gapped := gapped || prog.lanes[id] != Target;
        id := id + 1;
      }
      gaps.any := gapped;
    }

    /** Lands one state's chain in the tables; an empty anchor path has none. */
    method Flatten(s: State)
      requires Admitted(prog) && s.path < |prog.paths|
      requires prog.paths[s.path] == [] || LiveState(prog, s)
      modifies this`targets, this`stages, this`wilds, gaps`entries
      ensures prog.paths[s.path] == [] ==> All() == old(All())
      ensures prog.paths[s.path] != [] ==> All() == old(All()).Plus(Chain(prog, s))
    {
      var steps := prog.paths[s.path];
      if steps == [] {
        return;
      }
      var i := s.seg;
      ghost var h := HopAt(steps, s.seg);
      PlusNothing(All());
      while steps[i].AnyDepth?
        invariant s.seg <= i <= h
        invariant targets == old(targets) && stages == old(stages) && gaps.entries == old(gaps.entries)
        invariant wilds == old(wilds) + Run(steps, s.path, s.seg, i)
        decreases h - i
      {
        wilds := wilds + [(steps[i].descend, State(s.path, i))];
        i := i + 1;
      }
      assert i == h;
      var field := steps[i].field;
      if i + 1 == |steps| {
        var lane := prog.lanes[s.path];
        if lane != Target {
          gaps.Push(field, s.path, lane);
          return;
        }
        targets := targets + [(field, s.path)];
      } else {
        stages := stages + [(field, State(s.path, i + 1))];
      }
    }

    lemma Current(field: Field)
      requires Valid()
      ensures layer.targets <= |targets| && layer.stages <= |stages| && layer.wilds <= |wilds|
              && gaps.layer <= |gaps.entries|
      ensures targets[layer.targets..] == LayerAt(prog, trail).targets
      ensures stages[layer.stages..] == LayerAt(prog, trail).stages
      ensures wilds[layer.wilds..] == LayerAt(prog, trail).wilds
      ensures gaps.entries[gaps.layer..] == LayerAt(prog, trail).gaps
      ensures IdsAscend(targets[layer.targets..]) && GapIdsAscend(gaps.entries[gaps.layer..])
      ensures forall p: U16 :: (field, p) in targets[layer.targets..] <==> Targeted(prog, trail, field, p)
    {
      hide LayerAt, Below, Targeted;
      StackSplits(prog, trail, All());
      LayerTargetsLaw(prog, trail, field);
      LayerGapsLaw(prog, trail, field, Lane.Head);
    }

    // ─── the verdict folds ───

    /** The write fold over the current layer's targets. */
    method ProbeTarget(field: Field) returns (hits: Hits)
      requires Valid()
      ensures HitsAre(prog, trail, field, hits)
    {
      hide LayerAt, Stacked, Below, Targeted, MarksAt, LevelsAt, GapMarksAt, HitsAre;
      Current(field);
      ghost var tail := targets[layer.targets..];
      var found: Option<U16> := None;
      var i := layer.targets;
      while i < |targets|
        invariant layer.targets <= i <= |targets|
        invariant found.None? ==> forall k :: 0 <= k < i - layer.targets ==> tail[k].0 != field
        invariant found.Some? ==> exists k :: 0 <= k < i - layer.targets && tail[k] == (field, found.value)
        invariant found.Some? ==>
                    forall k :: 0 <= k < i - layer.targets && tail[k].0 == field ==> tail[k].1 == found.value
      {
        var e := targets[i];
        assert e == tail[i - layer.targets];
        if e.0 == field {
          if found.None? {
            found := Some(e.1);
          } else if found.value != e.1 {
            ConflictIsSmallest(prog, trail, tail, field, i - layer.targets, found.value);
            return Conflict(found.value, e.1);
          }
        }
        i := i + 1;
      }
      NoConflict(prog, trail, tail, field, found);
      hits := if found.Some? then One(found.value) else NoHit;
    }

    /** The single-action fold: the lowest selecting path. */
    method FirstTarget(field: Field) returns (first: Option<U16>)
      requires Valid()
      ensures first.None? ==> forall p: nat :: !Targeted(prog, trail, field, p)
      ensures first.Some? ==> Targeted(prog, trail, field, first.value)
                              && forall p: nat :: Targeted(prog, trail, field, p) ==> first.value <= p
    {
      hide LayerAt, Stacked, Below, Targeted, MarksAt, LevelsAt, GapMarksAt;
      Current(field);
      ghost var tail := targets[layer.targets..];
      var i := layer.targets;
      while i < |targets|
        invariant layer.targets <= i <= |targets|
        invariant forall k :: 0 <= k < i - layer.targets ==> tail[k].0 != field
      {
        assert targets[i] == tail[i - layer.targets];
        if targets[i].0 == field {
          forall p: nat | Targeted(prog, trail, field, p) ensures targets[i].1 <= p {
            TargetIdsFit(prog, trail, field, p);
            assert (field, p as U16) in tail;
          }
          return Some(targets[i].1);
        }
        i := i + 1;
      }
      forall p: nat ensures !Targeted(prog, trail, field, p) {
        TargetIdsFit(prog, trail, field, p);
        if p <= 0xFFFF {
          assert (field, p as U16) !in tail;
        }
      }
      first := None;
    }

    /** The read fold: one register collapses converging states. */
    method VisitTargets(field: Field) returns (ids: seq<U16>)
      requires Valid()
      ensures DeliveryIs(prog, trail, field, ids)
    {
      hide LayerAt, Stacked, Below, Targeted, MarksAt, LevelsAt, GapMarksAt;
      Current(field);
      ghost var tail := targets[layer.targets..];
      ids := [];
      var i := layer.targets;
      while i < |targets|
        invariant layer.targets <= i <= |targets| && Folded(tail, field, i - layer.targets, ids)
      {
        var e := targets[i];
        assert e == tail[i - layer.targets];
        FoldTakes(tail, field, i - layer.targets, ids);
        if e.0 == field && (ids == [] || ids[|ids| - 1] != e.1) {
          ids := ids + [e.1];
        }
        i := i + 1;
      }
      assert tail[..i - layer.targets] == tail;
    }

    // ─── gap anchors ───

    method ProbeGaps(field: Field) returns (head: bool, tail: bool)
      requires Valid()
      ensures head <==> exists p: nat :: Anchored(prog, trail, field, p, Lane.Head)
      ensures tail <==> exists p: nat :: Anchored(prog, trail, field, p, Lane.Tail)
    {
      hide LayerAt, Stacked, Below, MarksAt, LevelsAt, GapMarksAt;
      Current(field);
      LayerGapsLaw(prog, trail, field, Lane.Head);
      LayerGapsLaw(prog, trail, field, Lane.Tail);
      head, tail := gaps.Probe(field);
      if p: nat :| Anchored(prog, trail, field, p, Lane.Head) {
        assert (field, p as U16, Lane.Head) in gaps.entries[gaps.layer..];
      }
      if p: nat :| Anchored(prog, trail, field, p, Lane.Tail) {
        assert (field, p as U16, Lane.Tail) in gaps.entries[gaps.layer..];
      }
    }

    /** Every insert rule of `lane` at this container, once and ascending. */
    method VisitGaps(field: Field, lane: Lane) returns (ids: seq<U16>)
      requires Valid()
      ensures IdsRise(ids) && forall p: U16 :: p in ids <==> Anchored(prog, trail, field, p, lane)
    {
      hide LayerAt, Stacked, Below, Anchored, MarksAt, LevelsAt, GapMarksAt;
      Current(field);
      LayerGapsLaw(prog, trail, field, lane);
      ids := gaps.Visit(field, lane);
    }

    /** The lowest insert rule of either gap lane at this container. */
    method FirstInteriorGap(field: Field) returns (first: Option<U16>)
      requires Valid()
      ensures first.None? ==> forall p: nat, lane: Lane :: !Anchored(prog, trail, field, p, lane)
      ensures first.Some? ==> (exists lane: Lane :: Anchored(prog, trail, field, first.value, lane))
                              && forall p: nat, lane: Lane :: Anchored(prog, trail, field, p, lane) ==> first.value <= p
    {
      hide LayerAt, Stacked, Below, MarksAt, LevelsAt, GapMarksAt;
      Current(field);
      first := gaps.First(field);
      forall lane: Lane, p: U16
        ensures (field, p, lane) in gaps.entries[gaps.layer..] <==> Anchored(prog, trail, field, p, lane)
      {
        LayerGapsLaw(prog, trail, field, lane);
      }
      forall p: nat, lane: Lane | Anchored(prog, trail, field, p, lane)
        ensures first.Some? && first.value <= p
      {
        assert (field, p as U16, lane) in gaps.entries[gaps.layer..];
      }
    }

    // ─── routing ───

    /** Whether `field` leads anywhere below, keeping the positions it leads to. */
    method ProbeRoutes(field: Field) returns (routed: bool)
      requires Valid()
      modifies this`staged, this`probed
      ensures Valid() && probed == Some(field)
      ensures routed <==> Continues(prog, trail + [field])
    {
      hide LayerAt, Stacked, Below, MarksAt, LevelsAt, GapMarksAt, Continues, Gapped;
      Current(field);
      StagingIsContinuation(prog, trail, field);
      staged := [];
      StageHops(field, LayerAt(prog, trail));
      StageLoops(field, LayerAt(prog, trail));
      probed := Some(field);
      routed := staged != [];
    }

    /** The exact hops of the current layer. */
    method StageHops(field: Field, ghost here: Tables)
      requires layer.stages <= |stages| && stages[layer.stages..] == here.stages && staged == []
      modifies this`staged
      ensures staged == StagedFrom(here.stages, field, |here.stages|)
    {
      hide StagedFrom;
      StagedStep(here.stages, field, 0);
      var i := layer.stages;
      while i < |stages|
        invariant layer.stages <= i <= |stages|
        invariant staged == StagedFrom(here.stages, field, i - layer.stages)
      {
        assert stages[i] == here.stages[i - layer.stages];
        StagedStep(here.stages, field, i - layer.stages + 1);
        if stages[i].0 == field {
          staged := staged + [stages[i].1];
        }
        i := i + 1;
      }
    }

    /** Then the wildcards that take the field. */
    method StageLoops(field: Field, ghost here: Tables)
      requires layer.wilds <= |wilds| && wilds[layer.wilds..] == here.wilds
      requires staged == StagedFrom(here.stages, field, |here.stages|)
      modifies this`staged
      ensures staged == Probed(here, field)
    {
      hide StagedFrom, LoopedFrom;
      ghost var hops := staged;
      LoopedStep(here.wilds, field, 0);
      var i := layer.wilds;
      while i < |wilds|
        invariant layer.wilds <= i <= |wilds|
        invariant staged == hops + LoopedFrom(here.wilds, field, i - layer.wilds)
      {
        assert wilds[i] == here.wilds[i - layer.wilds];
        LoopedStep(here.wilds, field, i - layer.wilds + 1);
        if field in wilds[i].0 {
          staged := staged + [wilds[i].1];
        }
        i := i + 1;
      }
    }

    /** Verdict and routing of one container head; a conflict leaves the staging alone. */
    method Probe(field: Field) returns (hits: Hits, routed: bool)
      requires Valid()
      modifies this`staged, this`probed
      ensures Valid() && HitsAre(prog, trail, field, hits)
      ensures hits.Conflict? ==> !routed && staged == old(staged) && probed == old(probed)
      ensures !hits.Conflict? ==> probed == Some(field) && (routed <==> Continues(prog, trail + [field]))
    {
      hide HitsAre, Continues;
      hits := ProbeTarget(field);
      if hits.Conflict? {
        return hits, false;
      }
      routed := ProbeRoutes(field);
    }

    /** Enters the container the last route probe judged. */
    method CommitDescent()
      requires Valid() && probed.Some?
      modifies this, gaps
      ensures Valid() && trail == old(trail) + [old(probed).value] && probed == None
    {
      hide Layer, LayerAt, States, Stacked, Below, Probed, Canonical, Chain, LevelsAt, GapMarksAt, Gapped;
      ghost var deeper := trail + [probed.value];
      Descended(prog, trail, probed.value);
      NoGapBelow(deeper);
      staged := Canonical(staged);
      levels := levels + [layer];
      layer := Marks(|targets|, |stages|, |wilds|);
      gaps.Enter();
      FlattenAll(deeper);
      trail, probed := deeper, None;
    }

    /** Without insert anchors every snapshot of the gap lane is empty. */
    lemma NoGapBelow(deeper: Word)
      requires Admitted(prog)
      ensures !Gapped(prog) ==> |Below(prog, deeper).gaps| == 0 && |Below(prog, trail).gaps| == 0
    {
      if !Gapped(prog) {
        UngappedStack(prog, deeper);
        UngappedStack(prog, trail);
      }
    }

    /** Compiles the staged states into the layer just opened. */
    method FlattenAll(ghost deeper: Word)
      requires Admitted(prog) && staged == States(prog, deeper)
      requires All() == Below(prog, deeper)
      modifies this`targets, this`stages, this`wilds, gaps`entries
      ensures All() == Stacked(prog, deeper)
    {
      hide Layer, Chain, Below, States;
      ghost var below := All();
      PlusNothing(below);
      LayerEmpty(prog, staged);
      StackedIs(prog, deeper);
      var i := 0;
      while i < |staged|
        invariant 0 <= i <= |staged|
        invariant All() == below.Plus(Layer(prog, staged, i))
      {
        LayerStep(prog, staged, i + 1);
        PlusAssociative(below, Layer(prog, staged, i), Chain(prog, staged[i]));
        Flatten(staged[i]);
        i := i + 1;
      }
    }

    /** Leaves a container: the parent's tables and marks, exactly. */
    method Exit()
      requires Valid() && trail != []
      modifies this, gaps
      ensures Valid() && trail == old(trail)[..|old(trail)| - 1] && probed == None
    {
      hide LayerAt, Stacked, MarksAt;
      StackSplits(prog, trail, All());
      ghost var parent := trail[..|trail| - 1];
      if !gaps.any {
        UngappedStack(prog, trail);
        UngappedStack(prog, parent);
      }
      targets := targets[..layer.targets];
      stages := stages[..layer.stages];
      wilds := wilds[..layer.wilds];
      gaps.Exit();
      layer := levels[|levels| - 1];
      levels := levels[..|levels| - 1];
      trail, probed := parent, None;
    }
  }

  /** Two ids meet in a conflict only as the two smallest selecting paths. */
  lemma ConflictIsSmallest(prog: Program, trail: Word, tail: seq<TargetEntry>, field: Field, at: nat, first: U16)
    requires Admitted(prog) && IdsAscend(tail) && at < |tail| && tail[at].0 == field && tail[at].1 != first
    requires forall k :: 0 <= k < at && tail[k].0 == field ==> tail[k].1 == first
    requires exists k :: 0 <= k < at && tail[k] == (field, first)
    requires forall p: U16 :: (field, p) in tail <==> Targeted(prog, trail, field, p)
    ensures HitsAre(prog, trail, field, Conflict(first, tail[at].1))
  {
    hide Targeted;
    var k :| 0 <= k < at && tail[k] == (field, first);
    assert tail[k] in tail && tail[at] in tail;
    forall p: nat | Targeted(prog, trail, field, p) ensures p == first || p >= tail[at].1 {
      TargetIdsFit(prog, trail, field, p);
      assert (field, p as U16) in tail;
    }
  }

  /** One id throughout, or none: the verdict the fold falls through to. */
  lemma NoConflict(prog: Program, trail: Word, tail: seq<TargetEntry>, field: Field, found: Option<U16>)
    requires Admitted(prog) && forall p: U16 :: (field, p) in tail <==> Targeted(prog, trail, field, p)
    requires found.None? ==> forall k :: 0 <= k < |tail| ==> tail[k].0 != field
    requires found.Some? ==> exists k :: 0 <= k < |tail| && tail[k] == (field, found.value)
    requires found.Some? ==> forall k :: 0 <= k < |tail| && tail[k].0 == field ==> tail[k].1 == found.value
    ensures HitsAre(prog, trail, field, if found.Some? then One(found.value) else NoHit)
  {
    hide Targeted;
    forall p: nat | Targeted(prog, trail, field, p) ensures found == Some(p) {
      TargetIdsFit(prog, trail, field, p);
      assert (field, p as U16) in tail;
    }
  }

  /** The child layer's states, marks and levels, from the parent's. */
  lemma Descended(prog: Program, trail: Word, field: Field)
    requires Admitted(prog)
    ensures var deeper := trail + [field];
            && deeper[..|trail|] == trail
            && States(prog, deeper) == Canonical(Probed(LayerAt(prog, trail), field))
            && Below(prog, deeper) == Stacked(prog, trail)
            && LevelsAt(prog, deeper) == LevelsAt(prog, trail) + [MarksAt(prog, trail)]
            && GapMarksAt(prog, deeper) == GapMarksAt(prog, trail) + [|Below(prog, trail).gaps|]
  {
    assert (trail + [field])[..|trail|] == trail;
  }
}
