/** What walks and gap lanes leave alone: a balanced walk restores the compiled
    tables exactly, and insert anchors never reach the action verdicts
    (src/path.rs). */
module Balanced {
  import opened Wire
  import opened Paths
  import opened Layers
  import opened Matcher

  /** A walk inside one container: leaves judged, containers entered and left. */
  datatype Stop = Look(field: Field) | Enter(field: Field, inside: seq<Stop>)

  /** The matcher's whole compiled state, marks included. */
  datatype Picture = Picture(all: Tables, layer: Marks, levels: seq<Marks>, gapLayer: nat, gapMarks: seq<nat>,
                             any: bool)

  function PictureOf(m: HeapMatcher): Picture
    reads m, m.gaps
  {
    Picture(m.All(), m.layer, m.levels, m.gaps.layer, m.gaps.marks, m.gaps.any)
  }

  /** The compiled state is a function of the program and the trail alone. */
  twostate lemma Restored(m: HeapMatcher)
    requires old(m.Valid()) && m.Valid() && old(m.trail) == m.trail
    ensures PictureOf(m) == old(PictureOf(m))
  {}

  /** Any balanced walk, however deep, puts every table and mark back. */
  method Wander(m: HeapMatcher, stops: seq<Stop>)
    requires m.Valid()
    modifies m, m.gaps
    ensures m.Valid() && m.trail == old(m.trail)
    ensures PictureOf(m) == old(PictureOf(m))
    decreases stops
  {
    hide HeapMatcher.Valid, PictureOf, HitsAre, Continues;
    if stops != [] {
      match stops[0] {
        case Look(field) =>
          var _ := m.ProbeTarget(field);
        case Enter(field, inside) =>
          var hits, routed := m.Probe(field);
          if !hits.Conflict? {
            m.CommitDescent();
            Wander(m, inside);
            m.Exit();
          }
      }
      Wander(m, stops[1..]);
    }
    Restored(m);
  }

  // ─── gap lanes ───

  /** The program with its insert rules emptied, every id kept. */
  function ActionsOnly(prog: Program): (r: Program)
    requires Admitted(prog)
    ensures Admitted(r) && |r.paths| == |prog.paths|
  {
    Program(seq(|prog.paths|, p requires 0 <= p < |prog.paths| => if prog.lanes[p] == Target then prog.paths[p]
                else []), prog.lanes)
  }

  lemma SameTargets(prog: Program, trail: Word, field: Field, p: nat)
    requires Admitted(prog)
    ensures Targeted(ActionsOnly(prog), trail, field, p) <==> Targeted(prog, trail, field, p)
  {
    hide InLanguage;
  }

  /** Insert anchors never change an action verdict, an id, or a delivery. */
  lemma GapsLeaveVerdictsAlone(prog: Program, trail: Word, field: Field, hits: Hits, ids: seq<U16>)
    requires Admitted(prog)
    ensures HitsAre(prog, trail, field, hits) <==> HitsAre(ActionsOnly(prog), trail, field, hits)
    ensures DeliveryIs(prog, trail, field, ids) <==> DeliveryIs(ActionsOnly(prog), trail, field, ids)
  {
    hide Targeted, ActionsOnly;
    forall p: nat ensures Targeted(ActionsOnly(prog), trail, field, p) <==> Targeted(prog, trail, field, p) {
      SameTargets(prog, trail, field, p);
    }
  }

  /** A laned matcher and one compiled from its actions alone answer alike. */
  method ProbeBoth(prog: Program, trail: Word, field: Field) returns (laned: Hits, plain: Hits)
    requires Admitted(prog)
    ensures laned == plain && HitsAre(prog, trail, field, laned)
  {
    hide HeapMatcher.Valid, HitsAre, ActionsOnly, Continues;
    var a := new HeapMatcher(prog);
    var b := new HeapMatcher(ActionsOnly(prog));
    Follow(a, trail);
    Follow(b, trail);
    laned := a.ProbeTarget(field);
    plain := b.ProbeTarget(field);
    GapsLeaveVerdictsAlone(prog, trail, field, plain, []);
    HitsUnique(prog, trail, field, laned, plain);
  }

  /** Enters the trail's containers one by one. */
  method Follow(m: HeapMatcher, trail: Word)
    requires m.Valid() && m.trail == []
    modifies m, m.gaps
    ensures m.Valid() && m.trail == trail
  {
    hide HeapMatcher.Valid, Continues;
    var i := 0;
    while i < |trail|
      invariant 0 <= i <= |trail| && m.Valid() && m.trail == trail[..i]
    {
      var routed := m.ProbeRoutes(trail[i]);
      m.CommitDescent();
      i := i + 1;
    }
    assert trail[..i] == trail;
  }
}
