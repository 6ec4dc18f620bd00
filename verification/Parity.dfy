/** The two matchers side by side: any script of probes, descents and exits
    draws the same answers from both (src/path.rs, src/fixed_inplace.rs). */
module Parity {
  import opened Wire
  import opened Paths
  import opened Layers
  import opened Matcher
  import opened Capacity
  import opened Fixed

  /** What a walk asks: a leaf's verdict, a container (entered when the walk
      would), a container's end. */
  datatype Step = Leaf(field: Field) | Enter(field: Field) | Leave

  datatype Answer = Verdict(hits: Hits) | Container(hits: Hits, routed: bool, entered: bool) | Left(depth: nat)

  /** A container is entered unless conflicted, over budget, or (without
      groups) routed nowhere. */
  predicate Enters(hits: Hits, routed: bool, grouped: bool, depth: nat, limit: nat) {
    !hits.Conflict? && (grouped || routed) && depth < limit
  }

  /** Where one answered step leaves the walk. */
  function After(trail: Word, step: Step, answer: Answer): Word {
    match step
    case Leaf(_) => trail
    case Enter(field) => if answer.Container? && answer.entered then trail + [field] else trail
    case Leave => if trail == [] then trail else trail[..|trail| - 1]
  }

  /** The containers entered and not yet left after the first `n` steps. */
  function TrailTo(script: seq<Step>, answers: seq<Answer>, n: nat): Word
    requires n <= |script| && n <= |answers|
  {
    if n == 0 then [] else After(TrailTo(script, answers, n - 1), script[n - 1], answers[n - 1])
  }

  lemma {:induction false} TrailSettled(script: seq<Step>, answers: seq<Answer>, more: seq<Answer>, n: nat)
    requires n <= |script| && n <= |answers| && answers <= more
    ensures TrailTo(script, more, n) == TrailTo(script, answers, n)
  {
    if n > 0 {
      TrailSettled(script, answers, more, n - 1);
    }
  }

  /** The answer the languages call for at this trail. */
  ghost predicate AnswerIs(prog: Program, limit: nat, grouped: bool, trail: Word, step: Step, answer: Answer)
    requires Admitted(prog)
  {
    match step
    case Leaf(field) => answer.Verdict? && HitsAre(prog, trail, field, answer.hits)
    case Enter(field) =>
      && answer.Container? && HitsAre(prog, trail, field, answer.hits)
      && (answer.routed <==> !answer.hits.Conflict? && Continues(prog, trail + [field]))
      && (answer.entered <==> Enters(answer.hits, answer.routed, grouped, |trail|, limit))
    case Leave => answer == Left(|trail|)
  }

  ghost predicate Answered(prog: Program, limit: nat, grouped: bool, script: seq<Step>, answers: seq<Answer>)
    requires Admitted(prog)
  {
    && |answers| <= |script|
    && forall i :: 0 <= i < |answers| ==> AnswerIs(prog, limit, grouped, TrailTo(script, answers, i), script[i],
                                                   answers[i])
  }

  lemma {:induction false} AnsweredNext(prog: Program, limit: nat, grouped: bool, script: seq<Step>,
                                        answers: seq<Answer>, a: Answer)
    requires Admitted(prog) && Answered(prog, limit, grouped, script, answers) && |answers| < |script|
    requires AnswerIs(prog, limit, grouped, TrailTo(script, answers, |answers|), script[|answers|], a)
    ensures Answered(prog, limit, grouped, script, answers + [a])
    ensures TrailTo(script, answers + [a], |answers| + 1)
            == After(TrailTo(script, answers, |answers|), script[|answers|], a)
  {
    hide AnswerIs, After;
    forall i: nat | i <= |answers| ensures TrailTo(script, answers + [a], i) == TrailTo(script, answers, i) {
      TrailSettled(script, answers, answers + [a], i);
    }
  }

  /** Runs one script on both machines; an unpaired exit is skipped. */
  method Lockstep(prog: Program, renumbers: seq<bool>, limit: nat, grouped: bool, script: seq<Step>)
    returns (heap: seq<Answer>, fixed: seq<Answer>)
    requires Admitted(prog) && AllTargets(prog) && |renumbers| == |prog.paths|
    ensures heap == fixed && |heap| == |script|
    ensures forall i :: 0 <= i < |script| ==>
              AnswerIs(prog, limit, grouped, TrailTo(script, heap, i), script[i], heap[i])
  {
    hide HeapMatcher.Valid, FixedMatcher.Valid, AnswerIs, After, TrailTo, Answered;
    var h := new HeapMatcher(prog);
    var f := new FixedMatcher(prog, renumbers, limit, grouped);
    heap, fixed := [], [];
    NothingAnswered(prog, limit, grouped, script);
    var depth := 0;
    var i := 0;
    while i < |script|
      invariant 0 <= i <= |script| && |heap| == i && heap == fixed
      invariant h.Valid() && f.Valid() && h.prog == f.prog == prog && f.limit == limit && f.grouped == grouped
      invariant h.trail == f.trail == TrailTo(script, heap, i) && |h.trail| == depth
      invariant Answered(prog, limit, grouped, script, heap)
      invariant fresh(h) && fresh(h.gaps) && fresh(f) && fresh(f.targets) && fresh(f.stages) && fresh(f.wilds)
                && fresh(f.staged) && fresh(f.levels)
      invariant fresh(f.targets.slots) && fresh(f.stages.slots) && fresh(f.wilds.slots) && fresh(f.staged.slots)
                && fresh(f.levels.slots)
    {
      var a, b;
      depth, a, b := OneStep(h, f, script[i], depth);
      AnsweredNext(prog, limit, grouped, script, heap, a);
      heap, fixed := heap + [a], fixed + [b];
      i := i + 1;
    }
    EveryAnswer(prog, limit, grouped, script, heap);
  }

  lemma NothingAnswered(prog: Program, limit: nat, grouped: bool, script: seq<Step>)
    requires Admitted(prog)
    ensures Answered(prog, limit, grouped, script, []) && TrailTo(script, [], 0) == []
  {}

  lemma EveryAnswer(prog: Program, limit: nat, grouped: bool, script: seq<Step>, answers: seq<Answer>)
    requires Admitted(prog) && Answered(prog, limit, grouped, script, answers) && |answers| == |script|
    ensures forall i :: 0 <= i < |script| ==>
              AnswerIs(prog, limit, grouped, TrailTo(script, answers, i), script[i], answers[i])
  {
    hide AnswerIs, TrailTo;
  }

  method OneStep(h: HeapMatcher, f: FixedMatcher, step: Step, depth: nat) returns (depth': nat, a: Answer, b: Answer)
    requires h.Valid() && f.Valid() && h.prog == f.prog && h.trail == f.trail && |h.trail| == depth
    modifies h, h.gaps, f, f.targets, f.stages, f.wilds, f.staged, f.levels
    modifies f.targets.slots, f.stages.slots, f.wilds.slots, f.staged.slots, f.levels.slots
    ensures Admitted(h.prog) && h.Valid() && f.Valid() && h.trail == f.trail && |h.trail| == depth'
    ensures a == b && AnswerIs(h.prog, f.limit, f.grouped, old(h.trail), step, a)
    ensures h.trail == After(old(h.trail), step, a)
  {
    hide HitsAre, HeapMatcher.Valid, FixedMatcher.Valid, Continues;
    HeapAdmitted(h);
    depth' := depth;
    match step
    case Leaf(field) =>
      var x := h.ProbeTarget(field);
      var y := f.ProbeTarget(field);
      HitsUnique(h.prog, h.trail, field, x, y);
      a, b := Verdict(x), Verdict(y);
    case Enter(field) =>
      depth', a, b := EnterBoth(h, f, field, depth);
    case Leave =>
      a, b := Left(depth), Left(depth);
      if depth > 0 {
        h.Exit();
        f.Exit();
        depth' := depth - 1;
      }
  }

  lemma HeapAdmitted(h: HeapMatcher)
    requires h.Valid()
    ensures Admitted(h.prog)
  {}

  method EnterBoth(h: HeapMatcher, f: FixedMatcher, field: Field, depth: nat)
    returns (depth': nat, a: Answer, b: Answer)
    requires h.Valid() && f.Valid() && h.prog == f.prog && h.trail == f.trail && |h.trail| == depth
    modifies h, h.gaps, f, f.targets, f.stages, f.wilds, f.staged, f.levels
    modifies f.targets.slots, f.stages.slots, f.wilds.slots, f.staged.slots, f.levels.slots
    ensures Admitted(h.prog) && h.Valid() && f.Valid() && h.trail == f.trail && |h.trail| == depth'
    ensures a == b && AnswerIs(h.prog, f.limit, f.grouped, old(h.trail), Enter(field), a)
    ensures h.trail == After(old(h.trail), Enter(field), a)
  {
    hide HitsAre, Continues, HeapMatcher.Valid, FixedMatcher.Valid;
    HeapAdmitted(h);
    var x, xr := h.Probe(field);
    var y, yr := f.Probe(field);
    HitsUnique(h.prog, h.trail, field, x, y);
    a := Container(x, xr, Enters(x, xr, f.grouped, depth, f.limit));
    b := Container(y, yr, Enters(y, yr, f.grouped, depth, f.limit));
    depth' := depth;
    if a.entered {
      h.CommitDescent();
      depth' := depth + 1;
    }
    if b.entered {
      f.CommitDescent();
    }
  }
}
