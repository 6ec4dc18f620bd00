/** The fixed walk's own lanes, layers, open groups and pending pairs, at the
    capacities its rules and depth limit derive (src/fixed_inplace/grouped.rs). */
module Lanes {
  import opened Varints
  import opened Wire
  import opened Scanning
  import opened Writes
  import opened Paths
  import opened InPlace
  import opened Judgment
  import opened Machine
  import Capacity
  import Layers

  /** `Caps::derive`, the lanes the walk pushes unchecked. */
  datatype Caps = Caps(layers: nat, opens: nat, pending: nat)

  predicate AnyRenumber(rules: Rules) {
    exists r :: 0 <= r < |rules| && rules[r].action.Renumber?
  }

  function LayerCap(rules: Rules, limit: nat): nat
    requires Layers.Admitted(ProgramOf(rules))
  {
    Capacity.DepthFactor(Capacity.WholeCensus(ProgramOf(rules)), limit)
  }

  function Derived(rules: Rules, limit: nat): Caps
    requires Layers.Admitted(ProgramOf(rules))
  {
    Caps(LayerCap(rules, limit), limit, if AnyRenumber(rules) then limit else 0)
  }

  // ─── what every turn keeps ───

  /** One depth account: what a layer has left and what lies around it. */
  predicate Spent(limit: nat, layers: seq<Layer>) {
    && layers != [] && layers[0].remaining == limit
    && forall i :: 0 <= i < |layers| - 1 ==> layers[i].remaining == layers[i + 1].remaining + layers[i].groupDepth + 1
  }

  predicate ByRule(rules: Rules, pair: Pair) {
    pair.rule < |rules| && rules[pair.rule].action == Renumber(pair.field)
  }

  /** Layers lie where some path still continues; an owner keeps the depth its
      group was met with; every pending pair is some rule's renumber. */
  predicate Laned(rules: Rules, limit: nat, st: State)
    requires Layers.Admitted(ProgramOf(rules))
  {
    && Spent(limit, st.layers)
    && (|st.layers| > 1 ==> Depths(st.layers[..|st.layers| - 1]) < LayerCap(rules, limit))
    && (st.owner.Some? ==> st.owner.value.budget + st.Top().groupDepth == st.Top().remaining)
    && forall i :: 0 <= i < |st.pending| ==> ByRule(rules, st.pending[i])
  }

  lemma StartLaned(rules: Rules, limit: nat, bytes: seq<Byte>)
    requires Layers.Admitted(ProgramOf(rules)) && |bytes| <= MAX_LEN
    ensures Laned(rules, limit, Start(limit, bytes))
  {}

  /** Turns within the innermost layer. */
  lemma TopLaned(rules: Rules, limit: nat, st: State, next: State)
    requires Layers.Admitted(ProgramOf(rules)) && Laned(rules, limit, st)
    requires |next.layers| == |st.layers| && next.layers[..|st.layers| - 1] == st.layers[..|st.layers| - 1]
    requires next.Top().remaining == st.Top().remaining
    requires next.owner.Some? ==> next.owner.value.budget + next.Top().groupDepth == next.Top().remaining
    requires forall i :: 0 <= i < |next.pending| ==> ByRule(rules, next.pending[i])
    ensures Laned(rules, limit, next)
  {
    hide LayerCap, Depths, Layers.Admitted, ProgramOf;
    var n := |st.layers| - 1;
    forall i | 0 <= i < n
      ensures next.layers[i].remaining == next.layers[i + 1].remaining + next.layers[i].groupDepth + 1
    {
      assert next.layers[i] == next.layers[..n][i] == st.layers[..n][i] == st.layers[i];
      if i + 1 < n {
        assert next.layers[i + 1] == next.layers[..n][i + 1] == st.layers[..n][i + 1] == st.layers[i + 1];
      }
    }
    if n > 0 {
      assert next.layers[0] == next.layers[..n][0] == st.layers[..n][0] == st.layers[0];
    }
  }

  lemma AdvancedLaned(rules: Rules, limit: nat, depth: nat, st: State, rest: seq<Byte>, writes: seq<Planned>,
                      receipt: Receipt)
    requires Layers.Admitted(ProgramOf(rules)) && Laned(rules, limit, st)
    requires Sound(limit, depth, st) && |rest| < |st.Top().Rest()|
    ensures Laned(rules, limit, Advanced(limit, depth, st, rest).Noted(writes, receipt))
  {
    hide Layers.Admitted, ProgramOf, Left, Depths, LayerCap, Spent;
    var next := Advanced(limit, depth, st, rest).Noted(writes, receipt);
    TopLaned(rules, limit, st, next);
  }

  lemma NotedLaned(rules: Rules, limit: nat, st: State, writes: seq<Planned>, receipt: Receipt)
    requires Layers.Admitted(ProgramOf(rules)) && Laned(rules, limit, st)
    ensures Laned(rules, limit, st.Noted(writes, receipt))
  {
    hide Layers.Admitted, ProgramOf, Depths, LayerCap, Spent;
  }

  lemma EnteredLaned(rules: Rules, limit: nat, depth: nat, st: State, field: Field, rest: seq<Byte>)
    requires Layers.Admitted(ProgramOf(rules)) && Laned(rules, limit, st)
    requires Sound(limit, depth, st) && st.suppress == 0 && |rest| < |st.Top().Rest()|
             && |st.Top().opens| < st.Top().remaining
    ensures Laned(rules, limit, Entered(limit, depth, st, field, rest))
  {
    hide Layers.Admitted, ProgramOf, Left, Depths, LayerCap, Spent;
    TopLaned(rules, limit, st, Entered(limit, depth, st, field, rest));
  }

  /** A pair is pushed by the rule that claims its group. */
  lemma PairLaned(rules: Rules, limit: nat, trail: Word, st: State, entry: Entry, rule: Layers.U16, field: Field)
    requires Layers.Admitted(ProgramOf(rules)) && Laned(rules, limit, st)
    requires Sound(limit, |trail|, st) && st.suppress == 0 && st.Top().groupDepth < st.Top().remaining
    requires entry.Enter? && |entry.rest| < |st.Top().Rest()|
             && ClaimAt(rules, trail + [entry.field]) == By(rule, Renumber(field))
    ensures Laned(rules, limit, PairEntered(limit, |trail|, st, entry, rule, field))
  {
    hide Layers.Admitted, ProgramOf, Left, Depths, LayerCap, Spent, Verdict, PairEntered;
    VerdictInside(rules, trail + [entry.field]);
    var next := PairEntered(limit, |trail|, st, entry, rule, field);
    assert ByRule(rules, PairOf(st, entry, rule, field));
    TopLaned(rules, limit, st, next);
  }

  lemma SkippingLaned(rules: Rules, limit: nat, depth: nat, st: State, field: Field, rest: seq<Byte>, owner: Owner)
    requires Layers.Admitted(ProgramOf(rules)) && Laned(rules, limit, st)
    requires Sound(limit, depth, st) && |rest| < |st.Top().Rest()| && |st.Top().opens| < st.Top().remaining
    requires (owner.action.ReplaceRecord? || owner.action.Tombstone?) && st.Top().base <= owner.head <= st.Top().At()
    requires if st.suppress > 0 then owner == st.owner.value
             else owner.budget + st.Top().groupDepth == st.Top().remaining
    ensures Laned(rules, limit, Skipping(limit, depth, st, field, rest, owner))
  {
    hide Layers.Admitted, ProgramOf, Left, Depths, LayerCap, Spent;
    TopLaned(rules, limit, st, Skipping(limit, depth, st, field, rest, owner));
  }

  lemma ClosedLaned(minimal: bool, rules: Rules, limit: nat, depth: nat, st: State, width: nat, rest: seq<Byte>)
    requires Layers.Admitted(ProgramOf(rules)) && Laned(rules, limit, st)
    requires Sound(limit, depth, st) && st.suppress == 0 && st.Top().opens != []
    requires 1 <= width <= 5 && |rest| + width <= |st.Top().Rest()|
    ensures var closed := Close(minimal, limit, depth, st, width, rest);
            closed.Allowed? ==> Laned(rules, limit, closed.value)
  {
    hide Layers.Admitted, ProgramOf, Left, Depths, LayerCap, Spent, EncodedLen, ByRule;
    var closed := Close(minimal, limit, depth, st, width, rest);
    if closed.Allowed? {
      TopLaned(rules, limit, st, closed.value);
    }
  }

  lemma SkipClosedLaned(minimal: bool, rules: Rules, limit: nat, depth: nat, st: State, rest: seq<Byte>)
    requires Layers.Admitted(ProgramOf(rules)) && Laned(rules, limit, st)
    requires Sound(limit, depth, st) && st.suppress > 0 && |rest| < |st.Top().Rest()|
    ensures var closed := CloseSkipped(minimal, limit, depth, st, rest);
            closed.Allowed? ==> Laned(rules, limit, closed.value)
  {
    hide Layers.Admitted, ProgramOf, Left, Depths, LayerCap, Spent, ClaimExtent, ByRule;
    var closed := CloseSkipped(minimal, limit, depth, st, rest);
    if closed.Allowed? {
      TopLaned(rules, limit, st, closed.value);
    }
  }

  lemma PoppedLaned(rules: Rules, limit: nat, depth: nat, st: State)
    requires Layers.Admitted(ProgramOf(rules)) && Laned(rules, limit, st)
    requires Sound(limit, depth, st) && st.suppress == 0 && st.Top().opens == [] && |st.layers| > 1
    ensures Laned(rules, limit, Popped(limit, depth, st))
  {
    hide LayerCap, Layers.Admitted, ProgramOf, Left;
    var n := |st.layers| - 1;
    assert st.layers[..n][..n - 1] == st.layers[..n - 1];
  }

  /** Into a payload: a routed word is one some state is staged at. */
  lemma DescendedLaned(rules: Rules, limit: nat, trail: Word, field: Field, st: State, payload: seq<Byte>,
                       rest: seq<Byte>)
    requires Layers.Admitted(ProgramOf(rules)) && Laned(rules, limit, st)
    requires Sound(limit, |trail|, st) && st.suppress == 0 && st.Top().groupDepth < st.Top().remaining
    requires |payload| + |rest| < |st.Top().Rest()| && Routes(rules, trail + [field])
    ensures Laned(rules, limit, Descended(limit, |trail|, st, payload, rest))
  {
    hide LayerCap, Layers.Admitted, ProgramOf, Left, Depths, Routes, Advanced, Spent;
    var around := Advanced(limit, |trail|, st, rest);
    var next := Descended(limit, |trail|, st, payload, rest);
    assert around.layers[..|st.layers| - 1] == st.layers[..|st.layers| - 1];
    TopLaned(rules, limit, st, around);
    DescentStands(limit, |trail|, st);
    RoutedWithin(rules, limit, trail, field);
    SpentPushed(limit, around.layers, next.Top());
    assert next.layers == around.layers + [next.Top()];
  }

  lemma SpentPushed(limit: nat, layers: seq<Layer>, inner: Layer)
    requires Spent(limit, layers)
    requires layers[|layers| - 1].remaining == inner.remaining + layers[|layers| - 1].groupDepth + 1
    ensures Spent(limit, layers + [inner])
  {}

  /** The depth entered is what the account shows spent. */
  lemma DescentStands(limit: nat, depth: nat, st: State)
    requires Sound(limit, depth, st) && Spent(limit, st.layers)
    ensures depth + st.Top().remaining == limit + st.Top().groupDepth
    ensures depth <= limit
  {
    hide Left;
    SpentAt(limit, st.layers, |st.layers| - 1);
  }

  lemma {:induction false} SpentAt(limit: nat, layers: seq<Layer>, k: nat)
    requires Spent(limit, layers) && k < |layers|
    ensures layers[k].remaining + Depths(layers[..k]) == limit
  {
    if k > 0 {
      SpentAt(limit, layers, k - 1);
      assert layers[..k][..k - 1] == layers[..k - 1];
    }
  }

  lemma RoutedWithin(rules: Rules, limit: nat, trail: Word, field: Field)
    requires Layers.Admitted(ProgramOf(rules)) && Routes(rules, trail + [field]) && |trail| + 1 <= limit
    ensures |trail| + 1 < LayerCap(rules, limit)
  {
    hide Layers.LayerAt, Layers.States, Layers.Probed, Capacity.LeanAt, Capacity.CensusOf, Layers.Canonical;
    var prog := ProgramOf(rules);
    assert (trail + [field])[..|trail|] == trail;
    Capacity.LeanStagesSame(prog, trail, field);
    Capacity.RoutedDeeper(prog, trail, field);
    if Capacity.WholeCensus(prog).wilds == [] {
      Capacity.RigidLayersEnd(prog, trail + [field]);
    }
  }

  // ─── so nothing is pushed past its lane ───

  /** The groups open in every layer, walked or skipped. */
  function Opens(layers: seq<Layer>): nat {
    if layers == [] then 0 else Opens(layers[..|layers| - 1]) + |layers[|layers| - 1].opens|
  }

  /** The groups the matcher entered. */
  function Groups(layers: seq<Layer>): nat {
    if layers == [] then 0 else Groups(layers[..|layers| - 1]) + layers[|layers| - 1].groupDepth
  }

  lemma {:induction false} GroupsOfDepths(layers: seq<Layer>)
    ensures Groups(layers) + |layers| == Depths(layers)
  {
    if layers != [] {
      GroupsOfDepths(layers[..|layers| - 1]);
    }
  }

  lemma {:induction false} OpensAreGroups(layers: seq<Layer>)
    requires forall i :: 0 <= i < |layers| ==> layers[i].groupDepth == |layers[i].opens|
    ensures Opens(layers) == Groups(layers)
  {
    if layers != [] {
      OpensAreGroups(layers[..|layers| - 1]);
    }
  }

  /** Where a pair's group stands among the groups entered, outermost first. */
  function Rank(layers: seq<Layer>, pair: Pair): nat
    requires 1 <= pair.layer <= |layers|
  {
    Groups(layers[..pair.layer - 1]) + pair.depth
  }

  lemma {:induction false} GroupsGrow(layers: seq<Layer>, i: nat, j: nat)
    requires i < j <= |layers|
    ensures Groups(layers[..i]) + layers[i].groupDepth <= Groups(layers[..j])
    decreases j
  {
    assert layers[..j][..j - 1] == layers[..j - 1];
    if i < j - 1 {
      GroupsGrow(layers, i, j - 1);
    }
  }

  /** Pairs in nesting order stand at rising groups. */
  lemma {:induction false} PairsRanked(st: State, i: nat)
    requires Keyed(st) && i < |st.pending|
    ensures i < Rank(st.layers, st.pending[i]) <= Groups(st.layers)
  {
    hide Groups;
    var pair := st.pending[i];
    GroupsGrow(st.layers, pair.layer - 1, |st.layers|);
    assert st.layers[..|st.layers|] == st.layers;
    if i > 0 {
      PairsRanked(st, i - 1);
      var before := st.pending[i - 1];
      assert Outside(before, pair);
      if before.layer < pair.layer {
        GroupsGrow(st.layers, before.layer - 1, pair.layer - 1);
      }
    }
  }

  /** No more pairs wait than groups are entered. */
  lemma PairsFit(st: State)
    requires Keyed(st)
    ensures |st.pending| <= Groups(st.layers)
  {
    if st.pending != [] {
      PairsRanked(st, |st.pending| - 1);
    }
  }

  /** Every state of a walk, and the next push it could make: each lane's slot
      is inside the capacity derived for it. */
  lemma LanesFit(rules: Rules, limit: nat, trail: Word, st: State, field: Field)
    requires Layers.Admitted(ProgramOf(rules)) && Laned(rules, limit, st) && Sound(limit, |trail|, st) && Keyed(st)
    ensures var caps, top := Derived(rules, limit), st.Top();
            && |trail| <= limit && |st.layers| <= caps.layers && Opens(st.layers) <= caps.opens
            && |st.pending| <= caps.pending
            && (|top.opens| < limit ==> Opens(st.layers) < caps.opens)
            && (st.suppress == 0 ==> Opens(st.layers) + (top.remaining - top.groupDepth) <= caps.opens)
            && (st.suppress > 0 ==> Opens(st.layers) - st.suppress + st.owner.value.budget <= caps.opens)
            && (st.suppress == 0 && top.groupDepth < top.remaining ==>
                  && |trail| < limit && (AnyRenumber(rules) ==> |st.pending| < caps.pending)
                  && (Routes(rules, trail + [field]) ==> |st.layers| < caps.layers))
  {
    hide LayerCap, Layers.Admitted, ProgramOf, Left, Routes, Keyed;
    var n := |st.layers| - 1;
    var outer := st.layers[..n];
    DescentStands(limit, |trail|, st);
    SpentAt(limit, st.layers, n);
    OpensAreGroups(outer);
    GroupsOfDepths(outer);
    GroupsOfDepths(st.layers);
    PairsFit(st);
    RootFits(rules, limit);
    if st.pending != [] {
      assert ByRule(rules, st.pending[0]);
    }
    if Routes(rules, trail + [field]) && st.suppress == 0 && st.Top().groupDepth < st.Top().remaining {
      RoutedWithin(rules, limit, trail, field);
    }
  }

  lemma RootFits(rules: Rules, limit: nat)
    requires Layers.Admitted(ProgramOf(rules))
    ensures LayerCap(rules, limit) >= 1
  {
    hide Capacity.WholeCensus;
  }

  // ─── and no capacity is more than some state takes ───

  /** `n` groups open in the document, each renumbered by `rule` if there is one. */
  function Nested(limit: nat, n: nat, pairs: seq<Pair>): State
    requires n <= limit
  {
    State([Layer([], 0, seq(n, _ => 1), 0, limit, n)], pairs, 0, None, [], NOTHING_DONE)
  }

  function Pairs(rule: Layers.U16, field: Field, n: nat): seq<Pair> {
    seq(n, i requires 0 <= i < n => Pair(1, i + 1, rule, 0, 1, field))
  }

  /** `n` payloads entered one inside the other. */
  function Stacked(limit: nat, n: nat): seq<Layer>
    requires n <= limit + 1
  {
    seq(n, i requires 0 <= i < n => Layer([], 0, [], 0, limit - i, 0))
  }

  lemma {:induction false} StackedDepth(limit: nat, n: nat)
    requires n <= limit + 1
    ensures Depths(Stacked(limit, n)) == n
  {
    if n > 0 {
      StackedDepth(limit, n - 1);
      assert Stacked(limit, n)[..n - 1] == Stacked(limit, n - 1);
    }
  }

  /** Every lane's capacity is taken whole by some state a walk's invariant admits. */
  lemma CapsAreTaken(rules: Rules, limit: nat) returns (groups: State, payloads: State)
    requires Layers.Admitted(ProgramOf(rules))
    ensures Sound(limit, limit, groups) && Keyed(groups) && Laned(rules, limit, groups)
    ensures Opens(groups.layers) == Derived(rules, limit).opens && |groups.pending| == Derived(rules, limit).pending
    ensures |payloads.layers| == Derived(rules, limit).layers
    ensures Sound(limit, |payloads.layers| - 1, payloads) && Keyed(payloads) && Laned(rules, limit, payloads)
  {
    hide LayerCap, Layers.Admitted, ProgramOf, Sound, Keyed, Laned, Opens, Nested, Pairs, Stacked;
    var pairs: seq<Pair> := [];
    if r :| 0 <= r < |rules| && rules[r].action.Renumber? {
      pairs := Pairs(r, rules[r].action.field, limit);
      PairsKeyed(rules, limit, r, rules[r].action.field);
    } else {
      NoPairs(rules, limit);
    }
    groups := Nested(limit, limit, pairs);
    GroupsTake(rules, limit, pairs);
    payloads := PayloadsTake(rules, limit);
  }

  predicate PairsStand(rules: Rules, limit: nat, pairs: seq<Pair>) {
    && (forall i :: 0 <= i < |pairs| ==> pairs[i].layer == 1 && pairs[i].depth == i + 1 && ByRule(rules, pairs[i]))
    && |pairs| <= limit
  }

  lemma PairsKeyed(rules: Rules, limit: nat, rule: Layers.U16, field: Field)
    requires rule < |rules| && rules[rule].action == Renumber(field)
    ensures PairsStand(rules, limit, Pairs(rule, field, limit)) && |Pairs(rule, field, limit)| == limit
  {}

  lemma NoPairs(rules: Rules, limit: nat)
    ensures PairsStand(rules, limit, [])
  {}

  lemma GroupsTake(rules: Rules, limit: nat, pairs: seq<Pair>)
    requires Layers.Admitted(ProgramOf(rules)) && PairsStand(rules, limit, pairs)
    ensures var groups := Nested(limit, limit, pairs);
            && Sound(limit, limit, groups) && Keyed(groups) && Laned(rules, limit, groups)
            && Opens(groups.layers) == limit && groups.pending == pairs
  {
    hide LayerCap, Layers.Admitted, ProgramOf, ByRule;
    var layers := Nested(limit, limit, pairs).layers;
    assert layers[..0] == [];
    assert Depths(layers) == Depths(layers[..0]) + limit + 1;
    assert Opens(layers) == Opens(layers[..0]) + limit;
  }

  lemma PayloadsTake(rules: Rules, limit: nat) returns (payloads: State)
    requires Layers.Admitted(ProgramOf(rules))
    ensures |payloads.layers| == LayerCap(rules, limit) >= 1
    ensures Sound(limit, |payloads.layers| - 1, payloads) && Keyed(payloads) && Laned(rules, limit, payloads)
  {
    hide LayerCap, Layers.Admitted, ProgramOf, Depths;
    LayersWithin(rules, limit);
    var n := LayerCap(rules, limit);
    payloads := State(Stacked(limit, n), [], 0, None, [], NOTHING_DONE);
    StackedDepth(limit, n);
    StackedDepth(limit, n - 1);
    assert payloads.layers[..n - 1] == Stacked(limit, n - 1);
  }

  lemma LayersWithin(rules: Rules, limit: nat)
    requires Layers.Admitted(ProgramOf(rules))
    ensures 1 <= LayerCap(rules, limit) <= limit + 1
  {
    hide Capacity.WholeCensus;
  }
}
