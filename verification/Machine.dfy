/** The walk's explicit state: a stack of layers, the groups open in each, the
    renumbered groups waiting for their end tags, and the group being skipped
    under its owner (src/inplace/grouped.rs). */
module Machine {
  import opened Sequences
  import opened Varints
  import opened Wire
  import opened Scanning
  import opened Writes
  import opened Paths
  import opened InPlace
  import opened Judgment
  import Layers

  /** One window being read: the document, or a committed LEN payload. */
  datatype Layer = Layer(data: seq<Byte>, pos: nat, opens: seq<Field>, base: nat, remaining: nat, groupDepth: nat)
  {
    predicate Sound(limit: nat) {
      pos <= |data| <= MAX_LEN && groupDepth <= |opens| <= remaining <= limit
    }

    function Rest(): seq<Byte>
      requires pos <= |data|
    {
      data[pos..]
    }

    function At(): nat {
      base + pos
    }

    function Innermost(): Option<Field> {
      if opens == [] then None else Some(opens[|opens| - 1])
    }
  }

  /** A whole group's owner, judged where the group's end is met. */
  datatype Owner = Owner(rule: Layers.U16, action: Action, head: nat, budget: nat)

  /** A renumbered group's start, held back until its end tag is judged. */
  datatype Pair = Pair(layer: nat, depth: nat, rule: Layers.U16, startAt: nat, startWidth: WordWidth, field: Field)

  datatype State = State(layers: seq<Layer>, pending: seq<Pair>, suppress: nat, owner: Option<Owner>,
                         writes: seq<Planned>, receipt: Receipt)
  {
    function Top(): Layer
      requires layers != []
    {
      layers[|layers| - 1]
    }

    function WithTop(top: Layer): State
      requires layers != []
    {
      this.(layers := layers[..|layers| - 1] + [top])
    }

    function Noted(more: seq<Planned>, done: Receipt): State {
      this.(writes := writes + more, receipt := receipt.Plus(done))
    }

    /** The innermost open group is a renumbered one. */
    predicate Paired()
      requires layers != []
    {
      pending != [] && pending[|pending| - 1].layer == |layers| && pending[|pending| - 1].depth == Top().groupDepth
    }
  }

  /** Containers entered: the groups of every layer, and the layers within. */
  function Depths(layers: seq<Layer>): nat {
    if layers == [] then 0 else Depths(layers[..|layers| - 1]) + layers[|layers| - 1].groupDepth + 1
  }

  /** A bound on the turns left: an unread byte may end a record or open a layer
      that must then be left. */
  function Left(layers: seq<Layer>): nat {
    if layers == [] then 0
    else
      var top := layers[|layers| - 1];
      Left(layers[..|layers| - 1]) + (if top.pos <= |top.data| then 2 * (|top.data| - top.pos) else 0) + 1
  }

  /** What every turn keeps, `depth` containers being entered. */
  predicate Sound(limit: nat, depth: nat, st: State) {
    && st.layers != [] && (forall i :: 0 <= i < |st.layers| ==> st.layers[i].Sound(limit))
    && (forall i :: 0 <= i < |st.layers| - 1 ==> st.layers[i].groupDepth == |st.layers[i].opens|)
    && st.Top().groupDepth + st.suppress == |st.Top().opens|
    && depth + 1 == Depths(st.layers)
    && (st.suppress > 0 <==> st.owner.Some?)
    && (st.owner.Some? ==> (st.owner.value.action.ReplaceRecord? || st.owner.value.action.Tombstone?)
                           && st.Top().base <= st.owner.value.head <= st.Top().At())
  }

  // ─── transitions ───

  lemma TopChanged(limit: nat, depth: nat, st: State, top: Layer)
    requires Sound(limit, depth, st) && top.Sound(limit)
    ensures var next := st.WithTop(top);
            && next.Top() == top && |next.layers| == |st.layers|
            && (forall i :: 0 <= i < |next.layers| ==> next.layers[i].Sound(limit))
            && (forall i :: 0 <= i < |next.layers| - 1 ==> next.layers[i] == st.layers[i])
            && Depths(next.layers) + st.Top().groupDepth == Depths(st.layers) + top.groupDepth
            && Left(next.layers) + 2 * (|st.Top().data| - st.Top().pos) == Left(st.layers) + 2 * (|top.data| - top.pos)
  {
    var next := st.WithTop(top);
    assert next.layers[..|next.layers| - 1] == st.layers[..|st.layers| - 1];
  }

  /** Past a record, `rest` being unread. */
  function Advanced(limit: nat, ghost depth: nat, st: State, rest: seq<Byte>): (next: State)
    requires Sound(limit, depth, st) && |rest| < |st.Top().Rest()|
    ensures Sound(limit, depth, next) && Left(next.layers) < Left(st.layers)
    ensures next.Top() == st.Top().(pos := |st.Top().data| - |rest|)
    ensures next == st.(layers := st.layers[..|st.layers| - 1] + [next.Top()]) && |next.layers| == |st.layers|
  {
    var top := st.Top().(pos := |st.Top().data| - |rest|);
    hide Left, Depths;
    TopChanged(limit, depth, st, top);
    st.WithTop(top)
  }

  /** Into a group the matcher enters. */
  function Entered(limit: nat, ghost depth: nat, st: State, field: Field, rest: seq<Byte>): (next: State)
    requires Sound(limit, depth, st) && st.suppress == 0 && |rest| < |st.Top().Rest()|
             && |st.Top().opens| < st.Top().remaining
    ensures Sound(limit, depth + 1, next) && Left(next.layers) < Left(st.layers) && next.suppress == 0
    ensures next == st.(layers := next.layers) && |next.layers| == |st.layers|
    ensures next.Top() == st.Top().(pos := |st.Top().data| - |rest|, opens := st.Top().opens + [field],
                                    groupDepth := st.Top().groupDepth + 1)
  {
    var top := st.Top();
    var deeper := top.(pos := |top.data| - |rest|, opens := top.opens + [field], groupDepth := top.groupDepth + 1);
    hide Left, Depths;
    TopChanged(limit, depth, st, deeper);
    st.WithTop(deeper)
  }

  /** Into a group skipped under its owner, or one nested in it. */
  function Skipping(limit: nat, ghost depth: nat, st: State, field: Field, rest: seq<Byte>, owner: Owner): (next: State)
    requires Sound(limit, depth, st) && |rest| < |st.Top().Rest()| && |st.Top().opens| < st.Top().remaining
    requires (owner.action.ReplaceRecord? || owner.action.Tombstone?) && st.Top().base <= owner.head <= st.Top().At()
    ensures Sound(limit, depth, next) && Left(next.layers) < Left(st.layers) && |next.layers| == |st.layers|
    ensures next == st.(layers := next.layers, suppress := st.suppress + 1, owner := Some(owner))
    ensures next.Top() == st.Top().(pos := |st.Top().data| - |rest|, opens := st.Top().opens + [field])
  {
    var top := st.Top();
    var deeper := top.(pos := |top.data| - |rest|, opens := top.opens + [field]);
    hide Left, Depths;
    TopChanged(limit, depth, st, deeper);
    st.WithTop(deeper).(suppress := st.suppress + 1, owner := Some(owner))
  }

  /** Into a committed LEN payload, its record read past in the layer around. */
  function Descended(limit: nat, ghost depth: nat, st: State, payload: seq<Byte>, rest: seq<Byte>): (next: State)
    requires Sound(limit, depth, st) && st.suppress == 0 && |payload| + |rest| < |st.Top().Rest()|
             && st.Top().groupDepth < st.Top().remaining
    ensures Sound(limit, depth + 1, next) && Left(next.layers) < Left(st.layers) && next.suppress == 0
    ensures |next.layers| > 1 && next.layers[..|next.layers| - 1] == Advanced(limit, depth, st, rest).layers
    ensures next.Top() == Layer(payload, 0, [], st.Top().base + |st.Top().data| - |rest| - |payload|,
                                st.Top().remaining - st.Top().groupDepth - 1, 0)
  {
    var top := st.Top();
    var around := Advanced(limit, depth, st, rest);
    var inner := Layer(payload, 0, [], top.base + |top.data| - |rest| - |payload|, top.remaining - top.groupDepth - 1,
                       0);
    hide Left, Depths;
    TopChanged(limit, depth, st, around.Top());
    LayerPushed(limit, around.layers, inner);
    around.(layers := around.layers + [inner])
  }

  lemma LayerPushed(limit: nat, layers: seq<Layer>, inner: Layer)
    requires inner.Sound(limit)
    ensures var more := layers + [inner];
            && more[..|layers|] == layers && more[|layers|] == inner
            && Depths(more) == Depths(layers) + inner.groupDepth + 1
            && Left(more) == Left(layers) + 2 * (|inner.data| - inner.pos) + 1
  {
    assert (layers + [inner])[..|layers|] == layers;
  }

  /** Out of an exhausted layer. */
  function Popped(limit: nat, ghost depth: nat, st: State): (next: State)
    requires Sound(limit, depth, st) && st.suppress == 0 && st.Top().opens == [] && |st.layers| > 1
    ensures depth > 0 && Sound(limit, depth - 1, next) && Left(next.layers) < Left(st.layers) && next.suppress == 0
  {
    assert Depths(st.layers) == Depths(st.layers[..|st.layers| - 1]) + 1;
    st.(layers := st.layers[..|st.layers| - 1])
  }

  /** Out of a group the matcher entered. */
  function Exited(limit: nat, ghost depth: nat, st: State, rest: seq<Byte>): (next: State)
    requires Sound(limit, depth, st) && st.suppress == 0 && st.Top().opens != [] && |rest| < |st.Top().Rest()|
    ensures depth > 0 && Sound(limit, depth - 1, next) && Left(next.layers) < Left(st.layers) && next.suppress == 0
  {
    var top := st.Top();
    var outer := top.(pos := |top.data| - |rest|, opens := top.opens[..|top.opens| - 1],
                      groupDepth := top.groupDepth - 1);
    hide Left, Depths;
    TopChanged(limit, depth, st, outer);
    st.WithTop(outer)
  }

  /** Out of one group of a skipped extent; `owner` is None outside all of it. */
  function Skipped(limit: nat, ghost depth: nat, st: State, rest: seq<Byte>): (next: State)
    requires Sound(limit, depth, st) && st.suppress > 0 && |rest| < |st.Top().Rest()|
    ensures Sound(limit, depth, next) && Left(next.layers) < Left(st.layers) && next.suppress == st.suppress - 1
  {
    var top := st.Top();
    var outer := top.(pos := |top.data| - |rest|, opens := top.opens[..|top.opens| - 1]);
    hide Left, Depths;
    TopChanged(limit, depth, st, outer);
    st.WithTop(outer).(suppress := st.suppress - 1, owner := if st.suppress == 1 then None else st.owner)
  }

  // ─── the two judgments an end tag brings ───

  /** A group's end: a renumbered one is judged at the width its end tag was read with, and
      only then do its two tags land. */
  function Close(minimal: bool, limit: nat, ghost depth: nat, st: State, width: nat,
                 rest: seq<Byte>): (r: Judged<State>)
    requires Sound(limit, depth, st) && st.suppress == 0 && st.Top().opens != []
    requires 1 <= width <= 5 && |rest| + width <= |st.Top().Rest()|
    ensures r.Allowed? ==> depth > 0 && Sound(limit, depth - 1, r.value) && r.value.suppress == 0
    ensures r.Allowed? ==> Left(r.value.layers) < Left(st.layers)
  {
    var next := Exited(limit, depth, st, rest);
    if !st.Paired() then Allowed(next)
    else
      var pair := st.pending[|st.pending| - 1];
      var end := st.Top().base + |st.Top().data| - |rest| - width;
      var word := TagWord(pair.field, END_CODE);
      if !WidthFits(minimal, EncodedLen(word), width) then
        Refused(Fault(end, BadTagWidth(pair.rule, EncodedLen(word), width)))
      else
        var tags := [TagAt(pair.startAt, pair.startWidth, TagWord(pair.field, GROUP_CODE))] + [TagAt(end, width, word)];
        Allowed(next.(pending := st.pending[..|st.pending| - 1]).Noted(tags, NOTHING_DONE.(renumbered := 1)))
  }

  /** A skipped group's end: the outermost one's brings the owner's judgment. */
  function CloseSkipped(minimal: bool, limit: nat, ghost depth: nat, st: State, rest: seq<Byte>): (r: Judged<State>)
    requires Sound(limit, depth, st) && st.suppress > 0 && |rest| < |st.Top().Rest()|
    ensures r.Allowed? ==> Sound(limit, depth, r.value) && Left(r.value.layers) < Left(st.layers)
  {
    var next := Skipped(limit, depth, st, rest);
    if st.suppress > 1 then Allowed(next)
    else
      var owner := st.owner.value;
      var have := st.Top().base + |st.Top().data| - |rest| - owner.head;
      match ClaimExtent(minimal, owner.rule, owner.action, owner.budget, owner.head, have)
      case Refused(fault) => Refused(fault)
      case Allowed(w) => Allowed(next.Noted([w], Counted(owner.action)))
  }

  // ─── what is left to judge ───

  /** The judgment of everything unread, what was planned so far included. */
  ghost function Remaining(minimal: bool, rules: Rules, limit: nat, trail: Word, st: State): Flow
    requires Layers.Admitted(ProgramOf(rules)) && Sound(limit, |trail|, st)
    decreases Left(st.layers), 1
  {
    var top := st.Top();
    if st.suppress > 0 then
      match SkimBody(minimal, NO_ROUTE, [], top.remaining - |top.opens|, top.Innermost(), top.Rest(), top.At())
      case Broken(p, breach) => Stopped(Fault(p, Wire(breach)))
      case Got(body) => AfterSkip(minimal, rules, limit, trail, st, body.rest)
    else
      After(minimal, rules, limit, trail, st,
            JudgeFlow(minimal, rules, limit, trail, top.remaining - top.groupDepth, limit - |top.opens|,
                      top.Innermost(), top.Rest(), top.At()))
  }

  /** From the end of a skipped group. */
  ghost function AfterSkip(minimal: bool, rules: Rules, limit: nat, trail: Word, st: State, rest: seq<Byte>): Flow
    requires Layers.Admitted(ProgramOf(rules)) && Sound(limit, |trail|, st) && st.suppress > 0
             && |rest| < |st.Top().Rest()|
    decreases Left(st.layers), 0
  {
    match CloseSkipped(minimal, limit, |trail|, st, rest)
    case Refused(fault) => Stopped(fault)
    case Allowed(next) => Remaining(minimal, rules, limit, trail, next)
  }

  /** The innermost body's judgment fits the layer it was read in. */
  predicate Fits(st: State, flow: Flow)
    requires st.layers != [] && st.Top().pos <= |st.Top().data|
  {
    flow.Flowed? ==> |flow.rest| <= |st.Top().Rest()|
                     && (st.Top().opens != []
                         ==> 1 <= flow.endWidth <= 5 && |flow.rest| + flow.endWidth <= |st.Top().Rest()|)
  }

  /** From the end of the innermost body: out of its group or its layer. */
  ghost function After(minimal: bool, rules: Rules, limit: nat, trail: Word, st: State, flow: Flow): Flow
    requires Layers.Admitted(ProgramOf(rules)) && Sound(limit, |trail|, st) && st.suppress == 0 && Fits(st, flow)
    decreases Left(st.layers), 0
  {
    if flow.Stopped? then flow
    else
      var noted := st.Noted(flow.writes, flow.receipt);
      if st.Top().opens != [] then
        match Close(minimal, limit, |trail|, noted, flow.endWidth, flow.rest)
        case Refused(fault) => Stopped(fault)
        case Allowed(next) => Remaining(minimal, rules, limit, trail[..|trail| - 1], next)
      else if |st.layers| == 1 then Flowed(noted.writes, noted.receipt, 0, [])
      else
        var next := Popped(limit, |trail|, noted);
        Remaining(minimal, rules, limit, trail[..|trail| - 1], next)
  }

  // ─── one turn ───

  /** The head the cursor delivers next, under the walk's own matching. */
  function Next(minimal: bool, limit: nat, st: State): Scan<Entry>
    requires st.layers != [] && st.Top().Sound(limit) && st.Top().Rest() != []
  {
    NextEntry(minimal, st.Top().Innermost(), limit - |st.Top().opens|, st.Top().Rest(), st.Top().At())
  }

  /** A judged stretch and the rest of its body are one judgment of the body. */
  lemma AfterAbsorbs(minimal: bool, rules: Rules, limit: nat, trail: Word, st: State, first: Flow, more: Flow)
    requires Layers.Admitted(ProgramOf(rules)) && Sound(limit, |trail|, st) && st.suppress == 0
    requires first.Flowed? && |first.rest| < |st.Top().Rest()|
    requires Fits(Advanced(limit, |trail|, st, first.rest), more)
    ensures Fits(st, first.Then(more))
            && After(minimal, rules, limit, trail, st, first.Then(more))
               == After(minimal, rules, limit, trail,
                        Advanced(limit, |trail|, st, first.rest).Noted(first.writes, first.receipt), more)
  {
    hide Remaining, Layers.Admitted, ProgramOf, Sound, EncodedLen, Left, Exited, Popped, Advanced, Close;
    if more.Flowed? {
      Associative(st.writes, first.writes, more.writes);
      var adv := Advanced(limit, |trail|, st, first.rest);
      assert adv.Noted(first.writes, first.receipt).Noted(more.writes, more.receipt)
          == adv.Noted(first.writes + more.writes, first.receipt.Plus(more.receipt));
      PlaceIsForgotten(minimal, limit, |trail|, st, first.rest, first.writes + more.writes,
                       first.receipt.Plus(more.receipt), more.endWidth, more.rest);
    }
  }

  /** Leaving a body, its own reading place no longer counts. */
  lemma PlaceIsForgotten(minimal: bool, limit: nat, depth: nat, st: State, between: seq<Byte>, writes: seq<Planned>,
                         receipt: Receipt,
                         width: nat, rest: seq<Byte>)
    requires Sound(limit, depth, st) && st.suppress == 0 && |between| < |st.Top().Rest()|
    ensures var a, b := st.Noted(writes, receipt), Advanced(limit, depth, st, between).Noted(writes, receipt);
            && Sound(limit, depth, a) && Sound(limit, depth, b)
            && (st.Top().opens == [] && |st.layers| > 1 ==> Popped(limit, depth, a) == Popped(limit, depth, b))
            && (st.Top().opens != [] && 1 <= width <= 5 && |rest| + width <= |between| ==>
                  Close(minimal, limit, depth, a, width, rest) == Close(minimal, limit, depth, b, width, rest))
  {
    hide EncodedLen, Left, Depths;
    var n := |st.layers| - 1;
    assert Advanced(limit, depth, st, between).layers[..n] == st.layers[..n];
  }

  /** The innermost body's judgment, where nothing is being skipped. */
  function Here(minimal: bool, rules: Rules, limit: nat, trail: Word, st: State): (flow: Flow)
    requires Layers.Admitted(ProgramOf(rules)) && Sound(limit, |trail|, st)
    ensures Fits(st, flow)
  {
    hide JudgeFlow;
    var top := st.Top();
    JudgeFlow(minimal, rules, limit, trail, top.remaining - top.groupDepth, limit - |top.opens|, top.Innermost(),
              top.Rest(), top.At())
  }

  lemma RemainingHere(minimal: bool, rules: Rules, limit: nat, trail: Word, st: State)
    requires Layers.Admitted(ProgramOf(rules)) && Sound(limit, |trail|, st) && st.suppress == 0
    ensures var flow := Here(minimal, rules, limit, trail, st);
            && Remaining(minimal, rules, limit, trail, st) == After(minimal, rules, limit, trail, st, flow)
            && (flow.Stopped? ==> Remaining(minimal, rules, limit, trail, st) == flow)
  {
    hide JudgeFlow, SkimBody, Close, CloseSkipped, Popped, Layers.Admitted, ProgramOf;
  }

  lemma HereAdvanced(minimal: bool, rules: Rules, limit: nat, trail: Word, st: State, rest: seq<Byte>,
                     writes: seq<Planned>, receipt: Receipt)
    requires Layers.Admitted(ProgramOf(rules)) && Sound(limit, |trail|, st)
    requires |rest| < |st.Top().Rest()| && Ends(rest, st.Top().Rest())
    ensures Here(minimal, rules, limit, trail, Advanced(limit, |trail|, st, rest).Noted(writes, receipt))
         == JudgeFlow(minimal, rules, limit, trail, st.Top().remaining - st.Top().groupDepth, limit - |st.Top().opens|,
                      st.Top().Innermost(), rest, st.Top().At() + |st.Top().Rest()| - |rest|)
  {
    hide JudgeFlow, Layers.Admitted, ProgramOf;
    assert Advanced(limit, |trail|, st, rest).Top().Rest() == rest;
  }

  /** A head's flow, as the layer's own budget and matching have it. */
  function HeadFlow(minimal: bool, rules: Rules, limit: nat, trail: Word, st: State, entry: Entry): (first: Flow)
    requires Layers.Admitted(ProgramOf(rules)) && Sound(limit, |trail|, st) && st.suppress == 0
    requires entry.Delivered(|st.Top().Rest()|, limit - |st.Top().opens|)
    ensures first.Flowed? ==> |first.rest| < |st.Top().Rest()|
  {
    hide FlowEntry, Entry.Delivered;
    var top := st.Top();
    FlowEntry(minimal, rules, limit, trail, top.remaining - top.groupDepth, limit - |top.opens|, entry, |top.Rest()|,
              top.At())
  }

  lemma HeadEnds(minimal: bool, rules: Rules, limit: nat, trail: Word, st: State, entry: Entry)
    requires Layers.Admitted(ProgramOf(rules)) && Sound(limit, |trail|, st) && st.suppress == 0 && st.Top().Rest() != []
    requires Next(minimal, limit, st) == Got(entry) && entry.Delivered(|st.Top().Rest()|, limit - |st.Top().opens|)
    ensures HeadFlow(minimal, rules, limit, trail, st, entry).Flowed?
            ==> Ends(HeadFlow(minimal, rules, limit, trail, st, entry).rest, st.Top().Rest())
  {
    hide NextEntry, FlowEntry, Layers.Admitted, ProgramOf, Entry.Delivered, Ends;
    var top := st.Top();
    if HeadFlow(minimal, rules, limit, trail, st, entry).Flowed? {
      EntryFlowEnds(minimal, rules, limit, trail, top.remaining - top.groupDepth, limit - |top.opens|, entry,
                    |top.Rest()|, top.At());
      NextEnds(minimal, top.Innermost(), limit - |top.opens|, top.Rest(), top.At());
      EndsThrough(HeadFlow(minimal, rules, limit, trail, st, entry).rest, entry.rest, top.Rest());
    }
  }

  /** A delivered head: refused, or past it with what it planned. */
  lemma HeadTaken(minimal: bool, rules: Rules, limit: nat, trail: Word, st: State, entry: Entry)
    requires Layers.Admitted(ProgramOf(rules)) && Sound(limit, |trail|, st) && st.suppress == 0 && st.Top().Rest() != []
    requires Next(minimal, limit, st) == Got(entry) && entry.Delivered(|st.Top().Rest()|, limit - |st.Top().opens|)
    ensures var first := HeadFlow(minimal, rules, limit, trail, st, entry);
            Remaining(minimal, rules, limit, trail, st)
            == if first.Stopped? then first
               else Remaining(minimal, rules, limit, trail,
                              Advanced(limit, |trail|, st, first.rest).Noted(first.writes, first.receipt))
  {
    hide NextEntry, FlowEntry, JudgeFlow, Remaining, After, Layers.Admitted, ProgramOf, Entry.Delivered, Advanced, Left;
    RemainingHere(minimal, rules, limit, trail, st);
    HereSteps(minimal, rules, limit, trail, st, entry);
    var first := HeadFlow(minimal, rules, limit, trail, st, entry);
    if first.Flowed? {
      var next := Advanced(limit, |trail|, st, first.rest).Noted(first.writes, first.receipt);
      RemainingHere(minimal, rules, limit, trail, next);
      AfterAbsorbs(minimal, rules, limit, trail, st, first, Here(minimal, rules, limit, trail, next));
    }
  }

  /** The body's judgment opens with its first head's. */
  lemma HereSteps(minimal: bool, rules: Rules, limit: nat, trail: Word, st: State, entry: Entry)
    requires Layers.Admitted(ProgramOf(rules)) && Sound(limit, |trail|, st) && st.suppress == 0 && st.Top().Rest() != []
    requires Next(minimal, limit, st) == Got(entry) && entry.Delivered(|st.Top().Rest()|, limit - |st.Top().opens|)
    ensures var flow, first := Here(minimal, rules, limit, trail, st),
                               HeadFlow(minimal, rules, limit, trail, st, entry);
            if first.Stopped? then flow == first
            else
              var more := Here(minimal, rules, limit, trail,
                               Advanced(limit, |trail|, st, first.rest).Noted(first.writes, first.receipt));
              Fits(Advanced(limit, |trail|, st, first.rest), more) && flow == first.Then(more)
  {
    hide NextEntry, FlowEntry, JudgeFlow, Layers.Admitted, ProgramOf, Entry.Delivered, Advanced, Left, Ends,
         Flow.Then, Depths;
    var top := st.Top();
    FlowStep(minimal, rules, limit, trail, top.remaining - top.groupDepth, limit - |top.opens|, top.Innermost(),
             top.Rest(), top.At());
    var first := HeadFlow(minimal, rules, limit, trail, st, entry);
    if first.Flowed? {
      HeadEnds(minimal, rules, limit, trail, st, entry);
      HereAdvanced(minimal, rules, limit, trail, st, first.rest, first.writes, first.receipt);
    }
  }

  // ─── into and out of containers ───

  /** Pending pairs name open renumbered groups, outermost first. */
  predicate Keyed(st: State) {
    && (forall i :: 0 <= i < |st.pending| ==>
          && 1 <= st.pending[i].layer <= |st.layers|
          && 1 <= st.pending[i].depth <= st.layers[st.pending[i].layer - 1].groupDepth)
    && (forall i, j :: 0 <= i < j < |st.pending| ==> Outside(st.pending[i], st.pending[j]))
  }

  predicate Outside(a: Pair, b: Pair) {
    a.layer < b.layer || (a.layer == b.layer && a.depth < b.depth)
  }

  lemma HereEntered(minimal: bool, rules: Rules, limit: nat, trail: Word, st: State, field: Field, rest: seq<Byte>,
                    pending: seq<Pair>)
    requires Layers.Admitted(ProgramOf(rules)) && Sound(limit, |trail|, st) && st.suppress == 0
    requires |rest| < |st.Top().Rest()| && Ends(rest, st.Top().Rest()) && st.Top().groupDepth < st.Top().remaining
    ensures Here(minimal, rules, limit, trail + [field], Entered(limit, |trail|, st, field, rest).(pending := pending))
         == JudgeFlow(minimal, rules, limit, trail + [field], st.Top().remaining - st.Top().groupDepth - 1,
                      limit - |st.Top().opens| - 1,
                      Some(field), rest, st.Top().At() + |st.Top().Rest()| - |rest|)
  {
    hide JudgeFlow, Layers.Admitted, ProgramOf, Left, Depths;
    assert Entered(limit, |trail|, st, field, rest).Top().Rest() == rest;
  }

  /** Entering a group and leaving it is reading past it. */
  lemma InAndOut(limit: nat, depth: nat, st: State, field: Field, rest: seq<Byte>, after: seq<Byte>,
                 writes: seq<Planned>, receipt: Receipt,
                 pending: seq<Pair>)
    requires Sound(limit, depth, st) && st.suppress == 0 && st.Top().groupDepth < st.Top().remaining
    requires |after| < |rest| < |st.Top().Rest()|
    ensures var inside := Entered(limit, depth, st, field, rest).(pending := pending).Noted(writes, receipt);
            && Sound(limit, depth + 1, inside) && |after| < |inside.Top().Rest()|
            && Exited(limit, depth + 1, inside, after)
              == Advanced(limit, depth, st, after).Noted(writes, receipt).(pending := pending)
            && inside.Top().groupDepth == st.Top().groupDepth + 1 && |inside.layers| == |st.layers|
            && inside.Top().base == st.Top().base && inside.Top().data == st.Top().data
  {
    hide Left, Depths;
    var n := |st.layers| - 1;
    var inside := Entered(limit, depth, st, field, rest);
    assert inside.layers[..n] == st.layers[..n];
    assert (st.Top().opens + [field])[..|st.Top().opens|] == st.Top().opens;
  }

  /** A group nothing claims is its inside's flow. */
  lemma FreeGroupFlow(minimal: bool, rules: Rules, limit: nat, trail: Word, st: State, entry: Entry)
    requires Layers.Admitted(ProgramOf(rules)) && Sound(limit, |trail|, st) && st.suppress == 0
    requires entry.Enter? && entry.Delivered(|st.Top().Rest()|, limit - |st.Top().opens|)
             && Ends(entry.rest, st.Top().Rest())
    requires ClaimAt(rules, trail + [entry.field]).Free?
    ensures HeadFlow(minimal, rules, limit, trail, st, entry)
         == if st.Top().groupDepth == st.Top().remaining then Stopped(Fault(st.Top().At(), Wire(TooDeep)))
            else Here(minimal, rules, limit, trail + [entry.field],
                      Entered(limit, |trail|, st, entry.field, entry.rest)).Closed()
  {
    hide JudgeFlow, FlowEntry, FlowInside, FlowRenumber, FlowOwned, Claimed, Layers.Admitted, ProgramOf, ClaimAt,
         Left, Depths, ItemBytes, Here, Entered, Ends;
    var top := st.Top();
    EntryIs(minimal, rules, limit, trail, top.remaining - top.groupDepth, limit - |top.opens|, entry, |top.Rest()|,
            top.At());
    if top.groupDepth == top.remaining {
      InsideIs(minimal, rules, limit, trail + [entry.field], 0, limit - |top.opens|, entry, |top.Rest()|, top.At());
    } else {
      InsideHere(minimal, rules, limit, trail, st, entry, st.pending);
      var next := Entered(limit, |trail|, st, entry.field, entry.rest);
      assert next.(pending := st.pending) == next;
    }
  }

  lemma GroupTaken(minimal: bool, rules: Rules, limit: nat, trail: Word, st: State, entry: Entry)
    requires Layers.Admitted(ProgramOf(rules)) && Sound(limit, |trail|, st) && st.suppress == 0
             && st.Top().Rest() != [] && Keyed(st)
    requires Next(minimal, limit, st) == Got(entry) && entry.Delivered(|st.Top().Rest()|, limit - |st.Top().opens|)
    requires entry.Enter? && ClaimAt(rules, trail + [entry.field]).Free?
    ensures Remaining(minimal, rules, limit, trail, st)
         == if st.Top().groupDepth == st.Top().remaining then Stopped(Fault(st.Top().At(), Wire(TooDeep)))
            else Remaining(minimal, rules, limit, trail + [entry.field],
                           Entered(limit, |trail|, st, entry.field, entry.rest))
  {
    hide NextEntry, JudgeFlow, Remaining, Layers.Admitted, ProgramOf, ClaimAt, Entered, Exited, Advanced, Left,
         Depths, Ends, HeadFlow, Here,
         Entry.Delivered, FlowEntry, Keyed;
    NextEnds(minimal, st.Top().Innermost(), limit - |st.Top().opens|, st.Top().Rest(), st.Top().At());
    FreeGroupFlow(minimal, rules, limit, trail, st, entry);
    HeadTaken(minimal, rules, limit, trail, st, entry);
    if st.Top().groupDepth < st.Top().remaining {
      var inner := trail + [entry.field];
      var next := Entered(limit, |trail|, st, entry.field, entry.rest);
      RemainingHere(minimal, rules, limit, inner, next);
      var flow := Here(minimal, rules, limit, inner, next);
      if flow.Flowed? {
        InAndOut(limit, |trail|, st, entry.field, entry.rest, flow.rest, flow.writes, flow.receipt, st.pending);
        assert inner[..|inner| - 1] == trail;
        Unpaired(st, next.Noted(flow.writes, flow.receipt));
      }
    }
  }

  /** A group just entered has no pair unless one is pushed for it. */
  lemma Unpaired(st: State, next: State)
    requires Keyed(st) && st.layers != [] && next.layers != [] && next.pending == st.pending
    requires |next.layers| == |st.layers| && next.Top().groupDepth == st.Top().groupDepth + 1
    ensures !next.Paired()
  {}

  function PairOf(st: State, entry: Entry, rule: Layers.U16, field: Field): Pair
    requires st.layers != [] && entry.Enter?
  {
    Pair(|st.layers|, st.Top().groupDepth + 1, rule, st.Top().At(), entry.width, field)
  }

  /** Into a renumbered group, its pair pushed. */
  function PairEntered(limit: nat, ghost depth: nat, st: State, entry: Entry, rule: Layers.U16,
                       field: Field): (next: State)
    requires Sound(limit, depth, st) && st.suppress == 0 && st.Top().groupDepth < st.Top().remaining
    requires entry.Enter? && |entry.rest| < |st.Top().Rest()|
    ensures Sound(limit, depth + 1, next) && Left(next.layers) < Left(st.layers) && next.suppress == 0
    ensures next == Entered(limit, depth, st, entry.field,
                            entry.rest).(pending := st.pending + [PairOf(st, entry, rule, field)])
  {
    hide Left, Depths, Entered;
    Entered(limit, depth, st, entry.field, entry.rest).(pending := st.pending + [PairOf(st, entry, rule, field)])
  }

  /** A renumbered group's head: judged at its own width, its write held back. */
  lemma GroupRenumbered(minimal: bool, rules: Rules, limit: nat, trail: Word, st: State, entry: Entry,
                        rule: Layers.U16, field: Field)
    requires Layers.Admitted(ProgramOf(rules)) && Sound(limit, |trail|, st) && st.suppress == 0 && st.Top().Rest() != []
    requires Next(minimal, limit, st) == Got(entry) && entry.Delivered(|st.Top().Rest()|, limit - |st.Top().opens|)
    requires entry.Enter? && ClaimAt(rules, trail + [entry.field]) == By(rule, Renumber(field))
    ensures var word := TagWord(field, GROUP_CODE);
            Remaining(minimal, rules, limit, trail, st) ==
            if st.Top().groupDepth == st.Top().remaining then Stopped(Fault(st.Top().At(), Wire(TooDeep)))
            else if !WidthFits(minimal, EncodedLen(word), entry.width)
            then Stopped(Fault(st.Top().At(), BadTagWidth(rule, EncodedLen(word), entry.width)))
            else Remaining(minimal, rules, limit, trail + [entry.field],
                           PairEntered(limit, |trail|, st, entry, rule, field))
  {
    hide NextEntry, JudgeFlow, Remaining, Layers.Admitted, ProgramOf, ClaimAt, Entered, PairEntered, Advanced, Left,
         Depths, Ends, Here, Entry.Delivered, FlowEntry, FlowRenumber, FlowInside, FlowOwned, Claimed, EncodedLen;
    var top := st.Top();
    var inner, budget, room := trail + [entry.field], top.remaining - top.groupDepth, limit - |top.opens|;
    NextEnds(minimal, top.Innermost(), room, top.Rest(), top.At());
    HeadTaken(minimal, rules, limit, trail, st, entry);
    EntryIs(minimal, rules, limit, trail, budget, room, entry, |top.Rest()|, top.At());
    RenumberIs(minimal, rules, limit, inner, budget, room, entry, |top.Rest()|, top.At(), rule, field);
    if top.groupDepth < top.remaining && WidthFits(minimal, EncodedLen(TagWord(field, GROUP_CODE)), entry.width) {
      InsideHere(minimal, rules, limit, trail, st, entry, st.pending + [PairOf(st, entry, rule, field)]);
      PairTaken(minimal, rules, limit, trail, st, entry, rule, field);
    }
  }

  /** A group's inside is its body's flow, the pair being held back or not. */
  lemma InsideHere(minimal: bool, rules: Rules, limit: nat, trail: Word, st: State, entry: Entry, pending: seq<Pair>)
    requires Layers.Admitted(ProgramOf(rules)) && Sound(limit, |trail|, st) && st.suppress == 0
    requires entry.Enter? && entry.Delivered(|st.Top().Rest()|, limit - |st.Top().opens|)
    requires Ends(entry.rest, st.Top().Rest()) && st.Top().groupDepth < st.Top().remaining
    ensures FlowInside(minimal, rules, limit, trail + [entry.field], st.Top().remaining - st.Top().groupDepth,
                       limit - |st.Top().opens|, entry, |st.Top().Rest()|, st.Top().At())
         == Here(minimal, rules, limit, trail + [entry.field],
                 Entered(limit, |trail|, st, entry.field, entry.rest).(pending := pending))
  {
    hide JudgeFlow, Layers.Admitted, ProgramOf, Entered, Left, Depths, Ends, Here, FlowInside;
    var top := st.Top();
    InsideIs(minimal, rules, limit, trail + [entry.field], top.remaining - top.groupDepth, limit - |top.opens|, entry,
             |top.Rest()|, top.At());
    HereEntered(minimal, rules, limit, trail, st, entry.field, entry.rest, pending);
  }

  /** A renumbered group once its inside is judged: its end tag `end` bytes in,
      less what is left, and both tags' writes. */
  function PairFlow(minimal: bool, rule: Layers.U16, field: Field, start: Planned, end: nat, inside: Flow): (flow: Flow)
    requires inside.Flowed? ==> 1 <= inside.endWidth <= 5 && |inside.rest| + inside.endWidth <= end
    ensures flow.Flowed? ==> inside.Flowed? && flow.rest == inside.rest
  {
    hide EncodedLen;
    if inside.Stopped? then inside
    else
      var at, word := end - |inside.rest| - inside.endWidth, TagWord(field, END_CODE);
      if !WidthFits(minimal, EncodedLen(word), inside.endWidth) then
        Stopped(Fault(at, BadTagWidth(rule, EncodedLen(word), inside.endWidth)))
      else
        Flowed(inside.writes + [start] + [TagAt(at, inside.endWidth, word)],
               inside.receipt.Plus(NOTHING_DONE.(renumbered := 1)), 0, inside.rest)
  }

  /** A record's flow, and what is left to judge behind it. */
  ghost function Resumed(minimal: bool, rules: Rules, limit: nat, trail: Word, st: State, flow: Flow): Flow
    requires Layers.Admitted(ProgramOf(rules)) && Sound(limit, |trail|, st)
    requires flow.Flowed? ==> |flow.rest| < |st.Top().Rest()|
  {
    hide Remaining, Layers.Admitted, ProgramOf, Left, Depths;
    if flow.Stopped? then flow
    else
      Remaining(minimal, rules, limit, trail,
                Advanced(limit, |trail|, st, flow.rest).Noted(flow.writes, flow.receipt))
  }

  /** From a renumbered group's head to its end tag. */
  lemma PairTaken(minimal: bool, rules: Rules, limit: nat, trail: Word, st: State, entry: Entry, rule: Layers.U16,
                  field: Field)
    requires Layers.Admitted(ProgramOf(rules)) && Sound(limit, |trail|, st) && st.suppress == 0 && st.Top().Rest() != []
    requires entry.Enter? && |entry.rest| < |st.Top().Rest()| && st.Top().groupDepth < st.Top().remaining
    ensures var next := PairEntered(limit, |trail|, st, entry, rule, field);
            var inside := Here(minimal, rules, limit, trail + [entry.field], next);
            var start := TagAt(st.Top().At(), entry.width, TagWord(field, GROUP_CODE));
            && (inside.Flowed? ==> 1 <= inside.endWidth <= 5 && |inside.rest| + inside.endWidth <= |entry.rest|)
            && var flow := PairFlow(minimal, rule, field, start, st.Top().base + |st.Top().data|, inside);
               Remaining(minimal, rules, limit, trail + [entry.field], next)
               == Resumed(minimal, rules, limit, trail, st, flow)
  {
    hide JudgeFlow, Remaining, Layers.Admitted, ProgramOf, Exited, Entered, PairEntered, Advanced, Left, Depths, Here,
         EncodedLen;
    var inner := trail + [entry.field];
    var pending := st.pending + [PairOf(st, entry, rule, field)];
    var next := PairEntered(limit, |trail|, st, entry, rule, field);
    RemainingHere(minimal, rules, limit, inner, next);
    var inside := Here(minimal, rules, limit, inner, next);
    if inside.Flowed? {
      InAndOut(limit, |trail|, st, entry.field, entry.rest, inside.rest, inside.writes, inside.receipt, pending);
      assert inner[..|inner| - 1] == trail && pending[..|pending| - 1] == st.pending;
      var end := st.Top().base + |st.Top().data| - |inside.rest| - inside.endWidth;
      TagsNoted(Advanced(limit, |trail|, st, inside.rest), pending, inside.writes, inside.receipt,
                TagAt(st.Top().At(), entry.width, TagWord(field, GROUP_CODE)),
                TagAt(end, inside.endWidth, TagWord(field, END_CODE)));
    }
  }

  lemma TagsNoted(st: State, pending: seq<Pair>, writes: seq<Planned>, receipt: Receipt, start: Planned, end: Planned)
    ensures var one := NOTHING_DONE.(renumbered := 1);
            st.Noted(writes, receipt).(pending := pending).(pending := st.pending).Noted([start] + [end], one) ==
            st.Noted(writes + [start] + [end], receipt.Plus(one))
  {
    assert (st.writes + writes) + ([start] + [end]) == st.writes + (writes + [start] + [end]);
  }

  lemma HereDescended(minimal: bool, rules: Rules, limit: nat, trail: Word, st: State, field: Field,
                      payload: seq<Byte>, rest: seq<Byte>)
    requires Layers.Admitted(ProgramOf(rules)) && Sound(limit, |trail|, st) && st.suppress == 0
    requires |payload| + |rest| < |st.Top().Rest()| && st.Top().groupDepth < st.Top().remaining
    ensures Here(minimal, rules, limit, trail + [field], Descended(limit, |trail|, st, payload, rest))
         == JudgeFlow(minimal, rules, limit, trail + [field], st.Top().remaining - st.Top().groupDepth - 1, limit,
                      None, payload,
                      st.Top().At() + |st.Top().Rest()| - |rest| - |payload|)
  {
    hide JudgeFlow, Layers.Admitted, ProgramOf, Left, Depths, Advanced;
    assert payload[0..] == payload;
  }

  /** Descending into a payload and leaving it is reading past its record. */
  lemma DownAndUp(limit: nat, depth: nat, st: State, payload: seq<Byte>, rest: seq<Byte>, writes: seq<Planned>,
                  receipt: Receipt)
    requires Sound(limit, depth, st) && st.suppress == 0 && |payload| + |rest| < |st.Top().Rest()|
             && st.Top().groupDepth < st.Top().remaining
    ensures var inside := Descended(limit, depth, st, payload, rest).Noted(writes, receipt);
            && Sound(limit, depth + 1, inside) && inside.Top().opens == [] && |inside.layers| > 1
            && Popped(limit, depth + 1, inside) == Advanced(limit, depth, st, rest).Noted(writes, receipt)
  {
    hide Left, Depths, Advanced;
  }

  /** The head's flow of a routed LEN record no rule owns: what its tag plans,
      then what its payload does. */
  lemma PayloadFlow(minimal: bool, rules: Rules, limit: nat, trail: Word, budget: nat, room: nat, entry: Entry,
                    size: nat, at: nat,
                    writes: seq<Planned>, receipt: Receipt)
    requires Layers.Admitted(ProgramOf(rules)) && entry.Delivered(size, room) && size <= MAX_LEN
    requires entry.Whole? && entry.item.Len? && Routes(rules, trail + [entry.item.field])
    requires TagFlow(minimal, ClaimAt(rules, trail + [entry.item.field]), entry.item, at, writes, receipt)
    ensures var flow := FlowEntry(minimal, rules, limit, trail, budget, room, entry, size, at);
            if budget == 0 then flow == Stopped(Fault(at, Wire(TooDeep)))
            else
              var body := JudgeFlow(minimal, rules, limit, trail + [entry.item.field], budget - 1, limit, None,
                                    entry.item.payload,
                                    at + size - |entry.rest| - |entry.item.payload|);
              flow == if body.Stopped? then body
                else Flowed(writes + body.writes, receipt.Plus(body.receipt), 0, entry.rest)
  {
    hide JudgeFlow, FlowEntry, FlowRenumber, FlowInside, ClaimAt, Layers.Admitted, ProgramOf, EncodedLen, Routes,
         ItemBytes;
    var inner := trail + [entry.item.field];
    var claim := ClaimAt(rules, inner);
    EntryIs(minimal, rules, limit, trail, budget, room, entry, size, at);
    InsideIs(minimal, rules, limit, inner, budget, room, entry, size, at);
    if claim.By? {
      RenumberIs(minimal, rules, limit, inner, budget, room, entry, size, at, claim.rule, claim.action.field);
    }
  }

  /** From a payload's start to the record after it. */
  lemma PayloadInside(minimal: bool, rules: Rules, limit: nat, trail: Word, st: State, field: Field,
                      payload: seq<Byte>, rest: seq<Byte>)
    requires Layers.Admitted(ProgramOf(rules)) && Sound(limit, |trail|, st) && st.suppress == 0
    requires |payload| + |rest| < |st.Top().Rest()| && st.Top().groupDepth < st.Top().remaining
    ensures var next := Descended(limit, |trail|, st, payload, rest);
            var body := Here(minimal, rules, limit, trail + [field], next);
            Remaining(minimal, rules, limit, trail + [field], next) ==
            if body.Stopped? then body
            else Remaining(minimal, rules, limit, trail,
                           Advanced(limit, |trail|, st, rest).Noted(body.writes, body.receipt))
  {
    hide JudgeFlow, Remaining, Layers.Admitted, ProgramOf, Popped, Descended, Advanced, Left, Depths, Here;
    var inner := trail + [field];
    var next := Descended(limit, |trail|, st, payload, rest);
    RemainingHere(minimal, rules, limit, inner, next);
    var flow := Here(minimal, rules, limit, inner, next);
    if flow.Flowed? {
      DownAndUp(limit, |trail|, st, payload, rest, flow.writes, flow.receipt);
      assert inner[..|inner| - 1] == trail;
    }
  }

  /** A routed LEN record no rule owns, `noted` holding what its tag plans. */
  lemma PayloadTaken(minimal: bool, rules: Rules, limit: nat, trail: Word, st: State, entry: Entry,
                     writes: seq<Planned>, receipt: Receipt,
                     noted: State)
    requires Layers.Admitted(ProgramOf(rules)) && Sound(limit, |trail|, st) && st.suppress == 0 && st.Top().Rest() != []
    requires Next(minimal, limit, st) == Got(entry) && entry.Delivered(|st.Top().Rest()|, limit - |st.Top().opens|)
    requires entry.Whole? && entry.item.Len? && Routes(rules, trail + [entry.item.field])
    requires TagFlow(minimal, ClaimAt(rules, trail + [entry.item.field]), entry.item, st.Top().At(), writes, receipt)
    requires noted == st.Noted(writes, receipt) && Sound(limit, |trail|, noted)
    ensures Remaining(minimal, rules, limit, trail, st)
         == if noted.Top().groupDepth == noted.Top().remaining then Stopped(Fault(noted.Top().At(), Wire(TooDeep)))
            else Remaining(minimal, rules, limit, trail + [entry.item.field],
                           Descended(limit, |trail|, noted, entry.item.payload, entry.rest))
  {
    hide Next, JudgeFlow, Remaining, Layers.Admitted, ProgramOf, ClaimAt, Descended, Advanced, Left, Depths, Here,
         HeadFlow, Routes, TagFlow,
         ItemBytes;
    HeadTaken(minimal, rules, limit, trail, st, entry);
    PayloadHead(minimal, rules, limit, trail, st, entry, writes, receipt, noted);
    if st.Top().groupDepth < st.Top().remaining {
      PayloadInside(minimal, rules, limit, trail, noted, entry.item.field, entry.item.payload, entry.rest);
      var body := Here(minimal, rules, limit, trail + [entry.item.field],
                       Descended(limit, |trail|, noted, entry.item.payload, entry.rest));
      if body.Flowed? {
        NotedTwice(limit, |trail|, st, entry.rest, writes, receipt, body.writes, body.receipt);
      }
    }
  }

  lemma PayloadHead(minimal: bool, rules: Rules, limit: nat, trail: Word, st: State, entry: Entry,
                    writes: seq<Planned>, receipt: Receipt,
                    noted: State)
    requires Layers.Admitted(ProgramOf(rules)) && Sound(limit, |trail|, st) && st.suppress == 0
    requires entry.Whole? && entry.item.Len? && entry.Delivered(|st.Top().Rest()|, limit - |st.Top().opens|)
    requires Routes(rules, trail + [entry.item.field])
    requires TagFlow(minimal, ClaimAt(rules, trail + [entry.item.field]), entry.item, st.Top().At(), writes, receipt)
    requires noted == st.Noted(writes, receipt) && Sound(limit, |trail|, noted)
    ensures var first := HeadFlow(minimal, rules, limit, trail, st, entry);
            if noted.Top().groupDepth == noted.Top().remaining then
              first == Stopped(Fault(noted.Top().At(), Wire(TooDeep)))
            else
              var body := Here(minimal, rules, limit, trail + [entry.item.field],
                               Descended(limit, |trail|, noted, entry.item.payload, entry.rest));
              first == if body.Stopped? then body
                else Flowed(writes + body.writes, receipt.Plus(body.receipt), 0, entry.rest)
  {
    hide JudgeFlow, Layers.Admitted, ProgramOf, ClaimAt, Descended, Left, Depths, Here, FlowEntry, Routes, TagFlow,
         ItemBytes;
    var top := st.Top();
    PayloadFlow(minimal, rules, limit, trail, top.remaining - top.groupDepth, limit - |top.opens|, entry,
                |top.Rest()|, top.At(), writes, receipt);
    if top.groupDepth < top.remaining {
      HereDescended(minimal, rules, limit, trail, noted, entry.item.field, entry.item.payload, entry.rest);
    }
  }

  lemma NotedTwice(limit: nat, depth: nat, st: State, rest: seq<Byte>, a: seq<Planned>, ra: Receipt, b: seq<Planned>,
                   rb: Receipt)
    requires Sound(limit, depth, st) && |rest| < |st.Top().Rest()|
    ensures Sound(limit, depth, st.Noted(a, ra))
    ensures Advanced(limit, depth, st.Noted(a, ra), rest).Noted(b, rb)
            == Advanced(limit, depth, st, rest).Noted(a + b, ra.Plus(rb))
  {
    hide Left, Depths, Advanced, Layer.Sound;
    Associative(st.writes, a, b);
  }

  /** What an unowned LEN record's own tag plans: nothing, or its new number. */
  predicate TagFlow(minimal: bool, claim: Claim, item: Item, at: nat, writes: seq<Planned>, receipt: Receipt) {
    match claim
    case Clash(_, _) => false
    case Free => writes == [] && receipt == NOTHING_DONE
    case By(_, action) =>
      && action.Renumber? && WidthFits(minimal, EncodedLen(TagWord(action.field, item.Code())), item.tagWidth)
      && writes == [TagAt(at, item.tagWidth, TagWord(action.field, item.Code()))]
      && receipt == NOTHING_DONE.(renumbered := 1)
  }

  // ─── a group skipped under its owner ───

  function SkimHere(minimal: bool, st: State): Scan<Body>
    requires st.layers != [] && st.Top().pos <= |st.Top().data| && |st.Top().opens| <= st.Top().remaining
  {
    SkimBody(minimal, NO_ROUTE, [], st.Top().remaining - |st.Top().opens|, st.Top().Innermost(), st.Top().Rest(),
             st.Top().At())
  }

  lemma RemainingSkips(minimal: bool, rules: Rules, limit: nat, trail: Word, st: State)
    requires Layers.Admitted(ProgramOf(rules)) && Sound(limit, |trail|, st) && st.suppress > 0
    ensures var skim := SkimHere(minimal, st);
            && (skim.Got? ==> |skim.value.rest| < |st.Top().Rest()|)
            && Remaining(minimal, rules, limit, trail, st)
               == if skim.Broken? then Stopped(Fault(skim.at, Wire(skim.breach)))
                  else AfterSkip(minimal, rules, limit, trail, st, skim.value.rest)
  {
    hide SkimBody, JudgeFlow, Layers.Admitted, ProgramOf, CloseSkipped, Close, Left, Depths;
  }

  /** Where the skimming goes on from a record read past, the turn is read past. */
  lemma SkipAdvances(minimal: bool, rules: Rules, limit: nat, trail: Word, st: State, rest: seq<Byte>)
    requires Layers.Admitted(ProgramOf(rules)) && Sound(limit, |trail|, st) && st.suppress > 0
             && |rest| < |st.Top().Rest()|
    requires var skim, more := SkimHere(minimal, st), SkimHere(minimal, Advanced(limit, |trail|, st, rest));
             if more.Broken? then skim == Broken(more.at, more.breach)
             else skim.Got? && skim.value.rest == more.value.rest
    ensures Remaining(minimal, rules, limit, trail, st)
            == Remaining(minimal, rules, limit, trail, Advanced(limit, |trail|, st, rest))
  {
    hide SkimBody, SkimHere, Remaining, Layers.Admitted, ProgramOf, CloseSkipped, Advanced, Left, Depths;
    var next := Advanced(limit, |trail|, st, rest);
    RemainingSkips(minimal, rules, limit, trail, st);
    RemainingSkips(minimal, rules, limit, trail, next);
    if SkimHere(minimal, next).Got? {
      SkipForgets(minimal, limit, |trail|, st, rest, SkimHere(minimal, next).value.rest);
    }
  }

  lemma SkipForgets(minimal: bool, limit: nat, depth: nat, st: State, between: seq<Byte>, rest: seq<Byte>)
    requires Sound(limit, depth, st) && st.suppress > 0 && |rest| < |between| < |st.Top().Rest()|
    ensures Sound(limit, depth, Advanced(limit, depth, st, between))
    ensures CloseSkipped(minimal, limit, depth, st, rest)
            == CloseSkipped(minimal, limit, depth, Advanced(limit, depth, st, between), rest)
  {
    hide ClaimExtent, Left, Depths;
    assert Advanced(limit, depth, st, between).layers[..|st.layers| - 1] == st.layers[..|st.layers| - 1];
  }

  lemma HereSkipping(minimal: bool, limit: nat, depth: nat, st: State, field: Field, rest: seq<Byte>, owner: Owner)
    requires Sound(limit, depth, st) && |rest| < |st.Top().Rest()| && Ends(rest, st.Top().Rest())
             && |st.Top().opens| < st.Top().remaining
    requires (owner.action.ReplaceRecord? || owner.action.Tombstone?) && st.Top().base <= owner.head <= st.Top().At()
    ensures SkimHere(minimal, Skipping(limit, depth, st, field, rest, owner))
         == SkimBody(minimal, NO_ROUTE, [], st.Top().remaining - |st.Top().opens| - 1, Some(field), rest,
                     st.Top().At() + |st.Top().Rest()| - |rest|)
  {
    hide SkimBody, Left, Depths;
    assert Skipping(limit, depth, st, field, rest, owner).Top().Rest() == rest;
  }

  /** Skipping into a group and out of it is reading past it. */
  lemma SkipInAndOut(limit: nat, depth: nat, st: State, field: Field, rest: seq<Byte>, owner: Owner, after: seq<Byte>)
    requires Sound(limit, depth, st) && |after| < |rest| < |st.Top().Rest()| && |st.Top().opens| < st.Top().remaining
    requires (owner.action.ReplaceRecord? || owner.action.Tombstone?) && st.Top().base <= owner.head <= st.Top().At()
    requires st.suppress > 0 ==> st.owner == Some(owner)
    ensures var inside := Skipping(limit, depth, st, field, rest, owner);
            && |after| < |inside.Top().Rest()|
            && Skipped(limit, depth, inside, after) == Advanced(limit, depth, st, after)
            && inside.suppress == st.suppress + 1 && inside.owner == Some(owner)
            && inside.Top().base == st.Top().base && inside.Top().data == st.Top().data
  {
    hide Left, Depths;
    var n := |st.layers| - 1;
    var inside := Skipping(limit, depth, st, field, rest, owner);
    assert inside.layers[..n] == st.layers[..n];
    assert (st.Top().opens + [field])[..|st.Top().opens|] == st.Top().opens;
  }

  /** The owner's judgment of the extent from here to `rest`. */
  ghost function OwnerJudged(minimal: bool, limit: nat, depth: nat, st: State, owner: Owner,
                             rest: seq<Byte>): (r: Judged<State>)
    requires Sound(limit, depth, st) && |rest| < |st.Top().Rest()|
             && (owner.action.ReplaceRecord? || owner.action.Tombstone?)
    ensures r.Allowed? ==> Sound(limit, depth, r.value)
  {
    match ClaimExtent(minimal, owner.rule, owner.action, owner.budget, owner.head, |st.Top().Rest()| - |rest|)
    case Refused(fault) => Refused(fault)
    case Allowed(w) => Allowed(Advanced(limit, depth, st, rest).Noted([w], Counted(owner.action)))
  }

  /** From an owned group's head to its end, where its owner is judged. */
  lemma OwnerInside(minimal: bool, rules: Rules, limit: nat, trail: Word, st: State, field: Field, rest: seq<Byte>,
                    owner: Owner)
    requires Layers.Admitted(ProgramOf(rules)) && Sound(limit, |trail|, st) && st.suppress == 0
    requires |rest| < |st.Top().Rest()| && Ends(rest, st.Top().Rest()) && |st.Top().opens| < st.Top().remaining
    requires (owner.action.ReplaceRecord? || owner.action.Tombstone?) && owner.head == st.Top().At()
    ensures var top := st.Top();
            var skim := SkimBody(minimal, NO_ROUTE, [], top.remaining - |top.opens| - 1, Some(field), rest,
                                 top.At() + |top.Rest()| - |rest|);
            Remaining(minimal, rules, limit, trail, Skipping(limit, |trail|, st, field, rest, owner)) ==
            if skim.Broken? then Stopped(Fault(skim.at, Wire(skim.breach)))
            else
              var judged := OwnerJudged(minimal, limit, |trail|, st, owner, skim.value.rest);
              if judged.Refused? then Stopped(judged.fault) else Remaining(minimal, rules, limit, trail, judged.value)
  {
    hide SkimBody, SkimHere, Remaining, Layers.Admitted, ProgramOf, Skipping, Skipped, Advanced, Left, Depths,
         ClaimExtent, Ends;
    HereSkipping(minimal, limit, |trail|, st, field, rest, owner);
    var next := Skipping(limit, |trail|, st, field, rest, owner);
    RemainingSkips(minimal, rules, limit, trail, next);
    var skim := SkimHere(minimal, next);
    if skim.Got? {
      SkipInAndOut(limit, |trail|, st, field, rest, owner, skim.value.rest);
    }
  }

  /** A group its rule overwrites whole. */
  lemma OwnerTaken(minimal: bool, rules: Rules, limit: nat, trail: Word, st: State, entry: Entry, rule: Layers.U16,
                   action: Action)
    requires Layers.Admitted(ProgramOf(rules)) && Sound(limit, |trail|, st) && st.suppress == 0 && st.Top().Rest() != []
    requires Next(minimal, limit, st) == Got(entry) && entry.Delivered(|st.Top().Rest()|, limit - |st.Top().opens|)
    requires entry.Enter? && ClaimAt(rules, trail + [entry.field]) == By(rule, action)
             && (action.ReplaceRecord? || action.Tombstone?)
    ensures Remaining(minimal, rules, limit, trail, st)
         == if st.Top().groupDepth == st.Top().remaining then Stopped(Fault(st.Top().At(), Wire(TooDeep)))
            else Remaining(minimal, rules, limit, trail,
                           Skipping(limit, |trail|, st, entry.field, entry.rest, OwnerOf(st, rule, action)))
  {
    hide NextEntry, SkimBody, Remaining, Layers.Admitted, ProgramOf, ClaimAt, Skipping, Advanced, Left, Depths,
         FlowEntry, ClaimExtent, Ends,
         ItemBytes, Claimed, FlowInside, FlowRenumber;
    var top := st.Top();
    NextEnds(minimal, top.Innermost(), limit - |top.opens|, top.Rest(), top.At());
    HeadTaken(minimal, rules, limit, trail, st, entry);
    EntryIs(minimal, rules, limit, trail, top.remaining - top.groupDepth, limit - |top.opens|, entry, |top.Rest()|,
            top.At());
    if top.groupDepth < top.remaining {
      OwnerInside(minimal, rules, limit, trail, st, entry.field, entry.rest, OwnerOf(st, rule, action));
    }
  }

  function OwnerOf(st: State, rule: Layers.U16, action: Action): Owner
    requires st.layers != [] && st.Top().groupDepth <= st.Top().remaining
  {
    Owner(rule, action, st.Top().At(), st.Top().remaining - st.Top().groupDepth)
  }

  /** A skipped record: its bytes were read, and that is all. */
  lemma SkipTaken(minimal: bool, rules: Rules, limit: nat, trail: Word, st: State, entry: Entry)
    requires Layers.Admitted(ProgramOf(rules)) && Sound(limit, |trail|, st) && st.suppress > 0 && st.Top().Rest() != []
    requires Next(minimal, limit, st) == Got(entry) && entry.Whole? && |entry.rest| < |st.Top().Rest()|
    ensures Remaining(minimal, rules, limit, trail, st)
            == Remaining(minimal, rules, limit, trail, Advanced(limit, |trail|, st, entry.rest))
  {
    hide NextEntry, SkimBody, Remaining, Layers.Admitted, ProgramOf, Advanced, Left, Depths, Ends;
    var top := st.Top();
    var budget := top.remaining - |top.opens|;
    RoomOrBudget(minimal, top.Innermost(), budget, limit - |top.opens|, top.Rest(), top.At());
    NextEnds(minimal, top.Innermost(), limit - |top.opens|, top.Rest(), top.At());
    SkimBodyStep(minimal, NO_ROUTE, [], budget, top.Innermost(), top.Rest(), top.At());
    SkimAdvanced(minimal, limit, |trail|, st, entry.rest);
    SkipAdvances(minimal, rules, limit, trail, st, entry.rest);
  }

  lemma SkimAdvanced(minimal: bool, limit: nat, depth: nat, st: State, rest: seq<Byte>)
    requires Sound(limit, depth, st) && |rest| < |st.Top().Rest()| && Ends(rest, st.Top().Rest())
    ensures SkimHere(minimal, Advanced(limit, depth, st, rest))
         == SkimBody(minimal, NO_ROUTE, [], st.Top().remaining - |st.Top().opens|, st.Top().Innermost(), rest,
                     st.Top().At() + |st.Top().Rest()| - |rest|)
  {
    hide SkimBody, Left, Depths;
    assert Advanced(limit, depth, st, rest).Top().Rest() == rest;
  }

  /** A group inside a skipped extent: it spends the same depth, and is skipped. */
  lemma SkipDeeper(minimal: bool, rules: Rules, limit: nat, trail: Word, st: State, entry: Entry)
    requires Layers.Admitted(ProgramOf(rules)) && Sound(limit, |trail|, st) && st.suppress > 0 && st.Top().Rest() != []
    requires Next(minimal, limit, st) == Got(entry) && entry.Enter? && |entry.rest| < |st.Top().Rest()|
    ensures Remaining(minimal, rules, limit, trail, st)
         == if st.Top().groupDepth + st.suppress == st.Top().remaining then Stopped(Fault(st.Top().At(), Wire(TooDeep)))
            else Remaining(minimal, rules, limit, trail,
                           Skipping(limit, |trail|, st, entry.field, entry.rest, st.owner.value))
  {
    hide Next, SkimBody, SkimHere, Remaining, Layers.Admitted, ProgramOf, Skipping, Skipped, Advanced, Left, Depths,
         ClaimExtent, Ends;
    SkimDeeper(minimal, limit, |trail|, st, entry);
    RemainingSkips(minimal, rules, limit, trail, st);
    if |st.Top().opens| < st.Top().remaining {
      var owner := st.owner.value;
      var next := Skipping(limit, |trail|, st, entry.field, entry.rest, owner);
      RemainingSkips(minimal, rules, limit, trail, next);
      var skim := SkimHere(minimal, next);
      if skim.Got? {
        SkipInAndOut(limit, |trail|, st, entry.field, entry.rest, owner, skim.value.rest);
        SkipAdvances(minimal, rules, limit, trail, st, skim.value.rest);
      }
    }
  }

  /** The skimming of a group, its inside and what follows. */
  lemma SkimDeeper(minimal: bool, limit: nat, depth: nat, st: State, entry: Entry)
    requires Sound(limit, depth, st) && st.suppress > 0 && st.Top().Rest() != []
    requires Next(minimal, limit, st) == Got(entry) && entry.Enter? && |entry.rest| < |st.Top().Rest()|
    ensures |st.Top().opens| == st.Top().remaining ==> SkimHere(minimal, st) == Broken(st.Top().At(), TooDeep)
    ensures |st.Top().opens| < st.Top().remaining ==>
              var inside := SkimHere(minimal, Skipping(limit, depth, st, entry.field, entry.rest, st.owner.value));
              if inside.Broken? then SkimHere(minimal, st) == Broken(inside.at, inside.breach)
              else
                && |inside.value.rest| < |entry.rest|
                && var skim, more := SkimHere(minimal, st),
                                     SkimHere(minimal, Advanced(limit, depth, st, inside.value.rest));
                   if more.Broken? then skim == Broken(more.at, more.breach)
                   else skim.Got? && skim.value.rest == more.value.rest
  {
    hide NextEntry, SkimBody, SkimHere, Skipping, Advanced, Left, Depths, Ends;
    var top := st.Top();
    var budget := top.remaining - |top.opens|;
    RoomOrBudget(minimal, top.Innermost(), budget, limit - |top.opens|, top.Rest(), top.At());
    NextEnds(minimal, top.Innermost(), limit - |top.opens|, top.Rest(), top.At());
    SkimIsHere(minimal, st);
    SkimBodyStep(minimal, NO_ROUTE, [], budget, top.Innermost(), top.Rest(), top.At());
    if budget > 0 {
      HereSkipping(minimal, limit, depth, st, entry.field, entry.rest, st.owner.value);
      SkimGroupIs(minimal, budget, entry, |top.Rest()|, top.At());
      var inside := SkimHere(minimal, Skipping(limit, depth, st, entry.field, entry.rest, st.owner.value));
      if inside.Got? {
        SkimEnds(minimal, NO_ROUTE, [], budget - 1, Some(entry.field), entry.rest,
                 top.At() + |top.Rest()| - |entry.rest|);
        EndsThrough(inside.value.rest, entry.rest, top.Rest());
        SkimAdvanced(minimal, limit, depth, st, inside.value.rest);
      }
    }
  }

  lemma SkimIsHere(minimal: bool, st: State)
    requires st.layers != [] && st.Top().pos <= |st.Top().data| && |st.Top().opens| <= st.Top().remaining
    ensures SkimHere(minimal, st)
         == SkimBody(minimal, NO_ROUTE, [], st.Top().remaining - |st.Top().opens|, st.Top().Innermost(),
                     st.Top().Rest(), st.Top().At())
  {
    hide SkimBody;
  }

  /** Without a route, a group's inside is skimmed the same under any trail. */
  lemma SkimGroupIs(minimal: bool, budget: nat, entry: Entry, size: nat, at: nat)
    requires entry.Enter? && |entry.rest| < size && budget > 0
    ensures var skim := SkimEntry(minimal, NO_ROUTE, [], budget, entry, size, at);
            var inside := SkimBody(minimal, NO_ROUTE, [], budget - 1, Some(entry.field), entry.rest,
                                   at + size - |entry.rest|);
            if inside.Broken? then skim == Broken(inside.at, inside.breach)
            else skim.Got? && skim.value.rest == inside.value.rest
  {
    hide SkimBody;
    assert [] + [entry.field] == [entry.field];
    SkimUnrouted(minimal, NO_ROUTE, [entry.field], [], budget - 1, Some(entry.field), entry.rest,
                 at + size - |entry.rest|);
  }

  // ─── ends of groups, layers and bytes ───

  lemma GroupEnds(minimal: bool, rules: Rules, limit: nat, trail: Word, st: State, entry: Entry)
    requires Layers.Admitted(ProgramOf(rules)) && Sound(limit, |trail|, st) && st.Top().Rest() != []
    requires Next(minimal, limit, st) == Got(entry) && entry.Exit?
    ensures st.Top().opens != [] && |entry.rest| + entry.width == |st.Top().Rest()|
    ensures st.suppress > 0 ==>
              Remaining(minimal, rules, limit, trail, st) == AfterSkip(minimal, rules, limit, trail, st, entry.rest)
    ensures st.suppress == 0 ==>
              var closed := Close(minimal, limit, |trail|, st, entry.width, entry.rest);
              Remaining(minimal, rules, limit, trail, st)
              == if closed.Refused? then Stopped(closed.fault)
                else Remaining(minimal, rules, limit, trail[..|trail| - 1], closed.value)
  {
    hide NextEntry, SkimBody, JudgeFlow, Remaining, Layers.Admitted, ProgramOf, Close, CloseSkipped, Left, Depths;
    var top := st.Top();
    if st.suppress > 0 {
      RoomOrBudget(minimal, top.Innermost(), top.remaining - |top.opens|, limit - |top.opens|, top.Rest(), top.At());
      SkimBodyStep(minimal, NO_ROUTE, [], top.remaining - |top.opens|, top.Innermost(), top.Rest(), top.At());
      RemainingSkips(minimal, rules, limit, trail, st);
    } else {
      FlowStep(minimal, rules, limit, trail, top.remaining - top.groupDepth, limit - |top.opens|, top.Innermost(),
               top.Rest(), top.At());
      RemainingHere(minimal, rules, limit, trail, st);
      assert st.Noted([], NOTHING_DONE) == st;
    }
  }

  /** The cursor's refusal is the job's. */
  lemma BytesBreak(minimal: bool, rules: Rules, limit: nat, trail: Word, st: State)
    requires Layers.Admitted(ProgramOf(rules)) && Sound(limit, |trail|, st) && st.Top().Rest() != []
             && Next(minimal, limit, st).Broken?
    ensures var broken := Next(minimal, limit, st);
            Remaining(minimal, rules, limit, trail, st) == Stopped(Fault(broken.at, Wire(broken.breach)))
  {
    hide Next, Remaining, Layers.Admitted, ProgramOf, Left, Depths, Here, SkimHere, Sound;
    BreakHere(minimal, rules, limit, trail, st);
    if st.suppress > 0 {
      RemainingSkips(minimal, rules, limit, trail, st);
    } else {
      RemainingHere(minimal, rules, limit, trail, st);
    }
  }

  lemma BreakHere(minimal: bool, rules: Rules, limit: nat, trail: Word, st: State)
    requires Layers.Admitted(ProgramOf(rules)) && Sound(limit, |trail|, st) && st.Top().Rest() != []
             && Next(minimal, limit, st).Broken?
    ensures var broken := Next(minimal, limit, st);
            && SkimHere(minimal, st) == Broken(broken.at, broken.breach)
            && Here(minimal, rules, limit, trail, st) == Stopped(Fault(broken.at, Wire(broken.breach)))
  {
    hide NextEntry, SkimBody, JudgeFlow, Layers.Admitted, ProgramOf, Left, Depths;
    var top := st.Top();
    RoomOrBudget(minimal, top.Innermost(), top.remaining - |top.opens|, limit - |top.opens|, top.Rest(), top.At());
    SkimBodyStep(minimal, NO_ROUTE, [], top.remaining - |top.opens|, top.Innermost(), top.Rest(), top.At());
    FlowStep(minimal, rules, limit, trail, top.remaining - top.groupDepth, limit - |top.opens|, top.Innermost(),
             top.Rest(), top.At());
  }

  lemma {:induction false} DepthsCount(layers: seq<Layer>)
    ensures Depths(layers) >= |layers|
  {
    if layers != [] {
      DepthsCount(layers[..|layers| - 1]);
    }
  }

  /** An exhausted window: an unclosed group, the end of the job, or of a payload. */
  lemma LayerEnds(minimal: bool, rules: Rules, limit: nat, trail: Word, st: State)
    requires Layers.Admitted(ProgramOf(rules)) && Sound(limit, |trail|, st) && st.Top().Rest() == []
    ensures |st.layers| > 1 ==> |trail| > 0
    ensures st.Top().opens == [] ==> st.suppress == 0
    ensures Remaining(minimal, rules, limit, trail, st)
         == if st.Top().opens != [] then Stopped(Fault(st.Top().At(), Wire(Grouping)))
            else if |st.layers| == 1 then Flowed(st.writes, st.receipt, 0, [])
            else Remaining(minimal, rules, limit, trail[..|trail| - 1], Popped(limit, |trail|, st))
  {
    hide Remaining, Layers.Admitted, ProgramOf, Left, Depths, Popped, Here, SkimHere;
    DepthsCount(st.layers);
    EndHere(minimal, rules, limit, trail, st);
    if st.suppress > 0 {
      RemainingSkips(minimal, rules, limit, trail, st);
    } else {
      RemainingHere(minimal, rules, limit, trail, st);
      assert st.Noted([], NOTHING_DONE) == st;
    }
  }

  lemma EndHere(minimal: bool, rules: Rules, limit: nat, trail: Word, st: State)
    requires Layers.Admitted(ProgramOf(rules)) && Sound(limit, |trail|, st) && st.Top().Rest() == []
    ensures st.Top().opens != [] ==> SkimHere(minimal, st) == Broken(st.Top().At(), Grouping)
    ensures Here(minimal, rules, limit, trail, st)
         == if st.Top().opens != [] then Stopped(Fault(st.Top().At(), Wire(Grouping)))
           else Flowed([], NOTHING_DONE, 0, [])
  {
    hide SkimBody, JudgeFlow, Layers.Admitted, ProgramOf, Left, Depths;
    var top := st.Top();
    WindowEnd(minimal, NO_ROUTE, [], top.remaining - |top.opens|, top.Innermost(), top.At());
    FlowEnd(minimal, rules, limit, trail, top.remaining - top.groupDepth, limit - |top.opens|, top.Innermost(),
            top.At());
  }

  // ─── the start, and the pairs ───

  function Start(limit: nat, bytes: seq<Byte>): (st: State)
    requires |bytes| <= MAX_LEN
    ensures Sound(limit, 0, st) && Keyed(st)
  {
    State([Layer(bytes, 0, [], 0, limit, 0)], [], 0, None, [], NOTHING_DONE)
  }

  lemma StartJudges(minimal: bool, rules: Rules, limit: nat, bytes: seq<Byte>)
    requires Layers.Admitted(ProgramOf(rules)) && |bytes| <= MAX_LEN
    ensures Remaining(minimal, rules, limit, [], Start(limit, bytes)) == JudgeAll(minimal, rules, limit, bytes)
  {
    hide SkimBody, JudgeFlow, Remaining, Layers.Admitted, ProgramOf, Left, Depths;
    RemainingHere(minimal, rules, limit, [], Start(limit, bytes));
    assert bytes[0..] == bytes;
  }

  lemma PairsKept(st: State, next: State)
    requires Keyed(st) && next.pending == st.pending && |next.layers| >= |st.layers|
    requires forall i :: 0 <= i < |st.layers| ==> st.layers[i].groupDepth <= next.layers[i].groupDepth
    ensures Keyed(next)
  {}

  lemma PairPushed(st: State, next: State, pair: Pair)
    requires Keyed(st) && st.layers != [] && |next.layers| == |st.layers|
    requires forall i :: 0 <= i < |st.layers| - 1 ==> st.layers[i].groupDepth == next.layers[i].groupDepth
    requires next.Top().groupDepth == st.Top().groupDepth + 1
    requires next.pending == st.pending + [pair] && pair.layer == |st.layers| && pair.depth == st.Top().groupDepth + 1
    ensures Keyed(next)
  {
    var n := |st.pending|;
    forall i | 0 <= i < |next.pending|
      ensures 1 <= next.pending[i].layer <= |next.layers|
      ensures 1 <= next.pending[i].depth <= next.layers[next.pending[i].layer - 1].groupDepth
    {
      assert i < n ==> next.pending[i] == st.pending[i];
    }
    forall i, j | 0 <= i < j < |next.pending| ensures Outside(next.pending[i], next.pending[j]) {
      assert next.pending[i] == st.pending[i];
      assert j < n ==> next.pending[j] == st.pending[j];
    }
  }

  /** A closed group's pair is gone, and no other was its. */
  lemma PairsClosed(minimal: bool, limit: nat, depth: nat, st: State, width: nat, rest: seq<Byte>)
    requires Sound(limit, depth, st) && st.suppress == 0 && st.Top().opens != [] && Keyed(st)
    requires 1 <= width <= 5 && |rest| + width <= |st.Top().Rest()|
    requires Close(minimal, limit, depth, st, width, rest).Allowed?
    ensures Keyed(Close(minimal, limit, depth, st, width, rest).value)
  {
    hide Close, Keyed, State.Paired;
    ClosedShape(minimal, limit, depth, st, width, rest);
    PairDropped(st, Close(minimal, limit, depth, st, width, rest).value);
  }

  /** Closing a group lowers the innermost depth and drops its own pair alone. */
  lemma ClosedShape(minimal: bool, limit: nat, depth: nat, st: State, width: nat, rest: seq<Byte>)
    requires Sound(limit, depth, st) && st.suppress == 0 && st.Top().opens != []
    requires 1 <= width <= 5 && |rest| + width <= |st.Top().Rest()|
    requires Close(minimal, limit, depth, st, width, rest).Allowed?
    ensures var next := Close(minimal, limit, depth, st, width, rest).value;
            && |next.pending| == |st.pending| - (if st.Paired() then 1 else 0)
            && next.pending == st.pending[..|next.pending|]
            && |next.layers| == |st.layers| && next.layers[..|st.layers| - 1] == st.layers[..|st.layers| - 1]
            && next.Top().groupDepth + 1 == st.Top().groupDepth
  {
    hide EncodedLen, Left, Depths;
  }

  lemma PairDropped(st: State, next: State)
    requires Keyed(st) && st.layers != [] && |next.layers| == |st.layers|
    requires next.layers[..|st.layers| - 1] == st.layers[..|st.layers| - 1]
             && next.Top().groupDepth + 1 == st.Top().groupDepth
    requires |next.pending| <= |st.pending| && next.pending == st.pending[..|next.pending|]
    requires st.Paired() ==> |next.pending| < |st.pending|
    ensures Keyed(next)
  {
    hide State.Paired, Outside;
    var top := |st.layers| - 1;
    forall i | 0 <= i < |next.pending|
      ensures 1 <= next.pending[i].layer <= |next.layers|
      ensures 1 <= next.pending[i].depth <= next.layers[next.pending[i].layer - 1].groupDepth
    {
      assert next.pending[i] == st.pending[i];
      if st.pending[i].layer <= top {
        LowerLayer(st.layers, next.layers, st.pending[i].layer - 1);
      } else {
        PairBelow(st, i);
      }
    }
    forall i, j | 0 <= i < j < |next.pending| ensures Outside(next.pending[i], next.pending[j]) {
      assert next.pending[i] == st.pending[i] && next.pending[j] == st.pending[j];
    }
  }

  lemma LowerLayer(a: seq<Layer>, b: seq<Layer>, k: nat)
    requires k + 1 < |a| == |b| && a[..|a| - 1] == b[..|a| - 1]
    ensures a[k] == b[k]
  {
    assert a[k] == a[..|a| - 1][k] && b[k] == b[..|a| - 1][k];
  }

  /** In the innermost layer only the last pair can be the innermost group's. */
  lemma PairBelow(st: State, i: nat)
    requires Keyed(st) && st.layers != [] && i < |st.pending| && st.pending[i].layer == |st.layers|
    requires i == |st.pending| - 1 ==> !st.Paired()
    ensures st.pending[i].depth < st.Top().groupDepth
  {
    if i < |st.pending| - 1 {
      assert Outside(st.pending[i], st.pending[|st.pending| - 1]);
    }
  }

  lemma PairsPopped(limit: nat, depth: nat, st: State)
    requires Sound(limit, depth, st) && st.suppress == 0 && st.Top().opens == [] && |st.layers| > 1 && Keyed(st)
    ensures Keyed(Popped(limit, depth, st))
  {
    hide Left, Depths;
  }
}
