# Verified model of a protobuf wire editor

This project models the four components of a Rust library for editing protobuf
wire bytes that carry its hardest invariants, and proves what each is for.
`dafny verify dfyconfig.toml` checks everything.

- **Wire format** (`Sequences`, `Varints`, `Wire`, `Scanning`, `Breaches`). Varints at
  explicit widths, records as a tree that keeps every met width, and a reference
  parser under both acceptance standards (tolerant, canonical-minimal), with a
  container-depth budget and a route that says which LEN records are messages.
  Parsing is proved to be exactly the inverse of spelling, in both directions.
  The cursor's steps accept exactly what the parser accepts, and the place and
  class of every refusal are exactly those the bytes call for, told by spellings
  alone.
- **Path matcher** (`Paths`, `Admission`, `Embeddings`, `Spelling`,
  `Respelling`, `Layers`, `Matcher`, `Capacity`, `Demand`, `Fixed`, `Parity`,
  `Balanced`).
  A path denotes a language of words: the trail of container fields, then the
  record's own field. The heap machine (stacked tables, truncated on exit, with
  insert-anchor gap lanes) and the fixed-memory machine (carved lanes, unchecked
  pushes) are proved to answer by that language; the carved capacities are
  proved sufficient for every walk and no larger than walks ask for; any script draws the same answers from both.
  Which admitted paths have a second admitted spelling is decided exactly.
- **Builder** (`Construct`, `Refusal`, `Builder`, `ParseBack`). The
  account-and-replay machine, mid-program invariant included, against a
  recursive reference encoder; its output parses back to the pushed record tree,
  and its refusal quotes the first charge that crosses the cap.
- **In-place writer** (`Filler`, `Writes`, `RuleSet`, `InPlace`, `Judgment`,
  `FirstFault`, `Machine`, `Lanes`, `EqualWidth`, `Geometry`, `Acceptance`,
  `Unfinished`, `Tally`, `Landing`, `Walk`). One loop over the bytes, with
  its explicit stack of windows, skipped extents and pending pairs, is proved to
  compute a recursive judgment of the bytes, and that judgment to be the one a
  parsed document gets record by record, or, where the bytes break off, the
  first refusal of what was read before the breach. A job is allowed exactly
  where every claimed record has a lawful equal-width meaning, and refused for the
  objection that stands furthest to the front. Every state of the loop
  stays inside the lanes a fixed job carves for it. The planned writes are disjoint and
  land exactly the edited document, every surviving container or leaf at its old
  offset and widths, and the result re-ingests under the same standard.
- **Caller memory** (`Carving`, `Stores`, `PatchStore`, `HeapStore`, `Ledger`). The slab
  carve and its price at every address; the plan-sized payload store and its
  heap twin, both refining one abstract book of payloads, whose every coordinate
  holds what a run last gave it.

How the parts lean on each other: `Walk.Judge` drives `Matcher.HeapMatcher` over
the cursor of `Scanning`, `Walk.Apply` lands the planned `Writes`, fills
tombstones with `Filler`, and its result is read back by `Wire.Parse`.
`ParseBack` reads `Builder` output with the same parser. `Parity` runs `Matcher`
and `Fixed` side by side.

Where the code's comments and the code disagree, the model follows the code:

- `src/path.rs:546-547` says structural path equality coincides with selection
  equality. It does not: `Admission.TwoSpellingsAdmitted` exhibits two admitted,
  structurally distinct paths with one language. The exact condition is
  `Respelling.SecondSpellingIffLoose`: an admitted path has another admitted
  spelling if and only if some hop before its terminal is loose, that is, stands
  beside a wildcard that takes it and is not held between two such wildcards of
  incomparable sets. For a path with no loose hop the two equalities coincide
  (`Respelling.TightSelectionIsSpelling`).
- `src/construct.rs:1007` bounds event indexes by one accounted byte per event.
  An open LEN frame can break that (`ParseBack.OpenFrameOutrunsAccount`);
  `ParseBack.EventsWithinAccountIff` says exactly when it holds, and it always
  does while every open LEN frame's tag is two bytes or more
  (`ParseBack.WideTagsHoldTheBound`). Events are at most accounted bytes plus
  open LEN frames, which keeps every index inside `u32`
  (`Construct.EventIndexesFit`).

## Model

| member | source | states |
|---|---|---|
| Varints.EncodedLenIsLeast | src/varint.rs:223-250 | the branch-free width formula is the least number of seven-bit groups holding the value, for every 64-bit value |
| Varints.WriteAt | src/varint.rs:872-930 | the width-exact writer lands the varint's spelling at its offset and moves no other byte |
| Varints.SpellDigits | src/varint.rs:872-930 | each byte of a spelling is its seven bits of the value, low group first, with the high bit on all but the last |
| Varints.ReadSpelling | src/varint/slice.rs:84-140 | any spelling inside the read window reads back as its value and width, whatever follows |
| Varints.ReadIsSpelling | src/varint/slice.rs:84-140 | an accepted read consumed exactly the spelling of the value it returned, inside the window |
| Varints.LittleEndianReadsBack | src/cursor/grouped.rs:511-538 | little-endian words of any size read back as their bits |
| Varints.LittleEndianDigits | src/cursor/grouped.rs:511-538 | each byte of a little-endian word is its eight bits, low byte first |
| Wire.TagWidthIgnoresCode | src/wire.rs:444-447 | all eight low codes of a field give one tag width |
| Wire.ParseSpelled | src/cursor/grouped.rs:464-585 | every lawful record list spelled out is accepted and parses to itself, groups and committed messages included |
| Wire.ParseBodySound | src/cursor/grouped.rs:464-585 | whatever is accepted is the spelling of lawful, route-conforming records within the depth budget |
| Wire.ParseIsInverse | src/cursor/grouped.rs:464-585 | acceptance with result R holds if and only if the input spells R and R is lawful, conforming and within budget |
| Wire.ReadsOpaquely | src/cursor/grouped.rs:464-585 | lawful records re-ingest without a route as the same records with payloads opaque and groups intact |
| Scanning.SkimParses | src/cursor/grouped.rs:464-585 | reading step by step accepts exactly what the parser accepts, with the same records |
| Breaches.NextTold | src/cursor/grouped.rs:464-585 | the cursor refuses at a head exactly where something is wrong there: no word in its window, padding the minimal standard refuses, no number or kind, a value cut short, an end tag that closes nothing, a group past its depth |
| Breaches.BreachIs | src/inplace/grouped.rs:285-356 | at every depth the first refusal has this place and class if and only if the bytes, behind whole lawful records and inside lawfully opened containers, break there in that way |
| Breaches.UnreadableIffBreaks | src/inplace/grouped.rs:285-356 | a document is unreadable if and only if it breaks somewhere, and then at one place in one way |
| Breaches.RecordBreachIs | src/inplace/grouped.rs:443-510 | a replacement candidate's first record is refused exactly where and how its bytes break |
| Scanning.SkimUnrouted | src/inplace/grouped.rs:577-636 | the inside of a skipped extent is read alike whatever the trail and the routes beyond it |
| Paths.SelectedFromReached | src/path.rs:1085-1134 | a path's language holds trail·field exactly when some position reached over the trail chains to a terminal on that field |
| Paths.PrefixFromReached | src/path.rs:1344-1370 | trail·field is a proper prefix of some word of the language exactly when a reached position moves on that field |
| Layers.StatesReach | src/path.rs:1373-1396 | the sorted, deduplicated states staged for a trail are exactly the positions the automaton reaches |
| Layers.TargetsAreLanguage | src/path.rs:1085-1134 | a layer's target entries are exactly the selections the languages call for |
| Layers.GapsAreLanguage | src/path.rs:1085-1134 | a layer's gap entries are exactly the insert anchors whose language holds the container's word |
| Layers.StagingIsContinuation | src/path.rs:1344-1370 | a route probe stages something exactly where some path continues past the container |
| Layers.LayerOrdered | src/path.rs:1373-1396 | ascending states flatten into non-decreasing path ids, the order every verdict fold relies on |
| Layers.AscendingIsUnique | src/path.rs:1373-1396 | a strictly ascending state list is determined by its members, so any correct sort and dedup agree |
| Matcher.HitsUnique | src/path.rs:1216-1240 | the write verdict is determined by the languages alone |
| Matcher.HeapMatcher.constructor | src/path.rs:1163-1190 | a compiled program is the root layer of its tables, at the empty trail |
| Matcher.HeapMatcher.ProbeTarget | src/path.rs:1216-1240 | none, the one selecting path, or a conflict quoting the two smallest |
| Matcher.HeapMatcher.Probe | src/path.rs:1252-1262 | a container head's verdict, and its routing answer by language unless it conflicts |
| Matcher.HeapMatcher.FirstTarget | src/path.rs:1295-1315 | the lowest selecting path, or none |
| Matcher.HeapMatcher.VisitTargets | src/path.rs:1323-1338 | every selecting path exactly once, ascending |
| Matcher.HeapMatcher.ProbeGaps | src/path.rs:1265-1270 | each gap lane reported exactly when some insert anchor of it names this container |
| Matcher.HeapMatcher.VisitGaps | src/path.rs:1275-1280 | every insert anchor of that lane at this container, once, ascending |
| Matcher.HeapMatcher.FirstInteriorGap | src/path.rs:1283-1290 | the lowest insert anchor of either gap lane, or none |
| Matcher.HeapMatcher.ProbeRoutes | src/path.rs:1344-1370 | routed if and only if trail·field properly prefixes a word of some path's language |
| Matcher.HeapMatcher.CommitDescent | src/path.rs:1373-1396 | the tables and marks of the deeper trail, children compiled from the staged states |
| Matcher.HeapMatcher.Exit | src/path.rs:1399-1409 | the parent's tables and marks, exactly |
| Matcher.GapTable.Visit | src/path.rs:862-873 | the layer's matching anchors of one lane, ascending without repeats |
| Balanced.Wander | src/path.rs:1373-1409 | any balanced walk, however deep, restores every table, mark and gap snapshot |
| Balanced.GapsLeaveVerdictsAlone | src/path.rs:1085-1134 | insert anchors change no action verdict and no delivery: both equal those of the program restricted to its actions, ids kept |
| Balanced.ProbeBoth | src/path.rs:1216-1240 | a laned machine and one compiled from its actions alone give one verdict at every trail |
| Admission.DescendSubset | src/path.rs:526-543 | the merge walk decides inclusion of ascending sets |
| Admission.JudgePath | src/path.rs:477-523 | none exactly for well-shaped paths, else the first breach in path order |
| Admission.FirstBreachUnique | src/path.rs:477-523 | the breach a refusal must name is determined by the path |
| Admission.AdmissiblePrograms | src/path.rs:256-297 | what authoring admits the matchers take |
| Admission.PathsEqual | src/path.rs:548-568 | structural equality of paths |
| Admission.Over | src/path.rs:256-297 | accepts if and only if all shapes pass and paths are pairwise distinct, else names the first breach or the smallest duplicate pair |
| Admission.RisingSetsAreSlices | src/path.rs:571-590 | ascending sets are equal as slices exactly when equal as sets |
| Admission.StarCollapse | src/path.rs:495-520 | adjacent comparable wildcards denote the wider one alone, the respelling admission refuses |
| Admission.TwoSpellingsAdmitted | src/path.rs:546-568 | two admitted, structurally distinct paths with one language: the comment's coincidence claim is false |
| Admission.WildcardPumps | src/path.rs:52-70 | a path with a nonempty wildcard selects a word one container deeper than its bare one, so never at one depth alone |
| Embeddings.CoverIncludes | src/path.rs:52-70 | a position map that sends each segment where it can be read and misses no hop puts one language inside another |
| Embeddings.InclusionMaps | src/path.rs:52-70 | conversely one language inside another yields such a map between the two paths, for every pair of paths |
| Spelling.TightIsOnly | src/path.rs:477-523 | mutual inclusion between neat paths, one of them without a loose hop, makes them one path |
| Respelling.LooseRespells | src/path.rs:477-523 | a loose hop gives, constructively, a second admitted spelling of the same selection |
| Respelling.SecondSpellingIffLoose | src/path.rs:546-568 | an admitted path has a second admitted spelling if and only if some hop before its terminal is loose |
| Respelling.SecondSpellingUnderCap | src/path.rs:477-568 | under the 65,535-segment cap no path without a loose hop has a second spelling, and a loose one has it if it is below the cap or some hop respells in place: two neighbours hold its field, or one holds it alone |
| Respelling.TightSelectionIsSpelling | src/path.rs:546-568 | for a path with no loose hop, structural equality and selection equality coincide against every admitted path |
| Capacity.LeanStagesSame | src/fixed_inplace.rs:512-578 | the per-layer wildcard dedup changes no child state and no routing answer |
| Capacity.LayerFits | src/fixed_inplace.rs:716-738 | one layer never holds more entries of a kind than the static scan counts |
| Capacity.RigidLayersEnd | src/fixed_inplace.rs:801-809 | without wildcards no layer past the longest path holds a state |
| Capacity.WalkFits | src/fixed_inplace.rs:716-809 | on every walk within the depth limit the stacked tables, one probe's staging and the suspended marks fit the derived capacities |
| Demand.CensusIsExact | src/fixed_inplace.rs:716-797 | the target and stage counts are the numbers of states some walk stages, by where their chains end, the wildcard count that of wildcard positions, each counted once; the longest is some path's length |
| Demand.DepthFactorIsDepth | src/fixed_inplace.rs:801-809 | within the limit some trail one short of the depth factor holds a state, and no longer one does |
| Demand.DemandIsExact | src/fixed_inplace/grouped.rs:144-170 | the matcher lanes' capacities are the staged states, the wildcard positions and the deepest trail that holds a state, enumerated by walks alone |
| Fixed.ScanPaths | src/fixed_inplace.rs:757-797 | the one-pass scan counts exactly the stageable states of each kind and the longest path, and tells whether any rule renumbers |
| Fixed.FixedLane.Push | src/fixed_inplace.rs:225-235 | refuses exactly at capacity, with the lane unchanged |
| Fixed.FixedMatcher.ProbeTarget | src/fixed_inplace.rs:581-604 | the language's verdict, from lanes deduplicated per layer |
| Fixed.FixedMatcher.ProbeRoutes | src/fixed_inplace.rs:620-650 | the language's routing answer, every unchecked push inside its lane |
| Fixed.Compact | src/fixed_inplace.rs:655-683 | the in-place pass over a sorted prefix leaves exactly its distinct states |
| Fixed.FixedMatcher.CommitDescent | src/fixed_inplace.rs:655-683 | the deeper trail's lanes, every push within the derived capacity |
| Fixed.FixedMatcher.Exit | src/fixed_inplace.rs:687-700 | the parent's lanes and marks, exactly |
| Parity.Lockstep | src/fixed_inplace.rs:495-700 | any script of probes, descents and exits draws the same answers from both machines, each the one the languages call for |
| Construct.EventIndexesFit | src/construct.rs:320-336 | at every healthy moment events number at most accounted bytes plus open LEN frames, under 2^32 |
| Construct.ReplayPatched | src/construct.rs:1021-1046 | patching an open frame's slot changes that slot's bytes and nothing around them |
| Construct.ClosedSound | src/construct.rs:1021-1046 | closing an innermost LEN frame keeps the invariant and replaces its placeholder by the minimal prefix |
| Construct.LenFrameWrote | src/construct.rs:985-1046 | a LEN frame appends head, minimal prefix and body, and is refused exactly when those cross the cap |
| Construct.GroupFrameWrote | src/construct.rs:1063-1083 | a group frame appends both tags around its body, and is refused exactly when those cross the cap |
| Builder.Core.Account | src/construct.rs:776-798 | charges within the cap; the first charge past it poisons and records the innermost open field; a poisoned account stays |
| Builder.Core.PutLen | src/construct.rs:431-452 | one LEN record whether its payload is registered (exactly from 64 bytes up), staged, or empty |
| Builder.Core.PutRawBytes | src/construct.rs:459-478 | the bytes as given, registered (exactly from 64 bytes up) or staged; an empty append is a no-op |
| Builder.Core.PutPackedVarints | src/construct.rs:919-943 | one packed record of minimal varints under one charge |
| Builder.Core.BeginLen | src/construct.rs:997-1019 | head landed, placeholder slot held, frame opened; only the frame on a poisoned program |
| Builder.Core.EndLen | src/construct.rs:1021-1046 | the length written in the frame's slot is what was charged inside it, and its prefix is charged in turn |
| Builder.Core.Execute | src/construct.rs:810-1083 | any face call appends its reference encoding, or poisons exactly when the total would cross the cap |
| Builder.Core.EmitInto | src/construct.rs:488-552 | refuses a poisoned program, abandons an unclosed one, else fills one reservation exactly and leaves the prefix of `out` alone |
| Builder.Core.EmitSink | src/construct.rs:561-604 | the nonempty slices handed over concatenate to the same bytes |
| Refusal.LenFrameReports | src/construct.rs:776-798 | around a body, a LEN frame reports its head's break, the body's, or its prefix's, whichever comes first, under the field open at that moment |
| Refusal.QuotedIsFirstOver | src/construct.rs:776-798 | the report of a push is the first of its charges, in order, that crosses the cap, under the frame open at that charge |
| Refusal.ChargesAreBytes | src/construct.rs:776-1083 | a push's charges sum to the bytes it emits |
| Builder.Build | src/construct.rs:764-798 | a whole program is refused exactly when its reference encoding exceeds 2^31-1 bytes, quoting the first push to cross the cap with its innermost open field and attempted length; else emitted, priced and sunk as that encoding |
| ParseBack.CanonSpells | src/construct.rs:822-872 | a typed push encodes as its record with every width minimal |
| ParseBack.ParsesBack | src/construct.rs:34-37 | the minimal parser accepts the output of typed programs and recovers their record tree |
| ParseBack.RecoverableIffSorted | src/construct.rs:34-37 | some route recovers the pushed tree if and only if no trail·field is pushed both as a payload and as a message |
| ParseBack.ParsesBackOpaquely | src/construct.rs:34-37 | without a route the output reads as the same records, groups intact and payloads opaque |
| ParseBack.BuildParsesBack | src/construct.rs:488-552 | a finished build's bytes parse back to the pushed records |
| ParseBack.BytesDetermineRecords | src/construct.rs:34-37 | no two typed programs with different records emit the same bytes under one route |
| ParseBack.PackedReadsBack | src/construct.rs:919-943 | a packed payload reads back as the words pushed, in order |
| ParseBack.PackedFixedReadsBack | src/construct.rs:945-960 | a fixed packed payload is four bytes a word, and every four read back as the word pushed there |
| ParseBack.RawReadsBack | src/construct.rs:875-898 | a raw varint or fixed-width word reads back as the word pushed, at its own width, whatever follows |
| ParseBack.EncodeInTurn | src/construct.rs:488-552 | programs one after the other encode one after the other, a lone push as itself |
| ParseBack.JoinedInTurn | src/construct.rs:985-1046 | a frame's chunks land one after the other |
| ParseBack.CopyingMovesNothing | src/construct.rs:607-724 | copying every payload, and pushing chunked frames whole, changes no byte of the encoding |
| ParseBack.BuildTwice | src/construct.rs:607-724 | the borrowing machine and the copied program give one verdict and one output, and while frames stay chunked one and the same report |
| ParseBack.CopiesQuotedAlike | src/construct.rs:607-724 | copying payloads changes neither which push breaks the cap nor what is quoted of it |
| ParseBack.OpenFrameOutrunsAccount | src/construct.rs:997-1019 | a healthy state with an open LEN frame holds more events than accounted bytes |
| ParseBack.EventsWithinAccountIff | src/construct.rs:997-1019 | in every healthy state events number at most the accounted bytes if and only if the open LEN frames are at most the bytes events spare beyond one each and the open groups prepaid |
| ParseBack.WideTagsHoldTheBound | src/construct.rs:997-1019 | the bound holds whenever every open LEN frame was opened on a tag of two bytes or more |
| Filler.PrefixEquation | src/inplace.rs:704-731 | the prefix equation has the class read-off as its one solution off the gap set and none on it |
| Filler.GapSetFormula | src/inplace.rs:704-712 | the gap set is 2^(7k)+k for k from 1 to 4 |
| Filler.PeelLeavesGap | src/inplace.rs:745-755 | peeling one minimal filler of any tag width lands off the gap set |
| Filler.FillingFills | src/inplace.rs:733-803 | from the need up, every width is filled by one or two lawful zeroed records of the field, under both standards |
| Filler.NothingFillsLess | src/inplace.rs:696-702 | below the need nothing fills: the refusal is exact |
| Filler.FillingChosen | src/inplace.rs:733-803 | which filling is written: least tags, one record wherever one fills, else the least filler in front; a varint wherever lawful at that width, else a LEN record, its prefix five bytes under the tolerant standard |
| Filler.Fill | src/inplace.rs:760-803 | the writer lands that filling on the extent and moves no other byte |
| Writes.Commit | src/inplace.rs:814-871 | the write loop lands every planned write in list order |
| Writes.LandedInside | src/inplace.rs:814-871 | after disjoint writes every extent holds its own entry's bytes |
| Writes.LandedOutside | src/inplace.rs:814-871 | a byte no extent covers is unchanged |
| Writes.OrderIsIrrelevant | src/inplace.rs:83-92 | the same disjoint writes in any order, even repeated, land one buffer |
| RuleSet.Judge | src/inplace.rs:382-432 | admits exactly the lawful, in-class, pairwise distinct rule sets, else names the first error in judging order |
| RuleSet.AdmissibleRulesCompile | src/inplace.rs:521-545 | what authoring admits the matcher and the job take |
| Acceptance.OversizeNeverMeant | src/inplace.rs:401-412 | a payload is oversize if and only if no lawful record could take it, and a replacement record if and only if none of a document its size can |
| InPlace.VerdictIsTheMatchers | src/inplace/grouped.rs:688-700 | the verdict the judgment uses is the one answer the matcher can give |
| InPlace.WalkedByLanguage | src/inplace/grouped.rs:895-1014 | the LEN records walked are exactly those some path continues past with no owning claim on them or above |
| Acceptance.ClaimExact | src/inplace/grouped.rs:443-510 | a claim is allowed if and only if some lawful records of the same size and depth are what its action asks for, its write then means those, and a refusal has the kind, need and have its rule and bytes call for |
| Acceptance.SatisfiedIffUnopposed | src/inplace/grouped.rs:640-1016 | a record's claim, renumbers included, has a lawful meaning if and only if nothing is held against it |
| Acceptance.BodyJudged | src/inplace/grouped.rs:524-1016 | a body is allowed if and only if no record met is objected to, else refused for the one objection furthest to the front |
| Acceptance.JobIsExact | src/inplace/grouped.rs:524-1016 | a job over a readable document is allowed if and only if every claimed record it meets has a lawful equal-width meaning, else refused for the first that has none |
| EqualWidth.ClaimLands | src/inplace/grouped.rs:780-1000 | every claimed record's single write lands exactly what its rule means, lawfully, at the same size and within the depth budget |
| EqualWidth.GroupRenumberLands | src/inplace/grouped.rs:640-721 | a renumbered group's interior, start tag and end tag land as one renumbered group |
| EqualWidth.BodyLands | src/inplace/grouped.rs:524-1016 | a body's judged writes are disjoint, stay inside it, and land its edited records, at every nesting depth |
| EqualWidth.PlanLands | src/inplace.rs:11-23 | an allowed plan lands the edited document at the same length, and it re-ingests under the same standard and limit, opaquely and under every route it conforms to |
| Geometry.MetStands | src/inplace.rs:11-23 | every record the walk meets and no rule overwrites whole, container or leaf, keeps offset, kind, widths and extent, with the number its claim gives it, at whatever depth |
| Geometry.MetStaysPut | src/inplace.rs:83-92 | over a whole job a record of the same frame stands there after the commit, its bytes at that offset, and it is the very record if unclaimed and a leaf |
| Landing.LandedMeans | src/inplace.rs:814-871 | over a whole job, where a record claimed for a value, an extent or a filling stood, at whatever depth, the landed bytes are whole records its action means |
| Geometry.QuietIffUnclaimed | src/inplace/grouped.rs:524-1016 | a job plans no write and no refusal if and only if no record of the document is claimed where it stands, and then changes nothing |
| FirstFault.EveryFlow | src/inplace/grouped.rs:524-1016 | judging while reading gives the tree's judgment and receipt where a body reads as records; where it breaks, the first refusal by a rule of what was read before, and the breach itself when no rule refuses any of it |
| FirstFault.ReadFronts | src/inplace/grouped.rs:524-1016 | what was read before a breach, at every depth, is lawful records read by their routes, spells the front of the bytes, and ends no later than the breach |
| Unfinished.UnreadableIsExact | src/inplace/grouped.rs:524-1016 | a document that breaks off is refused for what stands furthest to the front of all the rules hold against the records read and heads entered, and where they hold nothing for the breach its bytes call for |
| Unfinished.HeadOwnIs | src/inplace/grouped.rs:640-778 | a head alone is refused exactly for what the rules hold against every record it could begin, a group past its depth for that before its tag |
| Tally.ReceiptTallies | src/inplace.rs:559-600 | each counter of a landed job's receipt is the number of records met that are claimed for its own kind of action |
| Tally.MeetingsRise | src/inplace/grouped.rs:524-1016 | the records a job meets are met once each, in rising places |
| Judgment.PlanIsTrees | src/inplace/grouped.rs:524-1016 | a document that reads as records is never refused for its bytes, and the receipt counts each claimed record the walk meets once |
| FirstFault.UnreadableJudged | src/inplace/grouped.rs:340-356 | any other document is refused: by the first rule to refuse a record or container head read before the breach, at a place no later, else for the breach's own place and class, those its bytes call for |
| Machine.GroupTaken | src/inplace/grouped.rs:640-778 | entering an unclaimed group and leaving it at its end tag is its judgment, at the same depth account |
| Machine.GroupRenumbered | src/inplace/grouped.rs:640-721 | a renumbered group's pair is held back until its own end tag, found by layer and depth, and both writes land there or none |
| Machine.PairsClosed | src/inplace/grouped.rs:391-405 | pending pairs stay in nesting order, so the last one is the closing group's or no one's |
| Machine.OwnerTaken | src/inplace/grouped.rs:589-750 | a group wholly overwritten is skipped to its end tag, where its extent is judged |
| Machine.SkipDeeper | src/inplace/grouped.rs:577-588 | groups inside a skipped extent spend the same depth account |
| Machine.PayloadTaken | src/inplace/grouped.rs:894-1014 | a routed LEN record opens a layer of its own and its layer's end resumes the record after it |
| Lanes.LanesFit | src/fixed_inplace/grouped.rs:144-170 | at every state of the walk the layers, the open groups of all layers and the pending pairs fit the capacities derived for them, and so does each next push: a met group, a committed layer, a pending pair, a replacement's own nesting |
| Lanes.CapsAreTaken | src/fixed_inplace/grouped.rs:144-170 | each of those capacities is taken whole by some state the walk's invariant admits |
| Lanes.DescendedLaned | src/fixed_inplace/grouped.rs:804-824 | a committed LEN descent keeps the depth account and lies where some path still continues |
| Walk.TakeTurn | src/inplace/grouped.rs:524-1016 | one event of the cursor: the job's judgment as it was, less left to read, the matcher at the state's place, pairs in nesting order, every lane within its capacity |
| Walk.Judge | src/inplace/grouped.rs:524-1016 | the loop over windows, open groups, skipped extents and pending pairs, asking the heap matcher, computes the judgment of the whole document before the first write, an oversize one refused at once |
| Walk.Apply | src/inplace/grouped.rs:1027-1083 | on a fault, the judgment's own with its place, every byte is as it was; a readable document lands if and only if every claim it meets has a lawful meaning, its receipt tallied; then only planned extents changed, the buffer is the edited document with its receipt, and it re-ingests |
| Carving.HeadAlign | src/fixed.rs:31-41 | the ladder's maximum alignment, one for bare bytes |
| Carving.Descending | src/fixed.rs:48-57 | comparing neighbours decides the whole order |
| Carving.PadAligns | src/fixed.rs:73-78 | the wrapping pad is under the head alignment and reaches a multiple, at every address |
| Carving.Carve | src/fixed.rs:94-115 | a slab of the exact price carves at every address into aligned, gap-free, exactly sized lanes inside it |
| Carving.TilesAreDisjoint | src/fixed.rs:94-115 | carved extents are disjoint and adjacent |
| Carving.PriceIsTight | src/fixed_inplace.rs:330-340 | past a multiple of the head alignment a priced slab is consumed to its last byte |
| Carving.Priced | src/fixed_inplace.rs:345-361 | the saturating price is the exact price, capped at the largest word |
| Carving.Door | src/fixed_inplace.rs:330-361 | a slab is refused exactly when shorter than the exact price, else carved |
| Stores.CopyPushed | src/fixed_patch.rs:743-750 | a copied payload is a new extent that leaves every published payload alone |
| Stores.FrameAbandoned | src/fixed_patch.rs:883-885 | abandoning reclaims exactly the frame's bytes |
| PatchStore.Lane.Push | src/fixed_patch.rs:285-289 | refuses exactly at capacity with the lane unchanged; the peak is the highest length so far |
| PatchStore.ByteLane.Extend | src/fixed_patch.rs:436-442 | refuses exactly the chunks that do not fit, with the pool unchanged |
| PatchStore.FixedStore.PushCopiedBytes | src/fixed_patch.rs:743-750 | slot space judged before pool space; a refusal names the spent role and changes nothing |
| PatchStore.FixedStore.SetCopiedBytes | src/fixed_patch.rs:770-774 | overwrites one payload with a staged copy, or refuses unchanged |
| PatchStore.FixedStore.StageChunk | src/fixed_patch.rs:860-865 | appends to the open frame within capacity, or refuses unchanged |
| PatchStore.FixedStore.StageFinishPush | src/fixed_patch.rs:896-902 | publishes the staged bytes as the next coordinate, or refuses with the frame still open |
| PatchStore.FixedStore.Pieces | src/fixed_patch.rs:827-838 | the pieces handed over concatenate to the payload at that coordinate |
| HeapStore.GrowingStore.PushCopiedBytes | src/editor.rs:419-424 | the heap twin's copy push, bounded by the coordinate and offset words |
| HeapStore.PayloadsKept | src/fixed_patch.rs:682-694 | over any run a published payload keeps its coordinate and bytes for as long as no command addresses it |
| HeapStore.WithinCapacityAgrees | src/fixed_patch.rs:682-694 | a run with no refusal is the same run on every larger store |
| HeapStore.AbandonedFrameIsInvisible | src/fixed_patch.rs:875-885 | a run ending in an abandoned frame, whatever its chunks, leaves the book of the run without it |
| HeapStore.ChunkingIsInvisible | src/fixed_patch.rs:854-902 | a payload staged in any chunks has a chunk refused exactly when the pool cannot take the whole, whose copy is then refused too; else it publishes, or is refused a slot, exactly as the whole copy is |
| Ledger.LastWriterHolds | src/fixed_patch.rs:682-902 | over any run every coordinate handed out holds the bytes last given it by an accepted push, overwrite or finished frame, and the pool has taken exactly the accepted copies |
| Ledger.GivenStays | src/fixed_patch.rs:743-774 | what an accepted command gave a coordinate stays there while no later accepted command writes it |
| Ledger.AcceptedIffRoom | src/fixed_patch.rs:743-902 | a command in frame discipline is accepted if and only if the run so far left a slot for each new coordinate and a place for each copied byte |
| Ledger.RefusalNamesRole | src/fixed_patch.rs:743-750 | a refusal names the spent role, slots before bytes |
| Ledger.ReadBack | src/fixed_patch.rs:827-838 | after any script the pieces handed over for a coordinate are the bytes last given it |
| HeapStore.Lockstep | src/editor.rs:327-601 | any script: the plan-sized store follows the abstract book, its heap twin agrees on every accepted command, and the peak is the highest pool length reached |

## Left out

- CopyCore: the copy-only builder is modelled as the one machine run on the copied program, which registers no borrow; its own event type is not a separate class.
- Builder.Core.BeginGroup: the source's `group_frame` takes the body as a closure; here its two halves run around the body, and unwinding out of a body is the Abandoned outcome only.
- Builder.Core.Account: the 64-bit account is an unbounded number; the cap keeps a healthy total under 2^31, and the wrap of the attempted sum is not modelled.
- Builder.Core.PutPackedFixed32: one fixed-width packed form and one varint packed form stand for all typed and packed convenience wrappers.
- Vec growth, reservations, `MaybeUninit`, raw pointers and lifetimes: vectors are sequences, carved lanes and buffers are arrays, borrowed payloads are values.
- Fixed.FixedMatcher.SortStaged: `sort_unstable` is a function of the staged states, not an algorithm; sorting order and membership are what the proofs use.
- Walk.Judge: a wire fault carries its place and one of the six breach classes, not the cursor's finer kinds (stage, field, opening offset). The vectors, the layer stack and the pending stack are sequences, and the loop's arms are methods of their own.
- Walk.Apply: the receipt's 32-bit counters are unbounded numbers.
- Lanes.LanesFit: the fixed-memory walk is the same loop with its stacks in carved lanes; the lanes' bounds are proved over that loop's states, its carve and matcher are modelled apart, and its Gauge counters and its refusal of a full write list are not.
- The groupless dialect walk is not modelled: it is the grouped one without group records.
- Capacity.WalkFits: models the five matcher lanes; the layer, open-group and pending lanes are those of Lanes.LanesFit, and the write lane alone is sized by the caller's plan.
- Respelling.SecondSpellingUnderCap: a path of exactly 65,535 segments whose loose hops each have one wildcard neighbour holding the field, along with other fields, may or may not have a second spelling under the cap; it has one without the cap.
- WordStore, the borrowed-only store and the copy-only store: the mixed payload store covers their faces; they would repeat its members with fewer slot kinds.
- PatchStore.FixedStore.StageChunk: the sized doors' pre-judged appends and the heap frame's reservations are the same append without its check.
- Carving.Carve: lane element types are an alignment and a size; extents are address ranges, not typed slices.
- Writes.Commit: rule payloads are values, so their not aliasing the buffer is by construction.
- Pump, maintain, commission, draft, markup, overhaul, refit, session and replay modules: not part of this model.
