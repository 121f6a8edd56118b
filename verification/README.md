# Verification of YOLOmux's editor algorithms and check gate

This project models the algorithms at the core of two parts of YOLOmux and
proves what they promise. `dafny verify dfyconfig.toml` checks it.

The first part is the document editor that the browser bundle
`static/prosemirror.js` carries. The bundle is minified, so its lines are long;
the names below are the readable ones, with the minified ones in brackets.

- **Documents** (`Documents` to `Slicing`). A document is a tree, and at the
  same time a flat list of tokens: an opening and a closing token for each
  element, one for each leaf and each character. `replace` (`Pi`, `qi`, `hn`,
  `wt`, `ze`, `sa`) works on trees; it is proved to be the splice of the token
  lists, exactly when the slice fits and the outcome is valid. A schema is two
  unknowns: which content a type accepts and which types share content.
- **Steps, maps and transforms** (`Structures`, `Steps`, `StepLimits`,
  `StepLaws`, `Maps`, `Mappings`, `Transforms`). Inverting and merging steps
  (`J`), the guard of structure steps (`Su`), mapping positions with recover
  values and mirrors (`xe`, `$t`), runs of steps (`Pn`).
- **Undo history** (`Ropes`, `Branches`, `BranchRopes`, `History`). The history
  (`it`, `de`, `he`, `Xd`, `Qd`, `Gd`) on its rope (`q`, `Zl`, `Jd`) refines two
  stacks of document snapshots. Its steps are any that obey an inverse law and a
  merge law; `StepLaws` shows that the editor's own steps do when sharing
  content is an equivalence of node types.
- **Content expressions** (`Expressions`, `Meanings`, `Faithful`, `Nfas`,
  `Wiring`, `Readings`, `Labels`, `ContentAutomata`, `Builders`, `Searches`,
  `Rounds`, `Closures`, `Subsets`) and the searches over the states they compile
  to (`Matches`, `Fillings`, `Wrappings`). For every parsed expression `Meanings.Whole` is
  the expression that its automaton (`ma`, `ga`) stands for: it never allows
  less, and `Faithful` says where it allows the same. `Rounds` says when the
  search for closures (`Ai`) ends. `fillBefore` is sound and complete, and
  `Fillings` says when its nodes can be made; `computeWrapping` finds shortest
  chains.
- **Markdown emphasis** (`Delimiters`, `Pairing`, `Emphasis`), by the rules of
  section 6.2 of the CommonMark specification, and **Punycode** (`Punycode`,
  `Spellings`, `Samples`, `Strings`), by sections 5 to 7.1 of RFC 3492.
- **Decorations** (`Spans`): splitting overlaps. **Marks** (`Marks`): adding to
  a set.

The second part is the check gate, written in Python.

- **Locks** (`Locks`, `Exclusion`): check runs and pytest runs as interleaved
  steps over one lock and one lease; who waits for whom, and who runs beside whom.
- **Retirement** (`Retirement`): joining a run's processes under reused numbers.
- **Certification** (`Certification`): from evidence to exit status.
- **Instances** (`Instances`): the environment of one port.

Code that changes things in place is modelled by methods with loops, on arrays,
fields or local sequences, each proved against a function or a relation; code
made of expressions and recursion is modelled by functions. What the source
promises is then stated of those functions in lemmas.

## Findings

Where the code does less than its documentation or its names suggest, the model
follows the code, a lemma names an input, and another says exactly when the
promise holds.

- The inverse of a step can be refused, and so can the merge of two steps that
  apply in turn. Both need types F, S and T where F shares content with S and S
  with T, but F not with T (`InverseRefused`, `MergeRefused`; the conditions are
  in `InvertUndoes` and `MergeBackward`).
- The guard that keeps structure steps from replacing content does not see the
  rest of a text that the range starts in (`GuardMissesText`; the condition is
  in `GuardRightExactly`).
- A position at the end of a deletion directly behind another range of the same
  map does not come back through the inverse map (`EndIsLost`; the condition is
  in `AllComeBack`). Maps of single steps have one range.
- Trimming a history of depth one counts events that it did not drop as dropped
  (`DepthOneMiscounts`; the condition is in `CountAfterEvent`).
- Compiling a range `{0,}` lets its loop leak into what shares its start
  (`LoopFromZeroWrong`). What the automaton then accepts is `Whole`, for any
  expression; for a choice, `RoundsRightExactly` says when that is right. It is
  always right where each such range starts at a node of its own, as after the
  first part of a sequence (`Meant`).
- The search for closures follows an edge from or to a node that is only passed
  through without looking whether it has been there. It ends exactly when it
  cannot come to a way around over such edges alone (`SearchEndsExactly`);
  `LoopOverNothingNeverEnds` has an expression for which it never does.
- A rope of one leaf, sliced at a negative end, slices as an array would
  (`LeafFromBehind`; the condition is in `SliceIsBetween`).
- Punycode cannot take every string there and back: from 1928 code points on the
  encoder may write what the decoder overflows on (`LongStringOverflows`,
  `EncodeLongString`; the conditions are in `Encode`).
- The check of a schema for dead ends (`ba`) does not ensure that nodes can be
  filled: two types that each have to hold the other pass it, and making either
  never ends (`EachOtherNeverMade`; the condition is in `MadeExactly`).
- A JUnit document that does not parse is given a reason by the strict reader,
  but the phase then reads it again with the lenient reader, which raises; the
  run ends by an exception and not by that reason (`MalformedRaises`; the
  condition is in `RunCertificationPhase`).

## Model

| member | source | states |
|---|---|---|
| `Documents.TokensInjective` | static/prosemirror.js:1 | Normal sibling lists with the same tokens are the same lists: a document is determined by its flat tokens, so the tree code can be judged on tokens alone |
| `Positions.FindIndexPlace` | static/prosemirror.js:1 | `Fragment.findIndex` lands on a child boundary, or strictly inside the child it names, for every offset |
| `Positions.LeftRightSlices` | static/prosemirror.js:1 | What lies left and right of a resolved position is the token list cut at its offset |
| `Positions.ResolveUnique` | static/prosemirror.js:1 | `ResolvedPos.resolve` finds the one valid path for an offset: any valid path with that offset is the resolved one |
| `Positions.AroundIsOpen` | static/prosemirror.js:1 | The ancestors of a resolved position are exactly the elements opened and not yet closed by the tokens before it |
| `Splice.CutTokens` | static/prosemirror.js:1 | `Fragment.cut` holds the tokens of the range, balanced by reopening what is open at its start and closing what is open at its end |
| `Splice.TwoWayTokens` | static/prosemirror.js:1 | A successful `replaceTwoWay` has the tokens before `from` followed by those after `to` |
| `Splice.ThreeWayTokens` | static/prosemirror.js:1 | A successful `replaceThreeWay` has the tokens before `from`, between the ends of the slice, and after `to`, in this order |
| `Exactness.TwoWaySound` | static/prosemirror.js:1 | If the two-way join succeeds, every pair of nodes it joins is compatible, and the result is the one a schema refusing nothing gives |
| `Exactness.TwoWayComplete` | static/prosemirror.js:1 | If all joined pairs are compatible and the unrefused result is valid, the two-way join succeeds |
| `Exactness.ThreeWaySound` | static/prosemirror.js:1 | As for the two-way join, with both ends of a slice |
| `Exactness.ThreeWayComplete` | static/prosemirror.js:1 | As for the two-way join, with both ends of a slice |
| `Cutting.CutNormal` | static/prosemirror.js:1 | Cutting a normal fragment leaves no empty text and no two neighbouring texts that should be one |
| `Cutting.FlatResult` | static/prosemirror.js:1 | A closed slice put between two positions of one parent gives normal content, valid if all parts were |
| `ReplaceExactly.ReplaceSplices` | static/prosemirror.js:1 | Whatever `replace` returns, for trees of any depth, is the flat splice: tokens before, the slice without its open ends, tokens after |
| `ReplaceExactly.ReplaceKeeps` | static/prosemirror.js:1 | `replace` keeps documents normal, and keeps them valid when the slice is |
| `ReplaceExactly.ReplaceReaches` | static/prosemirror.js:1 | If the slice fits and the splice is the token list of some valid document, `replace` returns that document |
| `ReplaceExactly.ReplaceIsSplice` | static/prosemirror.js:1 | `replace` returns a document exactly when the slice fits its two ends and that document is the valid one whose tokens are the splice |
| `Stacks.AfterSlice` | static/prosemirror.js:1 | After reading a slice, each open node is either one the slice ends in, or still the one from before where the slice merged into it |
| `Slicing.SliceHolds` | static/prosemirror.js:1 | `Node.slice` holds exactly the tokens between its offsets inside its open ends, open to the depths of both ends |
| `Slicing.SliceIsTight` | static/prosemirror.js:1 | It is open no deeper than it has to be: no node of it is open on both sides |
| `Marks.AddToSet` | static/prosemirror.js:1 | The copy-on-write loop of `Mark.addToSet` computes the set that `AddedProper`, `AddedMarks` and `AddingAgain` speak of |
| `Marks.AddedMarks` | static/prosemirror.js:1 | A mark that is in the set, or that a mark in it excludes and which it does not exclude itself, changes nothing; any other ends up in the set, together with exactly the marks it does not exclude |
| `Marks.AddedProper` | static/prosemirror.js:1 | Adding to a set that is ordered by rank, without repeats and without clashes gives such a set, whatever excludes what |
| `Marks.AddingAgain` | static/prosemirror.js:1 | Adding the same mark a second time changes nothing |
| `Steps.ApplyEffect` | static/prosemirror.js:28 | A step that applies, structure steps included, replaces its range of tokens by those of its slice, and keeps documents normal and valid |
| `Steps.ApplyReaches` | static/prosemirror.js:28 | A step that its structure guard does not refuse reaches every valid document that has the effect it should have |
| `Structures.GuardLooksBehindText` | static/prosemirror.js:28 | The structure guard (`Su`) finds no content exactly when, from the end of the text the range starts in, as many tokens as the range has are element ends and then starts |
| `Structures.GuardIsRight` | static/prosemirror.js:28 | Where the range does not start inside a text, that is exactly when the range holds only element ends and then starts |
| `Structures.GuardRightExactly` | static/prosemirror.js:28 | Inside a text the guard is right exactly when the range is empty or the tokens behind the text are not all structure |
| `Structures.GuardMissesText` | static/prosemirror.js:28 | A document and a range with a character in it in which the guard finds no content |
| `Structures.FindContentBetween` | static/prosemirror.js:28 | The guard as it runs, climbing and then descending, computes the function of these lemmas |
| `Steps.StructureStep` | static/prosemirror.js:28 | A structure step that does not start inside a text applies as any step would if its range holds nothing but element ends and then starts, and is refused if not |
| `Steps.InvertUndoes` | static/prosemirror.js:28 | The inverse of an applied step gives back the document exactly when the nodes that meet at the end of the range can be joined, and otherwise fails |
| `Steps.HalfClosedInverts` | static/prosemirror.js:28 | A step whose slice is closed on one side can always be taken back |
| `Steps.MergesExactly` | static/prosemirror.js:28 | Two steps merge exactly if neither is a structure step and the second goes on or ends where the first did or began, both slices being closed there |
| `Steps.MergeForward` | static/prosemirror.js:28 | Merging with a step that goes on where the first ended has the effect of both in turn, always |
| `Steps.MergeBackward` | static/prosemirror.js:28 | Merging with a step that ends where the first began has the effect of both exactly when the outer sides can be joined directly |
| `StepLimits.InverseRefused` | static/prosemirror.js:28 | A document and a step whose inverse is refused, because sharing content is not transitive |
| `StepLimits.MergeRefused` | static/prosemirror.js:28 | Two steps that apply in turn while their merge is refused, for the same reason |
| `StepLaws.EndsAlwaysJoin` | static/prosemirror.js:28 | Where sharing content is an equivalence of types, every applied step can be taken back |
| `StepLaws.MergedAlwaysJoin` | static/prosemirror.js:28 | Where it is, backward merges are never refused |
| `StepLaws.StepsObeyLaws` | static/prosemirror.js:28 | Where it is, real steps on valid documents satisfy the inverse and merge laws that the undo history is proved from |
| `Maps.MapMonotone` | static/prosemirror.js:28 | Mapping through one step map keeps positions in order, also where ranges touch |
| `Maps.InsideGoesAside` | static/prosemirror.js:28 | Strictly inside a replaced range a position goes where the end of the range goes if it sticks to what is behind it, and where its start goes if not, and is deleted on both sides |
| `Maps.EndGoesToEnd` | static/prosemirror.js:28 | The end of a range goes to the end of what replaced it, with the token before it reported deleted, and a recover value only where it sticks to that side |
| `Maps.StartGoesToStart` | static/prosemirror.js:28 | The start of a range goes to the start of what replaced it, likewise |
| `Maps.InsertedAside` | static/prosemirror.js:28 | At an insertion a position goes to the side it sticks to, and nothing is reported deleted |
| `Maps.BetweenRanges` | static/prosemirror.js:28 | Between ranges a position moves by what the ranges before it grew, and nothing is reported deleted |
| `Maps.InverseFrom` | static/prosemirror.js:28 | The inverse map undoes the map, except inside a replaced range, where its recover value does |
| `Maps.AllComeBack` | static/prosemirror.js:28 | All positions come back through the inverse or by their recover values exactly when they stick to what is before them, or no range is a deletion directly behind another range |
| `Maps.EndIsLost` | static/prosemirror.js:28 | At the end of such a deletion a position that sticks to what is behind it comes back somewhere else |
| `Mappings.RoundTrip` | static/prosemirror.js:28 | Through any maps with that property and then their mirrored inverses every position comes back, also when it was deleted on the way |
| `Mappings.RoundTripExactly` | static/prosemirror.js:28 | Mapped from each of the maps on, all positions come back exactly when each of the maps has that property |
| `Mappings.DeletedOnTheWay` | static/prosemirror.js:28 | Where no map mirrors another, what is reported deleted is what some map reports where those before it led |
| `Mappings.AppendBack` | static/prosemirror.js:28 | Appending maps and then their inverses, each as the mirror image of its map, gives the maps and the table of those lemmas |
| `Mappings.MapThereAndBack` | static/prosemirror.js:28 | So a position mapped through such a mapping comes back as they say |
| `Mappings.Mapping.SetMirror` | static/prosemirror.js:28 | Adds one mirrored pair, both ways, to the table |
| `Mappings.Mapping.AppendMap` | static/prosemirror.js:28 | Appends one map, and its mirrored pair if it has one; nothing else changes |
| `Mappings.Mapping.GetMirror` | static/prosemirror.js:28 | Finds the other half of the first pair that names a map |
| `Mappings.Mapping.MapResult` | static/prosemirror.js:28 | The loop that skips from a deleting map to its mirror image maps as the recursive reading of the table does |
| `Transforms.MapFollowsTokens` | static/prosemirror.js:28 | Outside the replaced range a position is mapped along with the token after it |
| `Transforms.DeletedAfterIsGone` | static/prosemirror.js:28 | A position is reported deleted on the side of exactly the tokens that the step replaced |
| `Transforms.UndoRetraces` | static/prosemirror.js:29 | Undoing a run step by step with its stored documents succeeds, and retraces every document, exactly when each single step can be taken back |
| `Transforms.UndoAll` | static/prosemirror.js:29 | If each can, undoing a run of any length returns the document it started from |
| `Transforms.Transform.AddStep` | static/prosemirror.js:29 | Stores the step, the document before it and its map, so that the stored documents still retrace the run |
| `Transforms.Transform.MaybeStep` | static/prosemirror.js:29 | Does a step that applies, and changes nothing at all otherwise |
| `Expressions.StarUnrolls` | static/prosemirror.js:2 | A star allows nothing, or a non-empty sequence of its body and then what it allows again |
| `Nfas.CompileShape` | static/prosemirror.js:2 | Compiling an expression leaves all earlier nodes and edges alone, and the edges it leaves open are its own |
| `Readings.Complete` | static/prosemirror.js:2 | What a compiled expression stands for can be read on the way from its start to what its open edges are connected to, and its loops from its start back to it |
| `Labels.Sound` | static/prosemirror.js:2 | Labelling each node with what may still follow it, every edge that compiling adds agrees with the labels; where every loop takes a type, edges taken for nothing go down in rank |
| `ContentAutomata.AutomatonAccepts` | static/prosemirror.js:2 | For every parsed expression, `{0,}` and loops over nothing included, the automaton accepts exactly what the compiled expression stands for |
| `ContentAutomata.AllowedIsAccepted` | static/prosemirror.js:2 | It never refuses what the expression allows |
| `ContentAutomata.AutomatonMeans` | static/prosemirror.js:2 | It accepts exactly what the expression allows where each `{0,}` starts at a node of its own and bounds are in order |
| `ContentAutomata.RoundsAccepted` | static/prosemirror.js:2 | Compiled, a choice between `b{0,}` and others accepts repetitions of `b` followed by nothing or by one of the others |
| `ContentAutomata.RoundsRightExactly` | static/prosemirror.js:2 | Such a choice is compiled rightly exactly when repetitions followed by one of the others are among what it allows |
| `ContentAutomata.LoopFromZeroWrong` | static/prosemirror.js:2 | The choice of `a{0,}` or `b` is compiled to accept `a b`, which it does not allow |
| `Searches.ScanFinds` | static/prosemirror.js:2 | What the epsilon search finds is closed, covers the node it starts at, and is come to from there for nothing |
| `Rounds.SearchEndsExactly` | static/prosemirror.js:2 | The search from a node ends exactly when it cannot come to a way around on which every edge leads from or to a node that is only passed through |
| `Rounds.SafeExactly` | static/prosemirror.js:2 | All searches that making the states starts end exactly when no node reached from the start can come to such a way around |
| `ContentAutomata.LoopsReadIsSafe` | static/prosemirror.js:2 | That is so for every expression whose loops all take a type |
| `ContentAutomata.LoopOverNothingNeverEnds` | static/prosemirror.js:2 | For a star over `(a?){1,1}` no depth of calls is enough for the search |
| `ContentAutomata.LoopOverOptionEnds` | static/prosemirror.js:2 | For a star over `a?` it ends, although an edge for nothing leads from a node to itself |
| `Builders.Builder.ConnectAll` | static/prosemirror.js:2 | Connecting open edges in place, one after the other |
| `Builders.Builder.Add` | static/prosemirror.js:2 | The compiler on growing arrays adds what the compiling function does, and returns its open edges |
| `Builders.Build` | static/prosemirror.js:2 | The arrays it ends with are the automaton |
| `Builders.CompileContent` | static/prosemirror.js:2 | From expression to content match, wherever the searches end: no state has two edges for one type, and the states end validly on exactly what the compiled expression stands for, which is what the expression allows under the condition above |
| `Closures.Follow` | static/prosemirror.js:2 | The recursive search with its loop over edges computes the search of these lemmas |
| `Closures.Closure` | static/prosemirror.js:2 | The sorted closure of a node covers it, is closed, and holds only nodes that it comes to for nothing |
| `Closures.ComesAbove` | static/prosemirror.js:2 | What a node comes to for nothing accepts, the node accepts |
| `Closures.ReadsFrom` | static/prosemirror.js:2 | Whatever is read from a covered node starts with a type taken by a node of the closure, or ends because the end is in it |
| `Subsets.GroupTargets` | static/prosemirror.js:2 | For each type, the nodes it leads to from a set: all that its edges lead to, and nothing else |
| `Subsets.Explore` | static/prosemirror.js:2 | Making the states of all reachable sets ends although each state may need new ones, and leaves every new state finished |
| `Subsets.StateAccepts` | static/prosemirror.js:2 | A state ends validly on exactly what the nodes of its set accept |
| `Subsets.Determinize` | static/prosemirror.js:2 | The states made from any safe automaton end validly on exactly what it accepts, and have one edge for each type |
| `Subsets.MatchingIsRunning` | static/prosemirror.js:1 | What a schema knows of the types does not change which state a fragment leads to |
| `Matches.MatchFragment` | static/prosemirror.js:1 | The matching loop follows the first edge of each type from the given child on |
| `Matches.Search` | static/prosemirror.js:1 | The depth-first search with its loop over edges computes the search of the next two lemmas |
| `Matches.LookFinds` | static/prosemirror.js:1 | The search, visiting no state twice, finds a filling shorter than the number of states or has explored all it saw |
| `Matches.FillingFills` | static/prosemirror.js:1 | What it finds fills the gap, and it finds something exactly when something does |
| `Matches.FillBefore` | static/prosemirror.js:1 | `fillBefore` finds types that can be generated and that make the fragment match, to the end if asked, exactly when there are any; the visited list loses none |
| `Fillings.MadeFits` | static/prosemirror.js:2 | A node that `createAndFill` makes has content that its type accepts to the end, of nodes that can be generated, all the way down |
| `Fillings.MadeExactly` | static/prosemirror.js:2 | `createAndFill` makes a node, at some depth of calls, exactly when the types of its fillings come neither to a type that has none nor back to one that was there before |
| `Fillings.CreateAndFill` | static/prosemirror.js:2 | The mutual recursion with its loop computes that, with refusals and exceptions |
| `Fillings.FillWithNodes` | static/prosemirror.js:1 | `fillBefore` with its nodes: nothing exactly where there is no filling, else nodes that close the gap and whose content fits, or an exception, where a type of the filling comes to such a dead end |
| `Fillings.EachOtherNeverMade` | static/prosemirror.js:2 | Two types that each have to hold the other pass the check for dead ends, and no depth of calls makes either |
| `Wrappings.MetInTime` | static/prosemirror.js:1 | A chain of wrappers ends in a type the search met no deeper than the chain is long |
| `Wrappings.Expand` | static/prosemirror.js:1 | After a state was expanded, exactly the types met before and those that fit in it have been met, each new one queued with its depth |
| `Wrappings.TypesOf` | static/prosemirror.js:1 | Reads the chain of a queue entry back to its root, outermost first |
| `Wrappings.ComputeWrapping` | static/prosemirror.js:1 | `computeWrapping` returns a legal chain than which none is shorter, and nothing only when there is no legal chain |
| `Delimiters.PlainNeverCrosses` | static/prosemirror.js:19 | The pairs of the plain delimiter scan never cross |
| `Delimiters.JumpFinds` | static/prosemirror.js:19 | Following the jump table loses no opener |
| `Delimiters.NothingBelow` | static/prosemirror.js:19 | Below the bottom kept for its class a closer finds no opener |
| `Delimiters.BalancePairs` | static/prosemirror.js:19 | The pairing with jump table and lower bounds leaves the delimiter array as the plain leftward scan does, skipping what is already paired and obeying the rule of three |
| `Pairing.PairedRightly` | static/prosemirror.js:19 | Told from the delimiters as collected: each pair obeys the rules of the specification, the rule of three included, is of two runs, and encloses nothing free that its closer could have been paired with; a closer without a pair has nothing free before it that it could be paired with |
| `Emphasis.RenderEmphasis` | static/prosemirror.js:19 | The post-process writes the open and close tokens of every pair, fused or not, and touches no others |
| `Emphasis.PairBecomes` | static/prosemirror.js:19 | Told from the tokens: a pair is emptied if a pair that touches it from inside on both sides became strong; else it becomes strong if a pair of its marker touches it from around on both sides, and plain emphasis if none does |
| `Emphasis.OthersStay` | static/prosemirror.js:19 | A token that belongs to no pair stays as it was |
| `Emphasis.WellNested` | static/prosemirror.js:19 | The tokens it writes are properly nested: each close matches the innermost open in kind and markup, and nothing stays open |
| `Emphasis.BalancedIsReady` | static/prosemirror.js:19 | What pairing leaves is what rendering needs |
| `Emphasis.LevelIsDepth` | static/prosemirror.js:19 | The recomputed level is the number of open emphases |
| `Emphasis.LevelsNeverNegative` | static/prosemirror.js:19 | So it never goes below zero, and ends at zero |
| `Punycode.AdaptBias` | static/prosemirror.js:19 | The bias loop computes the bias function of the round trip |
| `Punycode.BiasIs` | static/prosemirror.js:19 | The bias of section 6.1 of RFC 3492: 36 for each division by 35 that a later delta takes, and a share of 36 by what is left |
| `Punycode.FirstIsDamped` | static/prosemirror.js:19 | The first delta counts a seven-hundredth where later ones count half |
| `Punycode.ReadDigits` | static/prosemirror.js:19 | Reading back the digits of an integer gives the integer exactly when it fits 31 bits, and overflows otherwise: the guard on the weight of a digit never fires |
| `Punycode.AdaptBound` | static/prosemirror.js:19 | No bias is large enough for the thresholds to be low past the sixth digit |
| `Punycode.SameBias` | static/prosemirror.js:19 | The count of points the encoder fixes at the start of a pass gives the decoder's bias for every later equal code point |
| `Punycode.RunDelta` | static/prosemirror.js:19 | One more delta written is one more code point inserted by the decoder, exactly if its counter fits |
| `Punycode.WritePass` | static/prosemirror.js:19 | One pass writes all occurrences of one code point so that the decoder inserts them where they were |
| `Punycode.Encode` | static/prosemirror.js:19 | The encoder overflows exactly where a delta, or the count of what is behind the last code point written, does not fit 31 bits; what it writes decodes as what it was given exactly when every counter fits, and overflows otherwise; up to 1927 code points all of them fit |
| `Punycode.NotEncodable` | static/prosemirror.js:19 | Wherever the encoder counts past the limit, one of those deltas does not fit, or that count |
| `Punycode.LongStringOverflows` | static/prosemirror.js:19 | A string one code point longer than that whose deltas fit while a counter does not |
| `Punycode.EncodeLongString` | static/prosemirror.js:19 | The encoder takes that string, and the decoder overflows on what it wrote |
| `Punycode.DecodeUnits` | static/prosemirror.js:19 | The decoding loop, with its insertions and error cases, computes the decoding function |
| `Spellings.OneSpelling` | static/prosemirror.js:19 | Of all strings without capitals among their digits only one decodes to given code points |
| `Spellings.EncodeDecoded` | static/prosemirror.js:19 | So encoding what such a string decodes to gives the string back, wherever encoding and decoding go there and back |
| `Spellings.DecodesOnly` | static/prosemirror.js:19 | A string that decodes has basic code points before its last delimiter, letters and digits behind it, and decodes to code points |
| `Samples.SampleDecodes` | static/prosemirror.js:19 | Sample (R) of section 7.1 of RFC 3492 decodes to its code points |
| `Samples.EncodeSample` | static/prosemirror.js:19 | And those are encoded as the sample |
| `Strings.DecodeUcs2` | static/prosemirror.js:19 | The loop that takes a string apart pairs surrogates and lets stray ones stand for themselves |
| `Strings.StringComesBack` | static/prosemirror.js:19 | Every string comes back from its code points, which are in range |
| `Strings.CodePointsComeBack` | static/prosemirror.js:19 | Code points come back from the string they make exactly when no two neighbours are the halves of a pair |
| `Strings.EncodeString` | static/prosemirror.js:19 | Encoding a string overflows exactly where a delta does not fit; encoding and decoding gives the string back exactly when the counters fit too |
| `Spans.InsertAhead` | static/prosemirror.js:34 | Inserts a span at or after a place so that the array stays sorted |
| `Spans.RemoveOverlap` | static/prosemirror.js:34 | Splitting ends although it inserts while it scans; the outcome is sorted, no two spans partly overlap, and every measure that is additive at the boundaries is conserved |
| `Spans.SplitIsDisjoint` | static/prosemirror.js:34 | Two non-empty spans of the outcome overlap only if they cover the same, and no span begins or ends inside another |
| `Spans.CoverageKept` | static/prosemirror.js:34 | Each unit stretch is covered by as many spans of each type as before, and empty spans stay where they were |
| `Spans.PiecesAreExact` | static/prosemirror.js:34 | Each span is cut into exactly as many pieces as there are boundaries inside it, plus one |
| `Ropes.ConcatIsConcat` | static/prosemirror.js:34 | Appending ropes appends their sequences, whichever of the four ways is taken, and keeps stored sizes exact |
| `Ropes.ConcatHeight` | static/prosemirror.js:34 | An append is at most one level higher than the higher of the two |
| `Ropes.SliceIsBetween` | static/prosemirror.js:34 | Slicing a rope slices its sequence, exactly unless a single leaf is cut at a negative end |
| `Ropes.LeafFromBehind` | static/prosemirror.js:34 | A leaf of two, sliced from -3 to -1, gives its first element, and not nothing |
| `Ropes.Get` | static/prosemirror.js:34 | Indexing agrees with the sequence, inside and outside its bounds |
| `Ropes.ForEachInner` | static/prosemirror.js:34 | Visiting upwards, with an early stop, visits the sequence |
| `Ropes.ForEachInvertedInner` | static/prosemirror.js:34 | Visiting downwards, with an early stop, visits the sequence from behind |
| `Branches.AddStepsKeeps` | static/prosemirror.js:34 | Adding the inverses of a transaction, merged or not, keeps every snapshot and adds the one before it if it begins an event |
| `Branches.AddTransformKeeps` | static/prosemirror.js:34 | With trimming too: at most one snapshot is added, and past the limit only the newest ones are left |
| `Branches.CountAfterEvent` | static/prosemirror.js:34 | The event count is right after an event begins exactly when the depth is at least two or nothing needed trimming |
| `History.DepthOneMiscounts` | static/prosemirror.js:34 | With a depth of one, the twenty-second event from the start leaves the count wrong |
| `Branches.PopEventIs` | static/prosemirror.js:34 | Popping an event comes to the newest snapshot and leaves a branch with the others |
| `BranchRopes.TrimRope` | static/prosemirror.js:34 | The early-stopping walk over the rope cuts where the oldest events end |
| `BranchRopes.AddTransformTo` | static/prosemirror.js:34 | The loop over steps, merging into the rope or the new items, adds what the specification adds |
| `BranchRopes.PopEventFrom` | static/prosemirror.js:34 | The backward search and the inverted walk pop what the specification pops |
| `History.NextRefines` | static/prosemirror.js:34 | One recorded transaction, undo or redo does to the history what it does to two plain stacks of snapshots |
| `History.RunsRefine` | static/prosemirror.js:34 | So does any run of them |
| `History.CountsAreRight` | static/prosemirror.js:34 | In every reachable state each branch's count is its number of selection-bearing items and at most depth + 20 |
| `History.UndoRestores` | static/prosemirror.js:34 | An undo brings back document and selection from before the whole event, however many recordings went on with it |
| `History.UndoneAlone` | static/prosemirror.js:34 | After two recordings an undo takes back only the second if the history was closed in between, or the second was not appended, is of no or another composition, and came later than the delay or elsewhere |
| `History.UndoneTogether` | static/prosemirror.js:34 | It takes back both, where the first began an event, if the second was appended, or is of the same composition, or came within the delay and next to it |
| `History.UndoneAfterUndo` | static/prosemirror.js:34 | A recording after an undo or a redo is always an event of its own |
| `History.NothingToRedo` | static/prosemirror.js:34 | After a recording that changed something there is nothing to redo |
| `History.RedoRestores` | static/prosemirror.js:34 | A redo straight after an undo brings back the document, and all there was to go back or forward to |
| `Locks.DoKeeps` | tools/check.py:561-586 | Every step of any check, pytest or direct run keeps the invariant, interrupts included |
| `Locks.OneOwner` | tools/tool_guard.py:54-86 | At most one process holds the tool lock, and at most one the lease |
| `Locks.QueuedHoldsNothing` | conftest.py:145-170 | A run queued on the tool lock holds no lease of its own |
| `Locks.OwnerNeverQueues` | tools/tool_guard.py:27-35 | No owner of the tool lock waits for it, neither itself nor through any chain of processes it waits for |
| `Locks.NeverCircular` | tools/check.py:1807-1811 | No process waits for itself through others, although the two kinds take lock and lease in opposite orders |
| `Locks.NeverStuck` | conftest.py:157-170 | While any process is left, some process can go on |
| `Exclusion.DoLends` | conftest.py:133-170 | Every step keeps what is lent: a check owns its lease as long as it needs one, a token comes from the owner of a lease, and a run without the tool lock has it from a check |
| `Exclusion.StartsAdmitted` | conftest.py:157-170 | A process starts to run only if it then owns the lease or has the token of the process that does; a guarded check, or a run that collects more than names, only if it then owns the tool lock or was started by a check that declared it owns it |
| `Exclusion.NoOutsiderStarts` | conftest.py:157-170 | In every reachable state, while the lease is owned only its owner and those with the owner's token start to run |
| `Exclusion.RunsWithLease` | conftest.py:145-170 | In every reachable state what runs has a lease of its own or the token of a process that keeps the lease as long as it is there |
| `Exclusion.OneFamilyRuns` | conftest.py:145-170 | So all that run at the same time run with the lease of one process, as long as those that lend it are there |
| `Exclusion.RunsWithTools` | tools/check.py:561-586 | A guarded check and a run that has to wait its turn run with the tool lock, or by declaration of the check that started the run, which does own it while it is there and guarded |
| `Exclusion.AdmittedExactly` | conftest.py:157-170 | At the last thing it needs a process is admitted exactly if that is free or lent to it; else it is over, and nothing else has changed |
| `Exclusion.CheckTakesLease` | tools/check.py:1807-1811 | A check takes the lease exactly if it is free, before it asks for the tool lock |
| `Exclusion.QueuesExactly` | conftest.py:153-162 | A run queues for the tool lock exactly if it collects more than names and its parent does not own the lock |
| `Exclusion.ChildrenAdmitted` | conftest.py:141-156 | In every reachable state, what a running process started is never refused while that waits for it and the lease it runs with is owned |
| `Exclusion.ChildrenNeverQueue` | tools/tool_guard.py:27-35 | What a check that owns the tool lock started never queues for it |
| `Exclusion.GivenBackInOrder` | conftest.py:157-170 | A process gives back last what it took first |
| `Retirement.DescendantProcesses` | tools/check.py:1174-1201 | Exactly the transitive children, once each, with the identity read when found; ends on tables that go in circles |
| `Retirement.Prove` | tools/check.py:1298-1303 | Each number keeps the first identity it was seen with that was not inherited |
| `Retirement.RetireOwnedProcesses` | tools/check.py:1247-1325 | The survivors reported are those that still read their first identity; retired exactly when there is none, no container, and no unobservable client, at the first poll for which that is so |
| `Retirement.PassedMeansGone` | tools/check.py:1247-1325 | A passed barrier means that no descendant still has the new identity it was first found with, also under a number that was there before the run; that no container was listed, and that a run with containers could ask |
| `Retirement.PassedLeavesNothing` | tools/check.py:1247-1325 | A passed barrier has a poll after which no descendant still has the new identity it was first found with, and no container is listed |
| `Certification.JunitAdmission` | tools/check.py:1372-1428 | Admits exactly the absent document and those in which every row is expected, identified, unique, timed and unambiguous; else names the first problem |
| `Certification.AcceptableIs` | tools/check.py:1372-1428 | Admitted are exactly the documents in which each row names an expected unit of its own, has a time that is a finite number and not negative, has only known children and at most one that says skipped, failed or erroneous |
| `Certification.FirstReason` | tools/check.py:1390-1415 | A row is rejected for the first of eight reasons, in their order, that holds of it |
| `Certification.ReadOutcomes` | tools/check.py:1431-1448 | The lenient reader takes the last row of each node, and raises on documents that do not parse and times that are no numbers |
| `Certification.ReadersAgree` | tools/check.py:1372-1448 | On every admitted document the lenient reader returns what the strict one does |
| `Certification.VerdictIs` | tools/check.py:1431-1448 | In an admitted document a unit is not collected exactly if it has no row, skipped or failed exactly if a child of its row says so, and refused exactly if a failure spells out the refusal within its first 2000 characters |
| `Certification.RuledAsDeserved` | tools/check.py:1451-1513 | The verdict on what was gathered is told by the answers of host and barrier and by the rows: the strongest refusal first, then failed units, then a failed command |
| `Certification.RunCertificationPhase` | tools/check.py:1627-1694 | Ends with the ruling that the rows deserve, certified exactly when earned, the barrier being passed at some poll; ends by an exception exactly when a rejected document cannot be read leniently |
| `Certification.EarnedLeavesNothing` | tools/check.py:1627-1694 | A certificate that was earned had nothing of the lanes left at the barrier |
| `Certification.MalformedRaises` | tools/check.py:1627-1694 | With a document that does not parse the phase ends by an exception exactly when the barrier is passed and the host qualified, and nothing is ever earned |
| `Certification.MalformedPhase` | tools/check.py:1627-1694 | A phase with nothing to wait for and such a document ends with no certificate |
| `Certification.ExitStatus` | tools/check.py:1717-1874 | Exit status 0 exactly when the run got to its end, every lane passed and, unless lanes were named, the certificate was earned; 3 when lease or lock was busy, 130 when interrupted, 1 for failed lanes and failed units, 4 for what is not certifiable |
| `Instances.InstanceRoundTrip` | tools/instance_isolation.py:214-228 | What is written as an identity is read as that identity |
| `Instances.ReadIdentity` | tools/instance_isolation.py:218-228 | What is read as an identity is a number, a colon, and a word that says whether it is managed |
| `Instances.RowHasItsOwnRoot` | tools/instance_isolation.py:264-366 | A port that is not the default gets an environment exactly if the stripped one is valid without and with its own directory as root, and then gets that |
| `Instances.AutoRootExactly` | tools/instance_isolation.py:264-310 | Against the caller's environment, likewise without what an automatic root overrides |
| `Instances.RootsDiffer` | tools/instance_isolation.py:264-366 | Two such ports share a root only where the host gives both the same directory |
| `Instances.PlansDoNotLeak` | tools/instance_isolation.py:358-366 | Environments that agree outside the inherited keys give equal plans |
| `Instances.CleaningIsIdempotent` | tools/instance_isolation.py:408-412 | Cleaning a cleaned environment changes nothing |
| `Instances.ProcessEnvironment.ApplyInstanceResolution` | tools/instance_isolation.py:369-381 | Changes the environment in place as resolved, and not at all where there is no resolution |
| `Instances.ResolveDirectLaunchPlan` | tools/instance_isolation.py:384-397 | Computes the plan that the lemmas below speak of |
| `Instances.ManagedExactlyWhen` | tools/instance_isolation.py:384-434 | A direct launch gives a managed identity to exactly the port asked for, if it is not the default and the caller set no root |
| `Instances.DirectKeeps` | tools/instance_isolation.py:384-405 | Where a port gets no root of its own, a direct launch keeps all settings but the stale ones and, under a root of the caller's, those that it overrides |
| `Instances.ExplicitRootsSurvive` | tools/instance_isolation.py:384-397 | Roots that the caller set survive a direct launch |

## Left out

- Replace.PrepareSlice: keeps the path below the wrapping nodes and not the levels above the two ends, which are the same for both.
- Mappings.Mapping.Slice: takes copies; the original shares its arrays with the mapping it was taken from until one of them is extended.
- Mappings.RoundTrip: takes maps with fewer than 65536 ranges, the number a recover value has room for.
- Mapping's `appendMapping`, `appendMappingInverted` and `invert`, and steps other than replace steps: not modelled.
- Builders.CompileContent: takes automata on which every search ends; on others the original overflows its stack. Tokenizing, parsing and the dead-end warning are not modelled.
- Fillings.CreateAndFill: makes nodes without attributes and marks, from no content given. The cache of `findWrapping` is not modelled.
- Delimiters.BalancePairs: models one list of delimiters; each link has a list of its own, treated the same way.
- Strikethrough pairs (`vo`), and inline rules other than emphasis: not modelled.
- Strings.EncodeString: leaves out splitting domains at dots and lower-casing, which belong to the callers.
- History.Next: leaves out selections as objects (bookmarks are opaque), transactions that are appended to an undo or redo, those kept out of the history, `rebased`, `compress` and preserved items. Whether a change touches the ranges changed last is an input.
- Branches.PopEvent: takes branches whose count is zero or which hold an event; on others the original raises.
- Ropes.ForEach: takes bounds within the rope, as all callers give.
- Spans.RemoveOverlap: positions are integers; the copy-on-write of the input array shows only in that it is not changed.
- Marks.AddToSet: attributes are opaque values with equality.
- Locks.DoKeeps: process numbers are not reused, both kinds of run use one lock path, and a check starts its pytest runs directly; a lease is free again when its owner ends. The writer lease itself is not part of this model.
- Retirement.RetireOwnedProcesses: the process table, identities, container probes and the deadline are inputs; the deadline is the end of the list of polls, of which there is at least one.
- Certification.ExitStatus: capabilities, paths, locks, lanes, host qualification and git states are inputs, and so is how a time attribute reads as a number; performance reports and printed text are not modelled.
- Instances.ManagedExactlyWhen: path resolution and its validation are inputs; reading a port accepts a minus sign and digits, not the other spellings that Python's `int` takes.
- View, DOM parsing and serializing, clipboard, input handling, block rules, entities, linkifying and the Markdown serializer of the bundle, and all other tools of the repository: not modelled.
