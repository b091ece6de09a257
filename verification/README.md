# Verified models of the AIPL repository's algorithmic kernels

This Dafny project models the small algorithmic kernels of the repository and proves what they
promise: the dining-philosophers actor program, the Kneser-Ney byte models and their evaluator, the
CRDT runtime, the coherence-rule compiler with the generator it emits, the WebSocket outbound ring,
the `.aice` tokenizer and parser, non-dominated sorting and the lineage search. `dafny verify
dfyconfig.toml` checks everything.

| files | models |
|---|---|
| Schedules, Collections | finite runs of a state machine, shared by the two concurrent models; facts about built-in collections |
| Philosophers, PhilosopherRuns, PhilosopherActors | the actor program as a step relation over a bag of messages, its invariant and its runs, and the actors as objects |
| PhilosopherSpins, PhilosopherFairness, PhilosopherRounds, PhilosopherCycles | which schedules of it end: all of them, and the fair ones |
| Interpolation, KneserNey, KneserNeyMass, KneserNeyTop, KneserNeyFormulas, KneserNeyEval, KneserNeyTrain, FairEvaluator | the n-gram classes, how much mass they give out, training, the evaluators |
| Semilattice, GCounters, OrSets, OrSetTables, LwwRegisters | the CRDTs over their fixed tables and what they converge to |
| Aipl, Coherence, AiplText, Schemas, Genomes, Generators, Scores | the AIPL fragment used by generated code, the compiler, its string literals as text, the schema's own verdict, genomes as strings, the emitted generator and score reader |
| WsRing | the ring and the threads around it |
| AiceParser, AiceLexer | the grammar, the parser and the tokenizer |
| Analysis | Pareto layers and descendants |

## What the proofs found

- **Philosophers.** Safety and "can always finish" hold for any number of forks and philosophers, any
  targets and any two different forks per philosopher, without ordered delivery. Whether a run must
  finish is another matter. Under fair delivery the wiring decides. A fair run is cut into rounds that
  deliver at least everything in flight when they begin and may be of any length, so every run in
  which each message is delivered some time consists of such rounds. Fair runs are over within nine
  rounds a meal and one more if and only if no philosophers form a cycle in which each one's second
  fork is the next one's first (`FairIff`). The shipped program takes the lower fork first and so has
  no cycle; two philosophers with crossed forks can deny each other for ever with every message
  delivered (`CrossedSpin`). Under arbitrary delivery schedules are bounded if and only if no fork is
  shared and nobody eats twice (`BoundedIff`); sharing no fork is not enough, because a philosopher
  that thinks again before its own release has arrived is denied its own fork (`LoneSpins`). A target
  of zero or less still means one meal, since the target is only tested after eating.
- **Kneser-Ney.** The continuation orders are not always proper. A context gives out more than 1
  exactly when some suffix of it starts the training data, is followed by a byte somewhere else, but
  never again by the byte that follows it at the start: that continuation is counted in the back-off
  but nothing was discounted for it. The normalisation the exact classes promise "given the lower
  order is proper" is therefore stated with this exact condition. Inside the proofs amounts like D
  times N are written `Flat(D, N)`, repeated addition, which `FlatIsProduct` shows to be the product.
- **OR-Set.** Removing copies all add tags again, so k add-and-remove rounds on one element need
  k(k+1)/2 tombstones. With the shipped sixteen per row the sixth round leaves the element present,
  and it stays there whatever is added, removed and merged in afterwards (`StuckStays`). For rows of
  fewer than two tags the count does not decide: the element is then always absent.
- **LWW register.** Fresh registers all carry time zero and the replica's name, so two of them with
  different initial values on one replica are the case in which the order of merging shows.
- **Coherence rules.** The compiler reads the first pair of a rule's `if` and of its `then` or `then_in`,
  and nothing else; the schema reads all pairs and two more kinds of requirement. With one condition a
  rule the compiled method only ever accepts more, and the shipped assembler rule shows that it does
  (`VerdictDiffers`, `AssemblerPasses`). An absent axis passes the compiled check and breaks the
  schema's. Axis names and values are put between quotes without escapes, which is exact for ASCII text
  without quotes and escaping backslashes; a line end in a condition ends the comment that quotes it.
- **String literals.** The reader decodes escapes byte by byte, so a literal outside ASCII does not read
  back, escaped or not (`EscapedReadsBack`).
- **Genome strings.** Substring search serves a set of names if and only if none ends with another.
- **Scores.** The two score readers differ on decimals strictly between 1 and 100 (the evaluator cuts
  to 1, the emitted program reads a percentage) and on negative numbers.

## Modelling choices

- Floats are reals and logarithms a parameter, so rounding and underflow are outside the model.
  `exp(-neg_log_prob)` is the probability it was made from.
- Messages carry the sending actor, as the runtime attaches it. Only that a delivered message runs one
  handler to completion is used.
- Random numbers are a given sequence, each brought into the range it is drawn from. Tags, clock readings and replica names are parameters.
- Names in tables are values compared as a whole; that they fit their C buffers, that the table of CRDT
  objects is not full, that ids are well formed and that counters do not overflow is presumed.
- The rows of tags of an OR-Set are bounded sequences inside the fixed array of rows; capacities are
  parameters; the shipped ones are 64 elements and 16 tags.
- The AIPL fragment has what the compiled coherence method uses; mixed operands of `+`, order on strings,
  floats, loops and sends are not in it. The other emitted helpers are modelled directly.
- The count classes the exact models store after training are computed where they are used.
- Generated code is a syntax tree whose identifiers are shown to be distinct as text and whose string
  literals are shown to read back under an exact condition; the rest of its text is not modelled.
- A schema's minimum outside its ordered list, on which the source fails, counts as not reached.
- `.aice` numbers keep their text; letters, digits and spaces are the ASCII ones.

## Model

| member | source | states |
|---|---|---|
| `PhilosopherActors.Fork.Acquire` | src/c_dashboard.py:123-126 | the fork becomes the asker's if it was free and answers granted or denied accordingly |
| `PhilosopherActors.Fork.Release` | src/c_dashboard.py:127 | a release by the holder frees the fork, any other release is ignored |
| `PhilosopherActors.Philosopher.Granted` | src/c_dashboard.py:145-153 | first grant: ask for the other fork; second grant: eat, send both releases, think again while below the target |
| `PhilosopherActors.Philosopher.Denied` | src/c_dashboard.py:154 | denied holding the first fork: give it back; always think again |
| `PhilosopherActors.Table.Five` | src/c_dashboard.py:130-161 | the shipped table: five forks, five philosophers with the last one's forks in the opposite order, one think each |
| `PhilosopherActors.Table.Receive` | src/c_dashboard.py:121-155 | delivering any message in flight to its actor object changes fields and mail exactly as the abstract step |
| `Philosophers.StepKeepsAccount` | src/c_dashboard.py:121-155 | every delivery, in any order, keeps the full account: phases, one control message per unfinished philosopher, who occupies each fork and why |
| `PhilosopherRuns.OneControlToken` | src/c_dashboard.py:143-154 | in every reachable state of any table an unfinished philosopher has exactly one control message in flight and a finished one none; meals never exceed the target (or one, for a target below one) |
| `PhilosopherRuns.ForkAccount` | src/c_dashboard.py:123-127 | a fork is marked with a philosopher exactly when that one has been granted it or has its single release of it in flight; otherwise it is free |
| `PhilosopherRuns.MutualExclusion` | src/c_dashboard.py:118-155 | no two philosophers have the same fork, and whoever handles a second grant has both forks |
| `PhilosopherRuns.SilentIffFed` | src/c_dashboard.py:118-161 | deadlock freedom: no message is in flight if and only if everybody has eaten the target (at least one meal) and every fork is free |
| `PhilosopherRuns.NothingStuck` | src/c_dashboard.py:118-161 | every message in flight can be delivered in every reachable state |
| `PhilosopherRuns.Finish` | src/c_dashboard.py:118-161 | a schedule from any state of the invariant to one in which everybody is fed |
| `PhilosopherRuns.CanAlwaysFinish` | src/c_dashboard.py:118-161 | no trap: from every reachable state some continuation feeds everybody and frees every fork |
| `PhilosopherSpins.CanSpin` | src/c_dashboard.py:144-154 | while a philosopher's first fork is taken it can think, ask and be denied, each round leading back to the very same state |
| `PhilosopherSpins.SevenEach` | src/c_dashboard.py:118-161 | where no fork is shared and nobody eats twice, no schedule has more than seven deliveries a philosopher, and one of that length has fed everybody |
| `PhilosopherSpins.BoundedIff` | src/c_dashboard.py:118-161 | from a starting state all schedules, in any order, end within a bound if and only if no two philosophers share a fork and nobody has to eat twice |
| `PhilosopherRounds.RoundRaises` | src/c_dashboard.py:144-154 | delivering everything in flight, in any order and with anything that follows, either contains a meal or brings those who start with a sink fork nearer to one |
| `PhilosopherRounds.FairBound` | src/c_dashboard.py:118-161 | without a cycle of first and second forks every fair run of more than nine rounds a meal has fed everybody |
| `PhilosopherRounds.OrderedAcyclic` | src/c_dashboard.py:157-161 | taking the lower fork first, as the shipped table does, leaves no such cycle |
| `PhilosopherCycles.RoundTrip` | src/c_dashboard.py:144-154 | philosophers in a cycle can all think, take, be denied and give back, with every think delivered, ending in the same state |
| `PhilosopherCycles.CycleRuns` | src/c_dashboard.py:118-161 | from any starting state with a cycle there are fair runs of any length with somebody still hungry, whatever the others do |
| `PhilosopherCycles.FairRunExists` | src/c_dashboard.py:118-161 | from every state of the invariant there are fair runs of every length |
| `PhilosopherCycles.FairIff` | src/c_dashboard.py:118-161 | fair runs all finish within a bound if and only if the table has no cycle of first and second forks |
| `PhilosopherCycles.CrossedSpin` | src/c_dashboard.py:144-154 | two philosophers with crossed forks: a starting state to which a fair round leads back |
| `PhilosopherCycles.LoneSpins` | src/c_dashboard.py:144-154 | one philosopher with two forks of its own and two meals to eat: its schedules are unbounded, its fair runs finish |
| `PhilosopherActors.ShippedFairlyFinishes` | src/c_dashboard.py:118-161 | the shipped five have all been fed after 136 fair rounds, in whatever order the messages of a round are delivered |
| `PhilosopherActors.ShippedSpins` | src/c_dashboard.py:118-161 | without fairness they need not be: the shipped table reaches a state in which a thinking philosopher's first fork is taken, and its schedules are unbounded |
| `PhilosopherActors.ShippedFinishes` | src/c_dashboard.py:118-161 | the shipped five can always finish and are silent exactly after three meals each with all forks back |
| `KneserNeyTrain.KneserNeyNGram.CountGrams` | local-genai/kn_smoothing.py:67-78 | the loops over the data count every gram of an order with its multiplicity, and every context's total |
| `KneserNeyTrain.KneserNeyNGram.CountRight` | local-genai/kn_smoothing.py:79-82 | the number of distinct continuations of every context |
| `KneserNeyTrain.KneserNeyNGram.CollectLeft` | local-genai/kn_smoothing.py:83-89 | the set of bytes seen before every gram |
| `KneserNeyTrain.KneserNeyNGram.CountLeftBytes` | local-genai/kn_smoothing.py:90-107 | the number of distinct bytes before every byte, and their sum |
| `KneserNeyTrain.KneserNeyNGram.Train` | local-genai/kn_smoothing.py:65-109 | the tables hold what they held before and what the new data adds; after the first training all six mean what their names say about the data |
| `KneserNeyTrain.TwoTrainings` | local-genai/kn_smoothing.py:65-109 | trained on two texts one after the other, the model counts the grams of both and none across them |
| `KneserNeyTrain.TwoTrainingsFollow` | local-genai/kn_smoothing.py:79-82 | and the distinct continuations of a context are those in either text |
| `KneserNeyTrain.TwoTrainingsPrecede` | local-genai/kn_smoothing.py:83-89 | as are the bytes seen before a gram |
| `KneserNeyTrain.KneserNeyNGram.Denominator` | local-genai/kn_smoothing.py:130-138 | the loop over a context's row adds up the left extensions of all its continuations |
| `KneserNeyTrain.KneserNeyNGram.ContinuationProb` | local-genai/kn_smoothing.py:111-150 | the recursion over orders computes the continuation probability the mass results are about |
| `KneserNeyTrain.KneserNeyNGram.Prob` | local-genai/kn_smoothing.py:152-170 | the highest-order probability, falling back for unseen contexts |
| `KneserNeyTop.BuiltInDiscounts` | local-genai/kn_smoothing.py:205-219 | the built-in tiers discount contexts seen once or twice by 1.3 alpha, cut at 0.99, those seen eleven times or more by 0.6 alpha, at least 0.01, and the others by alpha itself |
| `KneserNeyFormulas.PlainDiscount` | local-genai/kn_smoothing.py:34 | the plain class discounts every count by alpha, kept between 0.01 and 0.99 |
| `KneserNeyFormulas.ModifiedDiscount` | local-genai/kn_smoothing.py:311-324 | the modified classes discount counts of one, two, and three or more by 0.7, 1 and 1.3 times alpha, cut at 0.01 and 0.99, growing with the count |
| `KneserNeyFormulas.ContextDiscount` | local-genai/kn_smoothing.py:281-298 | the context-conditional class multiplies alpha by the multiplier of the context's tier and cuts the product |
| `KneserNeyFormulas.HybridDiscount` | local-genai/kn_smoothing.py:374-416 | the hybrids multiply the modified discounts by the tier and cut the product; only the approximate one takes 0.01 from an absent continuation |
| `KneserNeyFormulas.ApproximateBackoff` | local-genai/kn_smoothing.py:338-345 | the approximate classes hand down the discount of a count of two once per distinct continuation |
| `KneserNeyFormulas.UnigramOnData` | local-genai/kn_smoothing.py:113-119 | the lowest order in terms of the data: distinct bytes before a byte over distinct bytes before all bytes, each with its constant added |
| `KneserNeyFormulas.ContinuationOnData` | local-genai/kn_smoothing.py:120-150 | a continuation order in terms of the data: distinct left neighbours less the context's discount, and the handed-down share of the next order |
| `KneserNeyFormulas.TopOnData` | local-genai/kn_smoothing.py:152-170 | the highest order in terms of the data: occurrences less their discount, and the class's share of the continuation order |
| `KneserNeyFormulas.SingleOnData` | local-genai/kn_smoothing.py:155-157 | with n = 1, relative frequencies in the data with a thousandth added to each count |
| `KneserNeyTrain.CountClassCounts` | local-genai/kn_smoothing.py:445-455 | numbers of continuations seen once, twice and at least three times |
| `KneserNeyMass.UnigramMass` | local-genai/kn_smoothing.py:113-119 | the unigram continuation probabilities of the 256 bytes sum to exactly 1 after training on two bytes or more |
| `KneserNeyMass.ContinuationMass` | local-genai/kn_smoothing.py:120-150 | the exact mass of an order-k context with left extensions, 1 + (backed-off * lower mass - removed) / total, with the discount backed off once per continuation and removed once per continuation with a left extension |
| `KneserNeyMass.ContinuationFormula` | local-genai/kn_smoothing.py:120-150 | as one formula: S = 1 + (D/den)(f * S_lower - e), with f continuations of which e have a left extension |
| `KneserNeyMass.AllExtendedIff` | local-genai/kn_smoothing.py:79-89 | every continuation of a context has a left extension unless the context starts the data and its first continuation never comes back |
| `KneserNeyMass.RevisitedIff` | local-genai/kn_smoothing.py:130-144 | a context falls through to the lower order exactly when it is not followed by a byte anywhere but at the start of the data |
| `KneserNeyMass.ContinuationProper` | local-genai/kn_smoothing.py:111-150 | for every class, order, context and training data of at least two bytes: the mass is at least 1, and exactly 1 if and only if no suffix of the context is a defect of the data (starts the data, is followed by a byte elsewhere, but never by its first byte) |
| `KneserNeyTop.DefectExists` | local-genai/kn_smoothing.py:468-470 | training data with a defect exists, so the lower order the exact classes rely on is not always proper |
| `KneserNeyTop.ClassesProper` | local-genai/kn_smoothing.py:458-496 | the classes that promise a proper distribution sum to exactly 1 in a context if and only if no suffix of the context's tail is a defect of the training data |
| `KneserNeyTop.ExactTopProper` | local-genai/kn_smoothing.py:481-496 | the same for any class that hands back the mass it removes |
| `KneserNeyTop.GammaTopMass` | local-genai/kn_smoothing.py:541-567 | with a gamma scale, a seen context sums to 1 exactly when the scale times the lower order's mass is 1 |
| `KneserNeyTop.ModifiedTopMass` | local-genai/kn_smoothing.py:326-345 | over a proper lower order, approximate Modified-KN gives a seen context mass 1 + ((D2-D1)N1 - (D3-D2)N3)/total |
| `KneserNeyTop.HybridTopMass` | local-genai/kn_smoothing.py:399-416 | the same for KnCtxMod with its context-scaled and clamped discounts |
| `KneserNeyTop.UnseenTopMass` | local-genai/kn_smoothing.py:158-161 | a context never seen gives out the lower order's mass |
| `KneserNeyTop.UnigramTopMass` | local-genai/kn_smoothing.py:155-157 | with n = 1 the mass is 1 exactly when anything was trained, and 0.256/1.256 otherwise |
| `KneserNeyEval.DegenerateHybrids` | local-genai/kn_smoothing.py:366-372 | with all multipliers 1 KnCtxMod gives exactly the Modified-KN probability and KnCtxModExact with gamma scale 1 the exact Modified-KN one, for any tables, context, byte and tier boundaries |
| `KneserNeyEval.PositiveProb` | local-genai/kn_smoothing.py:152-176 | every byte has positive probability in every context of every trained model |
| `KneserNeyEval.ScoreIsProb` | local-genai/kn_smoothing.py:172-176 | the floor for probabilities at or below zero is never used on a trained model of any of the six classes |
| `KneserNeyEval.FloorReplaces` | local-genai/kn_smoothing.py:172-176 | what the floor is and when it is used |
| `KneserNeyEval.ZIsMass` | local-genai/common.py:92-99 | the evaluator's Z for a trained model is the model's mass and is positive |
| `FairEvaluator.SumScores` | local-genai/common.py:95-98 | Z is the sum of the scores of all 256 bytes |
| `FairEvaluator.FairEval` | local-genai/common.py:87-107 | the renormalising evaluator with its cache of Z gives the loss and count that recomputing Z at every position gives |
| `FairEvaluator.RawEval` | local-genai/kn_smoothing.py:178-186 | the raw evaluator gives the sum of negative logarithms of the scores at all positions with a full context |
| `FairEvaluator.ContextEndsAt` | local-genai/common.py:94 | the context a byte is scored in, followed by the byte, is the gram that ends there |
| `FairEvaluator.OneMoreByte` | local-genai/common.py:87-107 | one more byte at the end of a text costs minus the logarithm of its score after the bytes right before it, renormalised by their Z in the fair evaluator |
| `FairEvaluator.RenormalisedMass` | local-genai/common.py:75-103 | renormalised scores of a context sum to exactly 1 and no fallback is used, for any positive scores |
| `FairEvaluator.ProperUnchanged` | local-genai/common.py:83-85 | a model proper in every context is scored the same by both evaluators |
| `Semilattice.Converge` | src/abcl_nextgen_runtime.c:454-484 | for any join: all ways of merging the same states, in any order and grouping and with any repetitions, agree |
| `GCounters.GCounter.Inc` | src/abcl_nextgen_runtime.c:418-441 | adds to the replica's own count; refused exactly for a negative delta or when a new replica finds no slot |
| `GCounters.GCounter.Sum` | src/abcl_nextgen_runtime.c:443-452 | the value is the sum of the counts of the map the slots refine, independent of slot order |
| `GCounters.GCounter.Merge` | src/abcl_nextgen_runtime.c:454-484 | a new counter with the pointwise maximum when all replicas fit, inputs untouched; otherwise the first counter's replicas and, in slot order, the second's new ones as far as slots are left |
| `GCounters.CountersConverge` | src/abcl_nextgen_runtime.c:454-484 | replicas merging the same counter states end up equal |
| `GCounters.SlotsSuffice` | src/abcl_nextgen_runtime.c:454-484 | with at most sixteen replicas in all, every merge of a plan fits its slots |
| `GCounters.BothIncrementsCount` | src/abcl_nextgen_runtime.c:418-484 | increments of two replicas from a common state are both in the merged value |
| `GCounters.JoinGrows` | src/abcl_nextgen_runtime.c:454-484 | a merged counter's value is at least each input's |
| `GCounters.NothingCounted` | src/abcl_nextgen_runtime.c:443-452 | an empty counter's value is 0 and that of a single replica's counter what it counted |
| `OrSetTables.OrSet.Add` | src/abcl_nextgen_runtime.c:514-523 | adds a row if there is room for one and appends the new tag if there is room for it |
| `OrSetTables.OrSet.Remove` | src/abcl_nextgen_runtime.c:525-538 | copies the add tags behind the removal tags, in order, while there is room |
| `OrSetTables.OrSet.HasElem` | src/abcl_nextgen_runtime.c:540-557 | true exactly when some add tag of the element is not among its removal tags |
| `OrSetTables.ValuesText` | src/abcl_nextgen_runtime.c:559-571 | the live elements in table order as one text, separated by spaces |
| `OrSetTables.SpacedReadsBack` | src/abcl_nextgen_runtime.c:559-571 | from that text the elements can be told if they are words |
| `OrSetTables.LiveElemsAre` | src/abcl_nextgen_runtime.c:559-571 | the listed elements are exactly those contained |
| `OrSetTables.OrSet.Merge` | src/abcl_nextgen_runtime.c:573-605 | the tables of the merged set as computed row by row; inputs untouched |
| `OrSets.MergeJoins` | src/abcl_nextgen_runtime.c:573-605 | while elements fit, merged tables mean the pointwise union of both tag sets if and only if every element's tags fit its row |
| `OrSets.SetsConverge` | src/abcl_nextgen_runtime.c:573-605 | replicas merging the same tag states end up equal |
| `OrSets.RoomSuffices` | src/abcl_nextgen_runtime.c:573-605 | if all elements together fit the table and every row has room for the tags of all replicas that it lacks, no merge of any plan loses anything |
| `OrSets.TablesConverge` | src/abcl_nextgen_runtime.c:573-605 | tables with that room merged in any order, grouping and multiplicity end with the same elements |
| `OrSets.AddMeans` | src/abcl_nextgen_runtime.c:514-523 | an add that fits puts its tag among the element's add tags and changes nothing else |
| `OrSets.RemoveMeans` | src/abcl_nextgen_runtime.c:525-538 | a removal that fits removes all add tags the replica has, so the element is gone |
| `OrSets.OneAdd` | src/abcl_nextgen_runtime.c:514-538 | an add behind a full table or a full row changes nothing, nor does removing what is not known or with a full row of tombstones |
| `OrSets.MergedBehind` | src/abcl_nextgen_runtime.c:573-605 | merging takes the second set's rows one after the other |
| `OrSets.AppendInOrder` | src/abcl_nextgen_runtime.c:573-605 | and a row's tags in order |
| `OrSets.AddSurvives` | src/abcl_nextgen_runtime.c:540-605 | a tag removed by neither replica keeps its element in the merged set |
| `OrSets.AddWins` | src/abcl_nextgen_runtime.c:514-605 | an add concurrent with a removal survives the merge, either way round |
| `OrSets.RoundsFit` | src/abcl_nextgen_runtime.c:514-538 | k add-and-remove rounds leave k add tags and k(k+1)/2 tombstones while these fit |
| `OrSets.RoundsGone` | src/abcl_nextgen_runtime.c:514-548 | after k rounds the element is absent if and only if k(k+1)/2 tombstones fit their row (or rows have fewer than two tags) |
| `OrSets.StuckStays` | src/abcl_nextgen_runtime.c:525-548 | a live element with a full row of tombstones is in the set for ever, whatever is added, removed and merged in afterwards |
| `OrSetTables.SixthRound` | src/abcl_nextgen_runtime.c:353-354 | with sixteen tags a row, five rounds leave the element absent and the sixth leaves it present |
| `LwwRegisters.LwwRegister.Merge` | src/abcl_nextgen_runtime.c:639-654 | a new register with the newer state, decided by time and then by replica name; inputs untouched |
| `LwwRegisters.MergesKeepNewest` | src/abcl_nextgen_runtime.c:639-654 | however registers are merged, the result is one of the writes that went in and none of them is after it |
| `LwwRegisters.NewerCommutes` | src/abcl_nextgen_runtime.c:648-651 | merging is symmetric for two registers exactly when equal time and replica mean equal value |
| `LwwRegisters.FreshRegistersClash` | src/abcl_nextgen_runtime.c:609-618 | two fresh registers of one replica with different initial values are such an asymmetric pair |
| `LwwRegisters.RegistersConverge` | src/abcl_nextgen_runtime.c:639-654 | replicas merging the same unambiguous register states end up equal |
| `LwwRegisters.DeliverKeepsNewest` | src/browser-abcl/src/lww.js:5-9 | a cell keeps one of the delivered updates and none of them is newer |
| `LwwRegisters.DeliveryOrder` | src/browser-abcl/src/lww.js:5-9 | any two deliveries of the same unambiguous updates, in any order and with repetitions, leave the same cell |
| `Coherence.EmitIsCoherent` | aice-evolution-v2/src/aipl_codegen.py:49-114 | the emitter's loop produces the method body built rule by rule, skipping incomplete rules |
| `Coherence.RunGetAxis` | aice-evolution-v2/src/aipl_codegen.py:49-68 | running the inlined block leaves the axis value in its out variable and touches no other scope, in any scopes |
| `Coherence.RunRule` | aice-evolution-v2/src/aipl_codegen.py:86-110 | running one rule's code clears the flag exactly if the genome violates the rule |
| `Coherence.FirstEntriesCount` | aice-evolution-v2/src/aipl_codegen.py:71-114 | what a rule asks for, by its first condition and its first value or list of values; a rule without either never fails |
| `Coherence.MeaningPreserved` | aice-evolution-v2/src/aipl_codegen.py:71-114 | the compiled method runs without error on any genome string and replies 1 if every rule that is not skipped holds, read by its first condition and first requirement, and 0 otherwise |
| `Coherence.TextInjective` | aice-evolution-v2/src/aipl_codegen.py:53-93 | different variables of the emitted method never get the same identifier, across rules as well |
| `Coherence.Identifiers` | aice-evolution-v2/src/aipl_codegen.py:53-104 | the identifiers the emitted method uses |
| `SchemaVerdicts.SimpleRule` | aice-evolution-v2/src/schema.py:67-92 | for a rule with one condition and one compiled requirement the compiled check differs from the schema exactly where the rule applies and the restricted axis is absent, or empty against the rule |
| `SchemaVerdicts.VerdictCompiled` | aice-evolution-v2/src/schema.py:67-92 | on complete genomes the compiled method replies the schema's verdict if all rules have one condition and one requirement, a value or a list of values |
| `SchemaVerdicts.VerdictDiffers` | aice-evolution-v2/src/schema.py:67-92 | with one condition a rule, it never turns down what the schema accepts, and differs exactly on genomes that pass it and break a further requirement of a rule that applies |
| `SchemaVerdicts.MinimumReached` | aice-evolution-v2/src/schema.py:84-92 | a minimum is reached from its own place in the axis's order on, and axes without an order are not looked at |
| `SchemaVerdicts.RedundantAgrees` | aice-evolution-v2/src/schema.py:67-92 | a further requirement that follows from the first one may be left out: compiled check and schema then still agree on every complete genome |
| `SchemaVerdicts.AssemblerPasses` | aice-evolution-v2/schemas/programming_paradigm.schema.json:57 | the shipped rule with two requirements is such a case: an assembler with threads passes the compiled method |
| `AiplText.RawReadsBack` | aice-evolution-v2/src/aipl_codegen.py:49-111 | text put between quotes as it is reads back if and only if it is ASCII and holds no quote and no backslash that escapes something |
| `AiplText.EscapedReadsBack` | aice-evolution-v2/src/aipl_codegen.py:26-32 | text written with escapes always reads as a literal, and as itself if and only if it is ASCII |
| `AiplText.CommentCloses` | aice-evolution-v2/src/aipl_codegen.py:91 | a rule's comment ends with its line if and only if the rule's condition holds no line end |
| `AiplText.DecodesToItself` | src/python-aipl/aipl_parser.py:32-34 | decoding leaves a literal's body as it is if and only if it is ASCII and no backslash in it makes an escape |
| `AiplText.LetterEscapes` | src/python-aipl/aipl_parser.py:32-34 | the letters that stand for control characters, and backslash and quotes |
| `AiplText.HexEscapes` | src/python-aipl/aipl_parser.py:32-34 | every character's number in hexadecimal behind x, u or U reads as that character |
| `AiplText.OctalEscapes` | src/python-aipl/aipl_parser.py:32-34 | one to three octal digits read as the character of that number |
| `AiplText.BytesAreUtf8` | src/python-aipl/aipl_parser.py:32-34 | a character outside ASCII becomes the characters of its UTF-8 bytes |
| `EmittedLiterals.MethodReadsBack` | aice-evolution-v2/src/aipl_codegen.py:71-114 | as text, the compiled method's literals are those of its tree if and only if every axis name and value it uses can be written without escapes |
| `GenomeStrings.FieldIsGet` | aice-evolution-v2/src/aipl_codegen.py:285-310 | if names and values hold no separator and no name ends with another, substring search reads exactly the entry's value |
| `GenomeStrings.SetIsPut` | aice-evolution-v2/src/aipl_codegen.py:312-330 | and writing replaces exactly that entry, or appends a new one |
| `GenomeStrings.PutPlaces` | aice-evolution-v2/src/aipl_codegen.py:312-330 | the entry is replaced where it stands, or appended at the end |
| `GenomeStrings.SetThenGet` | aice-evolution-v2/src/aipl_codegen.py:299-330 | get after set returns the value and every other axis reads as before |
| `GenomeStrings.SuffixHides` | aice-evolution-v2/src/aipl_codegen.py:299-330 | where one name ends with another, the shorter reads as the longer and setting it overwrites the longer |
| `GenomeStrings.FaithfulIff` | aice-evolution-v2/src/aipl_codegen.py:299-330 | get after set holds on all genomes over a set of names if and only if none of them ends with another |
| `Generators.CountCsv` | aice-evolution-v2/src/aipl_codegen.py:248-265 | the loop counts the parts of a comma-separated list |
| `Generators.NthCsv` | aice-evolution-v2/src/aipl_codegen.py:267-283 | the loop finds the n-th part, or the empty string past the last |
| `Generators.SplitCsv` | aice-evolution-v2/src/aipl_codegen.py:248-283 | the parts are the values that were joined, empty ones included; only the list of one empty value is written as the empty text |
| `Generators.Generator.Seed` | aice-evolution-v2/src/aipl_codegen.py:489-512 | candidates with one drawn value per axis are drawn one after the other until one is coherent or fifty have been; the last one is returned |
| `Generators.Generator.Mutate` | aice-evolution-v2/src/aipl_codegen.py:514-532 | candidates that set one drawn axis of the parent to a drawn value are drawn until one is coherent or fifty have been; the last one is returned |
| `Generators.Generator.Cross` | aice-evolution-v2/src/aipl_codegen.py:534-557 | candidates that take every axis from a drawn parent are drawn until one is coherent or fifty have been; the last one is returned |
| `Generators.SeedsAll` | aice-evolution-v2/src/aipl_codegen.py:489-512 | every choice of one allowed value per axis can be drawn as a candidate |
| `Generators.MutatesAll` | aice-evolution-v2/src/aipl_codegen.py:514-532 | every axis of the parent with every one of its allowed values can be drawn |
| `Generators.CrossesAll` | aice-evolution-v2/src/aipl_codegen.py:534-557 | every way of taking the axes from the two parents can be drawn |
| `Generators.SeededAllowed` | aice-evolution-v2/src/aipl_codegen.py:489-512 | every axis of a seeded genome reads as one of its allowed values |
| `Generators.MutateChangesOne` | aice-evolution-v2/src/aipl_codegen.py:514-532 | every axis but the mutated one reads as in the parent |
| `Generators.CrossFromParents` | aice-evolution-v2/src/aipl_codegen.py:534-557 | every axis of a child reads as in one of its parents |
| `Scores.ParseScore` | aice-evolution-v2/src/aipl_codegen.py:334-396 | the digit loops compute the emitted score |
| `Scores.AgreeIff` | aice-evolution-v2/src/ai_evaluator.py:38-56 | the emitted score equals the evaluator's exactly on texts without a number, with a first number that has no minus sign and is whole, at most 1 or at least 100, and on minus zero |
| `Scores.NoNumber` | aice-evolution-v2/src/ai_evaluator.py:38-56 | a text without a digit scores one half in both |
| `Scores.Disagreement` | aice-evolution-v2/src/ai_evaluator.py:38-56 | how they disagree: a fraction above 1 is full marks for one and a percentage for the other, and a minus sign counts for one only |
| `Scores.OneAndAHalf` | aice-evolution-v2/src/ai_evaluator.py:38-56 | the text 1.5 is 0.015 for the emitted reader and 1 for the evaluator |
| `Scores.MinusThree` | aice-evolution-v2/src/ai_evaluator.py:38-56 | the text -3 is 0.03 for the emitted reader and 0 for the evaluator |
| `Scores.PlacesAreDecimal` | aice-evolution-v2/src/aipl_codegen.py:366-390 | adding decimal places one by one gives all digits over a power of ten |
| `WsRing.ConnQueue.Push` | src/abcl_ws_runtime.c:122-134 | appends a message, or drops it exactly when one slot fewer than the ring has is taken |
| `WsRing.ConnQueue.Pop` | src/abcl_ws_runtime.c:136-147 | takes the oldest message and tells whether more are queued |
| `WsRing.PushAppends` | src/abcl_ws_runtime.c:126-131 | wrap-around index arithmetic is appending to a queue |
| `WsRing.PopTakesOldest` | src/abcl_ws_runtime.c:140-145 | and taking its first message |
| `WsDelivery.EveryRun` | src/abcl_ws_runtime.c:122-147 | in every interleaving of pushers and writer: sent, in hand and queued messages are the accepted ones in order, the ring never holds more than one fewer than its slots, and queued messages have a wakeup requested or about to be |
| `WsDelivery.PopTakes` | src/abcl_ws_runtime.c:136-147 | the service thread takes the oldest message and notes whether more is queued; an empty queue sends it back to waiting |
| `WsDelivery.StopsSent` | src/abcl_ws_runtime.c:204-215 | the system can stop only when everything accepted has been sent |
| `WsDelivery.DrainBound` | src/abcl_ws_runtime.c:204-215 | every schedule without further pushes is over within a bounded number of steps |
| `WsDelivery.Drain` | src/abcl_ws_runtime.c:204-215 | from every reachable state letting the threads run on sends everything accepted |
| `AiceSyntax.ParsesExactly` | aice-evolution-v2/src/aice_parser.py:149-217 | the parser finds a file and leaves the rest of the tokens if and only if they are a rendering of it, trailing commas included, followed by the rest |
| `AiceSyntax.RoundTrip` | aice-evolution-v2/src/aice_parser.py:149-217 | parsing a rendered file gives the file back and leaves later tokens alone |
| `AiceSyntax.SimpleForms` | aice-evolution-v2/src/aice_parser.py:188-201 | the tokens of simple values; a bare identifier means what the quoted one does |
| `AiceSyntax.ListForms` | aice-evolution-v2/src/aice_parser.py:203-217 | the tokens of lists, item by item, with a comma behind the last item or without |
| `AiceSyntax.DeclForms` | aice-evolution-v2/src/aice_parser.py:165-186 | the tokens of assignments and of blocks with and without a name |
| `AiceSyntax.FileForm` | aice-evolution-v2/src/aice_parser.py:149-155 | the tokens of a file, and what parsing them gives |
| `AiceParser.Parser.File` | aice-evolution-v2/src/aice_parser.py:149-155 | the cursor-moving parser returns what the grammar function gives and stops just behind it, or reports an error |
| `AiceParser.Parser.Declarations` | aice-evolution-v2/src/aice_parser.py:157-163 | the loop over declarations, which always moves forward |
| `AiceParser.Parser.Declaration` | aice-evolution-v2/src/aice_parser.py:165-186 | an assignment or a named or unnamed block |
| `AiceParser.Parser.Value` | aice-evolution-v2/src/aice_parser.py:188-201 | a quoted or bare text, a number, a truth value or a list |
| `AiceParser.Parser.ListValue` | aice-evolution-v2/src/aice_parser.py:203-217 | the loop over list items with an optional trailing comma |
| `AiceLexer.Tokenize` | aice-evolution-v2/src/aice_parser.py:27-99 | the character loops give the tokens of the text, or an error for a character or string that cannot be read |
| `AiceLexer.SpelledBack` | aice-evolution-v2/src/aice_parser.py:27-99 | tokenizing inverts spelling tokens out, escapes in strings included |
| `AiceLexer.NumberBack` | aice-evolution-v2/src/aice_parser.py:78-85 | an optional minus sign, digits and an optional point with digits behind it are one number token |
| `AiceLexer.NameBack` | aice-evolution-v2/src/aice_parser.py:86-97 | a letter or underscore with letters, digits and underscores behind it is one word token |
| `AiceLexer.EscapeRead` | aice-evolution-v2/src/aice_parser.py:59-76 | what each escape in a string is read as |
| `AiceLexer.TextRoundTrip` | aice-evolution-v2/src/aice_parser.py:220-221 | reading a file back from its text gives the file, whatever its strings contain |
| `AiceLexer.LineCommentSkipped` | aice-evolution-v2/src/aice_parser.py:40-44 | a line comment counts for nothing, on a line of its own or at the end of the text |
| `AiceLexer.BlockCommentSkipped` | aice-evolution-v2/src/aice_parser.py:45-53 | nor does a block comment |
| `AiceLexer.OpenCommentSkipped` | aice-evolution-v2/src/aice_parser.py:45-53 | and one that is not closed swallows the rest of the text |
| `AiceLexer.OpenString` | aice-evolution-v2/src/aice_parser.py:59-76 | a string that is not closed is an error |
| `ParetoLayers.DominatesTransitive` | aice-evolution-v2/src/analysis.py:280-284 | domination is transitive although absent components count as zero |
| `ParetoLayers.RaisedDominates` | aice-evolution-v2/src/analysis.py:280-284 | changing one component dominates exactly if it raises it, an absent one counting as 0 |
| `ParetoLayers.FrontNotEmpty` | aice-evolution-v2/src/analysis.py:262-276 | while anyone is left the front is not empty, so the loop ends without its emergency exit |
| `ParetoLayers.LayersPartition` | aice-evolution-v2/src/analysis.py:256-277 | every individual is in exactly one layer |
| `ParetoLayers.PickKeepsOrder` | aice-evolution-v2/src/analysis.py:256-277 | members of a front keep the order of the input |
| `ParetoLayers.NoneDominatedLater` | aice-evolution-v2/src/analysis.py:256-284 | nobody is dominated by a member of the same or a later layer |
| `ParetoLayers.DominatedByPrevious` | aice-evolution-v2/src/analysis.py:256-284 | every member of a later layer is dominated by a member of the layer before |
| `ParetoLayers.ParetoLayers` | aice-evolution-v2/src/analysis.py:256-277 | the nested loops return the ids of those layers |
| `Evolvability.ChildTable` | aice-evolution-v2/src/analysis.py:168-171 | the table lists exactly the children of everyone, unknown parents included |
| `Evolvability.Search` | aice-evolution-v2/src/analysis.py:172-179 | the stack search ends and finds exactly the individuals reachable by one or more parent-to-child edges |
| `Evolvability.EvolvabilityScore` | aice-evolution-v2/src/analysis.py:160-183 | the score is that number for everyone, in any lineage, cycles and repeated parents included |

## Left out

- KneserNeyMass.ContinuationProper: training data of fewer than two bytes, where the unigram level itself is not proper (UnigramMass gives its mass).
- OrSetTables.OrSet.Add: the rows of tags as character arrays; they are bounded sequences kept in the array of rows.
- OrSets.MergeJoins: sets whose elements together exceed the table, where the rest of the second set's elements are dropped.
- OrSetTables.ValuesText: the fixed buffer the text is put together in.
- KneserNeyMass.ContinuationMass: the masses of a model trained more than once; Train and TwoTrainings say what its tables then hold.
- AiplText.DecodesToItself: characters by name and escapes for lone surrogates, which the model reads as errors.
- Coherence.EmitIsCoherent: keywords, layout and comments of the emitted text.
- AiceLexer.TextRoundTrip: line numbers of tokens and declarations, the text of error messages and the conversion of number texts to numbers.
- AiceParser.Parser.File: Python's recursion limit on deeply nested files.
- ParetoLayers.ParetoLayers: the dictionary around the individuals; they are values, and equal ones count as often as they occur.
- Evolvability.EvolvabilityScore: the direct-children counts computed first, which the search overwrites for everyone.
- WsRing.ConnQueue.Push: cutting messages to 511 bytes, and connections being closed while messages are queued.
- HTTP servers, dashboards, browser front ends and serial I/O: plumbing.
- Training and sampling of neural models, corpus builders, calls to language models: foreign code.
- Pools, saga helpers, the capability set, region routing and the solver bridge of the C runtime: separate subjects or easy members.
- The lowering of `.aice` files, the elite map and the scoring personas: sound but easier.
- Broadcasting over a connection group and the group's member array: a plain list under one lock.
