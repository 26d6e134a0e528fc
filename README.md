# Greedy mutation path construction

A Dafny model of the calculation region of a small C# program (`Program.cs`,
lines 115–208). Given a starting gene, a target gene and a list of candidate
genes, the program builds a *mutation path*: a list of genes that starts
with the starting gene, in which each gene differs from the one before it
in exactly one position. The calculation has three routines:

- `GetDifference` compares two genes position by position. It says whether
  they differ in exactly one position, and it reports the second gene's
  letter at the last position where they differ.
- `FindNeededMutations` lists the target's letters at every position where
  the starting gene differs from it, left to right.
- `ConstructMutationPath` takes the needed letters one at a time. For each
  letter, one pass walks the candidate list and takes each candidate it
  looks at that is one step from the current gene and puts in that letter.
  A taken candidate is appended to the path, becomes the current gene, and
  is removed from the list. After a removal the pass does not look at the
  candidate that moves into the freed slot. The result is null as soon as
  a pass takes nothing.

The model is imperative where the C# is:

- `Difference.GetDifference` and `Difference.FindNeededMutations` are
  methods with `for` loops. They are proved against the functions
  `Mismatches` and `NeededLetters`.
- The candidate list is the class `PathConstruction.GeneList`. It holds a
  `seq` of genes and has a `RemoveAt` method that closes the gap.
- `PathConstruction.ConstructMutationPath` is the outer loop over the
  letters. `PathConstruction.MutationPass` is the inner loop over the
  candidates (`Program.cs:157-171`). It re-reads the list's length each
  round and advances the index after a removal, as the C# loop does.
- Both methods are proved equal to the value-level functions `Scan` (one
  pass) and `Construct`/`GreedyPath` (all passes).
- The lemmas about those functions state what the path is: the predicate
  `Realizes`, adjacency, how the candidate list is accounted for, and why a
  construction fails.

Genes are `string`s of opaque characters; no case folding is modelled. The
module `Scenarios` works out concrete runs: the one-letter example
AACCGGTA → AACCGGTT with candidates AACCGGTA and AACCGGTT, the example
AACCGGTT with candidates AACCTTTT and CCCCGGTT that have no one-step
bridge, and the pass's quirks.

Where the behaviour of the code differs from a plain reading of its
purpose, the model follows the code:

- A pass does not pick one candidate. It takes the first candidate that
  fits, then keeps scanning. Later candidates are compared with the new
  current gene, so one letter can add several genes to the path.
- A later candidate of the same length that fitted the old current gene
  with the same letter is therefore never taken in that pass
  (`Difference.LaterMatchNoLongerFits`). The first match wins, not the last
  (`Scenarios.FirstMatchTaken` shows one run).
- A complete path can have more than one gene per needed letter.
- A complete path need not end at the target, because a step is matched
  on the letter it puts in, not on the position it puts it at.

## Model

| member | source | states |
|---|---|---|
| Difference.MismatchesSound | Program.cs:195-202 | every entry of the mismatch list up to n is a position below n at which the two genes differ |
| Difference.MismatchesComplete | Program.cs:195-202 | every position below n at which the genes differ is in the mismatch list |
| Difference.MismatchesAscending | Program.cs:195 | the mismatch list is strictly ascending, since positions are visited left to right |
| Difference.MismatchesLast | Program.cs:195-202 | an empty list means no difference below n; otherwise the genes agree after the list's last entry |
| Difference.MismatchesSpec | Program.cs:195-202 | the mismatch list holds exactly the differing positions, ascending, and its last entry is the last difference |
| Difference.OnlyMismatchList | Program.cs:195-206 | when i is the only differing position, the mismatch list is [i] once past i and empty before |
| Difference.NeededUpToSpec | Program.cs:126-132 | the needed letters are the second gene's letters at the mismatch positions, one per position, in order |
| Difference.SingleMismatch | Program.cs:206 | the mismatch list has one entry iff exactly one position differs, and then that entry is it |
| Difference.OneStepMeaning | Program.cs:189-206 | one step putting in c holds iff exactly one position i differs and the second gene has c there |
| Difference.NoStepToItself | Program.cs:191-206 | a gene is never one step from itself |
| Difference.SubstitutionIsOneStep | Program.cs:198-206 | changing one position to a different letter gives a gene one step away that puts in that letter |
| Difference.TwoMismatchesNoStep | Program.cs:198-206 | two genes that differ in two positions are not one step apart, for any letter |
| Difference.LaterMatchNoLongerFits | Program.cs:164-166 | two genes of equal length both one step from the current gene with the same letter are never one step from each other with it, so after the first is taken the second no longer fits |
| Difference.LastNeededLetter | Program.cs:198-201 | the last needed letter is the second gene's letter at the last differing position |
| Difference.DifferenceReport | Program.cs:189-206 | one needed letter iff exactly one differing position, and it is the target's letter there; none when the genes agree; one step with c iff the needed letters are [c] |
| Difference.GetDifference | Program.cs:189-207 | true iff exactly one position differs, and then the letter is the target's letter there, which differs from current's; with no difference false and `' '`; the letter is always the target's letter at the last difference; true with letter c iff one step putting in c |
| Difference.NeededLettersSpec | Program.cs:122-136 | as many needed letters as differing positions, each the target's letter there; none iff the start agrees with the target everywhere, and for equal lengths iff the genes are equal |
| Difference.FindNeededMutations | Program.cs:122-136 | returns the target's letters at the differing positions, left to right, with the length, content and emptiness facts of NeededLettersSpec |
| PathConstruction.GeneList.constructor | Program.cs:10 | the list holds the given genes in the given order |
| PathConstruction.GeneList.RemoveAt | Program.cs:168 | removes the element at the index; the later elements move down one slot and nothing else changes |
| PathConstruction.Scan | Program.cs:160-171 | a pass only appends to the path: the path it starts with is a prefix of the path it ends with |
| PathConstruction.Construct | Program.cs:154-177 | the passes only append to the path: the path they start with is a prefix of the result |
| PathConstruction.ScanPath | Program.cs:160-170 | a pass keeps the current gene at the end of the path, appends a chain of steps all putting in the letter, reports a match iff it appended, and changes nothing when it appends nothing |
| PathConstruction.ScanPool | Program.cs:166-168 | every gene a pass appends is taken out of the list: appended plus left-over equals the list before, as multisets |
| PathConstruction.ScanFound | Program.cs:157-169 | a pass from index i reports a match iff it already had, or some candidate at index i or later is one step from its starting gene with the letter |
| PathConstruction.ChainThenRealizes | Program.cs:154-171 | a non-empty chain for letter c followed by steps for the later letters puts in c followed by those letters |
| PathConstruction.ConstructPool | Program.cs:166-168 | over all passes, the appended genes plus the left-over list equal the original list, as multisets |
| PathConstruction.ConstructComplete | Program.cs:154-177 | when every pass appends, the appended steps put in the letters in order, one or more consecutive steps per letter |
| PathConstruction.PassFails | Program.cs:173-174 | a pass that appends nothing ends the construction with the path and list as they were, and no candidate fits that letter |
| PathConstruction.ConstructIncomplete | Program.cs:154-174 | when some pass appends nothing, the earlier steps put in the letters before it, and no left-over candidate is one step from the last gene with its letter |
| PathConstruction.RealizesLength | Program.cs:154-171 | putting in the letters takes at least one step per letter |
| PathConstruction.RealizesAdjacent | Program.cs:164-167 | along such steps every gene differs from the one before it in exactly one position |
| PathConstruction.RealizesEnds | Program.cs:154-171 | no letters iff no steps; the first step puts in the first letter and the last step the last letter |
| PathConstruction.GreedyPathSpec | Program.cs:146-178 | the path starts with the starting gene; path and left-over list account for the original list exactly (multisets and lengths); a complete path puts in every letter in order, has at least 1 + letters genes and consecutive genes one step apart; an incomplete one stopped at a letter no left-over candidate fits |
| PathConstruction.NoLettersNoSteps | Program.cs:148-154 | with no letters the path is the starting gene alone and the list is unchanged |
| PathConstruction.FirstPassFails | Program.cs:157-174 | the construction fails at once, using no candidate, iff no candidate is one step from the start with the first letter |
| PathConstruction.PassThenRest | Program.cs:154-175 | the passes from letter j on are the pass for letter j, then the later passes if it appended, and a failure if not |
| PathConstruction.MutationPass | Program.cs:157-171 | one pass over the mutable list ends in exactly the state Scan computes: current gene, path, left-over list and whether it appended |
| PathConstruction.ConstructMutationPath | Program.cs:146-178 | returns the greedy path when every pass appends and None otherwise, and leaves exactly the greedy left-over list; no letters gives [startingGene] with the list unchanged; a path starts with the start, has at least 1 + letters genes, puts in the letters in order, has consecutive genes one step apart, and accounts for the list's genes; the list only loses genes |
| Scenarios.SingleMutationNeeded | Program.cs:122-136 | genes that differ only in the last position need just that letter |
| Scenarios.SingleMutationBridged | Program.cs:146-178 | the one-letter example is bridged by its one candidate |
| Scenarios.NoBridgeNoPath | Program.cs:164-174 | with no candidate one step from the start, there is no path and the list is unchanged |
| Scenarios.ScanContinuesAfterMatch | Program.cs:160-171 | a pass goes on after a match: one letter is put in by two steps, and the candidate that slid into the freed slot is passed over |
| Scenarios.FirstMatchTaken | Program.cs:160-171 | of two candidates that fit the start with the same letter, the first is taken and the later one no longer fits |
| Scenarios.RemovalSkipsNextCandidate | Program.cs:160-168 | the candidate that slides into the freed slot is skipped even though it fits the new current gene |
| Scenarios.PathNeedNotReachTarget | Program.cs:164 | a complete path can end away from the target, because a step is matched on its letter, not its position |
| Scenarios.CompletePathCoversDistance | Program.cs:9-10 | a complete path from the start built from its needed letters has at least one gene more than the number of differing positions |

## Left out

- `Main`, `TakeInput`, `GetGeneFromConsole`, `LoadGenesFromFile` and `PushOutput`
  (`Program.cs:3-112`, `210-221`) are left out. They do console and file
  I/O: reading the genes, checking the alphabet and length, and printing.
  The starting gene, target gene and candidate list are parameters instead.
- `Main` goes on after "Invalid inputs." is printed. This glue is not modelled.
- Case handling is not modelled. The calculation compares raw characters,
  and the model does the same.
- `GetDifference`, `FindNeededMutations`: the model requires the second gene
  to be at least as long as the first. The C# runs off the end of the
  second string otherwise and throws. That exception is not modelled.
- `ConstructMutationPath`, `MutationPass`: the model requires every
  candidate to have the starting (for one pass, the current) gene's length. The C# only fails, with an exception in
  `GetDifference`, when a compared candidate is shorter than the current
  gene. It silently accepts a longer one.
- `GetDifference`: the `int` counter is unbounded in the model. A 32-bit
  overflow would need a string of more than 2^31 characters.
- `ConstructMutationPath`: the C# discards the partial path on failure and
  returns null. The model returns `None` too, but the value-level `Outcome`
  keeps the partial path, so that the reason for the failure can be stated.
