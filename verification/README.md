# Verified models of the quality gates

The repository guards its Rust and TypeScript sources with scripts under `scripts/`. Several of
them are programs in their own right: a scheduler that compiles thousands of mutations in a
handful of batches, a transactional editor of the working tree, scanners that read code without
a parser, a decoder of source maps, readers of `#[cfg]` predicates. This project models the hard
ones and proves what they promise.

**The mutation type-check** (`check_mutation_types.py`). Every mutation of the test tables is
checked to compile. `Batching` packs mutations whose anchors do not overlap, `Splicing` writes a
batch into a file in one pass, `Attribution` tells from the lines a compiler reports which
replacements they lie in, `Bisection` and `Sweeping` classify every mutation with few compiles,
and `Ledger` accounts for which compile decided which mutation. `Recovery` is the protocol of
backups and an in-flight record that lets a killed run be undone, with a kill possible at every
write and inside it; `LineEnds` are the line ends it takes out and puts back. `Caching` keeps
verdicts between runs under a fingerprint of the sources, and every exit code rests on compiles
that some run has made.

**The scanners**. `Blanking`, `BlankingGrammar`, `BlankingTails` and `BlankingRegex` treat `blanked` of
`check_view_after_await.py`, which turns comments and the text of literals into spaces, template
literals nested to any depth included, and which slashes it takes for regular expressions.
`Brackets` relates its typed bracket matching, its
backward parameter scan and its innermost-scope choice. `Comments` compares the comment
strippers of `check_platform_arms.py` and `check_writers.py`, `CommentsGrammar` says what they
leave of a source.

**Source maps** (`check_bundle_share.py`). `Vlq` decodes Base64 VLQ, `BundleShare` shows that
measuring stretches between segments is counting characters, and that nothing is lost;
`MappingText` prints mappings as section 6 of ECMA-426 writes them and reads them back, and
`BundleText` counts on the bundle itself, character by character.

**`cfg` predicates**. `Cfg` is the evaluator of `check_mutation_anchors.py`, which works on text
alone, against the meaning of a predicate tree; `CfgRead` goes the other way, from any text at all
to the only trees it can be an answer about. `PlatformArms`, `ArmQuotes` and `ArmText` are the lint
of `check_platform_arms.py`, what it sees of a text, and the fact about platforms it exists for.

**Process trees** (`installed_check.py`). `Descendants` is the search below one process in a
table whose parent links may run in circles.

## How the model stands to the code

Texts are sequences of characters, offsets count characters, integers are unbounded as in
Python. Loops are methods with loops, objects that update their fields are classes; each is tied
to a function, and the function carries the theorems. Things the scripts get from outside are
parameters: the compiler is an oracle over groups of mutations (free to answer differently each
time, unless a statement says that single mutations are to blame), the disk is a set of maps
whose every write can be cut off, the character classes of Python are two predicates.

Where code and documentation part, the model follows the code:

- `apply` sorts the edits of a file as tuples and `attribute` sorts by start alone
  (lines 508 and 625). The orders agree exactly when ties are listed in tuple order. Only empty
  anchors in an empty file can tie (`Attribution.RebuildOrder`, `Batching.ResolvedStartsDiffer`),
  and then `attribute` goes by the text on disk if and only if the replacements read alike in both
  orders (`Attribution.BatchIsRebuiltExactlyWhen`); "b" before "a" do not
  (`Attribution.TiedAnchorsMislead`).
- `recover` removes the in-flight record even when a backup is missing, so the fault is reported
  by one run only (`Recovery.MissingBackupIsReportedOnce`). In the protocol itself no backup is
  ever missing (`Recovery.SafeRecovers`).
- A torn record means that the tree is clean, yet every later run refuses until it is removed by
  hand (`Recovery.Recover`).
- `blanked` raises an index error if and only if a quoted string or a regular expression is cut
  off after a backslash at the end of the file; on every other source it keeps length and lines
  as it promises (`Blanking.CrashesExactlyWhen`, `Blanking.KeepsLines`).
- A file that mixes line ends does not survive being read and written without an edit
  (`LineEnds.UneditedIsKeptExactlyWhen`); the restore writes bytes and is exact for every file.
- The share counts a newline after the last line, so what is conserved is the length plus one
  (`BundleShare.ShareIsConserved`); a VLQ number without its last digit vanishes
  (`Vlq.CutNumberIsDropped`).
- `_split_top` does not know strings (`Cfg.StringsAreNotSkipped`). It recovers what was joined if
  and only if no piece has a comma at depth zero and each but the last ends at depth zero
  (`Cfg.CutRecoversExactlyWhen`). A predicate is never misread for it: the reader then says nothing
  or raises (`CfgRead.AnswersExactlyKnown`).
- The lint's pattern for strings does not know escaped quotes. A bare name is seen if and only if an
  even number of quotes stands before it or none follows (`ArmQuotes.MentionedExactlyWhen`), so an
  odd number of escaped quotes hides what is negated (`ArmText.EscapedQuotesHideNegation`). And a
  `not` is seen if and only if no space parts it from its bracket (`ArmText.NegationIsSeen`),
  so `not (unix)` slips through (`ArmText.SpacedNotIsMissed`).

## Model

| member | source | states |
|---|---|---|
| `Splicing.SortedSorts` | scripts/check_mutation_types.py:508 | sorting the edits of a file puts them in the order Python gives tuples: by start, then by end, then by replacement, where the first difference of two strings decides |
| `Splicing.OrderedIsUnique` | scripts/check_mutation_types.py:508 | there is one such order of the same edits |
| `Splicing.SortedIgnoresOrder` | scripts/check_mutation_types.py:508 | so the order in which the edits were collected does not reach the written text |
| `Splicing.SeparateIsPairwise` | scripts/check_mutation_types.py:582-584 | separate, as a list is checked, is the same as any two of its edits being apart; equal starts are barred |
| `Splicing.SeparateIgnoresOrder` | scripts/check_mutation_types.py:582-584 | being spliceable does not depend on the order of the list |
| `Splicing.Splice` | scripts/check_mutation_types.py:506-514 | the loop over one file writes what the replacements, carried out one at a time on the changing text, would give |
| `Splicing.SpliceAfter` | scripts/check_mutation_types.py:508-513 | an edit that lies wholly before the unread text only shifts the rest of the pass |
| `Splicing.SpliceInsert` | scripts/check_mutation_types.py:508-513 | carrying out one of the edits beforehand leaves the rest of the pass the same result |
| `Splicing.SplicingIsSequential` | scripts/check_mutation_types.py:506-514 | one simultaneous pass equals the same replacements one at a time with shifted offsets |
| `Splicing.OrderDoesNotMatter` | scripts/check_mutation_types.py:506-514 | and in any order of them |
| `Batching.Batched` | scripts/check_mutation_types.py:578-600 | the loops put each mutation into the first batch where it overlaps nothing, or open a new one |
| `Batching.ClashIsOverlap` | scripts/check_mutation_types.py:587-594 | two spans of one file clash exactly when they share an offset or an empty one stands strictly inside the other |
| `Batching.PackedIsPartition` | scripts/check_mutation_types.py:578-600 | every mutation is in exactly one batch, once |
| `Batching.PackedKeepsOrder` | scripts/check_mutation_types.py:591-592 | inside a batch the order of the table is kept |
| `Batching.PackedIsPeaceful` | scripts/check_mutation_types.py:588-590 | no two mutations of a batch overlap in the same file |
| `Batching.PackedIsTight` | scripts/check_mutation_types.py:587-594 | a mutation overlaps some member of every batch before its own |
| `Batching.BatchCount` | scripts/check_mutation_types.py:578-600 | there is at most one batch more than the largest number of earlier mutations that one mutation overlaps |
| `Batching.EditsFor` | scripts/check_mutation_types.py:603-607 | the dictionary has exactly the files of the group, each with its edits in the order of the group |
| `Batching.EditsOfOrigin` | scripts/check_mutation_types.py:606 | each edit has the start, the end and the replacement of a mutation of its file |
| `Batching.EditListed` | scripts/check_mutation_types.py:606 | and each mutation has its edit there |
| `Batching.PeacefulIsSeparate` | scripts/check_mutation_types.py:582-584 | mutations that may share a batch can be spliced together if and only if no two of them begin together in one file |
| `Batching.ResolvedStartsDiffer` | scripts/check_mutation_types.py:582-584 | anchors that are found once never do so, unless the file is empty |
| `Batching.EmptyFileIsWritten` | scripts/check_mutation_types.py:506-514 | into an empty file the replacements are written one behind the other, in the order of the strings |
| `Batching.BatchIsSequential` | scripts/check_mutation_types.py:492-518 | for every batch that `batched` makes in which no two mutations of a file begin together, writing it in one pass is writing it mutation by mutation in any order |
| `Attribution.StartTableIsLineTable` | scripts/check_mutation_types.py:636-638 | the table of line starts is the true map from offsets to lines |
| `Attribution.SpliceKeeps` | scripts/check_mutation_types.py:506-514 | text outside the anchors survives, moved by what was inserted before it |
| `Attribution.SpliceLength` | scripts/check_mutation_types.py:506-514 | lengths add up |
| `Attribution.SpliceHolds` | scripts/check_mutation_types.py:625-630 | every replacement stands verbatim where it was noted |
| `Attribution.RebuildOrder` | scripts/check_mutation_types.py:625 | `attribute` splices in the order `apply` does exactly when mutations that begin together are listed in tuple order |
| `Attribution.Rebuild` | scripts/check_mutation_types.py:622-632 | the loop rebuilds the spliced text and notes the span of each replacement |
| `Attribution.LineStarts` | scripts/check_mutation_types.py:636-638 | the loop fills the table of line starts of the rebuilt text |
| `Attribution.MeetsIsTouches` | scripts/check_mutation_types.py:645-649 | the comparison of a span with a line holds exactly when a character of the span is on that line of the text |
| `Attribution.Hits` | scripts/check_mutation_types.py:639-649 | the inner loops collect the spans that some reported line of the file meets, and no other |
| `Attribution.RebuiltIsWritten` | scripts/check_mutation_types.py:622-632 | the text rebuilt for a batch is the text `apply` writes |
| `Attribution.ReplacementLands` | scripts/check_mutation_types.py:625-630 | in a file whose edits are separate each mutation stands in the written text at a place told by the growth before it |
| `Attribution.SpanOf` | scripts/check_mutation_types.py:625-630 | each noted span is the place of its mutation in the rebuilt text, empty anchors at one place included, and the replacement stands there verbatim |
| `Attribution.FileHits` | scripts/check_mutation_types.py:639-650 | a span of a file is hit exactly when its mutation is named by one of the spots |
| `Attribution.AttributeFile` | scripts/check_mutation_types.py:621-650 | one turn of the outer loop finds exactly the mutations of one file that a spot names |
| `Attribution.ResolvedIsWritable` | scripts/check_mutation_types.py:622-632 | whatever may share a batch can be rebuilt, an empty file with several empty anchors included |
| `Attribution.BatchIsAttributable` | scripts/check_mutation_types.py:775-780 | every batch that `batched` makes of mutations that were found may be given to `attribute`, and in every file that is not empty the text it goes by is the one on disk |
| `Attribution.Attribute` | scripts/check_mutation_types.py:610-651 | a mutation is suspected exactly when some reported line of its file holds a character of its replacement in the rebuilt text |
| `Attribution.TiedAnchors` | scripts/check_mutation_types.py:625 | two empty anchors at one place share a batch; `apply` orders their replacements as strings, `attribute` as listed |
| `Attribution.TiedAnchorsMislead` | scripts/check_mutation_types.py:508 | there is a batch whose rebuilt text is not the text on disk |
| `Attribution.TiedIsRebuiltExactlyWhen` | scripts/check_mutation_types.py:506-514 | in an empty file the rebuilt text is the written one if and only if the replacements read alike as listed and in the order of the strings |
| `Attribution.BatchIsRebuiltExactlyWhen` | scripts/check_mutation_types.py:610-632 | for every batch that `batched` makes of mutations that were found, the text `attribute` goes by is the one on disk if and only if the file is not empty or that is so |
| `Bisection.BisectIsFaithful` | scripts/check_mutation_types.py:816-826 | the log of questions is what the oracle answered, in order |
| `Bisection.BisectAsksAboutParts` | scripts/check_mutation_types.py:821-823 | only parts of the failing group are compiled |
| `Bisection.BisectNamesRejected` | scripts/check_mutation_types.py:818-826 | every index named stands for a mutation that was compiled alone and refused, whatever the oracle |
| `Bisection.BisectIsExact` | scripts/check_mutation_types.py:816-826 | when single mutations are to blame the indices named are exactly the bad ones |
| `Bisection.CeilLog2IsLog` | scripts/check_mutation_types.py:820 | the number of halvings is the ceiling of the base-two logarithm |
| `Bisection.BisectCost` | scripts/check_mutation_types.py:816-826 | `b` bad mutations of `n` take at most `2 * b * ceil(log2 n)` compiles |
| `Ledger.OnceTwice` | scripts/check_mutation_types.py:654-813 | if two stretches of a sweep settle each of their mutations once, so do both in a row |
| `Ledger.OneDeed` | scripts/check_mutation_types.py:654-813 | a mutation settled once has exactly one deed: a passing compile of its batch, a refused compile of it alone, or a report without one |
| `Ledger.SoftlyMore` | scripts/check_mutation_types.py:692-696 | the soft complaints of a longer log are those of its parts |
| `Ledger.SoftlyIs` | scripts/check_mutation_types.py:695-696 | a key is softly blamed exactly when some compile but the control has diagnostics that do not count and they name a mutation filed under it |
| `Sweeping.Check` | scripts/check_mutation_types.py:690-697 | one compile, logged with its answer; the softly blamed are those before and exactly the mutations that its soft diagnostics name |
| `Sweeping.FaultExplains` | scripts/check_mutation_types.py:717-725 | the reason given is the first diagnostic that counts; without any, the first line that begins with error or holds a colon, a space and error, stripped; and without that, that there is none |
| `Sweeping.Singly` | scripts/check_mutation_types.py:699-729 | the mutation is verified and noted as interacting, or accused for the reason its own compile gives; nothing else changes |
| `Sweeping.MovesThenMoves` | scripts/check_mutation_types.py:654-813 | what a stretch of the sweep keeps - each item settled once, by one deciding compile or by none, nothing verified without a passing compile that held it, nothing noted as interacting that did not pass alone, nothing accused that was not refused alone for the reason given - is kept by two stretches in a row |
| `Sweeping.EachSingly` | scripts/check_mutation_types.py:797-798 | exactly the suspects are settled, each by one compile of its own, in order; when all of them are bad none is noted as interacting |
| `Sweeping.Suspects` | scripts/check_mutation_types.py:779-788 | the suspects are exactly the mutations that attribution names, and only when it names none, at the cost of a note, those that halving finds; a batch with a bad mutation never ends with none |
| `Sweeping.SettleBatch` | scripts/check_mutation_types.py:775-799 | a passing batch is verified whole by one compile; of a failing one exactly the mutations that attribution names are compiled alone, in order, and the others go back in their order; when it names none, those that halving finds, or the batch is reported unattributed, which never happens when single mutations are to blame |
| `Sweeping.Round` | scripts/check_mutation_types.py:774-799 | a round settles at least one pending mutation and returns the others in the order of the batches, each still pending once, and only good ones when attribution is exact; if nothing is refused it compiles each batch once, in order, and leaves nothing |
| `Sweeping.GiveUp` | scripts/check_mutation_types.py:765-772 | past sixty rounds every pending mutation is reported, and the note says how many |
| `Sweeping.Rounds` | scripts/check_mutation_types.py:761-810 | the rounds end with everything settled; the guard for a round that settles nothing is unreachable; when attribution names exactly the bad mutations of each refused batch two rounds are enough, however many mutations there are |
| `Sweeping.IsComplete` | scripts/check_mutation_types.py:654-813 | a finished sweep has settled every item once, verified and broken are disjoint when keys are, every verdict rests on a compile, each accusation with the reason that compile gave, whatever is reported without one makes the run refuse, and a `solo` item is verified only by a compile of its own |
| `Sweeping.EachDecidedOnce` | scripts/check_mutation_types.py:654-813 | a mutation listed once is decided by exactly one compile of the sweep, its passing batch or itself refused alone, or reported as unchecked, never two of these |
| `Sweeping.IsRight` | scripts/check_mutation_types.py:654-813 | when single mutations are to blame no bad one is verified, every bad one is reported, and nothing good is reported unless the rounds ran out |
| `Sweeping.Sweep` | scripts/check_mutation_types.py:654-813 | all of this for the whole sweep, whatever attribution answers, and the soft set is what the compiles blame softly; a failing control compile ends it before anything is judged; a sweep in which nothing is refused compiles the control, each `solo` item and each batch once, in that order; and when attribution is exact it never gives up, says nothing, is exactly the split into good and bad and notes no mutation as interacting that was not |
| `Sweeping.ExactSplit` | scripts/check_mutation_types.py:654-813 | within the rounds the sweep is exactly the split into good and bad |
| `Recovery.PutBackIs` | scripts/check_mutation_types.py:545-552 | which bytes each file has after the loop of `recover` |
| `Recovery.SafeRecovers` | scripts/check_mutation_types.py:527-554 | from every state a kill can leave, recovery gives back every original byte, and refuses only a torn record |
| `Recovery.RecoveredOnce` | scripts/check_mutation_types.py:527-554 | recovering twice is recovering once |
| `Recovery.RecoveryRestoresExactlyWhen` | scripts/check_mutation_types.py:545-554 | on any disk with a readable record recovery restores the tree if and only if each file has its bytes in a named backup or was never changed |
| `Recovery.MissingBackupIsReportedOnce` | scripts/check_mutation_types.py:547-553 | a missing backup is reported, yet the record goes, so the next run starts on the edited tree without a word |
| `Recovery.Disk.Write` | scripts/check_mutation_types.py:516 | a write is done, not begun, or cut off in the middle; other files are untouched |
| `Recovery.Disk.WriteBackup` | scripts/check_mutation_types.py:500-501 | the same for a backup; other backups are untouched |
| `Recovery.Disk.WriteRecord` | scripts/check_mutation_types.py:502-505 | the same for the record, which may be torn |
| `Recovery.Disk.UnlinkRecord` | scripts/check_mutation_types.py:524 | the record is removed or it is still there |
| `Recovery.Recover` | scripts/check_mutation_types.py:527-554 | killed at any write, the tree stays recoverable; completed, every file has its original bytes and the record is gone unless it was torn |
| `Recovery.Tree.constructor` | scripts/check_mutation_types.py:469-474 | nothing has been read or written |
| `Recovery.Tree.Read` | scripts/check_mutation_types.py:476-490 | a file is read once; what is remembered are its original bytes, and its text with `\n` line ends and whether it had others |
| `Recovery.Tree.BackUp` | scripts/check_mutation_types.py:499-501 | every file of the batch has its original bytes on disk before anything else is written |
| `Recovery.Tree.Render` | scripts/check_mutation_types.py:507-517 | the bytes written for one file are those of its spliced text, its line ends put back |
| `Recovery.Tree.MutatedIsReadBackExactlyWhen` | scripts/check_mutation_types.py:484-517 | what was written reads back as the text with its edits unless an edit brings `\r\n` into a file without |
| `Recovery.Tree.MutatedIsDelivered` | scripts/check_mutation_types.py:484-517 | a file that had other line ends has them again at every newline of what is written, around the edits, and in any other file nothing but the edits is changed |
| `LineEnds.UneditedIsKeptExactlyWhen` | scripts/check_mutation_types.py:488-489 | reading and writing a file without an edit keeps it if and only if its line ends are of one kind, which is why the restore writes bytes |
| `LineEnds.PartedUndoesJoinedExactlyWhen` | scripts/check_mutation_types.py:489-516 | putting `\r\n` back undoes taking it out exactly when every newline had it |
| `LineEnds.JoinedIsSieved` | scripts/check_mutation_types.py:489 | taking line ends out drops every carriage return before a newline and no other character |
| `LineEnds.PartedHasOnlyPairs` | scripts/check_mutation_types.py:516 | after putting them back no newline is without one |
| `LineEnds.WrittenIsReadBackExactlyWhen` | scripts/check_mutation_types.py:515-516 | a written text is read back as it was exactly when it is given `\r\n` line ends or has none |
| `LineEnds.PartedKeepsLines` | scripts/check_mutation_types.py:515-516 | the file on disk has a newline for each one of the text before any place in it, so lines are numbered alike |
| `Recovery.Tree.WriteAll` | scripts/check_mutation_types.py:506-518 | files are written one after another; at each moment only files the record names differ from the original |
| `Recovery.Tree.Apply` | scripts/check_mutation_types.py:492-518 | backups, then the record, then the files: recoverable at every write, and completed exactly the batch is on the tree, each file with its edits and its own line ends |
| `Recovery.Tree.Restore` | scripts/check_mutation_types.py:520-524 | recoverable at every write, and completed the tree is the original one and no record is left |
| `Recovery.CheckBatch` | scripts/check_mutation_types.py:685-697 | the checker sees exactly the batch, each file with its edits and its own line ends; afterwards the tree is the original one |
| `Recovery.Collect` | scripts/check_mutation_types.py:902-907 | reading the sources of one checker remembers original bytes of everything that can be read |
| `Recovery.SweepTree` | scripts/check_mutation_types.py:685-697 | batch after batch, a kill anywhere leaves a recoverable tree, and completed the tree is the original one |
| `Recovery.Run` | scripts/check_mutation_types.py:944-1004 | recovery comes before anything is read, a refused recovery ends the run, and a run over both trees with one backup folder, killed anywhere, leaves a recoverable tree |
| `Recovery.Lifetime` | scripts/check_mutation_types.py:944-957 | after any number of runs, each killed anywhere, the next completed recovery leaves every file with its original bytes |
| `Caching.Todo` | scripts/check_mutation_types.py:987 | what is left to check are the items whose key is not known |
| `Caching.VerifiedIsRecorded` | scripts/check_mutation_types.py:1038-1042 | what a sweep verified had a passing compile in its log |
| `Caching.HeldPassIsGood` | scripts/check_mutation_types.py:978-985 | when single mutations are to blame, a mutation in a compile on record that passed on these sources is good |
| `Caching.HonestGrows` | scripts/check_mutation_types.py:1038-1042 | adding to an entry of the same fingerprint, or beginning a new one, keeps every stored key backed by a passing compile on record |
| `Caching.FaultMeansBad` | scripts/check_mutation_types.py:1019-1033 | a sweep over what is not known finds fault exactly when something in the group is bad |
| `Caching.IsEarned` | scripts/check_mutation_types.py:1031-1042 | what is newly filed passed in the compiles of this sweep, and what was to be checked and is not filed was refused in them, compiled alone |
| `Caching.EarnedIsHonest` | scripts/check_mutation_types.py:978-985 | what a turn files or keeps has passed in the sessions there were and those it made |
| `Caching.RunGroup` | scripts/check_mutation_types.py:978-1043 | one turn of the loop: the record grows by the compiles of this sweep and nothing else, each answered as the compiler did and of mutations not on file; killed between two of them it files nothing and the ones before stay on record; what is filed was earned by them or on file, with the old `solo` list and what the sweep noted; without fault every item has a passing compile on record, and with `--all` one of this very turn; nothing is compiled when all is on file, and with `--all` something always is |
| `Caching.StillAgrees` | scripts/check_mutation_types.py:985 | compiles made on these sources cannot make a true record false |
| `Caching.NoRefusal` | scripts/check_mutation_types.py:1019-1023 | a sweep that is not refused has settled everything it was given |
| `Caching.Gate` | scripts/check_mutation_types.py:925-1071 | exit 0 means every item of the chosen groups has a passing compile on record, of this run or an earlier one, under the current fingerprint, and of this run when all were to be checked or the cache could not be read or is of another version; when single mutations are to blame, exit 0 if and only if all are good, all anchors resolve and there is something to check |
| `Caching.Ages` | scripts/check_mutation_types.py:829-845 | over any sequence of runs, each finished or killed during a sweep or at a write, with sources, tables, groups and flags of their own: every stored key has a passing compile on record under the stored fingerprint, every compile on record was made by one of the runs, and every run that ended with 0 had by then a passing compile on record for each mutation it was asked about, its own when it was to check all |
| `Caching.Again` | scripts/check_mutation_types.py:986-999 | a run that succeeded, repeated on the same sources, compiles nothing, changes nothing and succeeds |
| `Brackets.Closing` | scripts/check_view_after_await.py:285-297 | the loop answers what the stack says, or raises where a bracket does not fit |
| `Brackets.ScanPasses` | scripts/check_view_after_await.py:285-297 | properly nested text leaves the stack as it was |
| `Brackets.ScanIsNested` | scripts/check_view_after_await.py:285-297 | what the stack accepts is nested text, layer by layer |
| `Brackets.ClosingMeansNested` | scripts/check_view_after_await.py:282-297 | `closing` answers `k` if and only if the text from the bracket to `k` is one piece of round, square or curly brackets properly nested |
| `Brackets.ClosingPairs` | scripts/check_view_after_await.py:282 | whatever it answers is the closing character of the opening one |
| `Brackets.ErrorsExactlyWhen` | scripts/check_view_after_await.py:293-297 | it objects at `k` if and only if the text before `k` could have gone on to nest and with `k` can not, and it finds no end if and only if the whole text could |
| `Brackets.ClosingSpans` | scripts/check_view_after_await.py:285-297 | the bracket it finds is the first to come back to the height it began at |
| `Brackets.ParametersStart` | scripts/check_view_after_await.py:346-355 | the backward loop answers where its count comes back to zero |
| `Brackets.ForwardsAndBackwards` | scripts/check_view_after_await.py:344-355 | the backward count undoes `closing`; the other way round `closing` comes back or objects to the kind of a bracket in between |
| `Brackets.SpansAreLaminar` | scripts/check_view_after_await.py:285-297 | any two bracketed spans are nested or disjoint |
| `Brackets.ScopeOf` | scripts/check_view_after_await.py:505-507 | the scope found holds the offset, none that does is shorter and none before it as short |
| `Brackets.ShortestIsInnermost` | scripts/check_view_after_await.py:505-507 | among braced bodies it lies inside all others that hold the offset, so the innermost scope is one |
| `Blanking.Blank` | scripts/check_view_after_await.py:194-197 | a stretch is painted over with spaces, newlines spared; going past the end fails |
| `Blanking.FindQuoteEnd` | scripts/check_view_after_await.py:233-236 | the loop finds the end of a quoted string, two characters past a backslash |
| `Blanking.FindRegexEnd` | scripts/check_view_after_await.py:244-258 | the loop finds the end of a regular expression, slashes in a class skipped |
| `Blanking.TemplateText` | scripts/check_view_after_await.py:199-216 | template text is painted over up to the tick or `${`, where the depth is remembered |
| `Blanking.Turn` | scripts/check_view_after_await.py:220-278 | one turn of the loop paints and moves as the transition function says |
| `Blanking.Blanked` | scripts/check_view_after_await.py:179-279 | the whole scan succeeds exactly on the sources that do not break off after a backslash in a literal, writes a space for exactly what it marks and leaves every other character, and keeps length and every newline |
| `Blanking.ScanSparesNewlines` | scripts/check_view_after_await.py:179-279 | no newline is ever marked |
| `Blanking.CrashNeedsBackslash` | scripts/check_view_after_await.py:194-197 | only a source that ends in a backslash can raise the index error, from any place and state |
| `Blanking.BackslashIsFatal` | scripts/check_view_after_await.py:233-260 | from any place and state, a backslash behind a text is an index error if and only if the text ends inside a quoted string or a regular expression |
| `Blanking.OnlyLiteralsStayOpen` | scripts/check_view_after_await.py:219-279 | no other construct can be left open in that way |
| `Blanking.CrashesExactlyWhen` | scripts/check_view_after_await.py:179-279 | on every source: the index error is raised if and only if the source breaks off after a backslash in a quoted string or a regular expression |
| `Blanking.CutRegexCrashes` | scripts/check_view_after_await.py:244-260 | a regular expression cut off after a backslash does raise it |
| `Blanking.KeepsLines` | scripts/check_view_after_await.py:179-185 | every source that does not break off so is scanned to the end, and length and newlines are kept |
| `BlankingGrammar.TextStops` | scripts/check_view_after_await.py:199-216 | template text ends at the tick or `${` that follows it and not before |
| `BlankingGrammar.OnePasses` | scripts/check_view_after_await.py:219-279 | one construct of the grammar is marked as it should be and leaves the nesting as it was |
| `BlankingGrammar.TextPasses` | scripts/check_view_after_await.py:199-216 | a template literal with any holes in it is marked as it should be, to any depth |
| `BlankingGrammar.BlanksExactly` | scripts/check_view_after_await.py:179-279 | for every source printed from the grammar exactly the text of comments and literals is blanked |
| `BlankingGrammar.CutEscapeCrashes` | scripts/check_view_after_await.py:233-237 | behind every source printed from the grammar, a quoted string that breaks off after a backslash is an index error |
| `BlankingTails.TailIsBlanked` | scripts/check_view_after_await.py:220-279 | behind every source printed from the grammar, a comment or a literal that is never closed is blanked to the end of the source |
| `BlankingTails.BrokenStringEndsWithLine` | scripts/check_view_after_await.py:233-239 | a quoted string that its line leaves open ends with the line, and code goes on behind the newline |
| `BlankingRegex.WordIsTail` | scripts/check_view_after_await.py:272-275 | the word kept is the run of word characters that ends at the last character of code |
| `BlankingRegex.RegexStops` | scripts/check_view_after_await.py:246-258 | a regular expression ends at the first slash that is neither behind a backslash nor in a class, or else with its line |
| `BlankingRegex.SlashIsRead` | scripts/check_view_after_await.py:243-262 | behind any plain code a slash begins a regular expression, whose text is blanked to its end and no further, if and only if the last character that is no space is one of those that expect an operand, or the last word is `return`, `typeof` or `case`, or there is nothing before; otherwise the slash is code |
| `Comments.CodeOnly` | scripts/check_platform_arms.py:188-216 | the loop replaces exactly the masked characters by spaces |
| `Comments.WritePiece` | scripts/check_platform_arms.py:196-215 | one turn copies a literal or a character, or blanks a comment |
| `Comments.LiteralEnd` | scripts/check_platform_arms.py:199-201 | the loop finds the quote that ends a literal, escapes skipped |
| `Comments.WithoutComments` | scripts/check_writers.py:117-155 | the loop deletes exactly the masked characters |
| `Comments.SkipLine` | scripts/check_writers.py:149-152 | the inner loop drops the rest of the line |
| `Comments.CodeOnlyKeepsLines` | scripts/check_platform_arms.py:188-194 | length and newlines are kept on every text |
| `Comments.LiteralMask` | scripts/check_writers.py:134-143 | inside a literal the flags of one stripper are the jump of the other |
| `Comments.MasksAgree` | scripts/check_platform_arms.py:188-216 | the two strippers remove the same characters if and only if no block comment is met |
| `Comments.NoOpenerIsBlockFree` | scripts/check_writers.py:125-126 | a text without `/*` has none |
| `CommentsGrammar.BlockEndsExactlyAt` | scripts/check_platform_arms.py:206-211 | on every text a block comment ends behind the first star and slash, or with the text when there is none |
| `CommentsGrammar.CodeOnlyExactly` | scripts/check_platform_arms.py:188-216 | of every source made of code, literals, line and block comments exactly the comments are masked, to their ends and no further |
| `CommentsGrammar.WithoutCommentsExactly` | scripts/check_writers.py:117-155 | the other stripper masks exactly the comments if and only if none is a block comment |
| `CommentsGrammar.StrippersLeave` | scripts/check_platform_arms.py:188-216 | what comes out: spaces for the comments with newlines kept, or the text with its line comments gone |
| `Vlq.DecodeVlq` | scripts/check_bundle_share.py:85-98 | the loop with value and shift decodes digit by digit, least significant first, or fails on a character outside the alphabet |
| `Vlq.DecodeUndoesEncode` | scripts/check_bundle_share.py:85-98 | decoding undoes the Base64 VLQ encoding of section 6 of ECMA-426 for every list of integers |
| `Vlq.DecodeConcatenation` | scripts/check_bundle_share.py:85-98 | decoding a concatenation is concatenating what is decoded |
| `Vlq.DecodeAppend` | scripts/check_bundle_share.py:85-98 | whatever follows an encoding is decoded by itself |
| `Vlq.DecodeFailsExactlyWhen` | scripts/check_bundle_share.py:91 | decoding fails if and only if some character is outside the alphabet |
| `Vlq.CutNumberIsDropped` | scripts/check_bundle_share.py:94-97 | a number whose last digit is missing is dropped without a word |
| `BundleShare.ReadLine` | scripts/check_bundle_share.py:123-134 | columns add up within a line, source indices across lines |
| `BundleShare.CountLine` | scripts/check_bundle_share.py:136-148 | the loop gives every source what its stretches measure and leaves the rest unmapped |
| `BundleShare.Attribute` | scripts/check_bundle_share.py:101-150 | the whole count: per source, unmapped, and file length, or one of its errors |
| `BundleShare.GivenIsOwned` | scripts/check_bundle_share.py:141-147 | for a source, measuring stretches is counting the characters it owns |
| `BundleShare.UnmappedIsUnowned` | scripts/check_bundle_share.py:136-148 | unmapped are the characters nobody owns and the newline |
| `BundleShare.MeasuringIsCounting` | scripts/check_bundle_share.py:101-108 | the same over the whole file |
| `BundleShare.ShareCountsCharacters` | scripts/check_bundle_share.py:101-150 | the dictionary holds for each name the number of characters it owns |
| `BundleShare.LineIsConserved` | scripts/check_bundle_share.py:136-148 | a line is never counted short, and counted exactly if and only if its columns are in order and inside it |
| `BundleShare.TotalIsConserved` | scripts/check_bundle_share.py:120-148 | the same over all lines |
| `BundleShare.LinesCover` | scripts/check_bundle_share.py:110-111 | the lines and a newline each are the file and one more newline |
| `BundleShare.ShareIsConserved` | scripts/check_bundle_share.py:101-150 | with one line of mappings a line, sources and unmapped sum to the length plus one if and only if every line is in order |
| `BundleShare.SumAdds` | scripts/check_bundle_share.py:147 | adding to one source adds to the sum over all of them |
| `BundleText.LinesAreLines` | scripts/check_bundle_share.py:110 | the lines hold no newline, and with one between each two they are the file |
| `BundleText.LineIsResolved` | scripts/check_bundle_share.py:139-147 | each mapping is a stretch from its column with the name of the source it names, counted from the front or from the back |
| `BundleText.ShareIsWalked` | scripts/check_bundle_share.py:101-150 | for every file and every source map whose columns are in order: walking through the file and asking the map whose each character is gives the share of each source, and unmapped are the characters of nobody and one for each line of the map |
| `BundleText.ReadingFailsExactlyWhen` | scripts/check_bundle_share.py:146 | a printed source map is refused if and only if it names a source that is not there |
| `MappingText.SplitUndoesJoin` | scripts/check_bundle_share.py:120 | splitting at a separator undoes joining with it |
| `MappingText.PiecesAreRead` | scripts/check_bundle_share.py:123-134 | pieces printed as differences are read back as absolute columns and sources |
| `MappingText.LineIsRead` | scripts/check_bundle_share.py:122-134 | a printed line is read back whatever source was named before it |
| `MappingText.PrintedIsRead` | scripts/check_bundle_share.py:118-134 | printed mappings of any file are read back as what each line meant by itself: indices accumulate across lines, columns restart |
| `Cfg.ClassesAre` | scripts/check_mutation_anchors.py:140-168 | a space is one of the 29 characters Python knows as such, and a name character one of those in the pattern |
| `Cfg.SplitTop` | scripts/check_mutation_anchors.py:125-140 | the loop cuts at the commas outside brackets, drops a blank last piece and strips the rest |
| `Cfg.CutRecoversExactlyWhen` | scripts/check_mutation_anchors.py:127-137 | cutting undoes joining if and only if no piece has a comma at depth zero and each but the last ends at depth zero; brackets need not nest |
| `Cfg.CutUndoesJoin` | scripts/check_mutation_anchors.py:127-137 | so it does for pieces whose brackets nest |
| `Cfg.SplitRecoversArguments` | scripts/check_mutation_anchors.py:125-140 | the printed arguments are recovered, whatever their nesting and spacing, with a trailing comma or without |
| `Cfg.TargetOsMatches` | scripts/check_mutation_anchors.py:168 | the pattern matches exactly the texts it says and takes the name out |
| `Cfg.AtomIsRead` | scripts/check_mutation_anchors.py:161-171 | an atom is unknown if and only if it is outside the vocabulary, and otherwise means what it says |
| `Cfg.CombineMeans` | scripts/check_mutation_anchors.py:156-160 | combining the answers of the arguments is what the connective means |
| `Cfg.SpacedIsUnknown` | scripts/check_mutation_anchors.py:153-171 | a head with spaces before its bracket is neither a call nor a known atom |
| `Cfg.PrintIsRead` | scripts/check_mutation_anchors.py:143-171 | on every printed tree the reader says `None` exactly when some atom is outside the vocabulary or some head has a gap before its bracket, and otherwise the Boolean value; it fails exactly when some `not` that is read has no argument |
| `Cfg.ReadsWhatIsMeant` | scripts/check_mutation_anchors.py:152 | the same with spaces around it |
| `Cfg.StringsAreNotSkipped` | scripts/check_mutation_anchors.py:128-132 | a string with commas and brackets in it is cut like code, and can make the reader fail on a `not` that is not there |
| `CfgRead.JoinUndoesCut` | scripts/check_mutation_anchors.py:127-139 | whatever is cut, joining the pieces gives the text back |
| `CfgRead.AnswerHasTree` | scripts/check_mutation_anchors.py:143-171 | whenever the reader says a Boolean, the text is the print of a tree of known atoms |
| `CfgRead.SaysExactlyWhen` | scripts/check_mutation_anchors.py:143-151 | on every text: the reader says `v` if and only if the text is the print of a tree of known atoms that has the value `v` |
| `CfgRead.CalmTree` | scripts/check_mutation_anchors.py:168 | a tree whose values are names is passed over by a scan that allows only names between quotes, and only such a tree is |
| `CfgRead.AnswersExactlyKnown` | scripts/check_mutation_anchors.py:143-151 | `None` rather than a guess: of any predicate that Rust can write, with commas and brackets in its strings or not, the reader says a Boolean if and only if every atom is known, no head has a gap and every `not` has an argument, and then it is the right one |
| `PlatformArms.FindBalanced` | scripts/check_platform_arms.py:93-107 | the loop finds the end of the bracket, strings skipped |
| `PlatformArms.EveryNotIsFound` | scripts/check_platform_arms.py:147-152 | matches of `not(` do not overlap, so the argument of each is listed |
| `PlatformArms.EveryCallIsAMatch` | scripts/check_platform_arms.py:147-152 | nothing is listed but the argument of a `not(` with no word character before it |
| `PlatformArms.TargetsApart` | scripts/check_platform_arms.py:138 | matches of the `target_os` pattern do not overlap |
| `PlatformArms.EveryTargetIsFound` | scripts/check_platform_arms.py:138 | so the search that goes on behind each match finds them all |
| `PlatformArms.NamingIsEmpty` | scripts/check_platform_arms.py:161 | no negated argument is reported exactly when none names a platform |
| `PlatformArms.UnnamedIsConstant` | scripts/check_platform_arms.py:155-175 | a predicate that names no platform does not tell platforms apart |
| `PlatformArms.HoldsElsewhere` | scripts/check_platform_arms.py:155-175 | with no platform negated, a predicate that holds where it names nothing holds everywhere |
| `ArmText.BalancedPasses` | scripts/check_platform_arms.py:93-107 | matching passes over a text whose brackets outside strings nest |
| `ArmText.Locate` | scripts/check_platform_arms.py:147-152 | every part of a predicate stands in its text with no word character beside it |
| `ArmText.NegationIsSeen` | scripts/check_platform_arms.py:147-150 | a `not` of a predicate is seen where it stands if and only if nothing parts it from its bracket |
| `ArmText.EveryNegationIsFound` | scripts/check_platform_arms.py:147-152 | `calls` with `balanced` finds the argument of every such `not` |
| `ArmQuotes.WordCharsAre` | scripts/check_platform_arms.py:138 | a word character is a letter, a digit or an underscore of ASCII |
| `ArmText.ValueIsMatchedExactlyWhen` | scripts/check_platform_arms.py:138-142 | a pattern `key = "value"` matches exactly where this is written, with any spaces around the sign |
| `ArmQuotes.MentionedExactlyWhen` | scripts/check_platform_arms.py:139-142 | on every text: a name is found behind the pattern for strings if and only if somewhere it stands as a word behind an even number of quotes, or before none |
| `ArmQuotes.PlatformIsFoundExactlyWhen` | scripts/check_platform_arms.py:136-144 | on every text: exactly the platforms are found that a value names or a word so seen stands for |
| `ArmText.BareIsSeenExactlyWhen` | scripts/check_platform_arms.py:139 | a bare name of a predicate is seen in its place if and only if the quotes before it are even in number or none follows |
| `ArmText.FoundIsFound` | scripts/check_platform_arms.py:136-144 | wherever a predicate stands in a text, every platform that a value of it names, or a bare name so seen, is found there |
| `ArmText.NamedIsFound` | scripts/check_platform_arms.py:136-144 | the text of a predicate names every platform that is found of one of its atoms |
| `ArmText.EvenlyIsFound` | scripts/check_platform_arms.py:136-144 | when every value holds an even number of quotes, none for instance, every platform an atom stands for is found |
| `ArmText.NegationIsReportedExactlyWhen` | scripts/check_platform_arms.py:161 | the argument of a `not` is reported if and only if its text names a platform somewhere |
| `ArmText.UnnegatedHoldsEverywhere` | scripts/check_platform_arms.py:155-175 | what the lint is for: with no negated platform found, a predicate that holds on a platform its text does not name holds on every platform with the same other atoms, unless a `not` is parted from its bracket or quotes hide that platform or all that some `not` negates |
| `ArmText.EvenlyHoldsEverywhere` | scripts/check_platform_arms.py:155-175 | the same for every predicate whose values hold even numbers of quotes, for then nothing is hidden |
| `ArmText.EscapedQuotesHideNegation` | scripts/check_platform_arms.py:139 | for all values `v` and `w` without word characters, the lint passes `not(any(a = "v", unix, b = "w"))`, which names no Windows and, with nothing else set, holds there and not on Linux, if and only if `v` holds an odd number of escaped quotes |
| `ArmText.SpacedNotIsMissed` | scripts/check_platform_arms.py:150 | with any gap in it, `not (unix)` passes the lint, names no Windows, and holds there and not on Linux |
| `Descendants.Below` | scripts/installed_check.py:175-186 | on every table, circles included, the search ends with exactly the processes reached from the root, the root excluded, each once and behind the one that started it |
| `Descendants.SearchIsDone` | scripts/installed_check.py:175-186 | when the frontier is empty nothing reachable is missing and nothing unreachable was found |
| `Descendants.ClosedHoldsReached` | scripts/installed_check.py:175-186 | a set that holds the children of its members holds all that they reach |

## Left out

- Recovery.Tree.Apply: UTF-8 is a pair of parameters, and a file that is not UTF-8, where the source raises before anything is written, is not modelled.
- Recovery.Disk.Write: `write_newer` comes from a file that is not part of this model; it is a whole-file write that may be cut off anywhere, and file times are not modelled.
- Recovery.Listed: the files of a batch come in any order; the source sorts them and no statement needs it.
- Recovery.Run: `--self-test` and `--list` return before or without the protocol and are not modelled; the batches are any list, not the one the compiler's answers lead to; places of different base directories are taken to be different files.
- Recovery.Collect: relocating a table's path, sorting by group and finding anchors are not modelled; `Batching.Resolved` states what a found anchor is.
- Attribution.Attribute: `Path.as_posix` is a parameter; it speaks of the rebuilt text, and `Attribution.BatchIsRebuiltExactlyWhen` says when that is the one on disk.
- Sweeping.Sweep: the counters and lines that are only printed are not modelled.
- Sweeping.Check: applying and restoring the batch around a compile is `Recovery.CheckBatch`; here a compile is one answer of the oracle.
- Caching.Gate: fingerprints and keys are given; SHA-256 is taken to be injective, the JSON of the cache is either readable or not, and a write of it is whole or absent.
- Bisection.BisectCost: counts the compiles of the halving itself, not the compile that refused the group beforehand.
- BlankingGrammar.BlanksExactly: the grammar has no regular expressions, since telling one from a division is a guess in the source; `BlankingRegex.SlashIsRead` spells the guess out behind plain code only.
- Brackets.ScopeOf: the patterns that find functions, guards, loops and declarations (`functions_in`, `guard_spans`, `loop_bodies`, `declared_in`, `top_level_lets`, `owner_of`) are not modelled.
- Comments.MasksAgree: the two strippers differ on block comments by design.
- BundleShare.Attribute: a source with a zero count may or may not have a key in the dictionary; only counts are stated.
- MappingText.PrintedIsRead: the original line, column and name fields are carried but mean nothing here, as in the source.
- Cfg.PrintIsRead: atoms must have brackets that nest and no comma outside them; for the others `CfgRead.AnswersExactlyKnown` says when a Boolean is said, and whether the reader else says `None` or raises is shown by an example only.
- ArmText.UnnegatedHoldsEverywhere: quotes may hide neither the platform asked about nor all that a `not` negates, and no `not` may be parted from its bracket, as the two counterexamples show; word characters are those of ASCII.
- PlatformArms.Negated: the rest of `arm_problems`, its `compile_error!` guards and its test on `any`, is not modelled.
- The folds of `file_gates` and `gated_tests`, and `commands_that_write` in `check_writers.py`, would add easy members only.
- The gates on indexes, dates, workflows, audits and packaging, the fetch scripts, and everything that runs other programs or asks Windows.
