# Metafolder: verified models of its decision engines

Metafolder keeps metadata about files in a daemon and lets clients undo changes, tag
records, write queries, revert with file moves, share ignore presets, order a folder's
children, keep configuration under git, and back a repository up. This project models
the parts of that system that decide something, and proves what they promise:

- **Undo and redo** (`Undo.dfy`, `UndoRuns.dfy`): what the next undo or redo takes back
  is read off an append-only log in which reverts revert reverts. The single pass over
  the log computes the one solution of "undone exactly when some reverter is not", and
  over every run the two selections are the tops of an editor's two stacks.
- **Tags** (`Tags.dfy`, `TagVocab.dfy`, `TagAnswers.dfy`): answers about hierarchical
  tags with several parents and partitions. No run of answers leaves a record
  inconsistent or holding two positives one of which excludes the other.
- **Dates** (`Calendar.dfy`, `IsoText.dfy`, `Text.dfy`): the civil and day conversions are
  inverse over all integers, count the Gregorian calendar, and carry ISO-8601 text.
- **Queries** (`QueryIR.dfy`, `Dsl.dfy`, `DslGrammar.dfy`, `DslSound.dfy`, `DslPrint.dfy`,
  `DslParser.dfy`, `Osm.dfy`): the parser accepts exactly a grammar within the depth
  bound, reads back what is printed, and keeps its meaning; greedy ordered matching is
  optimal and can be resumed.
- **Ignore presets** (`Presets.dfy`), **tree names** (`TreeNames.dfy`), **positions**
  (`Order.dfy`, `OrderSpacing.dfy`, `Sorting.dfy`) and **timelines** (`Timeline.dfy`).
- **Coordinated revert** (`Disk.dfy`, `DiskSteps.dfy`, `RevertProtocol.dfy`,
  `RevertPlan.dfy`, `CoordinatedRevert.dfy`): files move between a tree and a trash between
  a start and a commit or an abort. Every change made to them is a step that undoes one of
  the operations, and no content is lost whatever fails.
- **Configuration** (`ConfigSync.dfy`) and **backups** (`Backup.dfy`, `Restore.dfy`):
  branches of a commit graph, and directories that a crash can leave in any state on the
  way.

Where the source updates things in place the model is a method or a class, proved
against functions and predicates on values; the laws are lemmas about those. Whatever the
operating system, the daemon, git, the clock or the user answers is chosen freely, so
every such method's contract holds for every answer, failures included; where nothing
fails that need not, it says exactly when the method succeeds.

Points where the code does less than a reader may expect, each with its exact condition:

- `crates/core/src/date.rs:92` casts the day to 32 bits, so a day number is accepted or
  refused by its value modulo 2^32 (`IsoText.FieldsAccepted`,
  `IsoText.OversizedDayAccepted`).
- `crates/core/src/metarecord.rs:168-228`: the shown text of a name reads back as its
  bytes exactly when the name is not UTF-8 and holds neither `%` nor U+FFFD
  (`TreeNames.RoundTripExactly`).
- `crates/daemon/src/backup.rs:133-142`: a backup run keeps a whole backup at `dest` or
  `dest.old` in every state it passes through exactly when it started with a whole one
  at `dest`. After a crash that left the only one at `dest.old`, the next run removes it
  before the new one is in place (`Backup.SafeExactlyFromWhole`).
- `crates/core/src/order.rs:106` adds one to the largest position without a check:
  items placed by metadata are above every earlier position exactly when that largest
  position is below the largest 64-bit integer (`Order.MetaSpacing`,
  `OrderSpacing.LargestPositionWraps`). Under a bound on the folder's own numbers no
  phase wraps or saturates and all promised distances hold
  (`OrderSpacing.SpacedWithHeadroom`).
- `crates/daemon/src/backup.rs:191-217` renames a store and then its write-ahead log, and
  does nothing where the store is not there. Restoring again leaves every log beside its
  store exactly when the interruption left none in use without it
  (`Restore.RestoreAgain`, `Restore.LogLeftBehind`).
- `crates/core/src/config_sync.rs:345-347` cleans the merge state up before it puts the
  files back. If the second fails, the next update sees a settled repository and commits
  what the merge wrote as the user's edits. What it commits is the user's exactly when no
  update failed in its merge or checkout since the files were last written, or left those
  very files (`ConfigSync.CommittedEditsAreTheUsers`, `ConfigSync.MarkersAreCommitted`).
- `crates/core/src/coordinated_revert.rs:450, 504, 512`: a start whose answer is lost is
  not aborted, and the result of an abort is not looked at. The lock is free after a run
  exactly when neither left it held, and a revert reported as not written is written
  exactly when the answer of its commit was lost (`RevertProtocol.ConclusionReleases`).
- `crates/core/src/trash.rs:630-742` copies and then deletes across filesystems, so a move
  that fails part-way leaves copies, one of them possibly torn. What tree and trash hold is
  what they held at the start and exactly these copies; a run conserves the contents exactly
  when none of its transfers left a copy of a file, as on one filesystem none does
  (`CoordinatedRevert.Session.Revert`, `DiskSteps.KeptExactly`, `DiskSteps.CopyLeftBeside`).
- `crates/daemon/src/backup.rs:203-215` looks only for a free name for the store, not for its
  logs. A log aside without its store is overwritten by the next one under its number, and a
  restore loses exactly what it overwrites so: nothing where every log aside is beside its
  store (`Restore.SetAsideLoses`, `Restore.ClearExactly`, `Restore.LooseLogIsOverwritten`).

## Model

| member | source | states |
|---|---|---|
| `Undo.NewestFirstSorts` | crates/core/src/undo.rs:170-176 | the read sorted by descending id holds the same operations |
| `Undo.PassSettles` | crates/core/src/undo.rs:170-184 | the one newest-first pass yields a set in which an operation is undone exactly when some reverter of it is not undone |
| `Undo.SettledUnique` | crates/core/src/undo.rs:165-184 | that equation has one solution on any log whose reverts are younger than what they revert |
| `Undo.Window` | crates/core/src/undo.rs:170-184 | the loops over the reverter index compute that solution |
| `Undo.Chain` | crates/core/src/undo.rs:141-155 | the labels of an operation from the innermost out, each once, each the parent of the one before, cut where a cycle closes |
| `Undo.UndoAnswer` | crates/core/src/undo.rs:77-213 | an undo names the newest operation that is no revert, not the watcher's by origin or type, not unlogged and not undone, unless the log's first operation is met before it |
| `Undo.RedoAnswer` | crates/core/src/undo.rs:229-251 | a redo names the newest revert of a change that is not the watcher's, not unlogged and not itself reverted, unless a standing change of the user is above it |
| `Undo.UndoSelect` | crates/core/src/undo.rs:198-213 | the scan answers that operation, with the labels it is in from the innermost out |
| `Undo.RedoSelect` | crates/core/src/undo.rs:229-251 | the scan answers the newest undo still in force with its labels, and none when a standing change comes first |
| `Undo.ReadOrderIrrelevant` | crates/core/src/undo.rs:120-138 | the order in which a log body lists its operations changes no answer |
| `UndoRuns.TwoStacks` | crates/core/src/undo.rs:170-251 | in every run of users' changes, writes by the watcher or unlogged as their fields tell, undos and redos, undo selects the top of the undo stack and redo that of the redo stack, and each selects nothing exactly when its stack is empty |
| `UndoRuns.StandingIsUndoStack` | crates/core/src/undo.rs:170-251 | the users' changes standing after a run are those on the undo stack |
| `UndoRuns.UndosThenRedosRestore` | crates/core/src/undo.rs:216-251 | k undos followed by k redos, the watcher writing anywhere between, restore both stacks and the standing changes |
| `UndoRuns.RunTracks` | crates/core/src/undo.rs:170-251 | the invariant behind the two stacks holds after every run |
| `UndoRuns.WindowedUndoIsExact` | crates/core/src/undo.rs:189-213 | an undo read off the newest n operations is the undo of the whole log whenever it answers |
| `UndoRuns.WindowedNoneIsFinal` | crates/core/src/undo.rs:158-163 | no answer from a read that came back short is no answer for the whole log |
| `TagPaths.AncestorIsParentOrAbove` | crates/core/src/tag.rs:52-59 | a proper ancestor of a path is its parent or an ancestor of its parent |
| `TagPaths.Ancestors` | crates/core/src/tag.rs:62-70 | climbing by parents lists exactly the ancestors, each once |
| `TagPaths.Descendants` | crates/core/src/tag.rs:73-75 | exactly the paths of the vocabulary below a path |
| `TagVocab.SuffixUnderEveryPath` | crates/core/src/tag.rs:116-128 | what is below one path of an entry is below all its paths |
| `TagVocab.AboveTransitive` | crates/core/src/tag.rs:282-315 | ancestry through every parent is transitive |
| `TagVocab.Acyclic` | crates/core/src/tag.rs:116-128 | no entry is above itself |
| `TagVocab.ExclusionNearlySymmetric` | crates/core/src/tag.rs:235-264 | if one tag excludes another, that one excludes it back unless it is implied by it |
| `TagVocab.AncestorsOf` | crates/core/src/tag.rs:282-292 | the paths above any path of the entry, each once |
| `TagVocab.DescendantsOf` | crates/core/src/tag.rs:295-305 | the paths below any path of the entry, each once |
| `TagVocab.WithAncestors` | crates/core/src/tag.rs:308-310 | the paths of the entry and those above it |
| `TagVocab.WithDescendants` | crates/core/src/tag.rs:313-315 | the paths of the entry and those below it |
| `TagVocab.ExcludedByPartitions` | crates/core/src/tag.rs:235-264 | exactly the paths at or below a sibling, under a partition, of a node at or above the tag, leaving out what the tag implies |
| `TagVocab.ExcludedPathIsExcludes` | crates/core/src/tag.rs:235-264 | the paths found name exactly the entries the tag excludes |
| `TagVocab.StringAboveIsAbove` | crates/core/src/tag.rs:282-292 | the paths found name exactly the entries above the tag |
| `TagVocab.StringBelowIsAbove` | crates/core/src/tag.rs:295-305 | the paths found name exactly the entries below the tag |
| `TagAnswers.EnsuredKeeps` | crates/core/src/tag.rs:336-366 | ensuring an entry keeps the vocabulary prefix-closed and closed under all paths, and changes no entry it had |
| `TagAnswers.TagBatch.EnsureEntry` | crates/core/src/tag.rs:336-366 | the entry, the grown vocabulary and the writes that create what was missing, outermost first |
| `TagAnswers.CreationsBuild` | crates/core/src/tag.rs:336-366 | those writes make exactly the entries that were missing, each a name without a slash at the top or below every path of the entry it is put under |
| `TagAnswers.TagBatch.RemoveRefs` | crates/core/src/tag.rs:378-390 | one removal for each tag named, and the references of any record after them |
| `TagAnswers.TagBatch.PlanAdd` | crates/core/src/tag.rs:455-468 | the writes of an Add turn any record into its rewrite |
| `TagAnswers.TagBatch.PlanDeny` | crates/core/src/tag.rs:469-480 | the writes of a Deny turn any record into its rewrite |
| `TagAnswers.TagBatch.PlanMixed` | crates/core/src/tag.rs:481-490 | the writes of a Mixed turn any record into its rewrite |
| `TagAnswers.RewriteAnswers` | crates/core/src/tag.rs:435-492 | mark by mark: Add has the tag and drops positives above it or excluded, negatives and mixed marks at or above it; Deny denies it and drops all marks below it, positives and mixed marks on it; Mixed marks it and drops positives at or below, negatives at or above; Remove drops that positive; nothing else changes |
| `TagAnswers.Plan` | crates/core/src/tag.rs:435-492 | the planned writes do exactly that to any record, mark by mark; Remove creates nothing, the others ensure the path, and the vocabulary stays well formed |
| `TagAnswers.AnswerKeepsSound` | crates/core/src/tag.rs:435-492 | one answer keeps every record consistent and exclusive over the vocabulary it grew |
| `TagAnswers.AnswersKeepSound` | crates/core/src/tag.rs:435-492 | so does every run of answers: no positive at or below a negative, no mixed at or above a positive, no negative at or above a mixed, no two positives one of which excludes the other |
| `TagAnswers.AddLosesNothing` | crates/core/src/tag.rs:455-468 | after Add the implied positives are those of the old positives not excluded, with the tag and its ancestors |
| `TagAnswers.DenyLosesNothing` | crates/core/src/tag.rs:469-480 | after Deny the implied negatives are the old ones with the tag and its descendants |
| `TagAnswers.AnswerTwice` | crates/core/src/tag.rs:435-492 | an answer given twice is the answer given once |
| `Calendar.CivilRoundTrip` | crates/core/src/date.rs:18-39 | every integer day gives a real date that converts back to it |
| `Calendar.DaysRoundTrip` | crates/core/src/date.rs:18-39 | every real date gives a day that converts back to it |
| `Calendar.CountsTheCalendar` | crates/core/src/date.rs:17-39 | the day after is the next date of the Gregorian calendar, month ends and leap years included |
| `Calendar.Epoch` | crates/core/src/date.rs:17-39 | day 0 is 1970-01-01 and only it |
| `Calendar.KeepsOrder` | crates/core/src/date.rs:32-39 | earlier dates have smaller days |
| `IsoText.FieldsAccepted` | crates/core/src/date.rs:86-107 | numbers are accepted exactly when the year is within 0 to 999999, the day modulo 2^32 makes a real date, and the time is one with a leap second allowed; no 64-bit step overflows |
| `IsoText.OversizedDayAccepted` | crates/core/src/date.rs:92 | a day larger than a real one by a multiple of 2^32 is no day of any month, and is accepted as the real one |
| `IsoText.FieldsRoundTrip` | crates/core/src/date.rs:43-49 | the parts of an instant made from a date and time are that date and time |
| `IsoText.IsoReads` | crates/core/src/date.rs:54-57 | the text of a date and time reads back as its numbers |
| `IsoText.AbbreviatedReads` | crates/core/src/date.rs:70-108 | a month or a day left out is 1, a time or its end left out is 0, a space may stand for the T, the Z may be missing and whitespace around is ignored |
| `IsoText.TextInFull` | crates/core/src/date.rs:54-57 | one instant's text, digit by digit |
| `IsoText.IsoRoundTrip` | crates/core/src/date.rs:54-108 | the text of an instant reads back as the instant rounded down to the second, 0 before the epoch |
| `Osm.FindsFirst` | crates/core/src/query.rs:215-235 | the search finds the first occurrence at or after an offset, and none only where there is none |
| `Osm.OccursMeans` | crates/core/src/query.rs:215-235 | a term occurs wherever it stands, the very end included |
| `Osm.OsmAdvance` | crates/core/src/query.rs:215-235 | the loop is the greedy advance |
| `Osm.GreedyIsOptimal` | crates/core/src/query.rs:215-235 | the greedy scan consumes the first k terms exactly when they embed in order without overlap |
| `Osm.OrderedMatchIsEmbedding` | crates/core/src/query.rs:238-241 | a string matches exactly when all terms embed in order without overlap |
| `Osm.ResumeIsScan` | crates/core/src/query.rs:203-235 | resuming on an extended string from a prefix's progress is scanning the extended string |
| `DslGrammar.TextParses` | crates/core/src/dsl.rs:445-528 | every text of the grammar within the depth bound parses to the query its syntax tree denotes, one beyond it is refused |
| `DslGrammar.SimpleParses` | crates/core/src/dsl.rs:584-881 | every simple predicate and call reads as itself whatever follows it, a bare uuid where nothing follows that makes it a field |
| `DslSound.ParserIsGrammar` | crates/core/src/dsl.rs:9-17 | a token list parses to a query exactly when a syntax tree within the depth bound spells it and denotes the query |
| `DslPrint.PrintedParses` | crates/core/src/dsl.rs:445-528 | the parenthesised form of any printable query within the depth bound parses, to its last token, to the query with one-operand And and Or unwrapped and Ors of uuid lists folded |
| `DslPrint.FoldKeepsMeaning` | crates/core/src/dsl.rs:463-485 | folding an Or of uuid lists into one list matches the same records |
| `DslPrint.NormalKeepsMeaning` | crates/core/src/dsl.rs:463-498 | unwrapping and folding match the same records under any valuation |
| `DslPrint.NormalTwice` | crates/core/src/dsl.rs:463-498 | a parsed form is its own normal form |
| `DslPrint.ParsedFormMeansTheQuery` | crates/core/src/dsl.rs:445-528 | what comes back from printing and parsing matches the same records as the query |
| `DslPrint.JoinedTermsSplit` | crates/core/src/query.rs:245-253 | terms joined by spaces split back into themselves |
| `QueryIR.TermsAreRuns` | crates/core/src/query.rs:243-247 | the terms of any text are its maximal runs without whitespace, in order |
| `DslGrammar.ArrowsRead` | crates/core/src/dsl.rs:584-881 | each arrow to a path reads as its traversal: one step, or any number with or without none |
| `DslGrammar.NestedRead` | crates/core/src/dsl.rs:510-581 | so do the arrows to a nested query, the `same` call and parentheses |
| `DslParser.Parser.ReadOrExpr` | crates/core/src/dsl.rs:445-461 | the nesting counter is restored and bounds the recursion |
| `DslParser.Parser.ReadOrInner` | crates/core/src/dsl.rs:463-485 | an or chain, folded where all operands are uuid lists |
| `DslParser.Parser.ReadAndExpr` | crates/core/src/dsl.rs:487-498 | an and chain |
| `DslParser.Parser.ReadUnary` | crates/core/src/dsl.rs:500-508 | a run of nots |
| `DslParser.Parser.ReadAtom` | crates/core/src/dsl.rs:510-533 | the lookahead picks the same atom |
| `DslParser.Parser.ReadInCall` | crates/core/src/dsl.rs:584-615 | an in call with its optional trailing comma |
| `DslParser.Parser.ReadUuidInCall` | crates/core/src/dsl.rs:620-660 | a uuid_in call with its optional trailing comma |
| `DslParser.Parser.ReadSameCall` | crates/core/src/dsl.rs:666-683 | a same call and its nested query |
| `DslParser.Parser.ReadOsmCall` | crates/core/src/dsl.rs:707-750 | an osm or osmd call and the aspects it allows |
| `DslParser.Parser.ReadPredicate` | crates/core/src/dsl.rs:756-842 | a field predicate and its operator |
| `DslParser.Parser.ReadTarget` | crates/core/src/dsl.rs:844-864 | an arrow with a path or a nested query |
| `DslParser.ParseQuery` | crates/core/src/dsl.rs:9-17 | the parser that moves a position and a depth answers as the functional one on every token list |
| `Presets.Expand` | crates/core/src/ignore_presets.rs:62-72 | the recursion over shared output, seen set and stack answers as the functional walk |
| `Presets.Expansion.ExpandInto` | crates/core/src/ignore_presets.rs:75-98 | one preset's expansion, the stack left as found; it ends because the stack holds distinct known names |
| `Presets.ExpandsIffSound` | crates/core/src/ignore_presets.rs:62-98 | expansion succeeds exactly when every reachable preset exists and none lies on a cycle |
| `Presets.ExpansionIsReachablePatterns` | crates/core/src/ignore_presets.rs:62-98 | it then returns each pattern of the reachable presets exactly once, and no other |
| `Presets.FirstVisitOrder` | crates/core/src/ignore_presets.rs:62-98 | the patterns come in the order of their first visit |
| `Presets.OwnPatternsFirst` | crates/core/src/ignore_presets.rs:75-98 | a preset expands to its own patterns in their order, and then to what its members, as listed, expand to besides |
| `Presets.EarlierNamesFirst` | crates/core/src/ignore_presets.rs:62-72 | a list of names expands to what its beginning does and then to what the rest does besides |
| `Presets.ExpandFault` | crates/core/src/ignore_presets.rs:75-88 | an error names a reachable preset that is unknown or on a cycle |
| `Disk.RenameKeeps` | crates/core/src/coordinated_revert.rs:181-182 | a rename onto a free path changes no content |
| `Disk.GoneKeeps` | crates/core/src/trash.rs:630-742 | a transfer into the trash, by a rename or by a copy that may fail part-way, adds exactly the copies whose source is still there |
| `Disk.TrashKeeps` | crates/core/src/trash.rs:358-409 | trashing a path whole moves content and loses none |
| `Disk.ReturnKeeps` | crates/core/src/trash.rs:605-624 | putting a blob back, whole or part-way through a merge or a copy, adds exactly the copies whose source is still there |
| `DiskSteps.StepKeeps` | crates/core/src/trash.rs:577-742 | every change a run can make to tree and trash adds exactly the copies it leaves beside their sources |
| `DiskSteps.RunKeeps` | crates/core/src/trash.rs:577-742 | over any run of such changes, the contents at the end are those at the start and the copies left |
| `DiskSteps.KeptExactly` | crates/core/src/trash.rs:630-742 | a run conserves the contents exactly when no transfer left a copy of a file, which none does that removed all it copied |
| `DiskSteps.CopyLeftBeside` | crates/core/src/trash.rs:735-742 | one file, copied whole or in part and not removed, adds to the contents |
| `CoordinatedRevert.Session.TrashPath` | crates/core/src/trash.rs:358-409 | the blob moves before the entry is recorded, under a new identifier; a failure takes only from below the path and adds only to that blob, in at most one transfer; success leaves no copy; without faults it succeeds exactly where something is at the path |
| `CoordinatedRevert.Session.DecideMove` | crates/core/src/coordinated_revert.rs:129-196 | the policy for available or unavailable files decides: a skip changes nothing, an abort is an error; an occupant is trashed before the file is renamed over it, a directory there is left alone; kept only if the file was moved or was not there, left out only if a policy or a directory had it left |
| `CoordinatedRevert.Session.Restore` | crates/core/src/trash.rs:441-470 | a restore changes nothing that was in the tree; on success the whole blob is where it was trashed from, out of the trash, and no copy is left; every step is part of putting that blob back there; without faults it succeeds exactly where the entry is listed and its path free below directories, or both sides are directories and no file would be overwritten |
| `CoordinatedRevert.Session.RestoreMerge` | crates/core/src/trash.rs:561-624 | a blob is merged only where no file of either side would be overwritten |
| `CoordinatedRevert.Session.DecideDeleted` | crates/core/src/coordinated_revert.rs:214-274 | a step is kept only if a blob that took its metarecord was put back in this run; the only entry it puts back is the first that holds the content: the metarecord's own at the version before the label, else before the operation, or at any version for a whole metarecord, or another's whose subtree took it; left out only if no entry does or putting that one back failed, without faults because it could not be |
| `CoordinatedRevert.Session.Retrash` | crates/core/src/coordinated_revert.rs:302-338 | what is covered and what has no file is left alone; otherwise the file goes whole into a new entry with the captured nodes, which it covers |
| `CoordinatedRevert.Session.ToRetrash` | crates/core/src/coordinated_revert.rs:456-468 | exactly the trashings of the plan, by the slashes of their paths, shallowest first |
| `CoordinatedRevert.Session.RetrashAll` | crates/core/src/coordinated_revert.rs:456-471 | each file that was there went into an entry of this run; where captures list exactly what lies below, none is left and no entry lies inside another; without faults it succeeds |
| `RevertPlan.ByDepthSorts` | crates/core/src/coordinated_revert.rs:456-471 | the trashings are redone shallowest first, each once |
| `RevertPlan.SweepSends` | crates/core/src/coordinated_revert.rs:290-338 | redoing one more trashing in that order keeps what is covered recorded, what is gone inside an entry, and entries from lying inside each other |
| `RevertPlan.AllServedOn` | crates/core/src/coordinated_revert.rs:455-500 | steps taken for one more operation keep every step one that undoes some operation of the plan |
| `RevertPlan.CoveredIsGone` | crates/core/src/coordinated_revert.rs:298-301 | where captures list exactly what lies below, nothing covered has a file left |
| `CoordinatedRevert.Session.Act` | crates/core/src/coordinated_revert.rs:455-500 | the ids to apply are those of the operations kept, each decision with its warrant, every trashing was redone, every step was taken for an operation of the plan, and every entry put back was wanted by one |
| `CoordinatedRevert.Session.Coordinate` | crates/core/src/coordinated_revert.rs:449-516 | a start that is not accepted touches neither file nor trash; a started run ends in an accepted commit or in an abort, with nothing after an abort, and without faults aborts only where a policy, the user or the disk refused a move; of a commit each decision is warranted by the policies and what was done, and the entries put back were in the trash at the start, each put back once for an operation that wanted it at that version |
| `CoordinatedRevert.Session.Revert` | crates/core/src/coordinated_revert.rs:431-516 | whether the run commits, aborts or fails, its steps lead from the disk at the start to the disk at the end and each undoes an operation of the plan; the contents are those at the start and the copies failed transfers left, the same exactly when none left a file, as on one filesystem; a start not accepted changes nothing; a free lock is free again unless the run is stranded |
| `CoordinatedRevert.Session.RevertUnplanned` | crates/core/src/coordinated_revert.rs:406-423 | a revert asked for at once touches no file; where it is refused for a file action the coordinated one follows with the same calls, steps and warrant |
| `RevertProtocol.ConclusionReleases` | crates/core/src/coordinated_revert.rs:449-516 | a run begun on a free lock leaves it held exactly when its start was lost or its abort refused with the commit not written; what it reports as written is, and what it does not is written exactly when the answer of the commit was lost |
| `TreeNames.EscapeBytes` | crates/core/src/metarecord.rs:168-190 | the loop over valid runs and broken sequences escapes exactly the bytes no character holds |
| `TreeNames.EscapesInHex` | crates/core/src/metarecord.rs:183-185 | an escape is the percent sign and two upper-case hexadecimal digits |
| `TreeNames.EscapedToBytes` | crates/core/src/metarecord.rs:202-228 | the scan undoes the escapes, refusing text without one, a malformed one, one below 0x80, or U+FFFD |
| `TreeNames.RoundTripExactly` | crates/core/src/metarecord.rs:166-228 | the shown text reads back as the bytes exactly when they are not UTF-8 and hold neither % nor U+FFFD |
| `TreeNames.EscapedKeepsReplacement` | crates/core/src/metarecord.rs:202-205 | U+FFFD is in the text exactly when it is in the name |
| `TreeNames.ShownIsText` | crates/core/src/metarecord.rs:168-190 | what is shown is always UTF-8 |
| `TreeNames.CharIsEncoded` | crates/core/src/metarecord.rs:168-190 | bytes taken for a character are the UTF-8 of a code point that is no surrogate, in its one shortest form |
| `TreeNames.EncodedIsChar` | crates/core/src/metarecord.rs:168-190 | the UTF-8 of every such code point is taken for a character |
| `TreeNames.ShownApart` | crates/core/src/metarecord.rs:120-140 | two names that read back are never shown alike |
| `TreeNames.ShownAlike` | crates/core/src/metarecord.rs:129-131 | a name holding % can be shown as another one is |
| `TreeNames.FromNames` | crates/core/src/metarecord.rs:315-324 | the loop joins the names by slashes |
| `TreeNames.NamesOfJoined` | crates/core/src/metarecord.rs:315-376 | a non-empty list of slash-free names comes back from the path it makes |
| `TreeNames.JoinedNames` | crates/core/src/metarecord.rs:315-376 | every path is the path of its names |
| `TreeNames.SplitLast` | crates/core/src/metarecord.rs:381-391 | parent and last name make up the names of the path, nothing for the filesystem root |
| `Order.LastNumber` | crates/core/src/order.rs:64-78 | the scan finds the skeleton and the number of a name |
| `Order.NumberIsLastRun` | crates/core/src/order.rs:62-78 | the number is the last run of digits, where it fits 64 bits, and the skeleton what is around it |
| `Order.PlaceByMeta` | crates/core/src/order.rs:95-117 | items with metadata are as far from the lowest as their metadata, those that do not fit and all others stay as they were, and the maximum returned is the highest position there is |
| `Order.MetaSpacing` | crates/core/src/order.rs:95-117 | two of them differ as their metadata, and are above every earlier position exactly when there is room for one more |
| `Order.IsScattered` | crates/core/src/order.rs:144-150 | the smallest gap between neighbours exceeds the threshold exactly when every gap between different numbers does |
| `Order.Clusters` | crates/core/src/order.rs:119-167 | one cluster for each skeleton with two items or more, one unplaced, numbers not scattered; its anchor the lowest numbered placed member or else the lowest; anchored clusters first by position, the others in the order of their skeletons |
| `Order.InTurn` | crates/core/src/order.rs:165-167 | no unanchored cluster comes before an anchored one, and the unanchored come in the order of their skeletons |
| `Order.PlaceCluster` | crates/core/src/order.rs:168-185 | new members differ from the anchor as their numbers; an unanchored cluster starts right above the highest position placed |
| `Order.PlaceByName` | crates/core/src/order.rs:119-185 | all clusters in turn: nothing placed moves, each keeps its distances to the end, and each unanchored one starts right above the highest position before it |
| `Order.UnanchoredLiesAbove` | crates/core/src/order.rs:168-185 | with room left, an unanchored cluster lies above everything placed before it |
| `Order.PlaceByDate` | crates/core/src/order.rs:187-197 | the leftovers, older first, those without a date last, then by name, take consecutive positions above all others |
| `Sorting.PrecedesIsDictionary` | crates/core/src/order.rs:187-204 | by name: the beginning of the other, or smaller at the first difference |
| `Order.EveryItemOnce` | crates/core/src/order.rs:86-206 | every item ends with a position and one it had is never altered |
| `OrderSpacing.SpacedWithHeadroom` | crates/core/src/order.rs:82-206 | under a bound on positions, metadata, numbers and their count: metadata items differ as their metadata above every prior position, cluster members differ from their anchor as their numbers, an unanchored cluster lies above everything before it, leftovers are consecutive above all others, and each item is placed by the first phase that can |
| `OrderSpacing.LargestPositionWraps` | crates/core/src/order.rs:106 | beside an item at the end of the range one with metadata is placed at the other end |
| `OrderSpacing.AssignPositions` | crates/core/src/order.rs:89-206 | what is written is one position for each item that lacked one, the one it was placed at, by position and key, after the three phases, with all of that where there is headroom |
| `Sorting.SortSorts` | crates/core/src/order.rs:167-204 | sorting by an order on the elements leaves them in it |
| `Sorting.SortKeeps` | crates/core/src/order.rs:167-204 | sorting keeps every element as often as it was there |
| `Sorting.SortStable` | crates/core/src/order.rs:165-167 | elements the order does not tell apart stay as they were |
| `Timeline.Timeline.BeginCounted` | crates/core/src/slowlog.rs:193-214 | an occurrence is opened under the innermost one, its phase found or made at its first depth |
| `Timeline.Timeline.EndCounted` | crates/core/src/slowlog.rs:225-231 | everything opened at the token's depth or deeper is closed |
| `Timeline.Timeline.FinishCounted` | crates/core/src/slowlog.rs:246-252 | phases in order of first occurrence at its depth, each count the begins, each total the sum over its occurrences of stop minus start, 0 where that goes back, rounded once |
| `Timeline.TotalsAreDifferences` | crates/core/src/slowlog.rs:225-252 | in every run the totals are sums of plain differences: of times under a steady clock, of reads where those never go back |
| `Timeline.RunNested` | crates/core/src/slowlog.rs:169-257 | under a clock that never goes back every occurrence lies inside its enclosing one and after its earlier siblings |
| `Timeline.ChildrenFit` | crates/core/src/slowlog.rs:169-257 | what is opened directly inside an occurrence takes no longer than it |
| `Timeline.TimeIsNotCountedTwice` | crates/core/src/slowlog.rs:169-257 | what is opened at level 0 sums to at most the elapsed time, in every run |
| `Timeline.FirstsDistinct` | crates/core/src/slowlog.rs:195-211 | phase names are distinct |
| `ConfigSync.UpdateContinues` | crates/core/src/config_sync.rs:263-375 | an update keeps the old tips in the history, the user's files in a commit of `main` or in place, the shipped tree on `default`, and contains `default` exactly when it did not conflict; what it brings in is the shipped tree where `main` had nothing of its own, else what the merge of the two tips gave, and all of it is in the working tree |
| `ConfigSync.UpdateReports` | crates/core/src/config_sync.rs:296-374 | it reports edits committed, files brought in and conflicting paths exactly when there were |
| `ConfigSync.CutContinues` | crates/core/src/config_sync.rs:263-375 | an update cut short by any failing call to git keeps the history and the user's files, and leaves on `default` the old tip or what is shipped; before the merge or checkout begins it leaves the working tree alone |
| `ConfigSync.SecondUpdateIsNoop` | crates/core/src/config_sync.rs:296-306 | after an update without conflict the same update does nothing, whatever was edited since |
| `ConfigSync.ConflictIsMetAgain` | crates/core/src/config_sync.rs:334-353 | after a conflict `main` holds the user's files and the same update meets the same conflict and changes nothing |
| `ConfigSync.Checkout.Update` | crates/core/src/config_sync.rs:263-375 | whatever call to git fails, no commit leaves the history and the user's files are in place or committed; refused off `main` or mid-merge; where none fails, `main`, the working tree and the report are those of an update |
| `ConfigSync.WhoWroteLast` | crates/core/src/config_sync.rs:308-353 | the working tree is what a failed merge or checkout left of it, if one did since the user or a completed checkout wrote it, and otherwise theirs |
| `ConfigSync.CommittedEditsAreTheUsers` | crates/core/src/config_sync.rs:308-314 | in every run, what an update commits as user edits is the user's exactly when no update failed in its merge or checkout since, or left those very files |
| `ConfigSync.MarkersAreCommitted` | crates/core/src/config_sync.rs:344-347 | after a conflict whose merge state was cleaned up and whose files were not put back, the next update commits what the merge wrote |
| `ConfigSync.HistoryOnlyGrows` | crates/core/src/config_sync.rs:263-397 | in every run of updates, updates that fail part-way, edits and commits by hand each earlier tip of `main` is an ancestor of each later one |
| `ConfigSync.DefaultIsLastShipped` | crates/core/src/config_sync.rs:277-294 | in every run `default` holds what was last shipped, unless an update failed since |
| `Backup.Shelves.CopyStore` | crates/daemon/src/backup.rs:77-100 | copying touches neither `dest` nor `dest.old` |
| `Backup.Shelves.FinishBackup` | crates/daemon/src/backup.rs:104-144 | a copy that checks clean ends alone at `dest`; one that does not leaves the old backup where it was |
| `Backup.Shelves.WriteBackup` | crates/daemon/src/backup.rs:61-144 | started with a whole backup at `dest`, every state a crash can leave holds a whole one at `dest` or `dest.old`; each comes from the one before by writing or removing the copy, removing `dest.old`, or renaming a directory to where nothing is |
| `Backup.SafeExactlyFromWhole` | crates/daemon/src/backup.rs:133-142 | that holds of a clean run exactly when it started with a whole one at `dest` |
| `Restore.SetAsideMeans` | crates/daemon/src/backup.rs:191-217 | setting a store aside moves it and its logs to one number and touches no other name |
| `Restore.SetAsideLoses` | crates/daemon/src/backup.rs:203-215 | it loses exactly what it overwrites, logs aside under that number without their store |
| `Restore.ClearExactly` | crates/daemon/src/backup.rs:203-215 | nothing is lost exactly when no name a part moves to is taken, as where every log aside is beside its store |
| `Restore.LooseLogIsOverwritten` | crates/daemon/src/backup.rs:203-215 | a log aside alone is overwritten by the next log under its number |
| `Restore.Internal.SetAside` | crates/daemon/src/backup.rs:191-217 | the loop finds the first number no store is under and the renames do exactly that, one crash state after the other, losing exactly what they overwrite |
| `Restore.RestoreBackup` | crates/daemon/src/backup.rs:228-303 | the states it passes through form a chain of single renames and writes from the first to the last, from each of which the restore could be started again; done, the backup is in use under the repository's own configuration, the backup's where that was lost, and the stores are those before and it but for what was overwritten; where every log aside was beside its store no state loses a store and what was replaced is set aside whole |
| `Restore.CompletedMeans` | crates/daemon/src/backup.rs:286-302 | of a completed restore that overwrites nothing: the stores in use went aside whole and what was aside stays |
| `Restore.CompletedLogs` | crates/daemon/src/backup.rs:286-302 | after a completed restore every log is beside its store exactly when none was without one before |
| `Restore.CompletedLoses` | crates/daemon/src/backup.rs:286-302 | a completed restore loses exactly what its two settings aside overwrite |
| `Restore.RestoreAgain` | crates/daemon/src/backup.rs:219-227 | from any state an interrupted restore leaves, restoring again completes it, and every log is beside its store exactly when the interruption left none in use without it |
| `Restore.LogLeftBehind` | crates/daemon/src/backup.rs:208-215 | the interruption between the renames of a store and its log is such a state |
| `Restore.LogLeftBehindOnce` | crates/daemon/src/backup.rs:208-215 | so it is for a SQLite store with its log |

## Left out

- HTTP and JSON, the command line and graphical front ends, key bindings, scripts, authentication and fingerprints: plumbing around the decisions.
- The lexer of the query language: parsing starts from tokens, and a hexadecimal token is any text of hexadecimal digits.
- Parse error messages: told apart only as too deep or as a syntax error.
- Query evaluation in the daemon: predicates on fields are a free valuation of records.
- Value kinds a literal of the query language cannot write, and conversions between kinds.
- `Vocab::load` and the trimming of tag paths: a well-formed vocabulary and a trimmed path are inputs; the flags of entries do not change during a run, and new uuids are drawn from a counter.
- Undoing a whole label at once: each undo or redo reverts the one operation it selects.
- UndoRuns.WindowedUndoIsExact: says nothing about a windowed redo, which reads targets outside its window conservatively.
- Logs whose oldest operations were pruned.
- Osm.OsmAdvance: strings are bytes and lower-casing is a parameter; that a cut falls between characters is not modelled.
- Pruning and re-linking of trash entries.
- CoordinatedRevert.Session.RetrashAll: that a capture lists exactly what lies below its metarecord is a hypothesis where it is needed; what the daemon answers about a metarecord does not change while it holds the lock.
- Notes and hints shown to the user during a revert.
- The content merge of git, ignored files, and what a forced checkout leaves lying: parameters.
- Order.PlaceByMeta: the sum that can wrap around is modelled as wrapping, not as a panic.
- Counters of a timeline are unbounded except for the depth and the milliseconds; rendering, rotation and the log files are not modelled.
- Restore.RestoreBackup: names of stores set aside are a time, a number and a base, taken to be distinct as such; the reading and the check of a store are a given verdict.
- Size and duration parsing, hexadecimal, shell quoting, progress and documentation generation.
